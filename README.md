# TW-ESPORTS team manager — a Dafny model of its scoring and roster logic

TW-ESPORTS is a Flask application for a competitive gaming roster. Administrators
create player accounts, deactivate and restore them and switch them between
the player and viewer roles. Players submit match statistics with a screenshot
as proof and mark their attendance at practice. Everyone sees a leaderboard and
an analytics report. This project models the logic inside those request
handlers over an in-memory store, and proves what it computes.

- `text.dfy` (module `Text`): Python's `<=` on strings (dates are stored as
  `YYYY-MM-DD` text and filtered by comparing strings), `str.lower()` and
  `str.strip()`. The order is shown to be total, antisymmetric and transitive.
- `upload.dfy` (module `Upload`): `allowed_file`, the screenshot extension check.
  It accepts a name exactly when the text after its last dot, lower-cased, is
  png, jpg, jpeg or gif.
- `records.dfy` (module `Records`): the `User`, `Stats` and `Attendance` rows,
  the per-player column sums, and the cached best kills and damage.
- `scoring.dfy` (module `Scoring`): the leaderboard score, the list of active
  players, and the board sorted by score with a stable sort. The `Leaderboard`
  method is proved to return a board sorted highest score first. It is a
  permutation of the unsorted board, and equal scores keep the players' stored
  order.
- `report.dfy` (module `Report`): the JSON report with its inclusive date
  bounds, the CSV report, the player profile and the dashboard's quick stats.
  Average kills and win rate are exact rationals. Both are 0 when there are no
  matches.
- `store.dfy` (module `Store`): the class `TeamStore` holds the three tables as
  sequences. Its methods are the handlers that change them: `add_player`,
  `delete_player`, `restore_player`, `toggle_role`, `add_stats` and
  `join_practice`. Every method keeps the store invariant: ids and usernames
  are distinct; no player has two attendance rows for one day; every match
  record belongs to a stored user; and each user's `best_kills`/`best_damage`
  equals the largest kills/damage among their own records, or 0.

The score is `2*kills + 10*booyah + damage/100 + 0.5*survival` over a player's
totals. It is kept exactly in hundredths of a point, as
`200*kills + 1000*booyah + damage + 50*survival`. The contract of
`ScoreHundredths` ties this to the formula over the rationals.

In `app.py`, `booyah` is a plain integer count that is summed, the score uses
`10*booyah`, and match records are only ever added. So the best-stat cache
never needs recomputing: the invariant above holds because `add_stats` raises
the bests with each new record and nothing removes one.

## Model

| member | source | states |
|---|---|---|
| `Text.LexLe` | app.py:303-305 | Python's `<=` on `str`, the comparison of stored dates with the query bounds: lexicographic by code point, a prefix first (its properties are the lemmas below) |
| `Text.LexLeReflexive` | app.py:303-305 | every date is `<=` itself, so a bound equal to a record's date admits it |
| `Text.LexLeTotal` | app.py:302-305 | any two date strings are comparable under the string order the report filter uses |
| `Text.LexLeTransitive` | app.py:302-305 | the string order is transitive, so `start <= date <= end` chains |
| `Text.LexLeAntisymmetric` | app.py:302-305 | two strings each `<=` the other are equal |
| `Text.LexLePrefix` | app.py:302-305 | a string sorts no later than any extension of it |
| `Text.Lower` | app.py:191 | `str.lower()` on ASCII: same length, no upper-case letter left, each upper-case letter becomes its lower-case letter, and nothing else changes |
| `Text.Strip` | app.py:96-99 | the stripped form field is a substring of the input with only whitespace cut off on either side, and it neither starts nor ends with whitespace |
| `Text.StripAllSpace` | app.py:96-100 | a field of blanks only strips to the empty string, which `add_player` then refuses as missing |
| `Upload.AllowedFile` | app.py:188-191 | `allowed_file`: an accepted name has a dot and an extension of three or four characters (fully characterised by `AllowedFileIff`) |
| `Upload.Extension` | app.py:191 | `rsplit(".", 1)[1]` is the dot-free suffix that follows the last dot of the name |
| `Upload.ExtensionOfJoin` | app.py:191 | the extension of `stem + "." + ext` is `ext` for any dot-free `ext`, whatever dots the stem has |
| `Upload.ExtensionAfterLastDot` | app.py:191 | a dot with no dot after it is the one `rsplit(".", 1)` splits at |
| `Upload.AllowedFileIff` | app.py:188-191 | `allowed_file` holds iff the name has a dot at some position, the text after it has no dot, and that text lower-cased is png, jpg, jpeg or gif |
| `Upload.AllowedFileIgnoresCase` | app.py:191 | upper- and lower-case spellings of an extension are accepted alike |
| `Upload.AcceptsUpperCaseAfterLastDot` | app.py:190-191 | `a.b.PNG` is accepted |
| `Upload.RejectsNameWithoutDot` | app.py:190-191 | `png` (no dot) is refused |
| `Upload.RejectsTrailingExtension` | app.py:190-191 | `shot.png.exe` is refused: only the last extension counts |
| `Records.Sum` | app.py:267-270 | `sum(r.<column> for r in records)` over the records in stored order (its properties are `SumAppend` and `SumBounds`) |
| `Records.SumAppend` | app.py:267-270 | the column sums are additive over any split of the records |
| `Records.RecordsOf` | app.py:265 | a player's records all belong to that player and are no more than the stored records |
| `Records.RecordsOfCount` | app.py:265 | a player's records hold each stored record of theirs exactly as often as the table does, and nothing else |
| `Records.Best` | app.py:241-244 | the cached best is non-negative, at least every submitted value, and equal to one of them unless it is 0 |
| `Records.UpdateBest` | app.py:240-244 | after a submission each best is the larger of its old value and the submitted value, and no other user field changes |
| `Records.SubmitAllIsBest` | app.py:240-244 | submitting any sequence of matches from a fresh user leaves the bests equal to the maxima over those matches |
| `Scoring.ScoreHundredths` | app.py:272 | the integer score in hundredths equals 100 times `2*kills + 10*booyah + damage/100 + 0.5*survival` computed over the rationals |
| `Scoring.PlayerScore` | app.py:267-272 | a player's score is the score formula applied to the four column totals of their records |
| `Scoring.ScoreMonotone` | app.py:272 | raising any total with the others fixed never lowers the score |
| `Scoring.PlayerScoreIsSumOfRecordScores` | app.py:267-272 | scoring a player's totals equals adding up the scores of their individual matches |
| `Scoring.PlayerScoreGrows` | app.py:267-272 | a new match with non-negative columns never lowers its player's score |
| `Scoring.ActivePlayers` | app.py:260 | the listed users are exactly the stored users with role player and the active flag set |
| `Scoring.ActivePlayersCount` | app.py:260 | each active player is listed exactly as often as stored, and no one else is |
| `Scoring.EntryFor` | app.py:264-281 | the leaderboard entry of a player: their name, the four totals of their records and the score of those totals |
| `Scoring.UnsortedBoard` | app.py:262-281 | the board before sorting has one entry per listed player, in order, holding that player's sums and score |
| `Scoring.TotalsBoard` | app.py:262-281 | the loop over the players builds exactly the unsorted board: each player's totals and score, in the players' order |
| `Scoring.InsertDesc` | app.py:284 | one step of the stable sort: an entry goes in front of the first entry that does not score higher |
| `Scoring.SortDesc` | app.py:284 | `sorted(board, key=score, reverse=True)` as an insertion sort; its correctness is `SortDescCorrect` |
| `Scoring.SortDescCorrect` | app.py:283-284 | the stable sort yields a board sorted highest score first, a permutation of its input, in which entries of equal score keep their input order |
| `Scoring.Leaderboard` | app.py:256-286 | the leaderboard has one entry per active player, is sorted by score descending, is a permutation of the unsorted board, and keeps equal scores in the players' stored order |
| `Report.FromDate` | app.py:302-303 | the comprehension keeping the records with `start <= date`, applied only when `start` is set |
| `Report.UntilDate` | app.py:304-305 | the comprehension keeping the records with `date <= end`, applied only when `end` is set |
| `Report.KeepInRange` | app.py:302-305 | the single filter by both bounds that the two comprehensions are proved equal to |
| `Report.KeepInRangeIsSubsequence` | app.py:302-305 | the date-filtered records are a subsequence of the player's records |
| `Report.KeepInRangeCount` | app.py:302-305 | exactly the records with `start <= date` (when start is set) and `date <= end` (when end is set) are kept, each as often as stored |
| `Report.DateFilterKeepsInRange` | app.py:302-305 | the two successive list filters equal the single filter by both bounds |
| `Report.ReversedBoundsKeepNothing` | app.py:302-305 | with both bounds set and `start` after `end`, the report counts no match for anyone |
| `Report.SingleDayRange` | app.py:302-305 | with `start == end` set, a record is counted exactly when it is dated that day |
| `Report.SplitAtDate` | app.py:302-305 | every record falls within `end=day` or within `start=day` (or both, on that day) |
| `Report.PrefixStartAdmits` | app.py:302-303 | a `start` bound that is a prefix of a record's date, such as a month, admits that record |
| `Report.NoBoundsKeepsAll` | app.py:302-305 | with neither bound set every record is kept |
| `Report.AvgKills` | app.py:312-317 | with no matches the average is 0 and nothing is divided; otherwise average times matches equals total kills |
| `Report.WinRate` | app.py:312-317 | with no matches the win rate is 0; otherwise win rate times matches equals 100 times total booyah |
| `Report.WinRateIsPercentage` | app.py:314 | when each match's booyah is 0 or 1 the win rate lies between 0 and 100 |
| `Report.EmptyRow` | app.py:307-326 | a player with no matches in range gets 0 matches, 0 kills, 0 damage and both rates 0 |
| `Report.RowFor` | app.py:307-326 | a report row carries the player's name, the number of records, their kill and damage totals, both rates 0 without matches, and otherwise an average that times the matches gives the kills and a win rate that times the matches gives 100 times the booyahs |
| `Report.ReportData` | app.py:292-328 | one row per active player, in order, each holding the count, sums and rates of that player's records within the date bounds |
| `Report.ReportCsv` | app.py:333-349 | the CSV rows are the report rows over all records, as if no date bound were given |
| `Report.FindPlayer` | app.py:387-390 | the lookup finds a stored user with that name and role player, and finds nothing exactly when there is none |
| `Report.PlayerProfile` | app.py:385-399 | the profile is refused as not found exactly when no stored player has that name |
| `Report.ProfileAgreesWithReport` | app.py:392-399 | with distinct usernames, a player's profile shows the same matches, kills, damage and win rate as their unfiltered report row |
| `Report.DashboardStats` | app.py:78-83 | quick stats appear exactly for users with role player and equal the kills and match count of their unfiltered report row |
| `Store.FindById` | app.py:141 | the lookup by id finds a user with that id, and finds nothing exactly when none is stored |
| `Store.NextId` | app.py:119-120 | a newly inserted user gets an id larger than every stored id |
| `Store.ToggledRole` | app.py:171-172 | player becomes viewer, viewer becomes player, any other role is unchanged |
| `Store.ToggleTwice` | app.py:171-172 | toggling twice gives back the original role |
| `Store.ToggleUser` | app.py:170-172 | when the id names a stored player or viewer, exactly that user's role is toggled (player to viewer, viewer to player) and nothing else changes; otherwise the users are unchanged |
| `Store.ToggleUserTwice` | app.py:170-172 | toggling the same user twice gives back the users as they were, whether or not the user could be toggled |
| `Store.StoreInvariant` | models.py:11 | what the handlers keep true of the tables: distinct ids, distinct usernames (the unique column), one attendance row per player and day, every record owned by a stored user, and each user's bests equal to the maxima over their records |
| `Store.AddPlayerKeepsInvariant` | app.py:103-120 | inserting a player under a fresh id and an unused name, with bests 0, keeps the store invariant |
| `Store.RelabelKeepsInvariant` | app.py:141-177 | changing only roles or active flags keeps the store invariant |
| `Store.AddStatsKeepsInvariant` | app.py:228-246 | storing a match record together with the best-record update keeps every user's bests equal to the maxima over their records |
| `Store.JoinKeepsInvariant` | app.py:494-506 | adding an attendance row for a player and day not yet marked keeps at most one row per player and day |
| `Store.TeamStore.Valid` | app.py:88-246 | the store's state satisfies the store invariant; every handler requires it and re-establishes it |
| `Store.TeamStore.constructor` | app.py:33-43 | a new store holds only the bootstrap administrator, and no records or attendance |
| `Store.TeamStore.AddPlayer` | app.py:88-123 | a non-admin is denied; a blank stripped username or an empty password is rejected; a taken username is rejected; otherwise exactly one player row is appended with the stripped fields, defaults and a fresh id |
| `Store.TeamStore.DeletePlayer` | app.py:136-149 | a non-admin is denied; an active player is deactivated and nothing else changes; any other target leaves the store unchanged |
| `Store.TeamStore.RestorePlayer` | app.py:151-163 | a non-admin is denied; an inactive player is reactivated and nothing else changes; any other target leaves the store unchanged |
| `Store.TeamStore.ToggleRole` | app.py:165-177 | a non-admin is denied; a player or viewer has its role swapped and nothing else changes; any other target, admins included, is refused with the store unchanged |
| `Store.TeamStore.AddStats` | app.py:194-250 | viewers are denied; a missing date, an unparsable date, a missing screenshot and a disallowed file type are rejected in that order with the store unchanged; otherwise one record is appended and only the submitter's bests change, each to the larger of old and new; no best ever decreases |
| `Store.TeamStore.JoinPractice` | app.py:486-509 | viewers are denied; a second mark for the same day is rejected; otherwise one Present row is appended for today |
| `Store.ToggleTwiceRestores` | app.py:165-177 | an administrator toggling the same user twice leaves the users as they were |

## Left out

- Flask routing, templates, `flash`, `redirect`, `jsonify` and the CSV writer are left out. They are presentation and I/O. The handlers' messages appear only as the `Reason` values.
- Login sessions (`flask_login`) are left out. The acting user is passed as an id that must be stored, as `login_required` guarantees.
- Password hashing and checking (werkzeug) are left out because they are foreign library calls. `AddPlayer` and the constructor take the stored hash as a parameter, and `login` and `change_password` are not modelled.
- The file upload is left out: `uuid`, `secure_filename`, `file.save` and the upload folder. `AddStats` takes the uploaded file's name and the name it is stored under as parameters.
- `datetime.strptime` is left out because it is library behaviour. `AddStats` takes its outcome as a parameter: the normalised `YYYY-MM-DD` text, or None when parsing fails.
- `int()` conversion of the form fields is left out. The counts arrive as integers, and a malformed number (an unhandled error in the source) is not modelled.
- The clock is left out: `date.today()` is the `today` parameter of `JoinPractice`.
- SQLAlchemy queries, sessions and commits are left out. The tables are sequences in insertion order, and "no ORDER BY" is read as that order. Transactions and concurrent requests are not modelled, so neither are the races between concurrent requests: two `join_practice` requests can both find no row for the day and add two, and two `add_stats` requests from one user can each write back the best they read (app.py:241-244), leaving `best_kills`/`best_damage` below the largest value among that user's records, so the store invariant holds only for requests handled one at a time. Row ids of `stats` and `attendance` are not modelled because no modelled handler reads them; the unmodelled `my_stats`, `proofs` and `player_graph` order match records by id (app.py:367, 418, 473).
- `Scoring.ScoreHundredths`, `Report.AvgKills`, `Report.WinRate`: `round(x, 2)` and float arithmetic are not modelled. Values are exact. The leaderboard therefore sorts by the exact score, where the source sorts by the rounded float.
- `Text.Lower`: only ASCII letters are lower-cased. Python also lower-cases other letters; of those, only U+212A (Kelvin sign, giving `k`) and U+0130 (giving `i` followed by U+0307, so the result grows by a character) reach ASCII letters, and neither can turn an extension into png, jpg, jpeg or gif, so `allowed_file` decides the same.
- `Text.Strip`: only ASCII whitespace is stripped; Python also strips Unicode spaces.
- Nullable text columns left unset (the administrator's `ff_uid` and `player_role`) are modelled as empty strings, and a missing `start`/`end` query argument as the empty string, which Python treats alike.
- The default-admin bootstrap's environment lookups are left out. The constructor takes the administrator's name and hash.
- `config.py`, the `ActivityLog` and `Notification` tables, and other handlers are left out: `announcement`, `proofs`, `my_stats`, `player_graph`, `graphs`, `manage_players`, `view_attendance`, `edit_profile` and `logout`. They only store or copy fields, and have no behaviour beyond that.
