/** The analytics report (JSON and CSV), the player profile and the
    dashboard's quick stats: match counts, totals, average kills and win
    rate, with the date-range filter of the JSON report. */
module Report {
  import opened Text
  import opened Records
  import opened Scoring

  /** The inclusive date bounds of the report; an empty bound (a missing or
      empty query argument) imposes nothing. */
  predicate InRange(r: StatRecord, start: string, end: string)
  {
    (start == "" || LexLe(start, r.date)) && (end == "" || LexLe(r.date, end))
  }

  /** `[r for r in records if r.date >= start]`, applied when `start` is set. */
  function FromDate(rs: seq<StatRecord>, start: string): seq<StatRecord>
  {
    if start == "" || rs == [] then rs
    else
      var last := rs[|rs| - 1];
      FromDate(rs[..|rs| - 1], start) + (if LexLe(start, last.date) then [last] else [])
  }

  /** `[r for r in records if r.date <= end]`, applied when `end` is set. */
  function UntilDate(rs: seq<StatRecord>, end: string): seq<StatRecord>
  {
    if end == "" || rs == [] then rs
    else
      var last := rs[|rs| - 1];
      UntilDate(rs[..|rs| - 1], end) + (if LexLe(last.date, end) then [last] else [])
  }

  /** `a` is `b` with some records left out, the rest in the same order. */
  predicate IsSubsequence(a: seq<StatRecord>, b: seq<StatRecord>)
    decreases |b|
  {
    if b == [] then a == []
    else
      (a != [] && a[|a| - 1] == b[|b| - 1] && IsSubsequence(a[..|a| - 1], b[..|b| - 1]))
      || IsSubsequence(a, b[..|b| - 1])
  }

  /** Keeps the records within the bounds, in order. */
  function KeepInRange(rs: seq<StatRecord>, start: string, end: string): seq<StatRecord>
  {
    if rs == [] then []
    else
      var last := rs[|rs| - 1];
      KeepInRange(rs[..|rs| - 1], start, end) + (if InRange(last, start, end) then [last] else [])
  }

  /** The kept records are a subsequence of the input: some left out, the
      rest in stored order. */
  lemma {:induction false} KeepInRangeIsSubsequence(rs: seq<StatRecord>, start: string, end: string)
    ensures IsSubsequence(KeepInRange(rs, start, end), rs)
  {
    if rs != [] {
      var init := rs[..|rs| - 1];
      var last := rs[|rs| - 1];
      KeepInRangeIsSubsequence(init, start, end);
      var kept := KeepInRange(rs, start, end);
      var keptInit := KeepInRange(init, start, end);
      if InRange(last, start, end) {
        assert kept == keptInit + [last];
        assert kept[..|kept| - 1] == keptInit && kept[|kept| - 1] == last;
      } else {
        assert kept == keptInit;
      }
    }
  }

  /** Every record within the bounds is kept as often as it is stored, and
      no other record is kept. */
  lemma {:induction false} KeepInRangeCount(rs: seq<StatRecord>, start: string, end: string, r: StatRecord)
    ensures multiset(KeepInRange(rs, start, end))[r] == if InRange(r, start, end) then multiset(rs)[r] else 0
  {
    if rs != [] {
      var init := rs[..|rs| - 1];
      assert rs == init + [rs[|rs| - 1]];
      KeepInRangeCount(init, start, end, r);
    }
  }

  /** Filtering by `end` after appending a record filters the record on its own. */
  lemma UntilDateSnoc(rs: seq<StatRecord>, r: StatRecord, end: string)
    ensures UntilDate(rs + [r], end) == UntilDate(rs, end) + (if end == "" || LexLe(r.date, end) then [r] else [])
  {
    assert (rs + [r])[..|rs|] == rs;
  }

  /** The two successive filters of `report_data` keep exactly the records
      inside both bounds, in stored order: a subsequence of the input holding
      every in-range record as often as the input does. */
  lemma {:induction false} DateFilterKeepsInRange(rs: seq<StatRecord>, start: string, end: string)
    ensures UntilDate(FromDate(rs, start), end) == KeepInRange(rs, start, end)
  {
    if rs != [] {
      var init := rs[..|rs| - 1];
      var last := rs[|rs| - 1];
      DateFilterKeepsInRange(init, start, end);
      var fromInit := FromDate(init, start);
      if start == "" || LexLe(start, last.date) {
        if start == "" {
          assert FromDate(rs, start) == rs == init + [last];
          assert FromDate(init, start) == init;
        }
        assert FromDate(rs, start) == fromInit + [last];
        UntilDateSnoc(fromInit, last, end);
      } else {
        assert FromDate(rs, start) == fromInit;
      }
    }
  }

  /** Bounds given in the wrong order (`start` after `end`) select nothing. */
  lemma {:induction false} ReversedBoundsKeepNothing(rs: seq<StatRecord>, start: string, end: string)
    requires start != "" && end != "" && !LexLe(start, end)
    ensures KeepInRange(rs, start, end) == []
  {
    if rs != [] {
      ReversedBoundsKeepNothing(rs[..|rs| - 1], start, end);
      var last := rs[|rs| - 1];
      if InRange(last, start, end) {
        LexLeTransitive(start, last.date, end);
      }
    }
  }

  /** A one-day range (`start == end`) selects exactly the records of that day. */
  lemma SingleDayRange(r: StatRecord, day: string)
    requires day != ""
    ensures InRange(r, day, day) <==> r.date == day
  {
    if InRange(r, day, day) {
      LexLeAntisymmetric(day, r.date);
    } else if r.date == day {
      LexLeReflexive(day);
    }
  }

  /** Any date splits the records: each one lies up to that date or from it. */
  lemma SplitAtDate(r: StatRecord, day: string)
    ensures InRange(r, "", day) || InRange(r, day, "")
  {
    LexLeTotal(r.date, day);
  }

  /** A bound that is a prefix of a stored date, such as the month `2024-05`
      for `2024-05-17`, admits that record as a start bound. */
  lemma PrefixStartAdmits(r: StatRecord, start: string)
    requires |start| <= |r.date| && r.date[..|start|] == start
    ensures InRange(r, start, "")
  {
    assert r.date == start + r.date[|start|..];
    LexLePrefix(start, r.date[|start|..]);
  }

  /** With neither bound set, the report looks at every record. */
  lemma {:induction false} NoBoundsKeepsAll(rs: seq<StatRecord>)
    ensures KeepInRange(rs, "", "") == rs
  {
    if rs != [] {
      NoBoundsKeepsAll(rs[..|rs| - 1]);
    }
  }

  /** `total_kills / matches`, 0 when there are no matches. */
  function AvgKills(kills: int, matches: nat): (avg: real)
    ensures matches == 0 ==> avg == 0.0
    ensures matches > 0 ==> avg * matches as real == kills as real
  {
    if matches > 0 then kills as real / matches as real else 0.0
  }

  /** `(total_booyah / matches) * 100`, 0 when there are no matches. */
  function WinRate(booyah: int, matches: nat): (rate: real)
    ensures matches == 0 ==> rate == 0.0
    ensures matches > 0 ==> rate * matches as real == 100.0 * booyah as real
  {
    if matches > 0 then (booyah as real / matches as real) * 100.0 else 0.0
  }

  /** When every match has a booyah count of 0 or 1 the win rate is a
      percentage; the handlers do not enforce that on input. */
  lemma WinRateIsPercentage(rs: seq<StatRecord>)
    requires forall i :: 0 <= i < |rs| ==> 0 <= rs[i].booyah <= 1
    ensures 0.0 <= WinRate(Sum(rs, Booyah), |rs|) <= 100.0
  {
    SumBounds(rs, Booyah, 0, 1);
    if |rs| > 0 {
      var b := Sum(rs, Booyah) as real;
      var m := |rs| as real;
      assert WinRate(Sum(rs, Booyah), |rs|) == (b / m) * 100.0;
      RatioInUnit(b, m);
    }
  }

  /** A non-negative ratio of a value to a larger positive one lies in [0, 1]. */
  lemma RatioInUnit(x: real, m: real)
    requires 0.0 < m && 0.0 <= x <= m
    ensures 0.0 <= x / m <= 1.0
  {
    assert x / m * m == x;
  }

  /** One row of the report: the fields of `report_data` and `report_csv`,
      the averages unrounded. */
  datatype Row = Row(name: string, matches: nat, kills: int, damage: int, avgKills: real, winrate: real)

  /** The row the report builds for `p` over the records `rs`: the match
      count, the kill and damage totals, and the rates, which are 0 without
      matches and otherwise the kill average and the booyah percentage. */
  function RowFor(p: User, rs: seq<StatRecord>): (row: Row)
    ensures row.name == p.username && row.matches == |rs|
    ensures row.kills == Sum(rs, Kills) && row.damage == Sum(rs, Damage)
    ensures |rs| == 0 ==> row.avgKills == 0.0 && row.winrate == 0.0
    ensures |rs| > 0 ==> row.avgKills * |rs| as real == row.kills as real
    ensures |rs| > 0 ==> row.winrate * |rs| as real == 100.0 * Sum(rs, Booyah) as real
  {
    var matches := |rs|;
    Row(p.username, matches, Sum(rs, Kills), Sum(rs, Damage),
        AvgKills(Sum(rs, Kills), matches), WinRate(Sum(rs, Booyah), matches))
  }

  /** The row both reports write for player `p` over `records`: the match
      count, the kill and damage totals, and the two rates. */
  method ReportRow(p: User, records: seq<StatRecord>) returns (row: Row)
    ensures row == RowFor(p, records)
  {
    var matches := |records|;
    var totalKills := Sum(records, Kills);
    var totalDamage := Sum(records, Damage);
    var totalBooyah := Sum(records, Booyah);
    var avgKills := AvgKills(totalKills, matches);
    var winrate := WinRate(totalBooyah, matches);
    row := Row(p.username, matches, totalKills, totalDamage, avgKills, winrate);
  }

  /** `report_data`: one row per active player over their records within the
      date bounds. */
  method ReportData(users: seq<User>, stats: seq<StatRecord>, start: string, end: string)
    returns (report: seq<Row>)
    ensures |report| == |ActivePlayers(users)|
    ensures forall i :: 0 <= i < |report| ==>
      var p := ActivePlayers(users)[i];
      report[i] == RowFor(p, KeepInRange(RecordsOf(p.id, stats), start, end))
  {
    var players := ActivePlayers(users);
    report := [];
    var i := 0;
    while i < |players|
      invariant 0 <= i <= |players|
      invariant |report| == i
      invariant forall j :: 0 <= j < i ==>
        report[j] == RowFor(players[j], KeepInRange(RecordsOf(players[j].id, stats), start, end))
    {
      var p := players[i];
      var all := RecordsOf(p.id, stats);
      var records := UntilDate(FromDate(all, start), end);
      DateFilterKeepsInRange(all, start, end);
      var row := ReportRow(p, records);
      report := report + [row];
      i := i + 1;
    }
  }

  /** `report_csv`: the same rows over all of each player's records. */
  method ReportCsv(users: seq<User>, stats: seq<StatRecord>) returns (rows: seq<Row>)
    ensures |rows| == |ActivePlayers(users)|
    ensures forall i :: 0 <= i < |rows| ==>
      var p := ActivePlayers(users)[i];
      rows[i] == RowFor(p, KeepInRange(RecordsOf(p.id, stats), "", ""))
  {
    var players := ActivePlayers(users);
    rows := [];
    var i := 0;
    while i < |players|
      invariant 0 <= i <= |players|
      invariant |rows| == i
      invariant forall j :: 0 <= j < i ==> rows[j] == RowFor(players[j], RecordsOf(players[j].id, stats))
    {
      var p := players[i];
      var row := ReportRow(p, RecordsOf(p.id, stats));
      rows := rows + [row];
      i := i + 1;
    }
    forall j | 0 <= j < |rows|
      ensures rows[j] == RowFor(players[j], KeepInRange(RecordsOf(players[j].id, stats), "", ""))
    {
      NoBoundsKeepsAll(RecordsOf(players[j].id, stats));
    }
  }

  /** `User.query.filter_by(username=name, role="player").first()`: the
      first player of that name, active or not. */
  function FindPlayer(users: seq<User>, name: string): (found: Option<User>)
    ensures found.None? <==> forall u :: u in users ==> !(u.username == name && u.role == "player")
    ensures found.Some? ==> found.value in users && found.value.username == name && found.value.role == "player"
  {
    if users == [] then None
    else if users[0].username == name && users[0].role == "player" then Some(users[0])
    else FindPlayer(users[1..], name)
  }

  /** What `player_profile` shows. */
  datatype Profile = Profile(player: User, matches: nat, kills: int, damage: int, winrate: real)

  datatype ProfileResult = PlayerNotFound | Found(profile: Profile)

  function PlayerProfile(users: seq<User>, stats: seq<StatRecord>, name: string): (r: ProfileResult)
    ensures r.PlayerNotFound? <==> forall u :: u in users ==> !(u.username == name && u.role == "player")
  {
    match FindPlayer(users, name)
    case None => PlayerNotFound
    case Some(p) =>
      var rs := RecordsOf(p.id, stats);
      Found(Profile(p, |rs|, Sum(rs, Kills), Sum(rs, Damage), WinRate(Sum(rs, Booyah), |rs|)))
  }

  /** With distinct usernames, the profile of a player shows the numbers of
      that player's row in the CSV report: the two views agree. */
  lemma ProfileAgreesWithReport(users: seq<User>, stats: seq<StatRecord>, p: User)
    requires forall i, j :: 0 <= i < j < |users| ==> users[i].username != users[j].username
    requires p in users && p.role == "player"
    ensures PlayerProfile(users, stats, p.username).Found?
    ensures var prof := PlayerProfile(users, stats, p.username).profile;
      var row := RowFor(p, RecordsOf(p.id, stats));
      prof.player == p && prof.matches == row.matches && prof.kills == row.kills
      && prof.damage == row.damage && prof.winrate == row.winrate
  {
    var found := FindPlayer(users, p.username);
    var i :| 0 <= i < |users| && users[i] == p;
    var j :| 0 <= j < |users| && users[j] == found.value;
    assert i == j;
  }

  /** The dashboard's quick stats of a player: total kills and match count. */
  datatype QuickStats = QuickStats(kills: int, matches: nat)

  /** `dashboard`: quick stats only for a user whose role is player, and then
      the kills and matches of their unfiltered report row. */
  function DashboardStats(u: User, stats: seq<StatRecord>): (q: Option<QuickStats>)
    ensures q.Some? <==> u.role == "player"
    ensures q.Some? ==>
      q.value.kills == RowFor(u, RecordsOf(u.id, stats)).kills && q.value.matches == RowFor(u, RecordsOf(u.id, stats)).matches
  {
    if u.role == "player" then
      var recs := RecordsOf(u.id, stats);
      Some(QuickStats(Sum(recs, Kills), |recs|))
    else None
  }

  /** A report over no records: no matches, no kills, and both rates 0. */
  lemma EmptyRow(p: User)
    ensures RowFor(p, []) == Row(p.username, 0, 0, 0, 0.0, 0.0)
  {
  }
}
