/** The leaderboard: per-player totals, the score formula, and the board
    sorted by score, highest first. */
module Scoring {
  import opened Records

  /** The leaderboard score `2*kills + 10*booyah + damage/100 + 0.5*survival`
      kept exactly, in hundredths of a point. */
  function ScoreHundredths(kills: int, booyah: int, damage: int, survival: int): (h: int)
    ensures h as real == 100.0 * ((kills * 2) as real + (booyah * 10) as real + damage as real / 100.0 + survival as real * 0.5)
  {
    200 * kills + 1000 * booyah + damage + 50 * survival
  }

  /** Raising one total while the others stay fixed never lowers the score. */
  lemma ScoreMonotone(k1: int, b1: int, d1: int, s1: int, k2: int, b2: int, d2: int, s2: int)
    requires k1 <= k2 && b1 <= b2 && d1 <= d2 && s1 <= s2
    ensures ScoreHundredths(k1, b1, d1, s1) <= ScoreHundredths(k2, b2, d2, s2)
  {
  }

  /** A player's score, computed from the column totals of their records. */
  function PlayerScore(rs: seq<StatRecord>): int
  {
    ScoreHundredths(Sum(rs, Kills), Sum(rs, Booyah), Sum(rs, Damage), Sum(rs, Survival))
  }

  /** What one match contributes to the score. */
  function RecordScore(r: StatRecord): int
  {
    ScoreHundredths(r.kills, r.booyah, r.damage, r.survival)
  }

  /** The match-by-match sum of contributions. */
  function SumOfRecordScores(rs: seq<StatRecord>): int
  {
    if rs == [] then 0 else SumOfRecordScores(rs[..|rs| - 1]) + RecordScore(rs[|rs| - 1])
  }

  /** Scoring the totals equals adding up the score of every match: the
      score is additive over a player's records. */
  lemma {:induction false} PlayerScoreIsSumOfRecordScores(rs: seq<StatRecord>)
    ensures PlayerScore(rs) == SumOfRecordScores(rs)
  {
    if rs != [] {
      PlayerScoreIsSumOfRecordScores(rs[..|rs| - 1]);
    }
  }

  /** A new match with non-negative columns never lowers its player's score. */
  lemma PlayerScoreGrows(rs: seq<StatRecord>, r: StatRecord)
    requires r.kills >= 0 && r.booyah >= 0 && r.damage >= 0 && r.survival >= 0
    ensures PlayerScore(rs + [r]) >= PlayerScore(rs)
  {
    assert (rs + [r])[..|rs|] == rs;
  }

  /** One row of the leaderboard. */
  datatype Entry = Entry(name: string, kills: int, booyah: int, damage: int, survival: int, score: int)

  /** `User.query.filter_by(role="player", active=True)`. */
  predicate IsActivePlayer(u: User)
  {
    u.role == "player" && u.active
  }

  /** The users the leaderboard and the report list, in stored order: the
      active players and nobody else. */
  function ActivePlayers(users: seq<User>): (ps: seq<User>)
    ensures |ps| <= |users|
    ensures forall u :: u in ps <==> u in users && IsActivePlayer(u)
  {
    if users == [] then []
    else
      var init := users[..|users| - 1];
      var last := users[|users| - 1];
      assert users == init + [last];
      ActivePlayers(init) + (if IsActivePlayer(last) then [last] else [])
  }

  /** The listed users are the active players, each exactly as often as the
      store holds it. */
  lemma {:induction false} ActivePlayersCount(users: seq<User>, u: User)
    ensures multiset(ActivePlayers(users))[u] == if IsActivePlayer(u) then multiset(users)[u] else 0
  {
    if users != [] {
      var init := users[..|users| - 1];
      assert users == init + [users[|users| - 1]];
      ActivePlayersCount(init, u);
    }
  }

  /** The entry `leaderboard` builds for player `p`. */
  function EntryFor(p: User, stats: seq<StatRecord>): (e: Entry)
  {
    var rs := RecordsOf(p.id, stats);
    Entry(p.username, Sum(rs, Kills), Sum(rs, Booyah), Sum(rs, Damage), Sum(rs, Survival), PlayerScore(rs))
  }

  /** The board before sorting: one entry per player, in the players' order. */
  function UnsortedBoard(players: seq<User>, stats: seq<StatRecord>): (b: seq<Entry>)
    ensures |b| == |players|
    ensures forall i :: 0 <= i < |players| ==> b[i] == EntryFor(players[i], stats)
  {
    if players == [] then []
    else UnsortedBoard(players[..|players| - 1], stats) + [EntryFor(players[|players| - 1], stats)]
  }

  /** Highest score first. */
  predicate SortedDesc(b: seq<Entry>)
  {
    forall i, j :: 0 <= i < j < |b| ==> b[i].score >= b[j].score
  }

  /** The entries of `b` whose score is `s`, in their order in `b`. */
  function WithScore(b: seq<Entry>, s: int): seq<Entry>
  {
    if b == [] then [] else (if b[0].score == s then [b[0]] else []) + WithScore(b[1..], s)
  }

  /** Places `e` in front of the first entry that does not beat it. */
  function InsertDesc(e: Entry, b: seq<Entry>): seq<Entry>
  {
    if b == [] || b[0].score <= e.score then [e] + b
    else [b[0]] + InsertDesc(e, b[1..])
  }

  /** `sorted(board, key=score, reverse=True)`: a stable sort, highest score
      first, entries with equal scores kept in their order in `b`. */
  function SortDesc(b: seq<Entry>): seq<Entry>
  {
    if b == [] then [] else InsertDesc(b[0], SortDesc(b[1..]))
  }

  /** Inserting adds `e` and nothing else. */
  lemma {:induction false} InsertDescPermutes(e: Entry, b: seq<Entry>)
    ensures multiset(InsertDesc(e, b)) == multiset([e] + b)
  {
    if b != [] && b[0].score > e.score {
      InsertDescPermutes(e, b[1..]);
      assert b == [b[0]] + b[1..];
    }
  }

  /** A bound on every score of the board and on `e` bounds every score after
      the insertion. */
  lemma {:induction false} InsertDescBounded(e: Entry, b: seq<Entry>, hi: int)
    requires e.score <= hi
    requires forall j :: 0 <= j < |b| ==> b[j].score <= hi
    ensures forall j :: 0 <= j < |InsertDesc(e, b)| ==> InsertDesc(e, b)[j].score <= hi
  {
    if b != [] && b[0].score > e.score {
      InsertDescBounded(e, b[1..], hi);
    }
  }

  /** Inserting into a sorted board keeps it sorted. */
  lemma {:induction false} InsertDescSorted(e: Entry, b: seq<Entry>)
    requires SortedDesc(b)
    ensures SortedDesc(InsertDesc(e, b))
  {
    if b != [] && b[0].score > e.score {
      var rest := InsertDesc(e, b[1..]);
      InsertDescSorted(e, b[1..]);
      InsertDescBounded(e, b[1..], b[0].score);
      var r := InsertDesc(e, b);
      assert r == [b[0]] + rest;
      forall i, j | 0 <= i < j < |r| ensures r[i].score >= r[j].score {
        assert r[j] == rest[j - 1];
        if i > 0 {
          assert r[i] == rest[i - 1];
        }
      }
    }
  }

  /** Inserting `e` puts it before every entry of equal score: the entries
      it passes all score higher. */
  lemma {:induction false} InsertDescWithScore(e: Entry, b: seq<Entry>, s: int)
    ensures WithScore(InsertDesc(e, b), s) == WithScore([e] + b, s)
  {
    if b != [] && b[0].score > e.score {
      var rest := InsertDesc(e, b[1..]);
      InsertDescWithScore(e, b[1..], s);
      assert ([b[0]] + rest)[1..] == rest;
      assert ([e] + b)[1..] == b;
      assert ([e] + b[1..])[1..] == b[1..];
      var tail := WithScore(b[1..], s);
      if e.score == s {
        assert WithScore(InsertDesc(e, b), s) == [e] + tail;
        assert WithScore([e] + b, s) == [e] + tail;
      } else {
        assert WithScore(rest, s) == tail;
      }
    }
  }

  /** The sort yields a board sorted highest score first, holding the same
      entries, in which equally scored entries keep their order. */
  lemma {:induction false} SortDescCorrect(b: seq<Entry>)
    ensures SortedDesc(SortDesc(b))
    ensures multiset(SortDesc(b)) == multiset(b)
    ensures |SortDesc(b)| == |b|
    ensures forall s :: WithScore(SortDesc(b), s) == WithScore(b, s)
  {
    if b != [] {
      SortDescCorrect(b[1..]);
      InsertDescSorted(b[0], SortDesc(b[1..]));
      InsertDescPermutes(b[0], SortDesc(b[1..]));
      assert b == [b[0]] + b[1..];
      assert |multiset(SortDesc(b))| == |multiset(b)|;
      forall s
        ensures WithScore(SortDesc(b), s) == WithScore(b, s)
      {
        InsertDescWithScore(b[0], SortDesc(b[1..]), s);
        assert ([b[0]] + SortDesc(b[1..]))[1..] == SortDesc(b[1..]);
      }
    }
  }

  /** The loop of `leaderboard`: for each player, the totals of their
      records and the score, one entry per player in the players' order. */
  method TotalsBoard(players: seq<User>, stats: seq<StatRecord>) returns (board: seq<Entry>)
    ensures board == UnsortedBoard(players, stats)
  {
    board := [];
    var i := 0;
    while i < |players|
      invariant 0 <= i <= |players|
      invariant |board| == i
      invariant forall j :: 0 <= j < i ==> board[j] == EntryFor(players[j], stats)
    {
      var p := players[i];
      var records := RecordsOf(p.id, stats);
      var totalKills := Sum(records, Kills);
      var totalBooyah := Sum(records, Booyah);
      var totalDamage := Sum(records, Damage);
      var totalSurvival := Sum(records, Survival);
      var score := ScoreHundredths(totalKills, totalBooyah, totalDamage, totalSurvival);
      board := board + [Entry(p.username, totalKills, totalBooyah, totalDamage, totalSurvival, score)];
      i := i + 1;
    }
  }

  /** `leaderboard`: totals and score for every active player, then the board
      sorted by score, highest first, ties in the players' stored order. */
  method Leaderboard(users: seq<User>, stats: seq<StatRecord>) returns (board: seq<Entry>)
    ensures |board| == |ActivePlayers(users)|
    ensures SortedDesc(board)
    ensures multiset(board) == multiset(UnsortedBoard(ActivePlayers(users), stats))
    ensures forall s :: WithScore(board, s) == WithScore(UnsortedBoard(ActivePlayers(users), stats), s)
  {
    var players := ActivePlayers(users);
    var unsorted := TotalsBoard(players, stats);
    board := SortDesc(unsorted);
    SortDescCorrect(unsorted);
  }
}
