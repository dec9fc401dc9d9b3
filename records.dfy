/** The stored entities (the `User`, `Stats` and `Attendance` tables) and the
    per-player aggregates every view computes from a player's match records. */
module Records {

  /** A row of the `user` table. `passwordHash` is whatever the password
      hasher produced; it is never inspected. */
  datatype User = User(
    id: int,
    username: string,
    passwordHash: string,
    role: string,        // "admin", "player" or "viewer"
    ffUid: string,
    playerRole: string,  // Rusher / Sniper / Support, free text
    bestKills: int,
    bestDamage: int,
    active: bool)

  /** A row of the `stats` table: one submitted match. `date` is the stored
      `YYYY-MM-DD` text. */
  datatype StatRecord = StatRecord(
    playerId: int,
    date: string,
    kills: int,
    booyah: int,
    damage: int,
    survival: int,
    screenshot: string)

  /** A row of the `attendance` table. */
  datatype Attendance = Attendance(playerId: int, date: string, status: string)

  datatype Option<T> = None | Some(value: T)

  /** The four summed columns of a match record. */
  datatype Field = Kills | Booyah | Damage | Survival

  function Get(r: StatRecord, f: Field): int
  {
    match f
    case Kills => r.kills
    case Booyah => r.booyah
    case Damage => r.damage
    case Survival => r.survival
  }

  /** `sum(r.<f> for r in records)`. */
  function Sum(rs: seq<StatRecord>, f: Field): int
  {
    if rs == [] then 0 else Sum(rs[..|rs| - 1], f) + Get(rs[|rs| - 1], f)
  }

  /** Summing two batches of records separately and adding gives the sum of
      the whole batch: the totals do not depend on how the records are split. */
  lemma {:induction false} SumAppend(a: seq<StatRecord>, b: seq<StatRecord>, f: Field)
    ensures Sum(a + b, f) == Sum(a, f) + Sum(b, f)
    decreases |b|
  {
    if b != [] {
      assert (a + b)[..|a + b| - 1] == a + b[..|b| - 1];
      SumAppend(a, b[..|b| - 1], f);
    } else {
      assert a + b == a;
    }
  }

  /** Each column sum stays within the bounds of its entries. */
  lemma {:induction false} SumBounds(rs: seq<StatRecord>, f: Field, lo: int, hi: int)
    requires forall i :: 0 <= i < |rs| ==> lo <= Get(rs[i], f) <= hi
    ensures lo * |rs| <= Sum(rs, f) <= hi * |rs|
  {
    if rs != [] {
      var n := |rs| - 1;
      SumBounds(rs[..n], f, lo, hi);
      assert lo * |rs| == lo * n + lo && hi * |rs| == hi * n + hi;
    }
  }

  /** `Stats.query.filter_by(player_id=id).all()`: the records of one player,
      in stored order. */
  function RecordsOf(id: int, stats: seq<StatRecord>): (rs: seq<StatRecord>)
    ensures |rs| <= |stats|
    ensures forall i :: 0 <= i < |rs| ==> rs[i].playerId == id
  {
    if stats == [] then []
    else
      var init := stats[..|stats| - 1];
      var last := stats[|stats| - 1];
      assert stats == init + [last];
      RecordsOf(id, init) + (if last.playerId == id then [last] else [])
  }

  /** A player's records hold each of their stored records exactly as often
      as the store does. */
  lemma {:induction false} RecordsOfCount(id: int, stats: seq<StatRecord>, r: StatRecord)
    ensures multiset(RecordsOf(id, stats))[r] == if r.playerId == id then multiset(stats)[r] else 0
  {
    if stats != [] {
      var init := stats[..|stats| - 1];
      assert stats == init + [stats[|stats| - 1]];
      RecordsOfCount(id, init, r);
    }
  }

  /** The cached best value of a column: what `best_kills` / `best_damage`
      hold after starting at 0 and taking every submitted value that is
      greater. */
  function Best(rs: seq<StatRecord>, f: Field): (b: int)
    ensures b >= 0
    ensures forall i :: 0 <= i < |rs| ==> Get(rs[i], f) <= b
    ensures b == 0 || exists i :: 0 <= i < |rs| && Get(rs[i], f) == b
  {
    if rs == [] then 0
    else
      var prev := Best(rs[..|rs| - 1], f);
      var v := Get(rs[|rs| - 1], f);
      if v > prev then v else prev
  }

  /** The best-record update made on a match submission: each best only
      moves up to the submitted value, and no other field of the user
      changes. */
  function UpdateBest(u: User, kills: int, damage: int): (v: User)
    ensures v.bestKills >= u.bestKills && v.bestKills >= kills
    ensures v.bestKills == u.bestKills || v.bestKills == kills
    ensures v.bestDamage >= u.bestDamage && v.bestDamage >= damage
    ensures v.bestDamage == u.bestDamage || v.bestDamage == damage
    ensures v == u.(bestKills := v.bestKills, bestDamage := v.bestDamage)
  {
    var u1 := if kills > u.bestKills then u.(bestKills := kills) else u;
    if damage > u1.bestDamage then u1.(bestDamage := damage) else u1
  }

  /** Submitting the records `rs` one by one from user `u`. */
  function SubmitAll(u: User, rs: seq<StatRecord>): User
  {
    if rs == [] then u
    else UpdateBest(SubmitAll(u, rs[..|rs| - 1]), rs[|rs| - 1].kills, rs[|rs| - 1].damage)
  }

  /** Whatever a fresh player submits, the cached bests are exactly the
      largest submitted kills and damage (or 0): the cache agrees with the
      records it was built from. */
  lemma {:induction false} SubmitAllIsBest(u: User, rs: seq<StatRecord>)
    requires u.bestKills == 0 && u.bestDamage == 0
    ensures SubmitAll(u, rs).bestKills == Best(rs, Kills)
    ensures SubmitAll(u, rs).bestDamage == Best(rs, Damage)
    ensures SubmitAll(u, rs) == u.(bestKills := Best(rs, Kills), bestDamage := Best(rs, Damage))
  {
    if rs != [] {
      SubmitAllIsBest(u, rs[..|rs| - 1]);
    }
  }
}
