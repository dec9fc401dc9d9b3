/** The stored users, match records and attendance rows, and the handlers
    that change them: `add_player`, `delete_player`, `restore_player`,
    `toggle_role`, `add_stats` and `join_practice`. */
module Store {
  import opened Text
  import opened Upload
  import opened Records

  /** Why a request was turned away (the message it flashes). */
  datatype Reason =
    | MissingFields        // "Username and password are required."
    | UsernameTaken        // "Username already exists! Try another."
    | NotFoundOrInactive   // "Player not found or already inactive."
    | NotFoundOrActive     // "Player not found or already active."
    | CannotChangeRole     // "Player not found or cannot change role."
    | MissingDate          // "Please select a date."
    | InvalidDate          // "Invalid date format."
    | MissingScreenshot    // "Please select a screenshot file."
    | InvalidFileType      // "Invalid file type. Allowed: png, jpg, jpeg, gif."
    | AlreadyJoined        // "You already joined today!"

  datatype Outcome = Done | AccessDenied | Rejected(reason: Reason)

  predicate HasUser(users: seq<User>, id: int)
  {
    exists i :: 0 <= i < |users| && users[i].id == id
  }

  /** `db.session.get(User, id)`: the position of the user with that id. */
  function FindById(users: seq<User>, id: int): (found: Option<nat>)
    ensures found.None? <==> !HasUser(users, id)
    ensures found.Some? ==> found.value < |users| && users[found.value].id == id
  {
    if users == [] then None
    else if users[0].id == id then Some(0)
    else
      match FindById(users[1..], id)
      case None =>
        assert forall i :: 1 <= i < |users| ==> users[i] == users[1..][i - 1];
        None
      case Some(k) => Some(k + 1)
  }

  /** The user with that id. */
  function UserById(users: seq<User>, id: int): User
    requires HasUser(users, id)
  {
    users[FindById(users, id).value]
  }

  /** The id the database gives the next inserted user: one past the
      largest id in use. */
  function NextId(users: seq<User>): (id: int)
    ensures id >= 1
    ensures forall i :: 0 <= i < |users| ==> users[i].id < id
  {
    if users == [] then 1
    else
      var prev := NextId(users[..|users| - 1]);
      var last := users[|users| - 1].id + 1;
      if last > prev then last else prev
  }

  predicate NameTaken(users: seq<User>, name: string)
  {
    exists i :: 0 <= i < |users| && users[i].username == name
  }

  /** The row `add_player` inserts; the columns it leaves out take their
      defaults (bests 0, active). */
  function NewPlayer(id: int, username: string, passwordHash: string, ffUid: string, playerRole: string): User
  {
    User(id, username, passwordHash, "player", ffUid, playerRole, 0, 0, true)
  }

  /** `toggle_role`'s new role: player and viewer swap, any other role stays. */
  function ToggledRole(role: string): (r: string)
    ensures role == "player" ==> r == "viewer"
    ensures role == "viewer" ==> r == "player"
    ensures role != "player" && role != "viewer" ==> r == role
  {
    if role == "player" then "viewer" else if role == "viewer" then "player" else role
  }

  /** Toggling twice gives back the role toggled. */
  lemma ToggleTwice(role: string)
    ensures ToggledRole(ToggledRole(role)) == role
  {
  }

  /** Whether `toggle_role` changes the user with id `playerId`: there is
      one, and it is a player or a viewer. */
  predicate CanToggle(users: seq<User>, playerId: int)
  {
    var found := FindById(users, playerId);
    found.Some? && users[found.value].role in ["player", "viewer"]
  }

  /** The users after `toggle_role` on `playerId`. Only that user's role can
      change, administrators stay administrators, and ids, names and bests
      stay put. */
  function ToggleUser(users: seq<User>, playerId: int): (r: seq<User>)
    ensures SameKeys(users, r)
    ensures forall i :: 0 <= i < |users| ==> r[i] == users[i].(role := r[i].role)
    ensures forall i :: 0 <= i < |users| ==> (r[i].role == "admin" <==> users[i].role == "admin")
    ensures forall i :: 0 <= i < |users| && users[i].id != playerId ==> r[i] == users[i]
    ensures CanToggle(users, playerId) ==>
      var k := FindById(users, playerId).value;
      r[k].role == ToggledRole(users[k].role)
    ensures !CanToggle(users, playerId) ==> r == users
  {
    if CanToggle(users, playerId) then
      var k := FindById(users, playerId).value;
      users[k := users[k].(role := ToggledRole(users[k].role))]
    else users
  }

  /** Toggling the same user twice gives back the users as they were. */
  lemma ToggleUserTwice(users: seq<User>, playerId: int)
    ensures ToggleUser(ToggleUser(users, playerId), playerId) == users
  {
    var mid := ToggleUser(users, playerId);
    assert SameIds(users, mid);
    FindByIdSameIds(users, mid, playerId);
    if CanToggle(users, playerId) {
      var k := FindById(users, playerId).value;
      ToggleTwice(users[k].role);
      assert CanToggle(mid, playerId);
    } else {
      assert !CanToggle(mid, playerId);
    }
  }

  predicate IdsDistinct(users: seq<User>)
  {
    forall i, j :: 0 <= i < j < |users| ==> users[i].id != users[j].id
  }

  predicate UsernamesDistinct(users: seq<User>)
  {
    forall i, j :: 0 <= i < j < |users| ==> users[i].username != users[j].username
  }

  /** No two attendance rows share player and day. */
  predicate AttendanceUnique(rows: seq<Attendance>)
  {
    forall i, j :: 0 <= i < j < |rows| ==> !(rows[i].playerId == rows[j].playerId && rows[i].date == rows[j].date)
  }

  predicate Marked(rows: seq<Attendance>, playerId: int, day: string)
  {
    exists i :: 0 <= i < |rows| && rows[i].playerId == playerId && rows[i].date == day
  }

  /** Every match record belongs to a stored user. */
  predicate RecordsOwned(users: seq<User>, stats: seq<StatRecord>)
  {
    forall k :: 0 <= k < |stats| ==> HasUser(users, stats[k].playerId)
  }

  /** Each user's cached bests are the largest kills and damage among their
      own records, or 0 when none is larger. */
  predicate BestsCached(users: seq<User>, stats: seq<StatRecord>)
  {
    forall i :: 0 <= i < |users| ==>
      users[i].bestKills == Best(RecordsOf(users[i].id, stats), Kills)
      && users[i].bestDamage == Best(RecordsOf(users[i].id, stats), Damage)
  }

  /** What the handlers keep true of the store. */
  predicate StoreInvariant(users: seq<User>, stats: seq<StatRecord>, attendance: seq<Attendance>)
  {
    IdsDistinct(users) && UsernamesDistinct(users) && AttendanceUnique(attendance)
    && RecordsOwned(users, stats) && BestsCached(users, stats)
  }

  /** Records of another player do not change a player's records. */
  lemma RecordsOfSnoc(id: int, stats: seq<StatRecord>, r: StatRecord)
    ensures RecordsOf(id, stats + [r]) == RecordsOf(id, stats) + (if r.playerId == id then [r] else [])
  {
    assert (stats + [r])[..|stats|] == stats;
  }

  /** The best after one more record. */
  lemma BestSnoc(rs: seq<StatRecord>, r: StatRecord, f: Field)
    ensures Best(rs + [r], f) == if Get(r, f) > Best(rs, f) then Get(r, f) else Best(rs, f)
  {
    assert (rs + [r])[..|rs|] == rs;
  }

  /** A player with no records has no records of their own. */
  lemma {:induction false} RecordsOfNone(id: int, stats: seq<StatRecord>)
    requires forall k :: 0 <= k < |stats| ==> stats[k].playerId != id
    ensures RecordsOf(id, stats) == []
  {
    if stats != [] {
      RecordsOfNone(id, stats[..|stats| - 1]);
    }
  }

  /** Adding a fresh player (new id, unused name, bests 0) keeps the invariant. */
  lemma AddPlayerKeepsInvariant(users: seq<User>, stats: seq<StatRecord>, attendance: seq<Attendance>, u: User)
    requires StoreInvariant(users, stats, attendance)
    requires u.id == NextId(users) && !NameTaken(users, u.username)
    requires u.bestKills == 0 && u.bestDamage == 0
    ensures StoreInvariant(users + [u], stats, attendance)
  {
    AddPlayerKeepsKeys(users, u);
    AddPlayerKeepsBests(users, stats, u);
    AddPlayerKeepsOwned(users, stats, u);
  }

  lemma AddPlayerKeepsKeys(users: seq<User>, u: User)
    requires IdsDistinct(users) && UsernamesDistinct(users)
    requires u.id == NextId(users) && !NameTaken(users, u.username)
    ensures IdsDistinct(users + [u]) && UsernamesDistinct(users + [u])
  {
    var users' := users + [u];
    forall i, j | 0 <= i < j < |users'|
      ensures users'[i].id != users'[j].id && users'[i].username != users'[j].username
    {
      if j == |users| {
        assert users'[i] == users[i];
      } else {
        assert users'[i] == users[i] && users'[j] == users[j];
      }
    }
  }

  lemma AddPlayerKeepsBests(users: seq<User>, stats: seq<StatRecord>, u: User)
    requires RecordsOwned(users, stats) && BestsCached(users, stats)
    requires u.id == NextId(users) && u.bestKills == 0 && u.bestDamage == 0
    ensures BestsCached(users + [u], stats)
  {
    forall k | 0 <= k < |stats| ensures stats[k].playerId != u.id {
      assert HasUser(users, stats[k].playerId);
      var i :| 0 <= i < |users| && users[i].id == stats[k].playerId;
    }
    RecordsOfNone(u.id, stats);
    var users' := users + [u];
    forall i | 0 <= i < |users'|
      ensures users'[i].bestKills == Best(RecordsOf(users'[i].id, stats), Kills)
      ensures users'[i].bestDamage == Best(RecordsOf(users'[i].id, stats), Damage)
    {
      if i < |users| { assert users'[i] == users[i]; }
    }
  }

  lemma AddPlayerKeepsOwned(users: seq<User>, stats: seq<StatRecord>, u: User)
    requires RecordsOwned(users, stats)
    ensures RecordsOwned(users + [u], stats)
  {
    var users' := users + [u];
    forall k | 0 <= k < |stats| ensures HasUser(users', stats[k].playerId) {
      assert HasUser(users, stats[k].playerId);
      var i :| 0 <= i < |users| && users[i].id == stats[k].playerId;
      assert users'[i] == users[i];
    }
  }

  /** Users whose ids, names and bests agree position by position. */
  predicate SameKeys(users: seq<User>, users': seq<User>)
  {
    SameIds(users, users')
    && forall i :: 0 <= i < |users| ==>
      users'[i].bestKills == users[i].bestKills && users'[i].bestDamage == users[i].bestDamage
  }

  /** Changing only roles or active flags keeps the invariant. */
  lemma RelabelKeepsInvariant(users: seq<User>, users': seq<User>, stats: seq<StatRecord>, attendance: seq<Attendance>)
    requires StoreInvariant(users, stats, attendance)
    requires SameKeys(users, users')
    ensures StoreInvariant(users', stats, attendance)
  {
    forall k | 0 <= k < |stats| ensures HasUser(users', stats[k].playerId) {
      var i :| 0 <= i < |users| && users[i].id == stats[k].playerId;
      assert users'[i].id == stats[k].playerId;
    }
  }

  /** A submitted match and the best-record update made with it keep the
      cached bests equal to the maxima over the player's records. */
  lemma AddStatsKeepsInvariant(users: seq<User>, stats: seq<StatRecord>, attendance: seq<Attendance>, k: nat, r: StatRecord)
    requires StoreInvariant(users, stats, attendance)
    requires k < |users| && r.playerId == users[k].id
    ensures StoreInvariant(users[k := UpdateBest(users[k], r.kills, r.damage)], stats + [r], attendance)
  {
    var users' := users[k := UpdateBest(users[k], r.kills, r.damage)];
    assert SameIds(users, users');
    AddStatsKeepsBests(users, stats, k, r);
    AddStatsKeepsOwned(users, users', stats, r);
  }

  /** Users whose ids and names agree position by position. */
  predicate SameIds(users: seq<User>, users': seq<User>)
  {
    |users| == |users'|
    && forall i :: 0 <= i < |users| ==> users'[i].id == users[i].id && users'[i].username == users[i].username
  }

  lemma AddStatsKeepsBests(users: seq<User>, stats: seq<StatRecord>, k: nat, r: StatRecord)
    requires IdsDistinct(users) && BestsCached(users, stats)
    requires k < |users| && r.playerId == users[k].id
    ensures BestsCached(users[k := UpdateBest(users[k], r.kills, r.damage)], stats + [r])
  {
    var users' := users[k := UpdateBest(users[k], r.kills, r.damage)];
    var stats' := stats + [r];
    forall i | 0 <= i < |users'|
      ensures users'[i].bestKills == Best(RecordsOf(users'[i].id, stats'), Kills)
      ensures users'[i].bestDamage == Best(RecordsOf(users'[i].id, stats'), Damage)
    {
      var rs := RecordsOf(users[i].id, stats);
      RecordsOfSnoc(users[i].id, stats, r);
      if i == k {
        assert users'[i].id == users[i].id;
        assert RecordsOf(users[i].id, stats') == rs + [r];
        BestSnoc(rs, r, Kills);
        BestSnoc(rs, r, Damage);
      } else {
        assert users'[i] == users[i];
        assert users[i].id != users[k].id by {
          if i < k { assert users[i].id != users[k].id; } else { assert users[k].id != users[i].id; }
        }
        assert RecordsOf(users[i].id, stats') == rs;
      }
    }
  }

  lemma AddStatsKeepsOwned(users: seq<User>, users': seq<User>, stats: seq<StatRecord>, r: StatRecord)
    requires RecordsOwned(users, stats) && SameIds(users, users') && HasUser(users, r.playerId)
    ensures RecordsOwned(users', stats + [r])
  {
    var stats' := stats + [r];
    forall j | 0 <= j < |stats'| ensures HasUser(users', stats'[j].playerId) {
      assert HasUser(users, stats'[j].playerId);
      var i :| 0 <= i < |users| && users[i].id == stats'[j].playerId;
      assert users'[i].id == stats'[j].playerId;
    }
  }

  /** An attendance row for a player and day not yet marked keeps the rows
      unique. */
  lemma JoinKeepsInvariant(users: seq<User>, stats: seq<StatRecord>, attendance: seq<Attendance>, row: Attendance)
    requires StoreInvariant(users, stats, attendance)
    requires !Marked(attendance, row.playerId, row.date)
    ensures StoreInvariant(users, stats, attendance + [row])
  {
  }

  /** The in-memory store: the `user`, `stats` and `attendance` tables. */
  class TeamStore {
    var users: seq<User>
    var stats: seq<StatRecord>
    var attendance: seq<Attendance>

    ghost predicate Valid()
      reads this
    {
      StoreInvariant(users, stats, attendance)
    }

    /** A new store holding only the administrator created on first start;
        the name and password hash stand for the environment lookups. */
    constructor (adminName: string, adminPasswordHash: string)
      ensures Valid()
      ensures users == [User(1, adminName, adminPasswordHash, "admin", "", "", 0, 0, true)]
      ensures stats == [] && attendance == []
    {
      users := [User(1, adminName, adminPasswordHash, "admin", "", "", 0, 0, true)];
      stats := [];
      attendance := [];
    }

    /** `add_player`: an administrator creates a player account under an
        unused, non-blank name. */
    method AddPlayer(actorId: int, usernameField: string, password: string, ffUidField: string,
                     playerRoleField: string, passwordHash: string) returns (outcome: Outcome)
      requires Valid() && HasUser(users, actorId)
      modifies this
      ensures Valid()
      ensures stats == old(stats) && attendance == old(attendance)
      ensures UserById(old(users), actorId).role != "admin" ==> outcome == AccessDenied && users == old(users)
      ensures UserById(old(users), actorId).role == "admin" ==>
        var name := Strip(usernameField);
        if name == "" || password == "" then
          outcome == Rejected(MissingFields) && users == old(users)
        else if NameTaken(old(users), name) then
          outcome == Rejected(UsernameTaken) && users == old(users)
        else
          outcome == Done
          && users == old(users) + [NewPlayer(NextId(old(users)), name, passwordHash, Strip(ffUidField), Strip(playerRoleField))]
    {
      var actor := UserById(users, actorId);
      if actor.role != "admin" {
        return AccessDenied;
      }
      var username := Strip(usernameField);
      var ffUid := Strip(ffUidField);
      var playerRole := Strip(playerRoleField);
      if username == "" || password == "" {
        return Rejected(MissingFields);
      }
      if NameTaken(users, username) {
        return Rejected(UsernameTaken);
      }
      var player := NewPlayer(NextId(users), username, passwordHash, ffUid, playerRole);
      AddPlayerKeepsInvariant(users, stats, attendance, player);
      users := users + [player];
      outcome := Done;
    }

    /** `delete_player`: an administrator deactivates an active player;
        their records stay. */
    method DeletePlayer(actorId: int, playerId: int) returns (outcome: Outcome)
      requires Valid() && HasUser(users, actorId)
      modifies this
      ensures Valid()
      ensures stats == old(stats) && attendance == old(attendance)
      ensures UserById(old(users), actorId).role != "admin" ==> outcome == AccessDenied && users == old(users)
      ensures UserById(old(users), actorId).role == "admin" ==>
        var found := FindById(old(users), playerId);
        if found.Some? && old(users)[found.value].role == "player" && old(users)[found.value].active then
          outcome == Done && users == old(users)[found.value := old(users)[found.value].(active := false)]
        else outcome == Rejected(NotFoundOrInactive) && users == old(users)
    {
      var actor := UserById(users, actorId);
      if actor.role != "admin" {
        return AccessDenied;
      }
      var found := FindById(users, playerId);
      if found.Some? && users[found.value].role == "player" && users[found.value].active {
        var k := found.value;
        var users' := users[k := users[k].(active := false)];
        RelabelKeepsInvariant(users, users', stats, attendance);
        users := users';
        outcome := Done;
      } else {
        outcome := Rejected(NotFoundOrInactive);
      }
    }

    /** `restore_player`: an administrator reactivates an inactive player. */
    method RestorePlayer(actorId: int, playerId: int) returns (outcome: Outcome)
      requires Valid() && HasUser(users, actorId)
      modifies this
      ensures Valid()
      ensures stats == old(stats) && attendance == old(attendance)
      ensures UserById(old(users), actorId).role != "admin" ==> outcome == AccessDenied && users == old(users)
      ensures UserById(old(users), actorId).role == "admin" ==>
        var found := FindById(old(users), playerId);
        if found.Some? && old(users)[found.value].role == "player" && !old(users)[found.value].active then
          outcome == Done && users == old(users)[found.value := old(users)[found.value].(active := true)]
        else outcome == Rejected(NotFoundOrActive) && users == old(users)
    {
      var actor := UserById(users, actorId);
      if actor.role != "admin" {
        return AccessDenied;
      }
      var found := FindById(users, playerId);
      if found.Some? && users[found.value].role == "player" && !users[found.value].active {
        var k := found.value;
        var users' := users[k := users[k].(active := true)];
        RelabelKeepsInvariant(users, users', stats, attendance);
        users := users';
        outcome := Done;
      } else {
        outcome := Rejected(NotFoundOrActive);
      }
    }

    /** `toggle_role`: an administrator turns a player into a viewer or a
        viewer into a player; other roles cannot be changed. */
    method ToggleRole(actorId: int, playerId: int) returns (outcome: Outcome)
      requires Valid() && HasUser(users, actorId)
      modifies this
      ensures Valid()
      ensures stats == old(stats) && attendance == old(attendance)
      ensures UserById(old(users), actorId).role != "admin" ==> outcome == AccessDenied && users == old(users)
      ensures UserById(old(users), actorId).role == "admin" ==>
        users == ToggleUser(old(users), playerId)
        && outcome == if CanToggle(old(users), playerId) then Done else Rejected(CannotChangeRole)
    {
      var actor := UserById(users, actorId);
      if actor.role != "admin" {
        return AccessDenied;
      }
      if CanToggle(users, playerId) {
        var users' := ToggleUser(users, playerId);
        RelabelKeepsInvariant(users, users', stats, attendance);
        users := users';
        outcome := Done;
      } else {
        outcome := Rejected(CannotChangeRole);
      }
    }

    /** `add_stats`: a non-viewer submits a match with a screenshot; the
        record is stored and the submitter's bests are raised to it.
        `dateField` is the raw form field and `parsedDate` the date parser's
        result as stored text (None when it rejects the field); `upload` is
        the uploaded file's name, `storedName` the name it is saved under. */
    method AddStats(actorId: int, dateField: string, parsedDate: Option<string>,
                    kills: int, booyah: int, damage: int, survival: int,
                    upload: Option<string>, storedName: string) returns (outcome: Outcome)
      requires Valid() && HasUser(users, actorId)
      modifies this
      ensures Valid()
      ensures attendance == old(attendance)
      ensures UserById(old(users), actorId).role == "viewer" ==>
        outcome == AccessDenied && users == old(users) && stats == old(stats)
      ensures UserById(old(users), actorId).role != "viewer" ==>
        if dateField == "" then outcome == Rejected(MissingDate) && users == old(users) && stats == old(stats)
        else if parsedDate.None? then outcome == Rejected(InvalidDate) && users == old(users) && stats == old(stats)
        else if upload.None? || upload.value == "" then
          outcome == Rejected(MissingScreenshot) && users == old(users) && stats == old(stats)
        else if !AllowedFile(upload.value) then
          outcome == Rejected(InvalidFileType) && users == old(users) && stats == old(stats)
        else
          var k := FindById(old(users), actorId).value;
          outcome == Done
          && stats == old(stats) + [StatRecord(actorId, parsedDate.value, kills, booyah, damage, survival, storedName)]
          && users == old(users)[k := UpdateBest(old(users)[k], kills, damage)]
      ensures forall i :: 0 <= i < |users| ==>
        users[i].bestKills >= old(users[i].bestKills) && users[i].bestDamage >= old(users[i].bestDamage)
    {
      var k := FindById(users, actorId).value;
      if users[k].role == "viewer" {
        return AccessDenied;
      }
      if dateField == "" {
        return Rejected(MissingDate);
      }
      if parsedDate.None? {
        return Rejected(InvalidDate);
      }
      if upload.None? || upload.value == "" {
        return Rejected(MissingScreenshot);
      }
      if !AllowedFile(upload.value) {
        return Rejected(InvalidFileType);
      }
      var record := StatRecord(actorId, parsedDate.value, kills, booyah, damage, survival, storedName);
      AddStatsKeepsInvariant(users, stats, attendance, k, record);
      stats := stats + [record];
      users := users[k := UpdateBest(users[k], kills, damage)];
      outcome := Done;
    }

    /** `join_practice`: a non-viewer marks themselves present for `today`,
        at most once per day. */
    method JoinPractice(actorId: int, today: string) returns (outcome: Outcome)
      requires Valid() && HasUser(users, actorId)
      modifies this
      ensures Valid()
      ensures users == old(users) && stats == old(stats)
      ensures UserById(old(users), actorId).role == "viewer" ==> outcome == AccessDenied && attendance == old(attendance)
      ensures UserById(old(users), actorId).role != "viewer" ==>
        if Marked(old(attendance), actorId, today) then
          outcome == Rejected(AlreadyJoined) && attendance == old(attendance)
        else
          outcome == Done && attendance == old(attendance) + [Attendance(actorId, today, "Present")]
    {
      var actor := UserById(users, actorId);
      if actor.role == "viewer" {
        return AccessDenied;
      }
      if Marked(attendance, actorId, today) {
        return Rejected(AlreadyJoined);
      }
      var row := Attendance(actorId, today, "Present");
      JoinKeepsInvariant(users, stats, attendance, row);
      attendance := attendance + [row];
      outcome := Done;
    }
  }

  /** Lookups by id see only ids. */
  lemma {:induction false} FindByIdSameIds(users: seq<User>, users': seq<User>, id: int)
    requires SameIds(users, users')
    ensures FindById(users', id) == FindById(users, id)
  {
    if users != [] {
      assert SameIds(users[1..], users'[1..]);
      FindByIdSameIds(users[1..], users'[1..], id);
    }
  }

  /** Toggling a user's role twice leaves the store as it was. */
  method ToggleTwiceRestores(store: TeamStore, adminId: int, playerId: int)
    requires store.Valid() && HasUser(store.users, adminId)
    requires UserById(store.users, adminId).role == "admin"
    modifies store
    ensures store.users == old(store.users)
  {
    ghost var before := store.users;
    var first := store.ToggleRole(adminId, playerId);
    assert UserById(store.users, adminId).role == "admin" by {
      assert SameIds(before, store.users);
      FindByIdSameIds(before, store.users, adminId);
    }
    var second := store.ToggleRole(adminId, playerId);
    ToggleUserTwice(before, playerId);
  }
}
