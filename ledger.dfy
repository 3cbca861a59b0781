/** The contest slot ledger of Fantasy.go as pure functions over the database value.
    Each Go function that opens a transaction becomes one function from the old
    database to `Ok(new database)` (the transaction commits) or `Err(e)` (it rolls
    back and nothing changes); `Commit` applies that outcome. */
module Ledger {
  import opened Schema

  /** The minimum age in `isUserEligible`. */
  const MinAge := 18

  /** The status `createContest` writes. */
  const Active := "active"

  /** The empty database beside an externally owned `users` table;
      AUTO_INCREMENT starts at 1. */
  function Empty(users: map<int, User>): (db: Db) {
    Db(map[], [], users, map[], 1, 1)
  }

  /** The state after a transaction: its writes if it committed, the old state if it rolled back. */
  function Commit(db: Db, r: Result<Db>): (after: Db) {
    if r.Ok? then r.value else db
  }

  /** The `error` a Go function returns: `None` is nil. */
  function ErrorOf(r: Result<Db>): (err: Option<Error>) {
    if r.Ok? then None else Some(r.error)
  }

  /** What the database keeps true of its own keys: every id was handed out by
      AUTO_INCREMENT, every row carries its own key, and every occupancy row names
      a contest id that was handed out. */
  ghost predicate WellFormed(db: Db) {
    && 1 <= db.nextContestId
    && 1 <= db.nextTeamId
    && (forall id :: id in db.contests ==> 1 <= id < db.nextContestId && db.contests[id].id == id)
    && (forall id :: id in db.teams ==> 1 <= id < db.nextTeamId && db.teams[id].id == id)
    && (forall e :: e in db.userContest ==> e.contestId < db.nextContestId)
  }

  // ---------------------------------------------------------------------------
  // Occupancy rows

  /** The number of `user_contest` rows that reference contest `contestId`. */
  function Occupied(rows: seq<Entry>, contestId: int): (count: nat)
    ensures count <= |rows|
    ensures count == 0 <==> forall e :: e in rows ==> e.contestId != contestId
  {
    if rows == [] then 0
    else (if rows[0].contestId == contestId then 1 else 0) + Occupied(rows[1..], contestId)
  }

  /** `DELETE FROM user_contest WHERE user_id = ? AND contest_id = ?`: every copy of
      `entry` goes, every other row stays, in order. */
  function DeleteEntryRows(rows: seq<Entry>, entry: Entry): (kept: seq<Entry>)
    ensures multiset(kept) == multiset(rows)[entry := 0]
    ensures forall e :: e in kept <==> e in rows && e != entry
    ensures |kept| <= |rows|
    ensures entry in rows ==> |kept| < |rows|
  {
    if rows == [] then []
    else
      assert rows == [rows[0]] + rows[1..];
      if rows[0] == entry then DeleteEntryRows(rows[1..], entry)
      else [rows[0]] + DeleteEntryRows(rows[1..], entry)
  }

  /** `DELETE FROM user_contest WHERE user_id = ?`: every row of that user goes,
      every other row stays, in order. */
  function DeleteUserRows(rows: seq<Entry>, userId: int): (kept: seq<Entry>)
    ensures forall e :: multiset(kept)[e] == if e.userId == userId then 0 else multiset(rows)[e]
    ensures forall e :: e in kept <==> e in rows && e.userId != userId
    ensures |kept| <= |rows|
  {
    if rows == [] then []
    else
      assert rows == [rows[0]] + rows[1..];
      if rows[0].userId == userId then DeleteUserRows(rows[1..], userId)
      else [rows[0]] + DeleteUserRows(rows[1..], userId)
  }

  /** `UPDATE users SET selected_contest_id = ? WHERE id = ?`: a missing user row
      matches nothing, which is not an error. */
  function SetSelection(users: map<int, User>, userId: int, selection: Option<int>): (r: map<int, User>)
    ensures r.Keys == users.Keys
    ensures userId in users ==> r[userId].selectedContestId == selection && r[userId].age == users[userId].age
    ensures forall k :: k in users && k != userId ==> r[k] == users[k]
  {
    if userId in users then users[userId := users[userId].(selectedContestId := selection)] else users
  }

  // ---------------------------------------------------------------------------
  // Read-only helpers

  /** `getContest`: the row, or "contest not found". */
  function GetContest(db: Db, contestId: int): (r: Result<Contest>)
    ensures r.Ok? <==> contestId in db.contests
    ensures r.Ok? ==> r.value == db.contests[contestId]
    ensures r.Err? ==> r.error == ContestNotFound
  {
    if contestId in db.contests then Ok(db.contests[contestId]) else Err(ContestNotFound)
  }

  /** `getTeam` and its duplicate `getTeamByID`: the row, or "team not found". */
  function GetTeam(db: Db, teamId: int): (r: Result<Team>)
    ensures r.Ok? <==> teamId in db.teams
    ensures r.Ok? ==> r.value == db.teams[teamId]
    ensures r.Err? ==> r.error == TeamNotFound
  {
    if teamId in db.teams then Ok(db.teams[teamId]) else Err(TeamNotFound)
  }

  /** `isUserEligible`: a users row exists and its age is at least 18. A missing row
      reads as "not eligible". The contest id is accepted and not consulted. */
  function IsUserEligible(db: Db, userId: int, contestId: int): (eligible: bool)
    ensures eligible <==> userId in db.users && db.users[userId].age >= MinAge
  {
    userId in db.users && db.users[userId].age >= MinAge
  }

  /** `getRemainingSlots`: the same row `getContest` finds, but a missing contest
      surfaces as `sql.ErrNoRows` rather than "contest not found". */
  function GetRemainingSlots(db: Db, contestId: int): (r: Result<int>)
    ensures r.Ok? <==> GetContest(db, contestId).Ok?
    ensures r.Ok? ==> r.value == GetContest(db, contestId).value.remainingSlots
    ensures r.Err? ==> r.error == NoRows
  {
    if contestId in db.contests then Ok(db.contests[contestId].remainingSlots) else Err(NoRows)
  }

  /** `isContestValid` and the `SELECT EXISTS` check of `changeSelectedContest`:
      true exactly when `getContest` would find the contest. */
  function IsContestValid(db: Db, contestId: int): (valid: bool)
    ensures valid <==> GetContest(db, contestId).Ok?
  {
    contestId in db.contests
  }

  // ---------------------------------------------------------------------------
  // Frames shared by the transitions

  /** Only the `contest` table may differ between `db` and `db2`, and in it only the
      `remaining_slots` column of contest `contestId`. */
  ghost predicate OnlySlotsOf(db: Db, db2: Db, contestId: int) {
    && contestId in db.contests
    && db2.contests.Keys == db.contests.Keys
    && db2.contests[contestId] == db.contests[contestId].(remainingSlots := db2.contests[contestId].remainingSlots)
    && (forall k :: k in db.contests && k != contestId ==> db2.contests[k] == db.contests[k])
    && db2.users == db.users
    && db2.teams == db.teams
    && db2.nextContestId == db.nextContestId
    && db2.nextTeamId == db.nextTeamId
  }

  /** Neither the `contest` nor the `team` table nor the id counters differ. */
  ghost predicate ContestsAndTeamsKept(db: Db, db2: Db) {
    && db2.contests == db.contests
    && db2.teams == db.teams
    && db2.nextContestId == db.nextContestId
    && db2.nextTeamId == db.nextTeamId
  }

  // ---------------------------------------------------------------------------
  // Transitions

  /** `createContest`: inserts a row under the next AUTO_INCREMENT id, with
      `remaining_slots = total_slots`, status "active", `active_date = start_date` and
      `created_at = NOW()`. Nothing about the arguments is validated. */
  function CreateContest(db: Db, name: string, prize: real, totalSlots: int,
                         startDate: Time, endDate: Time, now: Time): (r: Db)
    ensures GetContest(r, db.nextContestId)
         == Ok(Contest(db.nextContestId, name, prize, totalSlots, totalSlots,
                       startDate, endDate, Active, startDate, now))
    ensures r.contests.Keys == db.contests.Keys + {db.nextContestId}
    ensures WellFormed(db) ==> db.nextContestId !in db.contests
    ensures WellFormed(db) ==> forall k :: k in db.contests ==> r.contests[k] == db.contests[k]
    ensures r.nextContestId == db.nextContestId + 1
    ensures r.userContest == db.userContest && r.users == db.users
    ensures r.teams == db.teams && r.nextTeamId == db.nextTeamId
  {
    var id := db.nextContestId;
    db.(contests := db.contests[id := Contest(id, name, prize, totalSlots, totalSlots,
                                              startDate, endDate, Active, startDate, now)],
        nextContestId := id + 1)
  }

  /** `updateContestSlot`: reads the current count, then writes
      `currentSlots + (newSlot - currentSlots)`. A missing contest is `sql.ErrNoRows`. */
  function UpdateContestSlot(db: Db, contestId: int, newSlot: int): (r: Result<Db>)
    ensures r.Err? <==> contestId !in db.contests
    ensures r.Err? ==> r.error == NoRows
    ensures r.Ok? ==> GetRemainingSlots(r.value, contestId) == Ok(newSlot)
    ensures r.Ok? ==> OnlySlotsOf(db, r.value, contestId)
    ensures r.Ok? ==> r.value.userContest == db.userContest
  {
    match GetRemainingSlots(db, contestId)
    case Err(e) => Err(e)
    case Ok(currentSlots) =>
      var newRemainingSlots := currentSlots + (newSlot - currentSlots);
      var row := db.contests[contestId];
      Ok(db.(contests := db.contests[contestId := row.(remainingSlots := newRemainingSlots)]))
  }

  /** `deleteContest`: removes the row if there is one; deleting nothing is not an
      error, and occupancy rows that reference the contest are left in place. */
  function DeleteContest(db: Db, contestId: int): (r: Db)
    ensures r.contests.Keys == db.contests.Keys - {contestId}
    ensures GetContest(r, contestId) == Err(ContestNotFound)
    ensures forall k :: k in r.contests ==> r.contests[k] == db.contests[k]
    ensures r.userContest == db.userContest && r.users == db.users
    ensures r.teams == db.teams && r.nextContestId == db.nextContestId && r.nextTeamId == db.nextTeamId
  {
    db.(contests := db.contests - {contestId})
  }

  /** `createTeam`: inserts a row under the next AUTO_INCREMENT id with `created_at = NOW()`. */
  function CreateTeam(db: Db, name: string, displayName: string, now: Time): (r: Db)
    ensures GetTeam(r, db.nextTeamId) == Ok(Team(db.nextTeamId, name, displayName, now))
    ensures r.teams.Keys == db.teams.Keys + {db.nextTeamId}
    ensures WellFormed(db) ==> forall k :: k in db.teams ==> r.teams[k] == db.teams[k]
    ensures r.nextTeamId == db.nextTeamId + 1
    ensures r.contests == db.contests && r.userContest == db.userContest && r.users == db.users
    ensures r.nextContestId == db.nextContestId
  {
    var id := db.nextTeamId;
    db.(teams := db.teams[id := Team(id, name, displayName, now)], nextTeamId := id + 1)
  }

  /** `enterContest`: rejects an ineligible user, then a missing contest, then a
      contest with no remaining slot; otherwise decrements `remaining_slots` and
      inserts one occupancy row. Neither the contest's status nor an existing entry
      of the same user is checked. */
  function EnterContest(db: Db, userId: int, contestId: int): (r: Result<Db>)
    ensures !IsUserEligible(db, userId, contestId) ==> r == Err(NotEligible)
    ensures IsUserEligible(db, userId, contestId) && contestId !in db.contests ==> r == Err(NoRows)
    ensures (IsUserEligible(db, userId, contestId) && contestId in db.contests
             && db.contests[contestId].remainingSlots <= 0) ==> r == Err(NoRemainingSlots)
    ensures r.Ok? <==> IsUserEligible(db, userId, contestId) && contestId in db.contests
                       && db.contests[contestId].remainingSlots > 0
    ensures r.Ok? ==> OnlySlotsOf(db, r.value, contestId)
    ensures r.Ok? ==> r.value.contests[contestId].remainingSlots == db.contests[contestId].remainingSlots - 1
    ensures r.Ok? ==> r.value.contests[contestId].remainingSlots >= 0
    ensures r.Ok? ==> r.value.userContest == db.userContest + [Entry(userId, contestId)]
  {
    if !IsUserEligible(db, userId, contestId) then Err(NotEligible)
    else match GetRemainingSlots(db, contestId)
      case Err(e) => Err(e)
      case Ok(remainingSlots) =>
        if remainingSlots <= 0 then Err(NoRemainingSlots)
        else
          var row := db.contests[contestId];
          Ok(db.(contests := db.contests[contestId := row.(remainingSlots := row.remainingSlots - 1)],
                 userContest := db.userContest + [Entry(userId, contestId)]))
  }

  /** `changeSelectedContest`: rejects a contest id that does not exist; otherwise
      points the user's `selected_contest_id` at it. Occupancy is not touched. */
  function ChangeSelectedContest(db: Db, userId: int, newContestId: int): (r: Result<Db>)
    ensures r.Err? <==> !IsContestValid(db, newContestId)
    ensures r.Err? ==> r.error == ContestDoesNotExist
    ensures r.Ok? ==> ContestsAndTeamsKept(db, r.value) && r.value.userContest == db.userContest
    ensures r.Ok? ==> r.value.users.Keys == db.users.Keys
    ensures r.Ok? && userId in db.users ==> r.value.users[userId] == db.users[userId].(selectedContestId := Some(newContestId))
    ensures r.Ok? ==> forall k :: k in db.users && k != userId ==> r.value.users[k] == db.users[k]
  {
    if !IsContestValid(db, newContestId) then Err(ContestDoesNotExist)
    else Ok(db.(users := SetSelection(db.users, userId, Some(newContestId))))
  }

  /** `leaveContest(user, contest)`: rejects a pair that has no occupancy row;
      otherwise clears the user's selection and deletes the pair's rows. No slot is
      given back. */
  function LeaveContest(db: Db, userId: int, contestId: int): (r: Result<Db>)
    ensures r.Err? <==> Entry(userId, contestId) !in db.userContest
    ensures r.Err? ==> r.error == NotParticipating
    ensures r.Ok? ==> ContestsAndTeamsKept(db, r.value)
    ensures r.Ok? ==> multiset(r.value.userContest) == multiset(db.userContest)[Entry(userId, contestId) := 0]
    ensures r.Ok? ==> forall e :: e in r.value.userContest <==> e in db.userContest && e != Entry(userId, contestId)
    ensures r.Ok? ==> |r.value.userContest| < |db.userContest|
    ensures r.Ok? ==> r.value.users.Keys == db.users.Keys
    ensures r.Ok? && userId in db.users ==> r.value.users[userId] == db.users[userId].(selectedContestId := None)
    ensures r.Ok? ==> forall k :: k in db.users && k != userId ==> r.value.users[k] == db.users[k]
  {
    var entry := Entry(userId, contestId);
    if entry !in db.userContest then Err(NotParticipating)
    else Ok(db.(users := SetSelection(db.users, userId, None),
                userContest := DeleteEntryRows(db.userContest, entry)))
  }

  /** `leaveContest(user)`: clears the user's selection and deletes all of the
      user's occupancy rows, with no existence check; it never fails. */
  function LeaveAllContests(db: Db, userId: int): (r: Db)
    ensures ContestsAndTeamsKept(db, r)
    ensures forall e :: multiset(r.userContest)[e] == if e.userId == userId then 0 else multiset(db.userContest)[e]
    ensures forall e :: e in r.userContest <==> e in db.userContest && e.userId != userId
    ensures r.users.Keys == db.users.Keys
    ensures userId in db.users ==> r.users[userId] == db.users[userId].(selectedContestId := None)
    ensures forall k :: k in db.users && k != userId ==> r.users[k] == db.users[k]
  {
    db.(users := SetSelection(db.users, userId, None),
        userContest := DeleteUserRows(db.userContest, userId))
  }

  // ---------------------------------------------------------------------------
  // The operations as one state machine

  /** The state-changing operations, with their arguments. */
  datatype Op =
    | CreateContestOp(name: string, prize: real, totalSlots: int, startDate: Time, endDate: Time, now: Time)
    | UpdateContestSlotOp(contestId: int, newSlot: int)
    | DeleteContestOp(contestId: int)
    | CreateTeamOp(teamName: string, displayName: string, now: Time)
    | EnterContestOp(userId: int, contestId: int)
    | ChangeSelectedContestOp(userId: int, newContestId: int)
    | LeaveContestOp(userId: int, contestId: int)
    | LeaveAllContestsOp(userId: int)

  /** One transaction: `Ok` with the committed state or `Err` with the rolled-back error. */
  function Step(db: Db, op: Op): (r: Result<Db>) {
    match op
    case CreateContestOp(name, prize, totalSlots, startDate, endDate, now) =>
      Ok(CreateContest(db, name, prize, totalSlots, startDate, endDate, now))
    case UpdateContestSlotOp(contestId, newSlot) => UpdateContestSlot(db, contestId, newSlot)
    case DeleteContestOp(contestId) => Ok(DeleteContest(db, contestId))
    case CreateTeamOp(name, displayName, now) => Ok(CreateTeam(db, name, displayName, now))
    case EnterContestOp(userId, contestId) => EnterContest(db, userId, contestId)
    case ChangeSelectedContestOp(userId, newContestId) => ChangeSelectedContest(db, userId, newContestId)
    case LeaveContestOp(userId, contestId) => LeaveContest(db, userId, contestId)
    case LeaveAllContestsOp(userId) => Ok(LeaveAllContests(db, userId))
  }
}
