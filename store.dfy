/** The database as mutable state: one object holding the four tables, with one
    method per Go function that writes. Each method performs the function's
    statements in order and is proved to leave exactly the state the ledger
    function of the same name describes, or the old state when it reports an error. */
module Fantasy {
  import opened Schema
  import Ledger

  class Store {
    var contests: map<int, Contest>
    var userContest: seq<Entry>
    var users: map<int, User>
    var teams: map<int, Team>
    var nextContestId: int
    var nextTeamId: int

    /** The tables as one value. */
    function Snapshot(): Db
      reads this
    {
      Db(contests, userContest, users, teams, nextContestId, nextTeamId)
    }

    ghost predicate Valid()
      reads this
    {
      Ledger.WellFormed(Snapshot())
    }

    /** A fresh database beside an existing `users` table. */
    constructor (existingUsers: map<int, User>)
      ensures Valid()
      ensures Snapshot() == Ledger.Empty(existingUsers)
    {
      contests := map[];
      userContest := [];
      users := existingUsers;
      teams := map[];
      nextContestId := 1;
      nextTeamId := 1;
    }

    /** `createContest` (Fantasy.go:62). */
    method CreateContest(name: string, prize: real, totalSlots: int,
                         startDate: Time, endDate: Time, now: Time)
      requires Valid()
      modifies this
      ensures Valid()
      ensures Snapshot() == Ledger.CreateContest(old(Snapshot()), name, prize, totalSlots, startDate, endDate, now)
    {
      var id := nextContestId;
      contests := contests[id := Contest(id, name, prize, totalSlots, totalSlots,
                                         startDate, endDate, Ledger.Active, startDate, now)];
      nextContestId := id + 1;
    }

    /** `updateContestSlot` (Fantasy.go:129). */
    method UpdateContestSlot(contestId: int, newSlot: int) returns (err: Option<Error>)
      requires Valid()
      modifies this
      ensures Valid()
      ensures err == Ledger.ErrorOf(Ledger.UpdateContestSlot(old(Snapshot()), contestId, newSlot))
      ensures Snapshot() == Ledger.Commit(old(Snapshot()), Ledger.UpdateContestSlot(old(Snapshot()), contestId, newSlot))
    {
      var current := Ledger.GetRemainingSlots(Snapshot(), contestId);
      if current.Err? {
        return Some(current.error);
      }
      var currentSlots := current.value;
      var newRemainingSlots := currentSlots + (newSlot - currentSlots);
      contests := contests[contestId := contests[contestId].(remainingSlots := newRemainingSlots)];
      return None;
    }

    /** `deleteContest` (Fantasy.go:169). */
    method DeleteContest(contestId: int)
      requires Valid()
      modifies this
      ensures Valid()
      ensures Snapshot() == Ledger.DeleteContest(old(Snapshot()), contestId)
    {
      contests := contests - {contestId};
    }

    /** `createTeam` (Fantasy.go:201). */
    method CreateTeam(name: string, displayName: string, now: Time)
      requires Valid()
      modifies this
      ensures Valid()
      ensures Snapshot() == Ledger.CreateTeam(old(Snapshot()), name, displayName, now)
    {
      var id := nextTeamId;
      teams := teams[id := Team(id, name, displayName, now)];
      nextTeamId := id + 1;
    }

    /** `enterContest` (Fantasy.go:443): eligibility, then the slot check, then the
        decrement, then the occupancy row. */
    method EnterContest(userId: int, contestId: int) returns (err: Option<Error>)
      requires Valid()
      modifies this
      ensures Valid()
      ensures err == Ledger.ErrorOf(Ledger.EnterContest(old(Snapshot()), userId, contestId))
      ensures Snapshot() == Ledger.Commit(old(Snapshot()), Ledger.EnterContest(old(Snapshot()), userId, contestId))
    {
      if !Ledger.IsUserEligible(Snapshot(), userId, contestId) {
        return Some(NotEligible);
      }
      var remaining := Ledger.GetRemainingSlots(Snapshot(), contestId);
      if remaining.Err? {
        return Some(remaining.error);
      }
      if remaining.value <= 0 {
        return Some(NoRemainingSlots);
      }
      var row := contests[contestId];
      contests := contests[contestId := row.(remainingSlots := row.remainingSlots - 1)];
      userContest := userContest + [Entry(userId, contestId)];
      return None;
    }

    /** `changeSelectedContest` (Fantasy.go:610). */
    method ChangeSelectedContest(userId: int, newContestId: int) returns (err: Option<Error>)
      requires Valid()
      modifies this
      ensures Valid()
      ensures err == Ledger.ErrorOf(Ledger.ChangeSelectedContest(old(Snapshot()), userId, newContestId))
      ensures Snapshot() == Ledger.Commit(old(Snapshot()), Ledger.ChangeSelectedContest(old(Snapshot()), userId, newContestId))
    {
      if !Ledger.IsContestValid(Snapshot(), newContestId) {
        return Some(ContestDoesNotExist);
      }
      users := Ledger.SetSelection(users, userId, Some(newContestId));
      return None;
    }

    /** `leaveContest(user, contest)` (Fantasy.go:735). */
    method LeaveContest(userId: int, contestId: int) returns (err: Option<Error>)
      requires Valid()
      modifies this
      ensures Valid()
      ensures err == Ledger.ErrorOf(Ledger.LeaveContest(old(Snapshot()), userId, contestId))
      ensures Snapshot() == Ledger.Commit(old(Snapshot()), Ledger.LeaveContest(old(Snapshot()), userId, contestId))
    {
      var entry := Entry(userId, contestId);
      if entry !in userContest {
        return Some(NotParticipating);
      }
      users := Ledger.SetSelection(users, userId, None);
      userContest := Ledger.DeleteEntryRows(userContest, entry);
      return None;
    }

    /** `leaveContest(user)` (Fantasy.go:673). */
    method LeaveAllContests(userId: int)
      requires Valid()
      modifies this
      ensures Valid()
      ensures Snapshot() == Ledger.LeaveAllContests(old(Snapshot()), userId)
    {
      users := Ledger.SetSelection(users, userId, None);
      userContest := Ledger.DeleteUserRows(userContest, userId);
    }
  }

  /** A caller's view: a join by an ineligible user, then a join with no slot left,
      are both refused and leave the store as it was. */
  method RejectedJoinsChangeNothing()
  {
    var store := new Store(map[7 := User(17, None), 8 := User(18, None)]);
    store.CreateContest("final", 100.0, 1, 10, 20, 5);
    var before := store.Snapshot();
    var err := store.EnterContest(7, 1);
    assert err == Some(NotEligible) && store.Snapshot() == before;
    err := store.EnterContest(8, 1);
    assert err == None;
    assert store.contests[1].remainingSlots == 0;
    before := store.Snapshot();
    err := store.EnterContest(8, 1);
    assert err == Some(NoRemainingSlots) && store.Snapshot() == before;
  }
}
