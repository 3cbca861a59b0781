/** Properties of the ledger across operations: what each transition keeps, which
    ones break the capacity invariant `remaining_slots + occupancy rows = total_slots`,
    and the checks the code does not make. */
module LedgerFacts {
  import opened Schema
  import opened Ledger

  /** The capacity invariant: for every contest, remaining slots plus occupancy
      rows equal total slots. The code does not enforce it; the lemmas below say
      which operations keep it and which break it. */
  ghost predicate Balanced(db: Db) {
    forall c :: c in db.contests ==>
      db.contests[c].remainingSlots + Occupied(db.userContest, c) == db.contests[c].totalSlots
  }

  /** No contest has a negative remaining-slot count. */
  ghost predicate SlotsNonNegative(db: Db) {
    forall c :: c in db.contests ==> db.contests[c].remainingSlots >= 0
  }

  // ---------------------------------------------------------------------------
  // Counting occupancy rows

  lemma {:induction false} OccupiedAppend(rows: seq<Entry>, entry: Entry, contestId: int)
    ensures Occupied(rows + [entry], contestId)
         == Occupied(rows, contestId) + (if entry.contestId == contestId then 1 else 0)
  {
    if rows != [] {
      assert (rows + [entry])[1..] == rows[1..] + [entry];
      OccupiedAppend(rows[1..], entry, contestId);
    }
  }

  /** Deleting the rows of one pair lowers the count of the pair's own contest by
      exactly the number of copies of the pair and keeps every other count. */
  lemma {:induction false} OccupiedDeleteEntry(rows: seq<Entry>, entry: Entry, contestId: int)
    ensures Occupied(DeleteEntryRows(rows, entry), contestId)
         == Occupied(rows, contestId) - (if contestId == entry.contestId then multiset(rows)[entry] else 0)
  {
    if rows != [] {
      var head, tail := rows[0], rows[1..];
      OccupiedDeleteEntry(tail, entry, contestId);
      assert rows == [head] + tail;
      assert multiset(rows)[entry] == multiset(tail)[entry] + (if head == entry then 1 else 0);
      if head != entry {
        var kept := DeleteEntryRows(tail, entry);
        assert DeleteEntryRows(rows, entry) == [head] + kept;
        assert ([head] + kept)[1..] == kept;
      }
    }
  }

  /** Deleting all rows of a user lowers the count of each contest by exactly the
      number of rows the user held in it; contests the user did not hold keep their count. */
  lemma {:induction false} OccupiedDeleteUser(rows: seq<Entry>, userId: int, contestId: int)
    ensures Occupied(DeleteUserRows(rows, userId), contestId)
         == Occupied(rows, contestId) - multiset(rows)[Entry(userId, contestId)]
  {
    if rows != [] {
      var head, tail := rows[0], rows[1..];
      var entry := Entry(userId, contestId);
      OccupiedDeleteUser(tail, userId, contestId);
      assert rows == [head] + tail;
      assert multiset(rows)[entry] == multiset(tail)[entry] + (if head == entry then 1 else 0);
      if head.userId != userId {
        var kept := DeleteUserRows(tail, userId);
        assert DeleteUserRows(rows, userId) == [head] + kept;
        assert ([head] + kept)[1..] == kept;
      }
    }
  }

  lemma {:induction false} DeleteUserRowsIdempotent(rows: seq<Entry>, userId: int)
    ensures DeleteUserRows(DeleteUserRows(rows, userId), userId) == DeleteUserRows(rows, userId)
  {
    if rows != [] {
      DeleteUserRowsIdempotent(rows[1..], userId);
      if rows[0].userId != userId {
        var tail := DeleteUserRows(rows[1..], userId);
        assert ([rows[0]] + tail)[0] == rows[0];
        assert ([rows[0]] + tail)[1..] == tail;
      }
    }
  }

  // ---------------------------------------------------------------------------
  // Joining

  /** A successful join moves one slot from "remaining" to "occupied", so the
      capacity invariant survives `enterContest`; a rejected join changes nothing. */
  lemma EnterKeepsBalance(db: Db, userId: int, contestId: int)
    requires Balanced(db)
    ensures Balanced(Commit(db, EnterContest(db, userId, contestId)))
  {
    var r := EnterContest(db, userId, contestId);
    if r.Ok? {
      forall c | c in r.value.contests
        ensures r.value.contests[c].remainingSlots + Occupied(r.value.userContest, c)
             == r.value.contests[c].totalSlots
      {
        OccupiedAppend(db.userContest, Entry(userId, contestId), c);
      }
    }
  }

  /** Sequential joins never overbook: starting from a balanced ledger with no
      negative count, any join leaves every contest with at most `total_slots`
      occupancy rows. */
  lemma JoinNeverOverbooks(db: Db, userId: int, contestId: int)
    requires Balanced(db) && SlotsNonNegative(db)
    ensures var db2 := Commit(db, EnterContest(db, userId, contestId));
            && Balanced(db2) && SlotsNonNegative(db2)
            && forall c :: c in db2.contests ==> Occupied(db2.userContest, c) <= db2.contests[c].totalSlots
  {
    EnterKeepsBalance(db, userId, contestId);
  }

  /** `enterContest` checks neither status nor an existing entry: an eligible user
      joins a contest with two free slots twice, both joins commit, and the same
      pair then has two rows and holds two slots. */
  lemma {:induction false} DuplicateJoinTakesTwoSlots(db: Db, userId: int, contestId: int)
    requires IsUserEligible(db, userId, contestId)
    requires contestId in db.contests && db.contests[contestId].remainingSlots >= 2
    ensures EnterContest(db, userId, contestId).Ok?
    ensures var db1 := EnterContest(db, userId, contestId).value;
            var r2 := EnterContest(db1, userId, contestId);
            && r2.Ok?
            && r2.value.contests[contestId].remainingSlots == db.contests[contestId].remainingSlots - 2
            && Occupied(r2.value.userContest, contestId) == Occupied(db.userContest, contestId) + 2
  {
    var entry := Entry(userId, contestId);
    var db1 := EnterContest(db, userId, contestId).value;
    OccupiedAppend(db.userContest, entry, contestId);
    OccupiedAppend(db1.userContest, entry, contestId);
  }

  /** A contest whose status is not "active" is joined all the same. */
  lemma JoinIgnoresStatus(db: Db, userId: int, contestId: int)
    requires IsUserEligible(db, userId, contestId)
    requires contestId in db.contests && db.contests[contestId].remainingSlots > 0
    requires db.contests[contestId].status != Active
    ensures EnterContest(db, userId, contestId).Ok?
  {
  }

  // ---------------------------------------------------------------------------
  // Leaving

  /** `leaveContest(user, contest)` deletes the pair's rows without giving the slots
      back: the contest ends up short by exactly the number of rows removed (at
      least one), every other contest keeps its balance, and so the ledger is unbalanced. */
  lemma LeaveBreaksBalance(db: Db, userId: int, contestId: int)
    requires Balanced(db) && contestId in db.contests
    requires LeaveContest(db, userId, contestId).Ok?
    ensures multiset(db.userContest)[Entry(userId, contestId)] >= 1
    ensures var db2 := LeaveContest(db, userId, contestId).value;
            db2.contests[contestId].remainingSlots + Occupied(db2.userContest, contestId)
            == db2.contests[contestId].totalSlots - multiset(db.userContest)[Entry(userId, contestId)]
    ensures var db2 := LeaveContest(db, userId, contestId).value;
            forall c :: c in db2.contests && c != contestId ==>
              db2.contests[c].remainingSlots + Occupied(db2.userContest, c) == db2.contests[c].totalSlots
    ensures !Balanced(LeaveContest(db, userId, contestId).value)
  {
    var entry := Entry(userId, contestId);
    var db2 := LeaveContest(db, userId, contestId).value;
    forall c | c in db2.contests
      ensures db2.contests[c].remainingSlots + Occupied(db2.userContest, c)
           == db2.contests[c].totalSlots - (if c == contestId then multiset(db.userContest)[entry] else 0)
    {
      OccupiedDeleteEntry(db.userContest, entry, c);
    }
  }

  /** `leaveContest(user)` does the same for every contest at once: each contest
      ends up short by exactly the number of rows the user held in it, so a contest
      the user did not hold stays balanced and one the user held does not. */
  lemma LeaveAllBreaksBalance(db: Db, userId: int, contestId: int)
    requires Balanced(db)
    ensures var db2 := LeaveAllContests(db, userId);
            forall c :: c in db2.contests ==>
              db2.contests[c].remainingSlots + Occupied(db2.userContest, c)
              == db2.contests[c].totalSlots - multiset(db.userContest)[Entry(userId, c)]
    ensures var db2 := LeaveAllContests(db, userId);
            forall c :: c in db2.contests && Entry(userId, c) !in db.userContest ==>
              Occupied(db2.userContest, c) == Occupied(db.userContest, c)
              && db2.contests[c].remainingSlots + Occupied(db2.userContest, c) == db2.contests[c].totalSlots
    ensures contestId in db.contests && Entry(userId, contestId) in db.userContest ==>
              !Balanced(LeaveAllContests(db, userId))
  {
    var db2 := LeaveAllContests(db, userId);
    forall c | c in db2.contests
      ensures Occupied(db2.userContest, c) == Occupied(db.userContest, c) - multiset(db.userContest)[Entry(userId, c)]
    {
      OccupiedDeleteUser(db.userContest, userId, c);
    }
  }

  /** Once a pair has left, the same call again is rejected and changes nothing. */
  lemma SecondLeaveFails(db: Db, userId: int, contestId: int)
    requires LeaveContest(db, userId, contestId).Ok?
    ensures LeaveContest(LeaveContest(db, userId, contestId).value, userId, contestId) == Err(NotParticipating)
  {
  }

  /** `leaveContest(user)` is idempotent: a second call gives the state the first gave. */
  lemma LeaveAllIdempotent(db: Db, userId: int)
    ensures LeaveAllContests(LeaveAllContests(db, userId), userId) == LeaveAllContests(db, userId)
  {
    DeleteUserRowsIdempotent(db.userContest, userId);
  }

  /** Leaving one contest clears the user's selection even when it names another contest. */
  lemma LeaveClearsUnrelatedSelection(db: Db, userId: int, contestId: int, selected: int)
    requires userId in db.users && db.users[userId].selectedContestId == Some(selected)
    requires selected != contestId && Entry(userId, contestId) in db.userContest
    ensures LeaveContest(db, userId, contestId).Ok?
    ensures LeaveContest(db, userId, contestId).value.users[userId].selectedContestId == None
  {
  }

  // ---------------------------------------------------------------------------
  // Switching and deleting

  /** Switching moves the selection only: the user keeps the old occupancy row, gets
      no row for the new contest, and no count moves. */
  lemma SwitchLeavesOccupancyBehind(db: Db, userId: int, oldContestId: int, newContestId: int)
    requires userId in db.users && newContestId in db.contests
    requires Entry(userId, oldContestId) in db.userContest && Entry(userId, newContestId) !in db.userContest
    ensures var r := ChangeSelectedContest(db, userId, newContestId);
            && r.Ok?
            && r.value.users[userId].selectedContestId == Some(newContestId)
            && Entry(userId, oldContestId) in r.value.userContest
            && Entry(userId, newContestId) !in r.value.userContest
            && r.value.contests == db.contests
  {
  }

  /** `deleteContest` leaves the occupancy rows of the deleted contest in place. */
  lemma DeleteLeavesOrphanRows(db: Db, entry: Entry)
    requires entry in db.userContest
    ensures var db2 := DeleteContest(db, entry.contestId);
            entry in db2.userContest && !IsContestValid(db2, entry.contestId)
  {
  }

  // ---------------------------------------------------------------------------
  // All operations together

  /** Every transaction keeps the database's own key invariants. */
  lemma StepKeepsWellFormed(db: Db, op: Op)
    requires WellFormed(db)
    ensures WellFormed(Commit(db, Step(db, op)))
  {
  }

  /** Only `remaining_slots` of a contest ever changes after it is created, and no
      operation changes a user's age, so eligibility never changes either. */
  lemma StepKeepsFixedColumns(db: Db, op: Op)
    requires WellFormed(db)
    ensures var db2 := Commit(db, Step(db, op));
            && (forall c :: c in db.contests && c in db2.contests ==>
                  db2.contests[c] == db.contests[c].(remainingSlots := db2.contests[c].remainingSlots))
            && db2.users.Keys == db.users.Keys
            && (forall u :: u in db.users ==> db2.users[u].age == db.users[u].age)
  {
  }

  /** The capacity invariant survives every operation except the three that break
      it: the slot override and both kinds of leave. */
  lemma StepKeepsBalance(db: Db, op: Op)
    requires WellFormed(db) && Balanced(db)
    requires !op.UpdateContestSlotOp? && !op.LeaveContestOp? && !op.LeaveAllContestsOp?
    ensures Balanced(Commit(db, Step(db, op)))
  {
    match op
    case EnterContestOp(userId, contestId) => EnterKeepsBalance(db, userId, contestId);
    case CreateContestOp(name, prize, totalSlots, startDate, endDate, now) =>
      var db2 := CreateContest(db, name, prize, totalSlots, startDate, endDate, now);
      assert Occupied(db.userContest, db.nextContestId) == 0;
      assert db2.contests[db.nextContestId].remainingSlots == db2.contests[db.nextContestId].totalSlots;
    case _ =>
  }

  /** Remaining counts stay non-negative under every operation except the slot
      override and a creation with a negative total, which the code does not reject. */
  lemma StepKeepsSlotsNonNegative(db: Db, op: Op)
    requires WellFormed(db) && SlotsNonNegative(db)
    requires !op.UpdateContestSlotOp?
    requires op.CreateContestOp? ==> op.totalSlots >= 0
    ensures SlotsNonNegative(Commit(db, Step(db, op)))
  {
  }

  /** The slot override writes any value: the overridden contest is off balance by
      exactly the difference between the new and the old value, every other contest
      keeps its balance, and so any value but the current one unbalances the ledger. */
  lemma SlotOverrideBreaksBalance(db: Db, contestId: int, newSlot: int)
    requires Balanced(db) && contestId in db.contests
    requires newSlot != db.contests[contestId].remainingSlots
    ensures var db2 := UpdateContestSlot(db, contestId, newSlot).value;
            db2.contests[contestId].remainingSlots + Occupied(db2.userContest, contestId)
            == db2.contests[contestId].totalSlots + (newSlot - db.contests[contestId].remainingSlots)
    ensures var db2 := UpdateContestSlot(db, contestId, newSlot).value;
            forall c :: c in db2.contests && c != contestId ==>
              db2.contests[c].remainingSlots + Occupied(db2.userContest, c) == db2.contests[c].totalSlots
    ensures !Balanced(UpdateContestSlot(db, contestId, newSlot).value)
  {
    var db2 := UpdateContestSlot(db, contestId, newSlot).value;
    assert db2.contests[contestId].remainingSlots + Occupied(db2.userContest, contestId)
        != db2.contests[contestId].totalSlots;
  }

  // ---------------------------------------------------------------------------
  // A worked scenario

  /** Three adults join a five-slot contest, which then shows two remaining slots;
      after all three leave, no occupancy row is left but the count is still two. */
  lemma FiveSlotRoundTrip(name: string, prize: real, startDate: Time, endDate: Time, now: Time)
    ensures var db0 := Empty(map[1 := User(20, None), 2 := User(30, None), 3 := User(40, None)]);
            var db1 := CreateContest(db0, name, prize, 5, startDate, endDate, now);
            var c := db0.nextContestId;
            var r2 := EnterContest(db1, 1, c);
            r2.Ok? &&
            var r3 := EnterContest(r2.value, 2, c);
            r3.Ok? &&
            var r4 := EnterContest(r3.value, 3, c);
            r4.Ok? &&
            GetRemainingSlots(r4.value, c) == Ok(2) &&
            var r5 := LeaveContest(r4.value, 1, c);
            r5.Ok? &&
            var r6 := LeaveContest(r5.value, 2, c);
            r6.Ok? &&
            var r7 := LeaveContest(r6.value, 3, c);
            r7.Ok? &&
            r7.value.userContest == [] &&
            GetRemainingSlots(r7.value, c) == Ok(2)
  {
    var db0 := Empty(map[1 := User(20, None), 2 := User(30, None), 3 := User(40, None)]);
    var db1 := CreateContest(db0, name, prize, 5, startDate, endDate, now);
    var c := db0.nextContestId;
    var db2 := EnterContest(db1, 1, c).value;
    var db3 := EnterContest(db2, 2, c).value;
    var db4 := EnterContest(db3, 3, c).value;
    assert db4.contests[c].remainingSlots == 2;
    assert db4.userContest == [Entry(1, c), Entry(2, c), Entry(3, c)];
    ThreeLeavesEmptyTheContest(db4, c);
  }

  /** The leaving half of the scenario: three users, one row each, leave in turn;
      every leave commits, no row is left and no slot count moves. */
  lemma ThreeLeavesEmptyTheContest(db: Db, c: int)
    requires db.userContest == [Entry(1, c), Entry(2, c), Entry(3, c)]
    ensures var r5 := LeaveContest(db, 1, c);
            r5.Ok? &&
            var r6 := LeaveContest(r5.value, 2, c);
            r6.Ok? &&
            var r7 := LeaveContest(r6.value, 3, c);
            r7.Ok? && r7.value.userContest == [] && r7.value.contests == db.contests
  {
    var e1, e2, e3 := Entry(1, c), Entry(2, c), Entry(3, c);
    assert DeleteEntryRows([e3], e1) == [e3] by { assert [e3][1..] == []; }
    assert DeleteEntryRows([e2, e3], e1) == [e2, e3] by { assert [e2, e3][1..] == [e3]; }
    assert DeleteEntryRows([e1, e2, e3], e1) == [e2, e3] by { assert [e1, e2, e3][1..] == [e2, e3]; }
    var db5 := LeaveContest(db, 1, c).value;
    assert db5.userContest == [e2, e3];
    assert DeleteEntryRows([e3], e2) == [e3] by { assert [e3][1..] == []; }
    assert DeleteEntryRows([e2, e3], e2) == [e3] by { assert [e2, e3][1..] == [e3]; }
    var db6 := LeaveContest(db5, 2, c).value;
    assert db6.userContest == [e3];
    var db7 := LeaveContest(db6, 3, c).value;
    assert db7.userContest == [];
  }
}
