# Contest slot ledger of the Fantasy service, in Dafny

The Go service in `Fantasy.go` runs fantasy contests. Each contest has a fixed number of
entry slots. Users join, switch and leave contests, and teams are stored next to them. All
state lives in a SQL database with four tables:

- `contest`: one row per contest, with `total_slots`, `remaining_slots`, status and dates;
- `user_contest`: the occupancy rows, one `(user_id, contest_id)` pair per entry;
- `users`: owned by another system; the core reads `age` and writes `selected_contest_id`;
- `team`.

Each Go function that writes opens a transaction. It runs its queries and then either
commits all of its writes or rolls back and returns an error. The read-only helpers
(`getContest`, `getTeam`, `getTeamByID`, `isUserEligible`, `getRemainingSlots`,
`isContestValid`) run a single query outside any transaction. The model has four modules.

- `Schema` (schema.dfy) holds the rows, the whole database as one value `Db`, and the
  error values.
- `Ledger` (ledger.dfy) has one pure function per Go function. A read-only helper returns
  what its query returns. A transaction returns `Ok(new database)` when it commits and
  `Err(error)` when it rolls back; `Commit` applies that outcome. The contract of each
  function states what the transaction guarantees: which checks reject the call, what
  changes on success, and what stays the same. `Step` gathers the state-changing
  operations into one state machine.
- `Fantasy.Store` (store.dfy) is the database as a mutable object holding the four tables.
  It has one method per Go function that writes. Each method makes that function's checks
  and writes in order and is proved to reach exactly the state the `Ledger` function
  describes. On an error it leaves the old state.
- `LedgerFacts` (ledger_facts.dfy) proves properties across operations. These cover the
  capacity invariant `remaining_slots + occupancy rows = total_slots` for every contest.
  The code does not enforce it; the lemmas say which operations keep it, which break it,
  and by exactly how much. They also cover idempotence of leaving,
  that sequential joins never overbook, and the gaps the code leaves open.

The model follows what the code does, including what it does not check:

- `enterContest` checks neither the contest's status nor whether the user already holds
  a row for that contest. A repeated join takes a second slot.
- Neither `leaveContest` gives a slot back. Leaving therefore breaks the capacity
  invariant, which the lemmas `LeaveBreaksBalance` and `LeaveAllBreaksBalance` show.
- `changeSelectedContest` moves only the user's selection. The old occupancy row stays
  and no slot moves.
- `deleteContest` leaves the contest's occupancy rows in place.
- `createContest` does not check its arguments. A non-positive `total_slots` or an end
  date before the start date is stored as given.
- `updateContestSlot` writes `currentSlots + (newSlot - currentSlots)`, which is exactly
  `newSlot`. The same holds with Go's 64-bit wrap-around.

Each point above is what the Go text does. The model adds no check or release that the code does not make.

The choice of variant follows the code:

- `createContest` at line 62 is modelled. The variant at line 383 takes its status and
  active date from the caller.
- `changeSelectedContest` at line 610 is modelled. The copy nested in a closure at
  line 546 is not, and neither is the orphan `UPDATE user_contest` tail at line 652.
  Its `isContestValid` helper is the same `SELECT EXISTS` query and is modelled once
  as `Ledger.IsContestValid`.
- `leaveContest(user, contest)` at line 735 and `leaveContest(user)` at line 673 are
  modelled. The enclosing shell at line 721 is not.
- `getTeam` (line 232) and `getTeamByID` (line 329) run the same query and are
  modelled once, as `Ledger.GetTeam`.

Representation choices:

- **Occupancy rows** are a sequence of `Entry(userId, contestId)` rows in insertion
  order. The table has no key in the code, so a pair may occur twice. No property
  depends on the order.
- **Ids** come from AUTO_INCREMENT counters starting at 1. The Go code never chooses an
  id itself, so the model assumes the database never reuses one: orphan occupancy rows
  left by `deleteContest` can therefore never attach to a contest created later.
- **Missing user**: an `UPDATE users ... WHERE id = ?` on a missing user matches no row
  and is not an error.
- **`sql.ErrNoRows`** is the error `NoRows`. It is returned by `getRemainingSlots`, and
  so by `enterContest`, and by `updateContestSlot` when the contest is missing.
  `getContest` and `getTeam` turn it into "contest not found" and "team not found".

## Model

| member | source | states |
|---|---|---|
| Ledger.GetContest | Fantasy.go:96-124 | returns the contest row exactly when the id exists, otherwise the "contest not found" error |
| Ledger.GetTeam | Fantasy.go:232-254 | returns the team row exactly when the id exists, otherwise the "team not found" error (getTeamByID at 329-342 is the same query) |
| Ledger.IsUserEligible | Fantasy.go:498-510 | true exactly when a users row exists and its age is at least 18; a missing row means not eligible; the contest id is not consulted |
| Ledger.GetRemainingSlots | Fantasy.go:513-523 | succeeds exactly when getContest would find the contest and then returns that row's remaining_slots; a missing contest is sql.ErrNoRows |
| Ledger.IsContestValid | Fantasy.go:581-588 | true exactly when getContest would find the contest |
| Ledger.SetSelection | Fantasy.go:636 | the UPDATE of selected_contest_id changes only that user's selection, keeps the age and every other user, and matches nothing for a missing user |
| Ledger.DeleteEntryRows | Fantasy.go:770 | deleting one (user, contest) pair removes every copy of that pair and keeps every other row with its number of copies |
| Ledger.DeleteUserRows | Fantasy.go:694 | deleting a user's rows removes every row of that user and keeps every other row with its number of copies |
| Ledger.CreateContest | Fantasy.go:62-91 | the new contest, read back under the next id, has remaining_slots = total_slots, status "active", active_date = start_date and created_at = now; the id was unused and every existing contest and the other tables are unchanged |
| Ledger.UpdateContestSlot | Fantasy.go:129-166 | fails with sql.ErrNoRows exactly when the contest is missing; otherwise remaining_slots reads back as exactly newSlot and nothing else changes |
| Ledger.DeleteContest | Fantasy.go:169-195 | the contest is gone and every other contest is unchanged; its occupancy rows stay; deleting a missing id is not an error |
| Ledger.CreateTeam | Fantasy.go:201-227 | the new team reads back under the next id with the given names and created_at; existing teams and the other tables are unchanged |
| Ledger.EnterContest | Fantasy.go:443-494 | rejects an ineligible user, then a missing contest, then remaining_slots <= 0, each with its own error; succeeds exactly otherwise, and then lowers that contest's remaining_slots by exactly 1 (staying >= 0), appends exactly the (user, contest) row and changes nothing else |
| Ledger.ChangeSelectedContest | Fantasy.go:610-649 | fails with "contest does not exist" exactly when the contest is missing; otherwise only that user's selected_contest_id changes, to the new id, and contests and occupancy stay as they were |
| Ledger.LeaveContest | Fantasy.go:735-783 | fails with "not participating" exactly when the pair has no row; otherwise removes every copy of that pair and keeps every other row with its number of copies, clears the user's selection and leaves every slot count unchanged |
| Ledger.LeaveAllContests | Fantasy.go:673-707 | never fails; removes every row of the user and keeps every other row with its number of copies, clears the user's selection, and leaves contests and teams unchanged |
| LedgerFacts.EnterKeepsBalance | Fantasy.go:468-485 | a join keeps remaining_slots + occupancy rows = total_slots for every contest |
| LedgerFacts.JoinNeverOverbooks | Fantasy.go:461-485 | from a balanced ledger with no negative count, a join keeps both properties and no contest holds more rows than total_slots |
| LedgerFacts.DuplicateJoinTakesTwoSlots | Fantasy.go:455-485 | the same user joins the same contest twice and both joins commit, taking two slots and adding two rows |
| LedgerFacts.JoinIgnoresStatus | Fantasy.go:455-471 | a contest whose status is not "active" is joined all the same |
| LedgerFacts.LeaveBreaksBalance | Fantasy.go:760-774 | from a balanced ledger, leaving a contest removes at least one row without releasing any slot: that contest ends short by exactly the number of rows removed, every other contest stays balanced, and the ledger is unbalanced |
| LedgerFacts.LeaveAllBreaksBalance | Fantasy.go:685-698 | from a balanced ledger, leaving all contests leaves each contest short by exactly the number of rows the user held in it; a contest the user did not hold keeps its row count and its balance, and one the user held becomes unbalanced |
| LedgerFacts.SecondLeaveFails | Fantasy.go:747-758 | after a successful leave, the same call is rejected with "not participating" |
| LedgerFacts.LeaveAllIdempotent | Fantasy.go:687-698 | leaving all contests twice gives the same state as leaving once |
| LedgerFacts.LeaveClearsUnrelatedSelection | Fantasy.go:762-767 | leaving contest c clears the user's selection even when it pointed at another contest |
| LedgerFacts.SwitchLeavesOccupancyBehind | Fantasy.go:622-640 | after a switch the user is selected in the new contest but still holds the row of the old one, has none in the new one, and no slot count moved |
| LedgerFacts.DeleteLeavesOrphanRows | Fantasy.go:181-186 | after a contest is deleted its occupancy rows remain while the contest no longer exists |
| LedgerFacts.StepKeepsWellFormed | Fantasy.go:75-78 | every operation keeps the ids unique, each row under its own id, and every occupancy row naming an issued contest id |
| LedgerFacts.StepKeepsFixedColumns | Fantasy.go:474 | no operation changes any contest column other than remaining_slots, nor any user's age, nor the set of users |
| LedgerFacts.StepKeepsBalance | Fantasy.go:474-481 | every operation except the slot override and the two leaves keeps the capacity invariant |
| LedgerFacts.StepKeepsSlotsNonNegative | Fantasy.go:468-474 | no operation but the slot override, or a creation with negative total_slots, makes a remaining_slots count negative |
| LedgerFacts.SlotOverrideBreaksBalance | Fantasy.go:150-153 | from a balanced ledger, the overridden contest is off balance by exactly newSlot minus the old count, every other contest stays balanced, and any value but the current one unbalances the ledger |
| LedgerFacts.FiveSlotRoundTrip | Fantasy.go:462-481 | three adults join a five-slot contest, leaving 2 slots; after all three leave, no row is left and the count is still 2 |
| LedgerFacts.ThreeLeavesEmptyTheContest | Fantasy.go:747-774 | three users holding one row each in a contest leave it in turn: every leave commits, no row is left, and the `contest` table is unchanged |
| Fantasy.Store.CreateContest | Fantasy.go:62-91 | the tables after the insert are exactly those Ledger.CreateContest gives, and the key invariant holds |
| Fantasy.Store.UpdateContestSlot | Fantasy.go:129-166 | returns the error and reaches the state of Ledger.UpdateContestSlot, unchanged on error |
| Fantasy.Store.DeleteContest | Fantasy.go:169-195 | reaches exactly the state of Ledger.DeleteContest |
| Fantasy.Store.CreateTeam | Fantasy.go:201-227 | reaches exactly the state of Ledger.CreateTeam |
| Fantasy.Store.EnterContest | Fantasy.go:443-494 | checks eligibility and slots, then decrements and inserts, returning the error and reaching the state of Ledger.EnterContest, unchanged on error |
| Fantasy.Store.ChangeSelectedContest | Fantasy.go:610-649 | returns the error and reaches the state of Ledger.ChangeSelectedContest, unchanged on error |
| Fantasy.Store.LeaveContest | Fantasy.go:735-783 | returns the error and reaches the state of Ledger.LeaveContest, unchanged on error |
| Fantasy.Store.LeaveAllContests | Fantasy.go:673-707 | reaches exactly the state of Ledger.LeaveAllContests |

## Left out

- **Database failures.** `db.Begin`, `tx.Exec`, `tx.QueryRow` and `tx.Commit` can fail on the
  connection or the driver, and the `recover` defers catch panics. The store here never
  fails, so each function returns only its domain errors.
- **Concurrency and isolation.** `enterContest` reads eligibility and remaining slots
  through `db`, outside its transaction (lines 456 and 462). Two parallel joins can both
  see one free slot. The model is sequential, so "no overbooking under parallel joins"
  cannot be stated. `JoinNeverOverbooks` covers sequential joins only.
- **Numbers and times.** The prize is `real` instead of `float64`, with no arithmetic on
  it. Times (`time.Time`, `NOW()`) are opaque integers, and `NOW()` is a parameter.
  `remaining_slots - 1` is never at risk of overflow, because it runs only when the count
  is positive.
- **HTTP and process code.** The HTTP routes (all `setupRoutes` variants, JSON binding,
  `strconv` parsing) are I/O plumbing and are not modelled. Neither are `main` or the
  connection constants.
- **Unmodelled fragments.** These are duplicated or broken:
  - the second `Contest` and `Team` struct shapes (lines 321 and 371);
  - the alternate `createContest(db, contest)` at line 383;
  - the closure-nested `changeSelectedContest` at line 546;
  - the orphan `UPDATE user_contest` tail at line 652;
  - the outer `leaveContest` shell at line 721.
- **The `users` table.** Its rows are owned by another system, so the model takes them
  as given when the store is constructed and never inserts or deletes them.
- **Schema-level cascades.** Foreign keys or cascades are not part of the source. The
  model assumes there are none, so `deleteContest` deletes exactly the contest row and
  the `user_contest` table accepts duplicate rows.
