/** The rows of the contest database and the database itself, as values.
    The four tables are `contest`, `user_contest`, `users` and `team`. */
module Schema {

  /** Timestamps (`time.Time`, `NOW()`) are opaque: nothing computes with them. */
  type Time = int

  datatype Option<T> = None | Some(value: T)

  /** A row of the `contest` table. */
  datatype Contest = Contest(
    id: int,
    name: string,
    prize: real,
    totalSlots: int,
    remainingSlots: int,
    startDate: Time,
    endDate: Time,
    status: string,
    activeDate: Time,
    createdAt: Time)

  /** A row of the `team` table. */
  datatype Team = Team(id: int, name: string, displayName: string, createdAt: Time)

  /** The two columns of the externally owned `users` table that the core reads or writes;
      `None` is SQL NULL. */
  datatype User = User(age: int, selectedContestId: Option<int>)

  /** A row of the `user_contest` occupancy table. */
  datatype Entry = Entry(userId: int, contestId: int)

  /** The whole database. `userContest` holds the occupancy rows in insertion order;
      the table has no key, so the same pair may occur more than once.
      The two counters are the AUTO_INCREMENT values of `contest` and `team`. */
  datatype Db = Db(
    contests: map<int, Contest>,
    userContest: seq<Entry>,
    users: map<int, User>,
    teams: map<int, Team>,
    nextContestId: int,
    nextTeamId: int)

  /** The error values the core returns. */
  datatype Error =
    | NoRows               // sql.ErrNoRows, passed through unchanged
    | ContestNotFound      // "contest not found"
    | TeamNotFound         // "team not found"
    | NotEligible          // "User is not eligible to enter this contest"
    | NoRemainingSlots     // "No remaining slots available in the contest"
    | ContestDoesNotExist  // "The specified contest does not exist"
    | NotParticipating     // "User is not participating in the contest"

  datatype Result<T> = Ok(value: T) | Err(error: Error)
}
