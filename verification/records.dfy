/**
 * The records of app.py (`Student`, `Vote`, `Candidate`), the roster loaded from the
 * spreadsheet, the per-browser session keys, and the whole application state the
 * routes read and write. Database tables become maps keyed by their unique column.
 */
module Records {
  import opened Wrappers
  import opened Text

  /** One row of the eligibility roster; the roll number is the map key. */
  datatype RosterEntry = RosterEntry(email: string, branch: string, year: string)

  /** A `Student` row. `roll` is unique (the `unique=True` column), so the table is keyed by it. */
  datatype Student = Student(
    id: nat,
    roll: string,
    email: string,
    passwordHash: string,
    branch: string,
    year: string,
    verified: bool)

  /** A `Vote` row: one selection per office, stored as the submitted name. */
  datatype Vote = Vote(
    roll: string,
    president: string,
    vicePresident: string,
    secretary: string,
    treasurer: string)
  {
    /** `getattr(vote, column)` for the four selection columns; `None` for any other name. */
    function Selection(column: string): Option<string> {
      if column == "president" then Some(president)
      else if column == "vice_president" then Some(vicePresident)
      else if column == "secretary" then Some(secretary)
      else if column == "treasurer" then Some(treasurer)
      else None
    }
  }

  /** A `Candidate` row; `position` is a free string and `image` an optional file name. */
  datatype Candidate = Candidate(name: string, position: string, image: Option<string>)

  /** The `reg_*` and `otp` session keys `register` writes and `verify` reads. */
  datatype Pending = Pending(
    roll: string,
    email: string,
    passwordHash: string,
    branch: string,
    year: string,
    otp: string)

  /** The `student_id` and `roll_number` session keys `login` writes. */
  datatype Session = Session(studentId: nat, roll: string)

  /** Everything the student and admin routes read or write. */
  datatype State = State(
    roster: map<string, RosterEntry>,
    students: map<string, Student>,
    nextId: nat,
    pending: Option<Pending>,
    voter: Option<Session>,
    admin: bool,
    votes: map<string, Vote>,
    candidates: seq<Candidate>)

  /** The outcomes the routes flash; `DuplicateAccount` and `ServerFault` are exceptions the routes do not catch. */
  datatype Error =
    | MissingField        // "All fields required"
    | WeakPassword        // "Password must have 6+ chars and uppercase"
    | NotEligible         // "Roll number not allowed"
    | AlreadyRegistered   // "Already registered"
    | InvalidCode         // "Invalid OTP"
    | DuplicateAccount    // unique constraint on Student.roll_number violated at commit
    | InvalidCredentials  // "Invalid credentials"
    | ServerFault         // check_password_hash given a missing password
    | LoginRequired       // "Login first"
    | AlreadyVoted        // "Already voted"
    | IncompleteBallot    // "Select all positions"
    | AdminRequired       // "Admin login required"
    | NotFound            // get_or_404

  /** What a route returns, and the state after it. */
  datatype Reply<+T> = Reply(outcome: Result<T, Error>, state: State)

  /** The state of a fresh deployment: empty tables, empty session. */
  function Initial(roster: map<string, RosterEntry>, candidates: seq<Candidate>, admin: bool): State {
    State(roster, map[], 1, None, None, admin, map[], candidates)
  }

  /** A student account is keyed by its roll number, verified, and copies its roster row's branch and year. */
  ghost predicate StudentOk(st: State, r: string)
    requires r in st.students
  {
    var s := st.students[r];
    && s.roll == r
    && s.id < st.nextId
    && s.verified
    && r in st.roster
    && s.branch == st.roster[r].branch
    && s.year == st.roster[r].year
  }

  /** A pending registration is for an eligible roll number, carries its roster branch and year and a four-digit code. */
  ghost predicate PendingOk(roster: map<string, RosterEntry>, p: Pending) {
    && p.roll in roster
    && p.branch == roster[p.roll].branch
    && p.year == roster[p.roll].year
    && IsOtpCode(p.otp)
  }

  /** The invariant every route keeps. */
  ghost predicate Valid(st: State) {
    && (forall r :: r in st.students ==> StudentOk(st, r))
    && (forall r1, r2 :: r1 in st.students && r2 in st.students && st.students[r1].id == st.students[r2].id ==> r1 == r2)
    && (forall r :: r in st.votes ==> st.votes[r].roll == r && r in st.roster)
    && (st.pending.Some? ==> PendingOk(st.roster, st.pending.value))
    && (st.voter.Some? ==> st.voter.value.roll in st.roster)
  }

  /** No two ballots carry the same roll number. */
  ghost predicate OneBallotPerRoll(votes: map<string, Vote>) {
    forall r1, r2 :: r1 in votes && r2 in votes && votes[r1].roll == votes[r2].roll ==> r1 == r2
  }

  /** A fresh deployment satisfies the invariant. */
  lemma InitialValid(roster: map<string, RosterEntry>, candidates: seq<Candidate>, admin: bool)
    ensures Valid(Initial(roster, candidates, admin))
  {
  }

  /** Under the invariant, each roll number owns at most one ballot and every ballot's voter is on the roster. */
  lemma ValidBallots(st: State)
    requires Valid(st)
    ensures OneBallotPerRoll(st.votes)
    ensures forall r :: r in st.votes ==> st.votes[r].roll in st.roster
  {
  }
}
