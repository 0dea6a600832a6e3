/**
 * Sequences of requests against one deployment: every route as one `Step`, a `Run` of
 * many steps, and the guarantees that hold across a whole history: each roll number's
 * ballot is recorded at most once and never altered afterwards, and the invariant holds
 * throughout.
 */
module History {
  import opened Wrappers
  import opened Text
  import opened Records
  import opened Workflow
  import Tally

  /** The password primitives the routes call: `generate_password_hash` and `check_password_hash`. */
  datatype Env = Env(hash: string -> string, check: (string, string) -> bool)

  /** One POST to one of the modelled routes, with the form fields it reads. */
  datatype Request =
    | Register(roll: Option<string>, email: Option<string>, password: Option<string>, otp: Otp)
    | Verify(code: Option<string>)
    | Login(roll: Option<string>, password: Option<string>)
    | SignOut
    | Cast(ballot: Selections)
    | DeleteStudent(id: nat)
    | Results

  /** The roll number whose ballot a request recorded, if any, and the state after it. */
  datatype Transition = Transition(recorded: Option<string>, next: State)

  /** Every ballot in `before` is in `after`, unchanged. */
  ghost predicate Keeps(before: map<string, Vote>, after: map<string, Vote>) {
    forall k :: k in before ==> k in after && after[k] == before[k]
  }

  /**
   * What a request may do to the ballots: keep every one, and add exactly the one it
   * records, for a roll number that had none, or nothing at all.
   */
  ghost predicate Extends(before: map<string, Vote>, t: Transition) {
    && Keeps(before, t.next.votes)
    && (t.recorded.None? ==> t.next.votes == before)
    && (t.recorded.Some? ==>
          && t.recorded.value !in before
          && t.next.votes.Keys == before.Keys + {t.recorded.value})
  }

  /** Serve one request. Only `vote` touches the ballots, and only by adding one. */
  function Step(st: State, rq: Request, env: Env): (t: Transition)
    ensures Extends(st.votes, t)
    ensures t.next.roster == st.roster
  {
    match rq
    case Register(roll, email, password, otp) =>
      Transition(None, BeginRegistration(st, roll, email, password, otp, env.hash).state)
    case Verify(code) => Transition(None, ConfirmVerification(st, code).state)
    case Login(roll, password) => Transition(None, Authenticate(st, roll, password, env.check).state)
    case SignOut => Transition(None, Logout(st))
    case Cast(sel) =>
      var r := CastBallot(st, sel);
      Transition(if r.outcome.Ok? then Some(st.voter.value.roll) else None, r.state)
    case DeleteStudent(id) => Transition(None, DeleteAccount(st, id).state)
    case Results => Transition(None, Tally.ComputeResults(st).state)
  }

  /** Every route keeps the invariant. */
  lemma StepKeepsValid(st: State, rq: Request, env: Env)
    requires Valid(st)
    ensures Valid(Step(st, rq, env).next)
  {
    match rq
    case Register(roll, email, password, otp) =>
      BeginRegistrationKeepsValid(st, roll, email, password, otp, env.hash);
    case Verify(code) =>
      ConfirmVerificationKeepsValid(st, code);
    case Login(roll, password) =>
      AuthenticateKeepsValid(st, roll, password, env.check);
    case Cast(sel) =>
      CastBallotKeepsValid(st, sel);
    case _ =>
  }

  /** What a run of requests recorded, step by step, and where it ended. */
  datatype Trace = Trace(recorded: seq<Option<string>>, final: State)

  /** Serve `rqs` in order. */
  function Run(st: State, rqs: seq<Request>, env: Env): (t: Trace)
    ensures |t.recorded| == |rqs|
    decreases |rqs|
  {
    if rqs == [] then Trace([], st)
    else
      var first := Step(st, rqs[0], env);
      var rest := Run(first.next, rqs[1..], env);
      Trace([first.recorded] + rest.recorded, rest.final)
  }

  /**
   * Exactly-once ballots over any history: no roll number is recorded twice, none that
   * already had a ballot is recorded again, every ballot present at the start survives
   * unchanged, and every ballot at the end was there at the start or recorded by a step.
   */
  lemma ExactlyOnce(st: State, rqs: seq<Request>, env: Env)
    ensures var t := Run(st, rqs, env);
            && (forall i, j :: 0 <= i < j < |rqs| && t.recorded[i].Some? && t.recorded[j].Some? ==>
                  t.recorded[i].value != t.recorded[j].value)
            && (forall i :: 0 <= i < |rqs| && t.recorded[i].Some? ==>
                  t.recorded[i].value !in st.votes && t.recorded[i].value in t.final.votes)
            && (forall k :: k in st.votes ==> k in t.final.votes && t.final.votes[k] == st.votes[k])
            && (forall k :: k in t.final.votes && k !in st.votes ==>
                  exists i :: 0 <= i < |rqs| && t.recorded[i] == Some(k))
  {
    RunExtends(st, rqs, env);
  }

  /** Each recorded roll number had no ballot in `before` and has one in `after`. */
  ghost predicate RecordedNew(recorded: seq<Option<string>>, before: map<string, Vote>, after: map<string, Vote>) {
    forall i :: 0 <= i < |recorded| && recorded[i].Some? ==>
      recorded[i].value !in before && recorded[i].value in after
  }

  /** No roll number is recorded twice. */
  ghost predicate DistinctRecords(recorded: seq<Option<string>>) {
    forall i, j :: 0 <= i < j < |recorded| && recorded[i].Some? && recorded[j].Some? ==>
      recorded[i].value != recorded[j].value
  }

  /** Every ballot in `after` but not in `before` was recorded. */
  ghost predicate Explains(recorded: seq<Option<string>>, before: map<string, Vote>, after: map<string, Vote>) {
    forall k :: k in after && k !in before ==> exists i :: 0 <= i < |recorded| && recorded[i] == Some(k)
  }

  /** The ballot guarantees of a run, by induction on its requests. */
  lemma {:induction false} RunExtends(st: State, rqs: seq<Request>, env: Env)
    ensures var t := Run(st, rqs, env);
            && Keeps(st.votes, t.final.votes)
            && RecordedNew(t.recorded, st.votes, t.final.votes)
            && DistinctRecords(t.recorded)
            && Explains(t.recorded, st.votes, t.final.votes)
    decreases |rqs|
  {
    if rqs != [] {
      var first := Step(st, rqs[0], env);
      var rest := Run(first.next, rqs[1..], env);
      RunExtends(first.next, rqs[1..], env);
      assert Run(st, rqs, env) == Trace([first.recorded] + rest.recorded, rest.final);
      ExtendKeeps(st.votes, first, rest.final.votes);
      ExtendRecordedNew(st.votes, first, rest.recorded, rest.final.votes);
      ExtendDistinct(st.votes, first, rest.recorded, rest.final.votes);
      ExtendExplains(st.votes, first, rest.recorded, rest.final.votes);
    }
  }

  /** A step followed by a run keeps every ballot the step started with. */
  lemma ExtendKeeps(before: map<string, Vote>, first: Transition, after: map<string, Vote>)
    requires Extends(before, first) && Keeps(first.next.votes, after)
    ensures Keeps(before, after)
  {
    forall k | k in before
      ensures k in after && after[k] == before[k]
    {
      assert k in first.next.votes && first.next.votes[k] == before[k];
    }
  }

  /** A step followed by a run records only roll numbers that had no ballot, and leaves each one's ballot in place. */
  lemma ExtendRecordedNew(before: map<string, Vote>, first: Transition, recorded: seq<Option<string>>,
                          after: map<string, Vote>)
    requires Extends(before, first)
    requires Keeps(first.next.votes, after) && RecordedNew(recorded, first.next.votes, after)
    ensures RecordedNew([first.recorded] + recorded, before, after)
  {
    var all := [first.recorded] + recorded;
    forall i | 0 <= i < |all| && all[i].Some?
      ensures all[i].value !in before && all[i].value in after
    {
      var k := all[i].value;
      if i == 0 {
        assert k in first.next.votes.Keys;
      } else {
        assert recorded[i - 1] == all[i];
        assert k !in first.next.votes;
      }
    }
  }

  /** A step's recorded roll number now has a ballot, so the rest of the run cannot record it again. */
  lemma ExtendDistinct(before: map<string, Vote>, first: Transition, recorded: seq<Option<string>>,
                       after: map<string, Vote>)
    requires Extends(before, first)
    requires RecordedNew(recorded, first.next.votes, after) && DistinctRecords(recorded)
    ensures DistinctRecords([first.recorded] + recorded)
  {
    var all := [first.recorded] + recorded;
    forall i, j | 0 <= i < j < |all| && all[i].Some? && all[j].Some?
      ensures all[i].value != all[j].value
    {
      assert recorded[j - 1] == all[j];
      if i == 0 {
        assert all[i].value in first.next.votes.Keys;
      } else {
        assert recorded[i - 1] == all[i];
      }
    }
  }

  /** A ballot new at the end of a step and a run was added by the step or by the run. */
  lemma ExtendExplains(before: map<string, Vote>, first: Transition, recorded: seq<Option<string>>,
                       after: map<string, Vote>)
    requires Extends(before, first) && Explains(recorded, first.next.votes, after)
    ensures Explains([first.recorded] + recorded, before, after)
  {
    var all := [first.recorded] + recorded;
    forall k | k in after && k !in before
      ensures exists i :: 0 <= i < |all| && all[i] == Some(k)
    {
      if k in first.next.votes {
        assert all[0] == Some(k);
      } else {
        var i :| 0 <= i < |recorded| && recorded[i] == Some(k);
        assert all[i + 1] == Some(k);
      }
    }
  }

  /** The invariant holds after any history that starts in a valid state. */
  lemma {:induction false} RunKeepsValid(st: State, rqs: seq<Request>, env: Env)
    requires Valid(st)
    ensures Valid(Run(st, rqs, env).final)
    decreases |rqs|
  {
    if rqs != [] {
      StepKeepsValid(st, rqs[0], env);
      RunKeepsValid(Step(st, rqs[0], env).next, rqs[1..], env);
    }
  }

  /** From a fresh deployment, whatever is requested, every ballot belongs to a distinct roll number on the roster. */
  lemma BallotsAreEligible(roster: map<string, RosterEntry>, candidates: seq<Candidate>, admin: bool,
                           rqs: seq<Request>, env: Env)
    ensures var fin := Run(Initial(roster, candidates, admin), rqs, env).final;
            && OneBallotPerRoll(fin.votes)
            && forall r :: r in fin.votes ==> fin.votes[r].roll in roster
  {
    var st := Initial(roster, candidates, admin);
    InitialValid(roster, candidates, admin);
    RunKeepsValid(st, rqs, env);
    ValidBallots(Run(st, rqs, env).final);
    assert Run(st, rqs, env).final.roster == roster by {
      RunKeepsRoster(st, rqs, env);
    }
  }

  /** No request changes the roster. */
  lemma {:induction false} RunKeepsRoster(st: State, rqs: seq<Request>, env: Env)
    ensures Run(st, rqs, env).final.roster == st.roster
    decreases |rqs|
  {
    if rqs != [] {
      RunKeepsRoster(Step(st, rqs[0], env).next, rqs[1..], env);
    }
  }

  /** The roll number of the walk-through is already in normal form. */
  lemma WalkthroughRoll()
    ensures NormalizeRoll(Some("CS101")) == "CS101"
  {
    NormalizeRollFixed("CS101");
  }

  /** Lower case and a trailing blank in the login form normalise away. */
  lemma WalkthroughLoginRoll()
    ensures NormalizeRoll(Some("cs101 ")) == "CS101"
  {
    assert "cs101 "[0..5] == "cs101";
    StripUnique("cs101 ", 0, 5);
    UpperCs101();
  }

  /** Upper-casing the walk-through's typed roll number, one character at a time. */
  lemma UpperCs101()
    ensures Upper("cs101") == "CS101"
  {
    var u := Upper("cs101");
    assert u[0] == 'C' && u[1] == 'S' && u[2] == '1' && u[3] == '0' && u[4] == '1';
  }

  /** The walk-through's e-mail and password pass the registration checks. */
  lemma WalkthroughCredentials()
    ensures NormalizeEmail(Some("a@b.com")) != []
    ensures ValidPassword("Abcdef")
  {
    StripTrimmed("a@b.com");
    assert IsUpperAscii("Abcdef"[0]);
  }

  /** The deployment of the walk-through: one eligible student, one presidential candidate, an admin session. */
  function WalkthroughStart(): State {
    Initial(map["CS101" := RosterEntry("a@b.com", "CSE", "2024")], [Candidate("X", "President", None)], true)
  }

  /** The walk-through's ballot. */
  function WalkthroughBallot(): Selections {
    Selections(Some("X"), Some("Y"), Some("Z"), Some("W"))
  }

  /** Registering CS101 and confirming the code leaves a verified CS101 account holding the password's hash. */
  lemma WalkthroughRegistration(env: Env, otp: Otp)
    ensures var r1 := BeginRegistration(WalkthroughStart(), Some("CS101"), Some("a@b.com"), Some("Abcdef"), otp, env.hash);
            var r2 := ConfirmVerification(r1.state, Some(Decimal(otp)));
            && r1.outcome.Ok?
            && r2.outcome.Ok?
            && WalkthroughRegistered(env, r2.state)
  {
    var s0 := WalkthroughStart();
    WalkthroughRoll();
    WalkthroughCredentials();
    var r1 := BeginRegistration(s0, Some("CS101"), Some("a@b.com"), Some("Abcdef"), otp, env.hash);
    var r2 := ConfirmVerification(r1.state, Some(Decimal(otp)));
    RegisterThenVerify(s0, Some("CS101"), Some("a@b.com"), Some("Abcdef"), otp, env.hash, "CS101", r2);
  }

  /** The walk-through's state once CS101 is registered and before anyone has voted. */
  ghost predicate WalkthroughRegistered(env: Env, st: State) {
    && "CS101" in st.students
    && st.students["CS101"].verified
    && st.students["CS101"].roll == "CS101"
    && st.students["CS101"].passwordHash == env.hash("Abcdef")
    && st.votes == map[]
    && st.admin
    && st.candidates == [Candidate("X", "President", None)]
  }

  /** Logging in as "cs101 " with the registered password opens a session for CS101. */
  lemma WalkthroughLogin(env: Env, st: State)
    requires env.check(env.hash("Abcdef"), "Abcdef")
    requires WalkthroughRegistered(env, st)
    ensures var r3 := Authenticate(st, Some("cs101 "), Some("Abcdef"), env.check);
            && r3.outcome.Ok?
            && r3.state.voter.Some? && r3.state.voter.value.roll == "CS101"
            && r3.state.votes == map[]
            && r3.state.admin && r3.state.candidates == st.candidates
  {
    WalkthroughLoginRoll();
  }

  /** Voting X/Y/Z/W as CS101 and then voting again: the first ballot is recorded, the second refused. */
  lemma WalkthroughCasting(st: State)
    requires st.voter.Some? && st.voter.value.roll == "CS101" && st.votes == map[]
    ensures var r4 := CastBallot(st, WalkthroughBallot());
            var r5 := CastBallot(r4.state, WalkthroughBallot());
            && r4.outcome.Ok?
            && r5.outcome == Err(AlreadyVoted)
            && r5.state.votes == map["CS101" := Vote("CS101", "X", "Y", "Z", "W")]
            && r5.state.admin == st.admin && r5.state.candidates == st.candidates
  {
    var r4 := CastBallot(st, WalkthroughBallot());
    assert r4.outcome.Ok?;
    assert r4.state.votes == map["CS101" := Vote("CS101", "X", "Y", "Z", "W")];
  }

  /** With X's single ballot cast, the results list X for President with one vote. */
  lemma WalkthroughResults(st: State)
    requires st.admin && st.candidates == [Candidate("X", "President", None)]
    requires st.votes == map["CS101" := Vote("CS101", "X", "Y", "Z", "W")]
    ensures var r6 := Tally.ComputeResults(st);
            r6.outcome.Ok? && r6.outcome.value[0].entries == [Tally.Entry("X", 1, None)]
  {
    assert Tally.OfPosition(st.candidates, Tally.Positions[0]) == [Candidate("X", "President", None)];
    assert (set r | r in st.votes && Tally.OfficeField(0, st.votes[r]) == "X") == {"CS101"};
  }

  /**
   * The walk-through of one student: register with roll CS101 and password "Abcdef",
   * confirm with the code, log in, vote X/Y/Z/W, vote again, and read the results.
   */
  lemma Walkthrough(env: Env, otp: Otp)
    requires env.check(env.hash("Abcdef"), "Abcdef")
    ensures
      var r1 := BeginRegistration(WalkthroughStart(), Some("CS101"), Some("a@b.com"), Some("Abcdef"), otp, env.hash);
      var r2 := ConfirmVerification(r1.state, Some(Decimal(otp)));
      var r3 := Authenticate(r2.state, Some("cs101 "), Some("Abcdef"), env.check);
      var r4 := CastBallot(r3.state, WalkthroughBallot());
      var r5 := CastBallot(r4.state, WalkthroughBallot());
      var r6 := Tally.ComputeResults(r5.state);
      && r1.outcome.Ok?
      && r2.outcome.Ok? && r2.state.students["CS101"].verified
      && r3.outcome.Ok?
      && r4.outcome.Ok?
      && r5.outcome == Err(AlreadyVoted)
      && r6.outcome.Ok? && r6.outcome.value[0].entries == [Tally.Entry("X", 1, None)]
  {
    WalkthroughRegistration(env, otp);
    var r1 := BeginRegistration(WalkthroughStart(), Some("CS101"), Some("a@b.com"), Some("Abcdef"), otp, env.hash);
    var r2 := ConfirmVerification(r1.state, Some(Decimal(otp)));
    WalkthroughLogin(env, r2.state);
    var r3 := Authenticate(r2.state, Some("cs101 "), Some("Abcdef"), env.check);
    WalkthroughCasting(r3.state);
    var r4 := CastBallot(r3.state, WalkthroughBallot());
    var r5 := CastBallot(r4.state, WalkthroughBallot());
    WalkthroughResults(r5.state);
  }
}
