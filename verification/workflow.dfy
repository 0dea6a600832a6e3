/**
 * The student routes of app.py as transitions on `State`: `register`, `verify`,
 * `login`, `vote`, and the admin route `delete_student`. Each returns the route's
 * outcome together with the state it leaves behind.
 */
module Workflow {
  import opened Wrappers
  import opened Text
  import opened Records

  /** The four `request.form.get(...)` values `vote` reads. */
  datatype Selections = Selections(
    president: Option<string>,
    vicePresident: Option<string>,
    secretary: Option<string>,
    treasurer: Option<string>)

  /** A submitted value is truthy: present and non-empty. */
  predicate Chosen(field: Option<string>) {
    field.Some? && field.value != ""
  }

  /** `all([president, vice_president, secretary, treasurer])`. */
  predicate Complete(sel: Selections) {
    Chosen(sel.president) && Chosen(sel.vicePresident) && Chosen(sel.secretary) && Chosen(sel.treasurer)
  }

  /**
   * `register` (POST). `hash` stands for `generate_password_hash`; `otp` is the value
   * `random.randint(1000, 9999)` drew. On success the session holds a fresh pending
   * registration and nothing else changes; mail delivery is not part of the state.
   */
  function BeginRegistration(
    st: State, rollField: Option<string>, emailField: Option<string>, passwordField: Option<string>,
    otp: Otp, hash: string -> string): (r: Reply<()>)
    ensures r.outcome.Err? ==> r.state == st
    ensures r.outcome.Err? ==> r.outcome.error in {MissingField, WeakPassword, NotEligible, AlreadyRegistered}
    ensures r.outcome == Err(MissingField) <==>
              NormalizeRoll(rollField) == [] || NormalizeEmail(emailField) == [] || passwordField.GetOr("") == []
    ensures !ValidPassword(passwordField.GetOr("")) ==> r.outcome.Err?
    ensures NormalizeRoll(rollField) !in st.roster ==> r.outcome.Err?
    ensures NormalizeRoll(rollField) in st.students ==> r.outcome.Err?
    ensures r.outcome == Err(WeakPassword) <==>
              && NormalizeRoll(rollField) != [] && NormalizeEmail(emailField) != [] && passwordField.GetOr("") != []
              && !ValidPassword(passwordField.GetOr(""))
    ensures r.outcome == Err(NotEligible) <==>
              && NormalizeRoll(rollField) != [] && NormalizeEmail(emailField) != [] && ValidPassword(passwordField.GetOr(""))
              && NormalizeRoll(rollField) !in st.roster
    ensures r.outcome == Err(AlreadyRegistered) <==>
              && NormalizeRoll(rollField) != [] && NormalizeEmail(emailField) != [] && ValidPassword(passwordField.GetOr(""))
              && NormalizeRoll(rollField) in st.roster && NormalizeRoll(rollField) in st.students
    ensures r.outcome.Ok? <==>
              && NormalizeRoll(rollField) != []
              && NormalizeEmail(emailField) != []
              && ValidPassword(passwordField.GetOr(""))
              && NormalizeRoll(rollField) in st.roster
              && NormalizeRoll(rollField) !in st.students
    ensures r.outcome.Ok? ==>
              var roll := NormalizeRoll(rollField);
              && r.state.pending.Some?
              && r.state == st.(pending := r.state.pending)
              && var p := r.state.pending.value;
              && p.roll == roll
              && p.email == NormalizeEmail(emailField)
              && p.passwordHash == hash(passwordField.value)
              && p.branch == st.roster[roll].branch
              && p.year == st.roster[roll].year
              && IsOtpCode(p.otp) && DigitsValue(p.otp) == otp
  {
    var roll := NormalizeRoll(rollField);
    var email := NormalizeEmail(emailField);
    var password := passwordField.GetOr("");
    if roll == [] || email == [] || password == [] then Reply(Err(MissingField), st)
    else if !ValidPassword(password) then Reply(Err(WeakPassword), st)
    else if roll !in st.roster then Reply(Err(NotEligible), st)
    else if roll in st.students then Reply(Err(AlreadyRegistered), st)
    else
      var row := st.roster[roll];
      OtpCode(otp);
      Reply(Ok(()), st.(pending := Some(Pending(roll, email, hash(password), row.branch, row.year, Decimal(otp)))))
  }

  /** `register` keeps the invariant: a pending registration is for an eligible roll number. */
  lemma BeginRegistrationKeepsValid(
    st: State, rollField: Option<string>, emailField: Option<string>, passwordField: Option<string>,
    otp: Otp, hash: string -> string)
    requires Valid(st)
    ensures Valid(BeginRegistration(st, rollField, emailField, passwordField, otp, hash).state)
  {
  }

  /**
   * `verify` (POST). The entered code, stripped, is compared with the stored code as
   * strings; with no pending registration the stored code is `None`, which no string
   * equals. A match inserts a verified `Student` built from the pending fields and
   * clears them; if that roll number already has an account the insert violates the
   * unique constraint and the request fails with nothing changed.
   */
  function ConfirmVerification(st: State, codeField: Option<string>): (r: Reply<nat>)
    ensures st.pending.None? ==> r == Reply(Err(InvalidCode), st)
    ensures st.pending.Some? && Strip(codeField.GetOr("")) != st.pending.value.otp
            ==> r == Reply(Err(InvalidCode), st)
    ensures st.pending.Some? && Strip(codeField.GetOr("")) == st.pending.value.otp && st.pending.value.roll in st.students
            ==> r == Reply(Err(DuplicateAccount), st)
    ensures r.outcome.Err? ==> r.state == st
    ensures r.outcome.Ok? <==>
              st.pending.Some? && Strip(codeField.GetOr("")) == st.pending.value.otp && st.pending.value.roll !in st.students
    ensures r.outcome.Ok? ==> r.state == st.(students := r.state.students, nextId := r.state.nextId, pending := None)
    ensures r.outcome.Ok? ==>
              && st.pending.Some?
              && var p := st.pending.value;
              && Strip(codeField.GetOr("")) == p.otp
              && p.roll !in st.students
              && r.state.students.Keys == st.students.Keys + {p.roll}
              && |r.state.students| == |st.students| + 1
              && (forall k :: k in st.students ==> r.state.students[k] == st.students[k])
              && r.outcome.value == st.nextId && r.state.nextId == st.nextId + 1
              && r.state.students[p.roll] == Student(st.nextId, p.roll, p.email, p.passwordHash, p.branch, p.year, true)
              && r.state.pending.None?
              && r.state.votes == st.votes
              && r.state.voter == st.voter
              && r.state.roster == st.roster
              && r.state.candidates == st.candidates
  {
    var entered := Strip(codeField.GetOr(""));
    match st.pending
    case None => Reply(Err(InvalidCode), st)
    case Some(p) =>
      if entered != p.otp then Reply(Err(InvalidCode), st)
      else if p.roll in st.students then Reply(Err(DuplicateAccount), st)
      else
        var id := st.nextId;
        var account := Student(id, p.roll, p.email, p.passwordHash, p.branch, p.year, true);
        Reply(Ok(id), st.(students := st.students[p.roll := account], nextId := id + 1, pending := None))
  }

  /** `verify` keeps the invariant: the new account takes a fresh id and its roster row's branch and year. */
  lemma ConfirmVerificationKeepsValid(st: State, codeField: Option<string>)
    requires Valid(st)
    ensures Valid(ConfirmVerification(st, codeField).state)
  {
    var r := ConfirmVerification(st, codeField);
    if r.outcome.Ok? {
      var p := st.pending.value;
      AddAccountKeepsValid(st, p);
      assert r.state == st.(students := st.students[p.roll := Student(st.nextId, p.roll, p.email, p.passwordHash, p.branch, p.year, true)],
                            nextId := st.nextId + 1, pending := None);
    }
  }

  /** Inserting the pending account under the next id, and clearing the pending record, keeps the invariant. */
  lemma AddAccountKeepsValid(st: State, p: Pending)
    requires Valid(st) && st.pending == Some(p) && p.roll !in st.students
    ensures Valid(st.(students := st.students[p.roll := Student(st.nextId, p.roll, p.email, p.passwordHash, p.branch, p.year, true)],
                      nextId := st.nextId + 1, pending := None))
  {
    var s := st.(students := st.students[p.roll := Student(st.nextId, p.roll, p.email, p.passwordHash, p.branch, p.year, true)],
                 nextId := st.nextId + 1, pending := None);
    forall k | k in s.students
      ensures StudentOk(s, k)
    {
      if k != p.roll {
        assert StudentOk(st, k);
      }
    }
    forall k | k in st.students
      ensures st.students[k].id < st.nextId
    {
      assert StudentOk(st, k);
    }
    assert forall r1, r2 :: r1 in s.students && r2 in s.students && s.students[r1].id == s.students[r2].id ==> r1 == r2;
  }

  /**
   * `login` (POST). `check` stands for `check_password_hash`. A missing password field
   * reaches `check_password_hash` only for a verified account, where it raises.
   */
  function Authenticate(st: State, rollField: Option<string>, passwordField: Option<string>,
                        check: (string, string) -> bool): (r: Reply<()>)
    ensures r.outcome.Ok? <==>
              var roll := NormalizeRoll(rollField);
              && roll in st.students
              && st.students[roll].verified
              && passwordField.Some?
              && check(st.students[roll].passwordHash, passwordField.value)
    ensures r.outcome.Ok? ==>
              var s := st.students[NormalizeRoll(rollField)];
              r.state == st.(voter := Some(Session(s.id, s.roll)))
    ensures r.outcome.Err? ==> r.state == st
    ensures r.outcome.Err? ==> r.outcome.error in {InvalidCredentials, ServerFault}
    ensures r.outcome == Err(ServerFault) <==>
              var roll := NormalizeRoll(rollField);
              roll in st.students && st.students[roll].verified && passwordField.None?
  {
    var roll := NormalizeRoll(rollField);
    if roll in st.students && st.students[roll].verified then
      var s := st.students[roll];
      match passwordField
      case None => Reply(Err(ServerFault), st)
      case Some(pw) =>
        if check(s.passwordHash, pw) then Reply(Ok(()), st.(voter := Some(Session(s.id, s.roll))))
        else Reply(Err(InvalidCredentials), st)
    else Reply(Err(InvalidCredentials), st)
  }

  /** `login` keeps the invariant: a session is only ever opened for an account, hence for a roster roll number. */
  lemma AuthenticateKeepsValid(st: State, rollField: Option<string>, passwordField: Option<string>,
                               check: (string, string) -> bool)
    requires Valid(st)
    ensures Valid(Authenticate(st, rollField, passwordField, check).state)
  {
    var r := Authenticate(st, rollField, passwordField, check);
    if r.outcome.Ok? {
      var s := st.students[NormalizeRoll(rollField)];
      assert StudentOk(st, NormalizeRoll(rollField));
      ValidWithVoter(st, Session(s.id, s.roll));
    }
  }

  /** Opening a session for a roster roll number keeps the invariant. */
  lemma ValidWithVoter(st: State, session: Session)
    requires Valid(st) && session.roll in st.roster
    ensures Valid(st.(voter := Some(session)))
  {
    var st' := st.(voter := Some(session));
    assert forall r :: r in st.students ==> StudentOk(st, r) == StudentOk(st', r);
  }

  /** `logout`: the voter session keys are dropped; nothing else changes. */
  function Logout(st: State): (r: State)
    ensures r.voter.None?
    ensures r.(voter := st.voter) == st
  {
    st.(voter := None)
  }

  /** After `logout`, `vote` is refused until the next login, whatever is submitted. */
  lemma LogoutEndsVoting(st: State, sel: Selections)
    ensures CastBallot(Logout(st), sel) == Reply(Err(LoginRequired), Logout(st))
  {
  }

  /**
   * `vote` (POST). The session gate comes first, then the already-voted check on the
   * session's roll number, then the completeness check; only then is one `Vote` row
   * inserted. The session is not checked against the accounts table.
   */
  function CastBallot(st: State, sel: Selections): (r: Reply<()>)
    ensures st.voter.None? ==> r == Reply(Err(LoginRequired), st)
    ensures st.voter.Some? && st.voter.value.roll in st.votes ==> r == Reply(Err(AlreadyVoted), st)
    ensures st.voter.Some? && !Complete(sel) ==> r.outcome.Err? && r.state == st
    ensures st.voter.Some? && st.voter.value.roll !in st.votes && !Complete(sel) ==> r == Reply(Err(IncompleteBallot), st)
    ensures st.voter.Some? && st.voter.value.roll !in st.votes && Complete(sel) ==> r.outcome.Ok?
    ensures r.outcome.Err? ==> r.state == st
    ensures r.outcome.Ok? ==>
              && st.voter.Some?
              && var roll := st.voter.value.roll;
              && roll !in st.votes
              && Complete(sel)
              && r.state == st.(votes := r.state.votes)
              && r.state.votes.Keys == st.votes.Keys + {roll}
              && |r.state.votes| == |st.votes| + 1
              && r.state.votes[roll] == Vote(roll, sel.president.value, sel.vicePresident.value,
                                             sel.secretary.value, sel.treasurer.value)
    ensures forall k :: k in st.votes ==> k in r.state.votes && r.state.votes[k] == st.votes[k]
  {
    match st.voter
    case None => Reply(Err(LoginRequired), st)
    case Some(session) =>
      var roll := session.roll;
      if roll in st.votes then Reply(Err(AlreadyVoted), st)
      else if !Complete(sel) then Reply(Err(IncompleteBallot), st)
      else
        var ballot := Vote(roll, sel.president.value, sel.vicePresident.value, sel.secretary.value, sel.treasurer.value);
        Reply(Ok(()), st.(votes := st.votes[roll := ballot]))
  }

  /** `vote` keeps the invariant: the new ballot is filed under the session's roll number, which is on the roster. */
  lemma CastBallotKeepsValid(st: State, sel: Selections)
    requires Valid(st)
    ensures Valid(CastBallot(st, sel).state)
  {
    var r := CastBallot(st, sel);
    if r.outcome.Ok? {
      var roll := st.voter.value.roll;
      ValidWithBallot(st, r.state.votes[roll]);
      assert r.state == st.(votes := st.votes[roll := r.state.votes[roll]]);
    }
  }

  /** Filing a ballot under its own roster roll number keeps the invariant. */
  lemma ValidWithBallot(st: State, ballot: Vote)
    requires Valid(st) && ballot.roll in st.roster
    ensures Valid(st.(votes := st.votes[ballot.roll := ballot]))
  {
    var st' := st.(votes := st.votes[ballot.roll := ballot]);
    assert forall r :: r in st.students ==> StudentOk(st, r) == StudentOk(st', r);
  }

  /** The accounts whose primary key is not `id`. */
  function WithoutId(students: map<string, Student>, id: nat): (m: map<string, Student>)
    ensures forall k :: k in m <==> k in students && students[k].id != id
    ensures forall k :: k in m ==> m[k] == students[k]
  {
    map k | k in students && students[k].id != id :: students[k]
  }

  /**
   * `delete_student(student_id)`. Behind the admin gate; a missing id is a 404. Only the
   * account goes: its ballot, if any, and any session bound to it stay.
   */
  function DeleteAccount(st: State, id: nat): (r: Reply<()>)
    ensures !st.admin ==> r == Reply(Err(AdminRequired), st)
    ensures st.admin && (forall k :: k in st.students ==> st.students[k].id != id) ==> r == Reply(Err(NotFound), st)
    ensures r.outcome.Err? ==> r.state == st
    ensures r.outcome.Ok? ==>
              && st.admin
              && (exists k :: k in st.students && st.students[k].id == id)
              && r.state == st.(students := r.state.students)
              && (forall k :: k in r.state.students <==> k in st.students && st.students[k].id != id)
              && (forall k :: k in r.state.students ==> r.state.students[k] == st.students[k])
    ensures st.admin && (exists k :: k in st.students && st.students[k].id == id) ==> r.outcome.Ok?
    ensures r.state.votes == st.votes && r.state.voter == st.voter
    ensures Valid(st) ==> Valid(r.state)
  {
    if !st.admin then Reply(Err(AdminRequired), st)
    else if forall k :: k in st.students ==> st.students[k].id != id then Reply(Err(NotFound), st)
    else Reply(Ok(()), st.(students := WithoutId(st.students, id)))
  }

  /** Under the invariant, deleting by id removes exactly one account: the one with that roll number. */
  lemma DeleteRemovesExactlyOne(st: State, roll: string)
    requires Valid(st) && st.admin && roll in st.students
    ensures var r := DeleteAccount(st, st.students[roll].id);
            && r.outcome.Ok?
            && r.state.students.Keys == st.students.Keys - {roll}
            && |r.state.students| == |st.students| - 1
  {
    var id := st.students[roll].id;
    var r := DeleteAccount(st, id);
    assert r.state.students.Keys == st.students.Keys - {roll};
  }

  /** A successful registration followed by the correct code yields exactly one new verified account. */
  lemma RegisterThenVerify(
    st: State, rollField: Option<string>, emailField: Option<string>, passwordField: Option<string>,
    otp: Otp, hash: string -> string, roll: string, fin: Reply<nat>)
    requires BeginRegistration(st, rollField, emailField, passwordField, otp, hash).outcome.Ok?
    requires roll == NormalizeRoll(rollField)
    requires fin == ConfirmVerification(BeginRegistration(st, rollField, emailField, passwordField, otp, hash).state,
                                        Some(Decimal(otp)))
    ensures fin.outcome.Ok?
    ensures roll !in st.students && fin.state.students.Keys == st.students.Keys + {roll}
    ensures fin.state.students[roll].verified && fin.state.students[roll].roll == roll
    ensures fin.state.students[roll].email == NormalizeEmail(emailField)
    ensures passwordField.Some? && fin.state.students[roll].passwordHash == hash(passwordField.value)
    ensures roll in st.roster && fin.state.students[roll].branch == st.roster[roll].branch
    ensures fin.state.students[roll].year == st.roster[roll].year
    ensures fin.state.pending.None? && fin.state.votes == st.votes && fin.state.voter == st.voter
    ensures fin.state.candidates == st.candidates && fin.state.admin == st.admin
  {
    var mid := BeginRegistration(st, rollField, emailField, passwordField, otp, hash).state;
    OtpCode(otp);
    DigitsTrimmed(Decimal(otp));
    VerifyStoredCode(mid, Decimal(otp));
  }

  /** Entering the stored code itself verifies a pending registration whose roll number has no account yet. */
  lemma VerifyStoredCode(st: State, code: string)
    requires st.pending.Some? && st.pending.value.otp == code && st.pending.value.roll !in st.students
    requires Trimmed(code)
    ensures ConfirmVerification(st, Some(code)).outcome.Ok?
  {
    StripTrimmed(code);
  }

  /** Submitting a wrong code, however often, never creates an account and keeps the pending registration. */
  lemma WrongCodeIsRetryable(st: State, codes: seq<Option<string>>)
    requires st.pending.Some?
    requires forall i :: 0 <= i < |codes| ==> Strip(codes[i].GetOr("")) != st.pending.value.otp
    ensures Retry(st, codes) == st
  {
    if codes != [] {
      WrongCodeIsRetryable(st, codes[1..]);
    }
  }

  /** The state after submitting `codes` to `verify` one after another. */
  function Retry(st: State, codes: seq<Option<string>>): State
    decreases |codes|
  {
    if codes == [] then st else Retry(ConfirmVerification(st, codes[0]).state, codes[1..])
  }
}
