/**
 * The string helpers of app.py: `normalize_roll`, `valid_password`, `allowed_file`,
 * and the pieces of Python's `str` they rely on (strip, upper, lower, `str(int)`),
 * all on the ASCII range.
 */
module Text {
  import opened Wrappers

  // ---- Characters -------------------------------------------------------

  /** The ASCII characters Python's `str.isspace` accepts, so the ones `strip()` removes. */
  predicate IsSpace(c: char) {
    c == ' ' || ('\U{9}' <= c <= '\U{D}') || ('\U{1C}' <= c <= '\U{1F}')
  }

  predicate IsLowerAscii(c: char) { 'a' <= c <= 'z' }

  predicate IsUpperAscii(c: char) { 'A' <= c <= 'Z' }

  predicate IsDigit(c: char) { '0' <= c <= '9' }

  function UpperChar(c: char): (u: char)
    ensures !IsLowerAscii(u)
    ensures IsSpace(u) <==> IsSpace(c)
    ensures !IsLowerAscii(c) ==> u == c
  {
    if IsLowerAscii(c) then (c as int - 32) as char else c
  }

  function LowerChar(c: char): (l: char)
    ensures !IsUpperAscii(l)
    ensures IsSpace(l) <==> IsSpace(c)
    ensures !IsUpperAscii(c) ==> l == c
  {
    if IsUpperAscii(c) then (c as int + 32) as char else c
  }

  // ---- Case mapping -----------------------------------------------------

  /** `s.upper()` restricted to ASCII letters. */
  function Upper(s: string): (r: string)
    ensures |r| == |s|
    ensures forall i :: 0 <= i < |s| ==> r[i] == UpperChar(s[i])
  {
    seq(|s|, i requires 0 <= i < |s| => UpperChar(s[i]))
  }

  /** `s.lower()` restricted to ASCII letters. */
  function Lower(s: string): (r: string)
    ensures |r| == |s|
    ensures forall i :: 0 <= i < |s| ==> r[i] == LowerChar(s[i])
  {
    seq(|s|, i requires 0 <= i < |s| => LowerChar(s[i]))
  }

  /** `s.replace(a, b)` for single characters. */
  function ReplaceChar(s: string, a: char, b: char): (r: string)
    ensures |r| == |s|
    ensures forall i :: 0 <= i < |s| ==> r[i] == (if s[i] == a then b else s[i])
  {
    seq(|s|, i requires 0 <= i < |s| => if s[i] == a then b else s[i])
  }

  // ---- Stripping --------------------------------------------------------

  /** Neither end of `s` is whitespace. */
  predicate Trimmed(s: string) {
    s == [] || (!IsSpace(s[0]) && !IsSpace(s[|s| - 1]))
  }

  /** Everything outside `s[i..j]` is whitespace. */
  predicate SpaceMargins(s: string, i: int, j: int) {
    && 0 <= i <= j <= |s|
    && (forall k :: 0 <= k < i ==> IsSpace(s[k]))
    && (forall k :: j <= k < |s| ==> IsSpace(s[k]))
  }

  /** `s.lstrip()`: the suffix of `s` left after dropping its leading whitespace. */
  function TrimStart(s: string): (r: string)
    ensures |r| <= |s| && r == s[|s| - |r|..]
    ensures forall k :: 0 <= k < |s| - |r| ==> IsSpace(s[k])
    ensures r == [] || !IsSpace(r[0])
  {
    if |s| > 0 && IsSpace(s[0]) then TrimStart(s[1..]) else s
  }

  /** `s.rstrip()`: the prefix of `s` left after dropping its trailing whitespace. */
  function TrimEnd(s: string): (r: string)
    ensures |r| <= |s| && r == s[..|r|]
    ensures forall k :: |r| <= k < |s| ==> IsSpace(s[k])
    ensures r == [] || !IsSpace(r[|r| - 1])
  {
    if |s| > 0 && IsSpace(s[|s| - 1]) then TrimEnd(s[..|s| - 1]) else s
  }

  /** `s.strip()`: a slice of `s` with whitespace margins and no whitespace at either end. */
  function Strip(s: string): (r: string)
    ensures Trimmed(r) && |r| <= |s|
    ensures exists i, j :: SpaceMargins(s, i, j) && r == s[i..j]
  {
    var t := TrimStart(s);
    var r := TrimEnd(t);
    TrimMargins(s, t, r);
    r
  }

  /** Trimming the start and then the end of `s` leaves a slice of `s` with whitespace margins. */
  lemma TrimMargins(s: string, t: string, r: string)
    requires |t| <= |s| && t == s[|s| - |t|..] && forall k :: 0 <= k < |s| - |t| ==> IsSpace(s[k])
    requires |r| <= |t| && r == t[..|r|] && forall k :: |r| <= k < |t| ==> IsSpace(t[k])
    ensures SpaceMargins(s, |s| - |t|, |s| - |t| + |r|) && r == s[|s| - |t|..|s| - |t| + |r|]
  {
    var i := |s| - |t|;
    forall k | i + |r| <= k < |s|
      ensures IsSpace(s[k])
    {
      assert s[k] == t[k - i];
    }
    assert s[i..i + |r|] == r;
  }

  /** The slice with whitespace margins and trimmed ends is unique, so it is what `Strip` returns. */
  lemma StripUnique(s: string, i: int, j: int)
    requires SpaceMargins(s, i, j) && Trimmed(s[i..j])
    ensures Strip(s) == s[i..j]
  {
    var r := Strip(s);
    var i', j' :| SpaceMargins(s, i', j') && r == s[i'..j'];
    if i < j {
      SliceEnds(s, i, j);
      assert i' <= i < j';
      SliceEnds(s, i', j');
      assert i' == i && j' == j;
    }
  }

  /** The end characters of a trimmed, non-empty slice are not whitespace. */
  lemma SliceEnds(s: string, i: int, j: int)
    requires 0 <= i < j <= |s| && Trimmed(s[i..j])
    ensures !IsSpace(s[i]) && !IsSpace(s[j - 1])
  {
    assert s[i..j][0] == s[i] && s[i..j][j - i - 1] == s[j - 1];
  }

  /** Stripping a string that has no whitespace at its ends changes nothing. */
  lemma StripTrimmed(s: string)
    requires Trimmed(s)
    ensures Strip(s) == s
  {
    assert s[0..|s|] == s;
    StripUnique(s, 0, |s|);
  }

  // ---- normalize_roll ---------------------------------------------------

  /** Every character of `s` is outside 'a'..'z'. */
  predicate NoLowerAscii(s: string) {
    forall i :: 0 <= i < |s| ==> !IsLowerAscii(s[i])
  }

  /** Every character of `s` is outside 'A'..'Z'. */
  predicate NoUpperAscii(s: string) {
    forall i :: 0 <= i < |s| ==> !IsUpperAscii(s[i])
  }

  /** `normalize_roll(roll)`: `(roll or "").strip().upper()`. */
  function NormalizeRoll(roll: Option<string>): (r: string)
    ensures Trimmed(r) && NoLowerAscii(r)
    ensures roll.None? ==> r == ""
    ensures |r| <= |roll.GetOr("")|
    ensures exists i, j :: SpaceMargins(roll.GetOr(""), i, j) && r == Upper(roll.GetOr("")[i..j])
  {
    var s := Strip(roll.GetOr(""));
    UpperKeepsTrimmed(s);
    Upper(s)
  }

  /** Any trimmed slice with whitespace margins determines the normal form: it is that slice, upper-cased. */
  lemma NormalizeRollOfSlice(s: string, i: int, j: int)
    requires SpaceMargins(s, i, j) && Trimmed(s[i..j])
    ensures NormalizeRoll(Some(s)) == Upper(s[i..j])
  {
    StripUnique(s, i, j);
  }

  /** Case mapping leaves whitespace where it is, so a trimmed string stays trimmed. */
  lemma UpperKeepsTrimmed(s: string)
    requires Trimmed(s)
    ensures Trimmed(Upper(s)) && |Upper(s)| == |s|
  {
    var r := Upper(s);
    if s != [] {
      assert IsSpace(r[0]) == IsSpace(s[0]);
      assert IsSpace(r[|r| - 1]) == IsSpace(s[|s| - 1]);
    }
  }

  /** Upper-casing a string with no lower-case letter changes nothing. */
  lemma UpperOfUpper(s: string)
    requires NoLowerAscii(s)
    ensures Upper(s) == s
  {
  }

  /** `normalize_roll` is idempotent. */
  lemma NormalizeRollIdempotent(roll: Option<string>)
    ensures NormalizeRoll(Some(NormalizeRoll(roll))) == NormalizeRoll(roll)
  {
    NormalizeRollFixed(NormalizeRoll(roll));
  }

  /** A roll number with no whitespace at either end and no lower-case letter is its own normal form. */
  lemma NormalizeRollFixed(s: string)
    requires Trimmed(s) && NoLowerAscii(s)
    ensures NormalizeRoll(Some(s)) == s
  {
    StripTrimmed(s);
    UpperOfUpper(s);
  }

  /** A string that differs from its own normal form is never the normal form of any input. */
  lemma NormalFormsAreFixed(roll: Option<string>, key: string)
    requires NormalizeRoll(Some(key)) != key
    ensures NormalizeRoll(roll) != key
  {
    NormalizeRollIdempotent(roll);
  }

  /** The e-mail normalisation of `register`: `request.form.get("email", "").strip().lower()`. */
  function NormalizeEmail(email: Option<string>): (r: string)
    ensures Trimmed(r) && NoUpperAscii(r)
    ensures email.None? ==> r == ""
    ensures exists i, j :: SpaceMargins(email.GetOr(""), i, j) && r == Lower(email.GetOr("")[i..j])
  {
    var s := Strip(email.GetOr(""));
    LowerKeepsTrimmed(s);
    Lower(s)
  }

  /** Lower-casing, like upper-casing, keeps a trimmed string trimmed. */
  lemma LowerKeepsTrimmed(s: string)
    requires Trimmed(s)
    ensures Trimmed(Lower(s)) && |Lower(s)| == |s|
  {
    var r := Lower(s);
    if s != [] {
      assert IsSpace(r[0]) == IsSpace(s[0]);
      assert IsSpace(r[|r| - 1]) == IsSpace(s[|s| - 1]);
    }
  }

  // ---- valid_password ---------------------------------------------------

  /** `re.search(r"[A-Z]", pw)` found a match. */
  function HasUpper(pw: string): (b: bool)
    ensures b <==> exists i :: 0 <= i < |pw| && IsUpperAscii(pw[i])
  {
    if pw == [] then false
    else if IsUpperAscii(pw[0]) then true
    else
      var rest := HasUpper(pw[1..]);
      assert forall i :: 1 <= i < |pw| ==> pw[i] == pw[1..][i - 1];
      rest
  }

  /** `valid_password(pw)`: at least six characters, one of them in 'A'..'Z'. */
  function ValidPassword(pw: string): (b: bool)
    ensures b <==> |pw| >= 6 && exists i :: 0 <= i < |pw| && IsUpperAscii(pw[i])
  {
    |pw| >= 6 && HasUpper(pw)
  }

  // ---- allowed_file -----------------------------------------------------

  /** `ALLOWED_EXTENSIONS`. */
  const ImageExtensions: set<string> := {"png", "jpg", "jpeg", "gif"}

  /** The index of the last `c` in `s`, if any (what `rsplit(c, 1)` splits at). */
  function LastIndexOf(s: string, c: char): (r: Option<nat>)
    ensures r.None? <==> c !in s
    ensures r.Some? ==> r.value < |s| && s[r.value] == c && c !in s[r.value + 1..]
  {
    if s == [] then None
    else if s[|s| - 1] == c then Some(|s| - 1)
    else
      var r := LastIndexOf(s[..|s| - 1], c);
      assert s == s[..|s| - 1] + [s[|s| - 1]];
      if r.Some? then
        assert s[r.value + 1..] == s[..|s| - 1][r.value + 1..] + [s[|s| - 1]];
        r
      else r
  }

  /** `allowed_file(filename)`: there is a '.', and the lower-cased text after the last one is an image extension. */
  predicate AllowedFile(filename: string) {
    match LastIndexOf(filename, '.')
    case None => false
    case Some(i) => Lower(filename[i + 1..]) in ImageExtensions
  }

  /** A name without a dot is never allowed. */
  lemma AllowedFileNeedsDot(filename: string)
    requires '.' !in filename
    ensures !AllowedFile(filename)
  {
  }

  /** Any name with a dot splits uniquely as `stem + "." + ext` with a dot-free `ext`; only `ext` decides. */
  lemma AllowedFileSplit(stem: string, ext: string)
    requires '.' !in ext
    ensures AllowedFile(stem + "." + ext) <==> Lower(ext) in ImageExtensions
  {
    var f := stem + "." + ext;
    assert f[|stem|] == '.';
    var r := LastIndexOf(f, '.');
    assert r.Some?;
    assert f[r.value + 1..] == ext;
  }

  // ---- str(int) ---------------------------------------------------------

  function DigitChar(d: nat): (c: char)
    requires d < 10
    ensures IsDigit(c)
  {
    ('0' as int + d) as char
  }

  /** `str(n)` for a natural number: its decimal digits, without leading zeros. */
  function Decimal(n: nat): (r: string)
    ensures |r| >= 1
    ensures forall i :: 0 <= i < |r| ==> IsDigit(r[i])
  {
    if n < 10 then [DigitChar(n)] else Decimal(n / 10) + [DigitChar(n % 10)]
  }

  predicate AllDigits(s: string) {
    forall i :: 0 <= i < |s| ==> IsDigit(s[i])
  }

  /** Digits are not whitespace, so a digit string has nothing to strip. */
  lemma DigitsTrimmed(s: string)
    requires AllDigits(s)
    ensures Trimmed(s)
  {
    if s != [] {
      assert IsDigit(s[0]) && IsDigit(s[|s| - 1]);
    }
  }

  /** The number a string of decimal digits denotes (`int(s)`). */
  function DigitsValue(s: string): nat
    requires AllDigits(s)
  {
    if s == [] then 0 else 10 * DigitsValue(s[..|s| - 1]) + (s[|s| - 1] as int - '0' as int)
  }

  /** Reading back the digits `str(n)` wrote gives `n`. */
  lemma {:induction false} DecimalRoundTrip(n: nat)
    ensures DigitsValue(Decimal(n)) == n
  {
    if n >= 10 {
      var s := Decimal(n);
      assert s[..|s| - 1] == Decimal(n / 10);
      DecimalRoundTrip(n / 10);
    }
  }

  /** Distinct numbers print differently. */
  lemma DecimalInjective(a: nat, b: nat)
    requires Decimal(a) == Decimal(b)
    ensures a == b
  {
    DecimalRoundTrip(a);
    DecimalRoundTrip(b);
  }

  /** A four-digit code as `str(random.randint(1000, 9999))` produces it. */
  predicate IsOtpCode(code: string) {
    |code| == 4 && AllDigits(code) && 1000 <= DigitsValue(code) <= 9999
  }

  /** The numbers `random.randint(1000, 9999)` can return. */
  type Otp = n: nat | 1000 <= n <= 9999 witness 1000

  /** `str(otp)` is a four-digit code whose value is `otp`. */
  lemma OtpCode(otp: Otp)
    ensures IsOtpCode(Decimal(otp)) && DigitsValue(Decimal(otp)) == otp
  {
    assert 100 <= otp / 10 < 1000;
    assert 10 <= otp / 100 < 100;
    assert 1 <= otp / 1000 < 10;
    assert |Decimal(otp / 1000)| == 1;
    assert |Decimal(otp / 100)| == 2 by { assert (otp / 100) / 10 == otp / 1000; }
    assert |Decimal(otp / 10)| == 3 by { assert (otp / 10) / 10 == otp / 100; }
    DecimalRoundTrip(otp);
  }
}
