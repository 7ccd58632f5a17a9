/** The registration form's checks: the email must have the shape
    `local@domain.tld` with no whitespace and a single `@`, the password
    must be at least six characters, and only a form passing both reaches
    the register call. */
module Register {
  import opened Outcomes
  import opened Sequences

  const MinPasswordLength: nat := 6
  const DefaultRegisterError: string := "Error al crear la cuenta"

  /** The characters JavaScript's regular-expression class `\s` matches. */
  predicate IsSpace(c: char) {
    c == ' ' || c == '\t' || c == '\n' || c == '\r'
    || c as int == 0x0B || c as int == 0x0C || c as int == 0xA0 || c as int == 0x1680
    || (0x2000 <= c as int <= 0x200A)
    || c as int == 0x2028 || c as int == 0x2029 || c as int == 0x202F
    || c as int == 0x205F || c as int == 0x3000 || c as int == 0xFEFF
  }

  /** A character of the class `[^\s@]`. */
  predicate IsAddressChar(c: char) {
    !IsSpace(c) && c != '@'
  }

  predicate AllAddressChars(s: string) {
    forall k :: 0 <= k < |s| ==> IsAddressChar(s[k])
  }

  /** The language of `^[^\s@]+@[^\s@]+\.[^\s@]+$`: a non-empty run of
      address characters, `@`, a non-empty run, `.`, a non-empty run. The
      split points are the `@` at `at` and the `.` at `dot`. */
  ghost predicate MatchesEmailPattern(s: string) {
    exists at, dot :: SplitsAt(s, at, dot)
  }

  /** What follows the `@`: address characters only, with a `.` that is
      neither its first nor its last character. */
  predicate IsDomain(w: string) {
    AllAddressChars(w) && exists j :: 1 <= j < |w| - 1 && w[j] == '.'
  }

  /** The email check: locate the `@`, then check both sides. */
  predicate IsValidEmail(s: string) {
    match FindIndex(s, (c: char) => c == '@')
    case None => false
    case Some(at) => 0 < at && AllAddressChars(s[..at]) && IsDomain(s[at + 1..])
  }

  lemma AllAddressCharsSlice(s: string, a: nat, b: nat)
    requires AllAddressChars(s)
    requires a <= b <= |s|
    ensures AllAddressChars(s[a..b])
  {
    forall k | 0 <= k < b - a ensures IsAddressChar(s[a..b][k]) {
      assert s[a..b][k] == s[a + k];
    }
  }

  lemma AllAddressCharsJoin(a: string, c: char, b: string)
    requires AllAddressChars(a) && IsAddressChar(c) && AllAddressChars(b)
    ensures AllAddressChars(a + [c] + b)
  {
    var s := a + [c] + b;
    forall k | 0 <= k < |s| ensures IsAddressChar(s[k]) {
      if k < |a| {
        assert s[k] == a[k];
      } else if k > |a| {
        assert s[k] == b[k - |a| - 1];
      }
    }
  }

  /** The pattern's split points, when `at` and `dot` are ones. */
  predicate SplitsAt(s: string, at: int, dot: int) {
    && 0 < at && at + 1 < dot && dot + 1 < |s|
    && s[at] == '@' && s[dot] == '.'
    && AllAddressChars(s[..at]) && AllAddressChars(s[at + 1..dot]) && AllAddressChars(s[dot + 1..])
  }

  lemma ValidEmailMatches(s: string)
    requires IsValidEmail(s)
    ensures MatchesEmailPattern(s)
  {
    var at := FindIndex(s, (c: char) => c == '@').value;
    var w := s[at + 1..];
    var j :| 1 <= j < |w| - 1 && w[j] == '.';
    var dot := at + 1 + j;
    assert s[at + 1..dot] == w[..j];
    assert s[dot + 1..] == w[j + 1..];
    AllAddressCharsSlice(w, 0, j);
    AllAddressCharsSlice(w, j + 1, |w|);
    assert s[dot] == w[j];
    assert SplitsAt(s, at, dot);
  }

  lemma MatchesIsValidEmail(s: string, at: int, dot: int)
    requires SplitsAt(s, at, dot)
    ensures IsValidEmail(s)
  {
    var isAt := (c: char) => c == '@';
    assert isAt(s[at]);
    var w := s[at + 1..];
    assert w == s[at + 1..dot] + [s[dot]] + s[dot + 1..];
    AllAddressCharsJoin(s[at + 1..dot], s[dot], s[dot + 1..]);
    assert w[dot - at - 1] == '.';
  }

  /** The email check accepts exactly the strings the regular expression
      matches. */
  lemma EmailCheckMatchesPattern(s: string)
    ensures IsValidEmail(s) <==> MatchesEmailPattern(s)
  {
    if IsValidEmail(s) {
      ValidEmailMatches(s);
    }
    if MatchesEmailPattern(s) {
      var at, dot :| SplitsAt(s, at, dot);
      MatchesIsValidEmail(s, at, dot);
    }
  }

  /** An email without `@` is rejected. */
  lemma NoAtRejected(s: string)
    requires forall k :: 0 <= k < |s| ==> s[k] != '@'
    ensures !IsValidEmail(s)
  {
  }

  /** An email with two `@` is rejected. */
  lemma TwoAtsRejected(s: string, i: nat, j: nat)
    requires i < j < |s| && s[i] == '@' && s[j] == '@'
    ensures !IsValidEmail(s)
  {
    var isAt := (c: char) => c == '@';
    assert isAt(s[i]);
  }

  /** An email containing whitespace anywhere is rejected. */
  lemma WhitespaceRejected(s: string, k: nat)
    requires k < |s| && IsSpace(s[k])
    ensures !IsValidEmail(s)
  {
  }

  /** The boundary cases of the domain part. */
  lemma EmailExamples()
    ensures IsValidEmail("a@b.c")
    ensures !IsValidEmail("a@b.")
    ensures !IsValidEmail("a@.c")
    ensures !IsValidEmail("@b.c")
  {
    var w := "b.c";
    assert "a@b.c"[2..] == w && w[1] == '.';
    assert "a@b.c"[..1] == "a";
  }

  datatype RegisterForm = RegisterForm(name: string, email: string, password: string)

  /** What the user is told after submitting. */
  datatype Feedback = InvalidEmail | ShortPassword | Registered | RegisterFailed(message: string)

  /** What a submit does: the feedback, whether `register` was called, and
      the `loading` flag once everything has settled. */
  datatype SubmitResult = SubmitResult(feedback: Feedback, registerCalled: bool, loading: bool)

  /** handleSubmit: email first, then password; only then the register
      call, whose failure message falls back to a default when empty. */
  function HandleSubmit(form: RegisterForm, outcome: Outcome<()>): (r: SubmitResult)
    ensures r.registerCalled <==> IsValidEmail(form.email) && |form.password| >= MinPasswordLength
    ensures !IsValidEmail(form.email) ==> r.feedback == InvalidEmail
    ensures IsValidEmail(form.email) && |form.password| < MinPasswordLength ==> r.feedback == ShortPassword
    ensures r.registerCalled ==> (r.feedback == Registered <==> outcome.Ok?)
    ensures r.registerCalled && outcome.Err? && outcome.message != "" ==> r.feedback == RegisterFailed(outcome.message)
    ensures r.registerCalled && outcome.Err? && outcome.message == "" ==> r.feedback == RegisterFailed(DefaultRegisterError)
    ensures !r.loading
  {
    if !IsValidEmail(form.email) then SubmitResult(InvalidEmail, false, false)
    else if |form.password| < MinPasswordLength then SubmitResult(ShortPassword, false, false)
    else
      match outcome
      case Ok(_) => SubmitResult(Registered, true, false)
      case Err(m) => SubmitResult(RegisterFailed(if m != "" then m else DefaultRegisterError), true, false)
  }
}
