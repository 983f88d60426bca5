/** The sign-up form's validation: six checks in a fixed order, the first failing one reporting
    its message, and the submit guard that only proceeds (to the sign-in page) when every check
    passes. The account creation itself is a fixed delay that never fails, so it is not a
    parameter: a valid form always ends at the sign-in page. */
module Signup {
  import opened Common
  import opened Strings

  datatype Form = Form(firstName: string, lastName: string, email: string,
                       password: string, confirmPassword: string)

  const EmptyForm: Form := Form("", "", "", "", "")

  /** The six checks, in the order they run. */
  datatype Problem =
    | FirstNameMissing | LastNameMissing | EmailMissing | EmailMalformed | PasswordShort
    | PasswordsDiffer

  /** The message each failed check sets. */
  function Message(p: Problem): (m: string)
    ensures |m| > 0
  {
    match p
    case FirstNameMissing => "First name is required"
    case LastNameMissing => "Last name is required"
    case EmailMissing => "Email is required"
    case EmailMalformed => "Please enter a valid email address"
    case PasswordShort => "Password must be at least 8 characters long"
    case PasswordsDiffer => "Passwords do not match"
  }

  const MinPasswordLength: nat := 8

  // ---------------------------------------------------------------- the email pattern

  /** A match of `\S+\.\S+` right after an `@` at `a`: the dot at `b` is preceded by at least
      one non-space character after the `@` and followed by one. */
  predicate DotAt(s: string, a: nat, b: nat) {
    a + 2 <= b && b + 1 < |s| && s[b] == '.' && !IsSpace(s[b + 1])
    && forall k :: a < k < b ==> !IsSpace(s[k])
  }

  /** A match of `\S+@\S+\.\S+` whose `@` is at `a` and whose dot is at `b`. The `\S+` runs can
      always shrink to one character next to the `@` and the dot, so this is every match. */
  predicate EmailAt(s: string, a: nat, b: nat) {
    1 <= a < |s| && s[a] == '@' && !IsSpace(s[a - 1]) && DotAt(s, a, b)
  }

  /** `/\S+@\S+\.\S+/.test(s)`: the pattern is not anchored, so a match anywhere counts. */
  ghost predicate EmailShaped(s: string) {
    exists a: nat, b: nat :: EmailAt(s, a, b)
  }

  /** Scans the non-space run after the `@` at `a`, from `m`, for a dot that completes a match. */
  function DotFrom(s: string, a: nat, m: nat): (r: bool)
    requires a < m <= |s|
    requires forall k :: a < k < m ==> !IsSpace(s[k])
    ensures r <==> exists b: nat :: m <= b && DotAt(s, a, b)
    decreases |s| - m
  {
    if m == |s| then false
    else if IsSpace(s[m]) then
      assert forall b: nat :: m <= b && DotAt(s, a, b) ==> b == m;
      false
    else if a + 2 <= m && s[m] == '.' && m + 1 < |s| && !IsSpace(s[m + 1]) then
      assert DotAt(s, a, m);
      true
    else
      var r := DotFrom(s, a, m + 1);
      assert !DotAt(s, a, m);
      r
  }

  /** Scans for an `@` at or after `a` that starts a match. */
  function EmailFrom(s: string, a: nat): (r: bool)
    requires a <= |s|
    ensures r <==> exists x: nat, b: nat :: a <= x && EmailAt(s, x, b)
    decreases |s| - a
  {
    if a == |s| then false
    else
      var here := 1 <= a && s[a] == '@' && !IsSpace(s[a - 1]) && a + 1 <= |s| && DotFrom(s, a, a + 1);
      var rest := EmailFrom(s, a + 1);
      if here then
        var b: nat :| a + 1 <= b && DotAt(s, a, b);
        assert EmailAt(s, a, b);
        true
      else
        assert forall x: nat, b: nat :: a <= x && EmailAt(s, x, b) ==> a + 1 <= x;
        rest
  }

  /** The regular-expression test as a left-to-right scan, equal to the pattern's meaning. */
  function TestEmail(s: string): (r: bool)
    ensures r <==> EmailShaped(s)
  {
    EmailFrom(s, 0)
  }

  /** JavaScript's `length`: UTF-16 code units, two for a code point beyond the BMP. */
  function Utf16Length(s: string): (n: nat)
    ensures |s| <= n <= 2 * |s|
  {
    if |s| == 0 then 0
    else (if s[|s| - 1] as int >= 0x10000 then 2 else 1) + Utf16Length(s[..|s| - 1])
  }

  // ---------------------------------------------------------------- validation

  /** Blank as `!x.trim()` tests it. */
  predicate Blank(s: string)
    ensures Blank(s) <==> AllSpace(s)
  {
    TrimEmptyIffAllSpace(s);
    Trim(s) == []
  }

  /** `validateForm`: `None` when it returns true, else the check whose message it sets. */
  function ValidateForm(f: Form): (error: Option<Problem>)
    ensures error.None? <==>
              !AllSpace(f.firstName) && !AllSpace(f.lastName) && !AllSpace(f.email)
              && EmailShaped(f.email) && Utf16Length(f.password) >= MinPasswordLength
              && f.password == f.confirmPassword
  {
    if Blank(f.firstName) then Some(FirstNameMissing)
    else if Blank(f.lastName) then Some(LastNameMissing)
    else if Blank(f.email) then Some(EmailMissing)
    else if !TestEmail(f.email) then Some(EmailMalformed)
    else if Utf16Length(f.password) < MinPasswordLength then Some(PasswordShort)
    else if f.password != f.confirmPassword then Some(PasswordsDiffer)
    else None
  }

  // ---------------------------------------------------------------- the checks as a table

  /** The position of a check in the order they run. */
  function Rank(p: Problem): nat {
    match p
    case FirstNameMissing => 0
    case LastNameMissing => 1
    case EmailMissing => 2
    case EmailMalformed => 3
    case PasswordShort => 4
    case PasswordsDiffer => 5
  }

  /** Check `p` passes, each stated on the raw field. */
  ghost predicate Passes(f: Form, p: Problem) {
    match p
    case FirstNameMissing => !AllSpace(f.firstName)
    case LastNameMissing => !AllSpace(f.lastName)
    case EmailMissing => !AllSpace(f.email)
    case EmailMalformed => EmailShaped(f.email)
    case PasswordShort => Utf16Length(f.password) >= MinPasswordLength
    case PasswordsDiffer => f.password == f.confirmPassword
  }

  /** Validation reports check `p` exactly when every earlier check passes and `p` fails; it
      reports nothing exactly when every check passes. */
  lemma FirstFailureReported(f: Form, p: Problem)
    ensures ValidateForm(f) == Some(p) <==>
              (forall q :: Rank(q) < Rank(p) ==> Passes(f, q)) && !Passes(f, p)
    ensures ValidateForm(f).None? <==> forall q :: Passes(f, q)
  {
    var earlier := forall q :: Rank(q) < Rank(p) ==> Passes(f, q);
    match p {
      case FirstNameMissing =>
      case LastNameMissing =>
        assert earlier <==> Passes(f, FirstNameMissing);
      case EmailMissing =>
        assert earlier <==> Passes(f, FirstNameMissing) && Passes(f, LastNameMissing);
      case EmailMalformed =>
        assert earlier <==> Passes(f, FirstNameMissing) && Passes(f, LastNameMissing)
                            && Passes(f, EmailMissing);
      case PasswordShort =>
        assert earlier <==> Passes(f, FirstNameMissing) && Passes(f, LastNameMissing)
                            && Passes(f, EmailMissing) && Passes(f, EmailMalformed);
      case PasswordsDiffer =>
        assert earlier <==> Passes(f, FirstNameMissing) && Passes(f, LastNameMissing)
                            && Passes(f, EmailMissing) && Passes(f, EmailMalformed)
                            && Passes(f, PasswordShort);
    }
    assert (forall q :: Passes(f, q)) ==>
             Passes(f, FirstNameMissing) && Passes(f, LastNameMissing) && Passes(f, EmailMissing)
             && Passes(f, EmailMalformed) && Passes(f, PasswordShort) && Passes(f, PasswordsDiffer);
  }

  /** A form with text around its address but no `@` is refused for its address, not for being
      blank. */
  lemma AddressWithoutAtRefused(f: Form)
    requires !AllSpace(f.firstName) && !AllSpace(f.lastName) && !AllSpace(f.email)
    requires '@' !in f.email
    ensures ValidateForm(f) == Some(EmailMalformed)
  {
  }

  /** Because the pattern is not anchored, an address padded with spaces, or written inside a
      sentence, still passes the shape check. */
  lemma UnanchoredMatch(pre: string, user: char, host: char, top: char, post: string)
    requires !IsSpace(user) && !IsSpace(host) && !IsSpace(top)
    ensures EmailShaped(pre + [user, '@', host, '.', top] + post)
  {
    var s := pre + [user, '@', host, '.', top] + post;
    var a := |pre| + 1;
    assert s[a - 1] == user && s[a] == '@' && s[a + 1] == host && s[a + 2] == '.' && s[a + 3] == top;
    assert EmailAt(s, a, a + 2);
  }

  /** The length rule counts UTF-16 code units: four characters beyond the BMP make a long
      enough password. */
  lemma AstralPasswordLength(c: char)
    requires c as int >= 0x10000
    ensures Utf16Length([c, c, c, c]) == 8
  {
    assert [c, c, c, c][..3] == [c, c, c];
    assert [c, c, c][..2] == [c, c];
    assert [c, c][..1] == [c];
    assert Utf16Length([c]) == 2;
    assert Utf16Length([c, c]) == 4;
    assert Utf16Length([c, c, c]) == 6;
  }

  // ---------------------------------------------------------------- submit

  /** What a submit leaves behind: the error shown, where the router went, the loading flag. */
  datatype SubmitOutcome = SubmitOutcome(error: string, redirect: Option<string>, loading: bool)

  const SignInPath: string := "/signin"

  /** `handleSubmit`: clear the error, stop with the validation message when the form is
      invalid, otherwise (after the simulated request, which cannot fail) go to sign-in. */
  function HandleSubmit(f: Form): (r: SubmitOutcome)
    ensures r.redirect.Some? <==> ValidateForm(f).None?
    ensures r.redirect.Some? ==> r.redirect.value == SignInPath && r.error == ""
    ensures r.redirect.None? ==> r.error == Message(ValidateForm(f).value) && |r.error| > 0
    ensures !r.loading
  {
    match ValidateForm(f)
    case Some(p) => SubmitOutcome(Message(p), None, false)
    case None => SubmitOutcome("", Some(SignInPath), false)
  }

  /** The untouched form never gets past the first check. */
  lemma EmptyFormRefused()
    ensures HandleSubmit(EmptyForm) == SubmitOutcome(Message(FirstNameMissing), None, false)
  {
    assert AllSpace(EmptyForm.firstName);
    FirstFailureReported(EmptyForm, FirstNameMissing);
  }
}
