/**
 * The sign-up checks of the authentication service: password strength and a
 * basic e-mail format check, each answering `(is_valid, error_message)`.
 */
module Credentials {
  import opened TextOps

  type Verdict = (bool, string)

  const Accepted: Verdict := (true, "")
  const PasswordTooShort: string := "Password must be at least 8 characters long"
  const PasswordNeedsLetter: string := "Password must contain at least one letter"
  const PasswordNeedsNumber: string := "Password must contain at least one number"
  const MinPasswordLength: nat := 8

  const InvalidEmailFormat: string := "Invalid email format"
  const EmailTooShort: string := "Email is too short"
  const InvalidEmailDomain: string := "Invalid email domain"

  predicate HasLetter(p: string) { exists i | 0 <= i < |p| :: IsLetter(p[i]) }

  predicate HasDigit(p: string) { exists i | 0 <= i < |p| :: IsDigit(p[i]) }

  /** `validate_password_strength`: the first failed rule names the error. */
  function ValidatePasswordStrength(password: string): (r: Verdict)
    ensures r.0 <==> r.1 == ""
  {
    if |password| < MinPasswordLength then (false, PasswordTooShort)
    else if !HasLetter(password) then (false, PasswordNeedsLetter)
    else if !HasDigit(password) then (false, PasswordNeedsNumber)
    else Accepted
  }

  /** A password is accepted exactly when it has eight characters, a letter and
      a digit; otherwise the message names the first rule, in that order, that
      it breaks. */
  lemma PasswordRules(password: string)
    ensures ValidatePasswordStrength(password).0 <==>
      |password| >= 8 && HasLetter(password) && HasDigit(password)
    ensures |password| < 8 ==> ValidatePasswordStrength(password).1 == PasswordTooShort
    ensures |password| >= 8 && !HasLetter(password) ==>
      ValidatePasswordStrength(password).1 == PasswordNeedsLetter
    ensures |password| >= 8 && HasLetter(password) && !HasDigit(password) ==>
      ValidatePasswordStrength(password).1 == PasswordNeedsNumber
  {
  }

  /** Appending characters never turns an accepted password into a rejected one. */
  lemma {:induction false} AcceptedPasswordExtends(password: string, more: string)
    requires ValidatePasswordStrength(password).0
    ensures ValidatePasswordStrength(password + more).0
  {
    var p := password + more;
    var i :| 0 <= i < |password| && IsLetter(password[i]);
    var j :| 0 <= j < |password| && IsDigit(password[j]);
    assert IsLetter(p[i]) && IsDigit(p[j]);
  }

  /** `validate_email`: an address without `@` (the empty one included) is an
      invalid format, and one with `@` but under three characters is too short. */
  function ValidateEmail(email: string): (r: Verdict)
    ensures r.0 <==> r.1 == ""
    ensures '@' !in email ==> r == (false, InvalidEmailFormat)
    ensures '@' in email && |email| < 3 ==> r == (false, EmailTooShort)
    ensures r.0 ==> '@' in email && |email| >= 3
  {
    if email == [] || '@' !in email then (false, InvalidEmailFormat)
    else if |email| < 3 then (false, EmailTooShort)
    else
      var parts := Split(email, '@');
      if |parts| != 2 then (false, InvalidEmailFormat)
      else if parts[0] == [] || parts[1] == [] then (false, InvalidEmailFormat)
      else if '.' !in parts[1] then (false, InvalidEmailDomain)
      else Accepted
  }

  /** An accepted address is `local@domain` with both sides non-empty, exactly
      one `@`, and a `.` in the domain: returns the two sides. */
  lemma AcceptedEmailShape(email: string) returns (local: string, domain: string)
    requires ValidateEmail(email).0
    ensures email == local + "@" + domain
    ensures local != [] && domain != [] && '@' !in local && '@' !in domain && '.' in domain
  {
    SplitHead(email, '@');
    var parts := Split(email, '@');
    local, domain := parts[0], parts[1];
    SplitHead(email[|local| + 1..], '@');
    assert email[|local| + 1..] == domain;
    assert email == local + [email[|local|]] + email[|local| + 1..];
  }

  /** Conversely every such address is accepted. */
  lemma {:induction false} EmailOfShapeAccepted(local: string, domain: string)
    requires local != [] && domain != [] && '@' !in local && '@' !in domain && '.' in domain
    ensures ValidateEmail(local + "@" + domain) == Accepted
  {
    var email := local + "@" + domain;
    assert email[|local|] == '@';
    SplitFirstPart(local, '@', domain);
    SplitWithoutSep(domain, '@');
  }

  /** Without a `.` after the `@` the address is refused as an invalid domain. */
  lemma {:induction false} DomainWithoutDot(local: string, domain: string)
    requires local != [] && domain != [] && '@' !in local && '@' !in domain && '.' !in domain
    ensures ValidateEmail(local + "@" + domain) == (false, InvalidEmailDomain)
  {
    var email := local + "@" + domain;
    assert email[|local|] == '@';
    SplitFirstPart(local, '@', domain);
    SplitWithoutSep(domain, '@');
  }

  /** A second `@` makes the address an invalid format (once it has three
      characters; `@@` is too short). */
  lemma {:induction false} TwoAtSigns(a: string, b: string, c: string)
    requires |a| + |b| + |c| >= 1
    ensures ValidateEmail(a + "@" + b + "@" + c) == (false, InvalidEmailFormat)
  {
    var email := a + "@" + b + "@" + c;
    assert email[|a|] == '@';
    assert email == a + ['@'] + (b + ['@'] + c);
    SplitAround(a, '@', b + ['@'] + c);
    SplitAround(b, '@', c);
    assert |Split(email, '@')| >= 3;
  }
}
