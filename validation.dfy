/** The registration validator of POST /api/v1/auth/register: an ordered chain
    of checks, the first failing one deciding the single error reported. */
module Validation {
  import opened Wrappers
  import opened JsText

  // ---------------------------------------------------------------- email

  /** A character `[^\s@]` accepts. */
  predicate IsEmailChar(c: char) { !IsWhitespace(c) && c != '@' }

  /** A non-empty run of `[^\s@]`, i.e. what `[^\s@]+` matches. */
  predicate IsEmailPart(t: string) {
    t != [] && forall k :: 0 <= k < |t| ==> IsEmailChar(t[k])
  }

  function EmailOf(local: string, host: string, tld: string): string {
    local + "@" + host + "." + tld
  }

  /** The language of `^[^\s@]+@[^\s@]+\.[^\s@]+$`. */
  ghost predicate MatchesEmailRegex(s: string) {
    exists local, host, tld ::
      IsEmailPart(local) && IsEmailPart(host) && IsEmailPart(tld) && s == EmailOf(local, host, tld)
  }

  /** The after-`@` part has a `.` that is neither its first nor its last character. */
  predicate HasInnerDot(d: string) {
    exists q :: 0 < q < |d| - 1 && d[q] == '.'
  }

  /** The email check as a direct test: no whitespace, exactly one `@` with
      something before it, and an inner `.` after it. */
  predicate IsValidEmail(s: string)
    ensures IsValidEmail(s) ==> |s| >= 5 && '@' in s && s[0] != '@' && s[|s| - 1] != '@'
  {
    && (forall k :: 0 <= k < |s| ==> !IsWhitespace(s[k]))
    && exists p :: 0 < p < |s| && s[p] == '@' && '@' !in s[..p] && '@' !in s[p + 1..] && HasInnerDot(s[p + 1..])
  }

  lemma {:induction false} EmailRegexImpliesCheck(local: string, host: string, tld: string)
    requires IsEmailPart(local) && IsEmailPart(host) && IsEmailPart(tld)
    ensures IsValidEmail(EmailOf(local, host, tld))
  {
    var s := EmailOf(local, host, tld);
    var p := |local|;
    var d := host + "." + tld;
    assert s == local + "@" + d;
    assert s[..p] == local && s[p] == '@' && s[p + 1..] == d;
    assert d[|host|] == '.';
    assert HasInnerDot(d);
    forall k | 0 <= k < |s| ensures !IsWhitespace(s[k]) {
      if k < p { assert s[k] == local[k]; }
      else if k > p { assert s[k] == d[k - p - 1]; }
    }
    forall k | 0 <= k < |d| ensures d[k] != '@' && !IsWhitespace(d[k]) {
      if k < |host| { assert d[k] == host[k]; }
      else if k > |host| { assert d[k] == tld[k - |host| - 1]; }
    }
  }

  /** Every character other than the one `@` is accepted by `[^\s@]`. */
  lemma OnlyOneAt(s: string, p: nat)
    requires p < |s| && s[p] == '@' && '@' !in s[..p] && '@' !in s[p + 1..]
    requires forall k :: 0 <= k < |s| ==> !IsWhitespace(s[k])
    ensures forall k :: 0 <= k < |s| && k != p ==> IsEmailChar(s[k])
  {
    forall k | 0 <= k < |s| && k != p ensures s[k] != '@' {
      if k < p { assert s[k] == s[..p][k]; } else { assert s[k] == s[p + 1..][k - p - 1]; }
    }
  }

  lemma {:induction false} EmailCheckImpliesRegex(s: string, p: nat, q: nat)
    requires forall k :: 0 <= k < |s| && k != p ==> IsEmailChar(s[k])
    requires 0 < p && p + 1 + q + 1 < |s| && 0 < q && s[p] == '@' && s[p + 1 + q] == '.'
    ensures MatchesEmailRegex(s)
  {
    var local, host, tld := s[..p], s[p + 1..p + 1 + q], s[p + q + 2..];
    assert forall k :: 0 <= k < |local| ==> local[k] == s[k];
    assert forall k :: 0 <= k < |host| ==> host[k] == s[p + 1 + k];
    assert forall k :: 0 <= k < |tld| ==> tld[k] == s[p + q + 2 + k];
    assert IsEmailPart(local) && IsEmailPart(host) && IsEmailPart(tld);
    assert s == local + "@" + host + "." + tld;
    assert s == EmailOf(local, host, tld);
  }

  /** The direct test accepts exactly the strings the regular expression matches. */
  lemma EmailCheckMatchesRegex(s: string)
    ensures IsValidEmail(s) <==> MatchesEmailRegex(s)
  {
    if MatchesEmailRegex(s) {
      var local, host, tld :| IsEmailPart(local) && IsEmailPart(host) && IsEmailPart(tld) && s == EmailOf(local, host, tld);
      EmailRegexImpliesCheck(local, host, tld);
    }
    if IsValidEmail(s) {
      var p :| 0 < p < |s| && s[p] == '@' && '@' !in s[..p] && '@' !in s[p + 1..] && HasInnerDot(s[p + 1..]);
      OnlyOneAt(s, p);
      var q :| 0 < q < |s[p + 1..]| - 1 && s[p + 1..][q] == '.';
      EmailCheckImpliesRegex(s, p, q);
    }
  }

  // ---------------------------------------------------------------- phone

  predicate AllDigits(t: string) {
    forall k :: 0 <= k < |t| ==> IsDigit(t[k])
  }

  function PhoneOf(area: string, gap: char, prefix: string, line: string): string {
    "(" + area + ")" + [gap] + "9" + prefix + "-" + line
  }

  /** The language of `^\(\d{2}\)\s9\d{4}-\d{4}$`. */
  ghost predicate MatchesPhoneRegex(s: string) {
    exists area, gap, prefix, line ::
      && |area| == 2 && AllDigits(area) && IsWhitespace(gap)
      && |prefix| == 4 && AllDigits(prefix) && |line| == 4 && AllDigits(line)
      && s == PhoneOf(area, gap, prefix, line)
  }

  /** The phone check as a direct test, one position at a time. */
  predicate IsValidPhone(s: string)
    ensures IsValidPhone(s) ==> |s| == 15 && s[5] == '9' && !IsWhitespace(s[|s| - 1])
  {
    && |s| == 15
    && s[0] == '(' && IsDigit(s[1]) && IsDigit(s[2]) && s[3] == ')'
    && IsWhitespace(s[4]) && s[5] == '9'
    && IsDigit(s[6]) && IsDigit(s[7]) && IsDigit(s[8]) && IsDigit(s[9])
    && s[10] == '-'
    && IsDigit(s[11]) && IsDigit(s[12]) && IsDigit(s[13]) && IsDigit(s[14])
  }

  lemma {:induction false} PhoneRegexImpliesCheck(area: string, gap: char, prefix: string, line: string)
    requires |area| == 2 && AllDigits(area) && IsWhitespace(gap)
    requires |prefix| == 4 && AllDigits(prefix) && |line| == 4 && AllDigits(line)
    ensures IsValidPhone(PhoneOf(area, gap, prefix, line))
  {
    var s := PhoneOf(area, gap, prefix, line);
    assert s[1] == area[0] && s[2] == area[1];
    assert s[6] == prefix[0] && s[7] == prefix[1] && s[8] == prefix[2] && s[9] == prefix[3];
    assert s[11] == line[0] && s[12] == line[1] && s[13] == line[2] && s[14] == line[3];
  }

  lemma {:induction false} PhoneCheckImpliesRegex(s: string)
    requires IsValidPhone(s)
    ensures MatchesPhoneRegex(s)
  {
    var area, gap, prefix, line := s[1..3], s[4], s[6..10], s[11..15];
    assert area[0] == s[1] && area[1] == s[2];
    assert prefix[0] == s[6] && prefix[1] == s[7] && prefix[2] == s[8] && prefix[3] == s[9];
    assert line[0] == s[11] && line[1] == s[12] && line[2] == s[13] && line[3] == s[14];
    assert s[..1] == "(" && s[3..4] == ")" && s[4..5] == [gap] && s[5..6] == "9" && s[10..11] == "-";
    assert s == s[..1] + area + s[3..4] + s[4..5] + s[5..6] + prefix + s[10..11] + line;
    assert s == PhoneOf(area, gap, prefix, line);
    assert AllDigits(area) && AllDigits(prefix) && AllDigits(line);
  }

  /** The direct test accepts exactly the strings the regular expression
      matches; all of them are fifteen characters long. */
  lemma PhoneCheckMatchesRegex(s: string)
    ensures IsValidPhone(s) <==> MatchesPhoneRegex(s)
    ensures IsValidPhone(s) ==> |s| == 15
  {
    if MatchesPhoneRegex(s) {
      var area, gap, prefix, line :|
        && |area| == 2 && AllDigits(area) && IsWhitespace(gap)
        && |prefix| == 4 && AllDigits(prefix) && |line| == 4 && AllDigits(line)
        && s == PhoneOf(area, gap, prefix, line);
      PhoneRegexImpliesCheck(area, gap, prefix, line);
    }
    if IsValidPhone(s) {
      PhoneCheckImpliesRegex(s);
    }
  }

  // ------------------------------------------------------------- password

  const MinPasswordLength: nat := 8

  /** `/[A-Z]/.test(p)` */
  predicate HasUpper(p: string) { exists k :: 0 <= k < |p| && IsUpper(p[k]) }

  /** `/[a-z]/.test(p)` */
  predicate HasLower(p: string) { exists k :: 0 <= k < |p| && IsLower(p[k]) }

  /** `/\d/.test(p)` */
  predicate HasDigit(p: string) { exists k :: 0 <= k < |p| && IsDigit(p[k]) }

  // ------------------------------------------------------------ the chain

  /** The request body fields; `None` is a field that is absent or `null`. */
  datatype RegistrationForm = RegistrationForm(
    name: Option<string>, email: Option<string>, phone: Option<string>, password: Option<string>)

  datatype ValidationError = MissingFields | BadEmail | BadPhone | ShortPassword | WeakPassword
  {
    /** The single entry of the response's `errors` array. */
    function Message(): string {
      match this
      case MissingFields => "Name, email, phone, and password are required"
      case BadEmail => "Invalid email format"
      case BadPhone => "Invalid phone format. Use (XX) 9XXXX-XXXX"
      case ShortPassword => "Password must be at least 8 characters long"
      case WeakPassword => "Password must contain at least one uppercase letter, one lowercase letter, and one number"
    }
  }

  datatype Verdict = Accepted | Rejected(error: ValidationError)

  predicate AllProvided(f: RegistrationForm) {
    Truthy(f.name) && Truthy(f.email) && Truthy(f.phone) && Truthy(f.password)
  }

  /** The strength rule on a password that passed the length rule. */
  predicate IsStrong(p: string) { HasUpper(p) && HasLower(p) && HasDigit(p) }

  /** The ordered chain; each ensures clause says when one check decides the
      outcome, in terms of the regular expressions' languages. */
  function Validate(f: RegistrationForm): (r: Verdict)
    ensures !AllProvided(f) ==> r == Rejected(MissingFields)
    ensures AllProvided(f) ==>
      (r == Rejected(BadEmail) <==> !MatchesEmailRegex(f.email.value))
    ensures AllProvided(f) && MatchesEmailRegex(f.email.value) ==>
      (r == Rejected(BadPhone) <==> !MatchesPhoneRegex(f.phone.value))
    ensures AllProvided(f) && MatchesEmailRegex(f.email.value) && MatchesPhoneRegex(f.phone.value) ==>
      (r == Rejected(ShortPassword) <==> Utf16Length(f.password.value) < MinPasswordLength)
    ensures AllProvided(f) && MatchesEmailRegex(f.email.value) && MatchesPhoneRegex(f.phone.value)
            && Utf16Length(f.password.value) >= MinPasswordLength ==>
      (r == Rejected(WeakPassword) <==> !IsStrong(f.password.value))
    ensures r == Accepted <==>
      && AllProvided(f)
      && MatchesEmailRegex(f.email.value) && MatchesPhoneRegex(f.phone.value)
      && Utf16Length(f.password.value) >= MinPasswordLength && IsStrong(f.password.value)
  {
    if !AllProvided(f) then Rejected(MissingFields)
    else
      EmailCheckMatchesRegex(f.email.value);
      PhoneCheckMatchesRegex(f.phone.value);
      if !IsValidEmail(f.email.value) then Rejected(BadEmail)
      else if !IsValidPhone(f.phone.value) then Rejected(BadPhone)
      else if Utf16Length(f.password.value) < MinPasswordLength then Rejected(ShortPassword)
      else if !IsStrong(f.password.value) then Rejected(WeakPassword)
      else Accepted
  }
}
