/**
 * The client-side checks of the admin registration form: an ordered chain of early returns that
 * reports the first failing check, and calls `register` only when every check passes.
 */
module AdminRegister {
  import opened Wrappers
  import opened JsText

  datatype RegisterForm = RegisterForm(
    username: string,
    email: string,
    password: string,
    confirmPassword: string,
    secureKey: string)

  /** What submitting the form does: call `register` with four of the fields, or show an error. */
  datatype SubmitDecision =
    | CallRegister(username: string, email: string, password: string, secureKey: string)
    | ShowError(message: string)

  const FillMessage := "Please fill in all fields"
  const UsernameMessage := "Username must be at least 3 characters"
  const PasswordMessage := "Password must be at least 6 characters"
  const MismatchMessage := "Passwords do not match"
  const EmailMessage := "Please enter a valid email"

  /** None of the five fields is the empty (falsy) string. */
  predicate AllFilled(f: RegisterForm) {
    f.username != "" && f.email != "" && f.password != "" && f.confirmPassword != "" && f.secureKey != ""
  }

  /** A character `[^\s@]` matches: neither white space nor '@'. */
  predicate AtomChar(c: char) {
    !IsSpace(c) && c != '@'
  }

  /** An '@' at `at` and a '.' at `dot`, every other character a `[^\\s@]` one. */
  predicate EmailCut(s: string, at: nat, dot: nat) {
    && 0 < at && at + 1 < dot && dot + 1 < |s| && s[at] == '@' && s[dot] == '.'
    && forall k :: 0 <= k < |s| && k != at && k != dot ==> AtomChar(s[k])
  }

  /**
   * The language of `/^[^\s@]+@[^\s@]+\.[^\s@]+$/`: an '@' at `at` and a '.' at `dot` cut the
   * string into three non-empty runs of `[^\s@]` characters.
   */
  ghost predicate MatchesEmailPattern(s: string) {
    exists at: nat, dot: nat :: EmailCut(s, at, dot)
  }

  /** A '.' strictly inside `d`, with at least one character on each side. */
  predicate HasInnerDot(d: string) {
    exists j :: 1 <= j < |d| - 1 && d[j] == '.'
  }

  /**
   * How the pattern is decided on a string: no white space anywhere, a first '@' after at least
   * one character, no second '@', and a '.' strictly inside the part after the '@'.
   */
  predicate EmailRegexTest(s: string) {
    NoSpace(s) &&
    match IndexOf(s, "@")
    case None => false
    case Some(i) => i >= 1 && '@' !in s[i + 1..] && HasInnerDot(s[i + 1..])
  }

  /** The first '@' of a string whose prefix of length `i` has none, when `s[i]` is one. */
  lemma FirstAt(s: string, i: nat)
    requires i < |s| && s[i] == '@' && forall k :: 0 <= k < i ==> s[k] != '@'
    ensures IndexOf(s, "@") == Some(i)
  {
    assert "@" <= s[i..];
  }

  /** No '@' comes before the first one. */
  lemma BeforeFirstAt(s: string)
    requires IndexOf(s, "@").Some?
    ensures forall k :: 0 <= k < IndexOf(s, "@").value ==> s[k] != '@'
  {
    forall k | 0 <= k < IndexOf(s, "@").value ensures s[k] != '@' {
      assert s[k..][..1] == [s[k]];
    }
  }

  /** A string the decision procedure accepts splits into the pattern's three runs. */
  lemma EmailTestSound(s: string)
    requires EmailRegexTest(s)
    ensures MatchesEmailPattern(s)
  {
    var at := IndexOf(s, "@").value;
    BeforeFirstAt(s);
    var d := s[at + 1..];
    var j :| 1 <= j < |d| - 1 && d[j] == '.';
    var dot := at + 1 + j;
    assert s[at] == '@' by {
      assert s[at..at + 1][0] == s[at];
    }
    forall k | at < k < |s| ensures s[k] != '@' {
      assert s[k] == d[k - at - 1];
    }
    assert s[dot] == '.';
    assert EmailCut(s, at, dot);
  }

  /** The pattern admits no white space at all. */
  lemma CutHasNoSpace(s: string, at: nat, dot: nat)
    requires EmailCut(s, at, dot)
    ensures NoSpace(s)
  {
    forall k | 0 <= k < |s| ensures !IsSpace(s[k]) {
      if k != at && k != dot {
        assert AtomChar(s[k]);
      }
    }
  }

  /** After the cut's '@' there is no other '@', and the cut's '.' lies strictly inside. */
  lemma CutDomain(s: string, at: nat, dot: nat)
    requires EmailCut(s, at, dot)
    ensures '@' !in s[at + 1..] && HasInnerDot(s[at + 1..])
  {
    var d := s[at + 1..];
    forall k | 0 <= k < |d| ensures d[k] != '@' {
      assert d[k] == s[at + 1 + k];
    }
    assert d[dot - at - 1] == '.';
  }

  /** Every string of the pattern's language passes the decision procedure. */
  lemma EmailTestComplete(s: string)
    requires MatchesEmailPattern(s)
    ensures EmailRegexTest(s)
  {
    var at, dot :| EmailCut(s, at, dot);
    CutHasNoSpace(s, at, dot);
    FirstAt(s, at);
    CutDomain(s, at, dot);
  }

  /** The decision procedure accepts exactly the strings of the pattern's language. */
  lemma EmailTestMatchesPattern(s: string)
    ensures EmailRegexTest(s) <==> MatchesEmailPattern(s)
  {
    if EmailRegexTest(s) {
      EmailTestSound(s);
    }
    if MatchesEmailPattern(s) {
      EmailTestComplete(s);
    }
  }

  /**
   * `handleSubmit`'s validation: every field filled, then username length, password length,
   * password confirmation and email shape, in that order; the first failure is reported.
   */
  function ValidateRegistration(f: RegisterForm): (r: SubmitDecision)
    ensures r.CallRegister? <==>
      (AllFilled(f) && |f.username| >= 3 && |f.password| >= 6 && f.password == f.confirmPassword
       && MatchesEmailPattern(f.email))
    ensures r.CallRegister? ==> r == CallRegister(f.username, f.email, f.password, f.secureKey)
    ensures r == ShowError(FillMessage) <==> !AllFilled(f)
    ensures r == ShowError(UsernameMessage) <==> AllFilled(f) && |f.username| < 3
    ensures r == ShowError(PasswordMessage) <==> AllFilled(f) && |f.username| >= 3 && |f.password| < 6
    ensures r == ShowError(MismatchMessage) <==>
      (AllFilled(f) && |f.username| >= 3 && |f.password| >= 6 && f.password != f.confirmPassword)
    ensures r == ShowError(EmailMessage) <==>
      (AllFilled(f) && |f.username| >= 3 && |f.password| >= 6 && f.password == f.confirmPassword
       && !MatchesEmailPattern(f.email))
  {
    EmailTestMatchesPattern(f.email);
    if !AllFilled(f) then ShowError(FillMessage)
    else if |f.username| < 3 then ShowError(UsernameMessage)
    else if |f.password| < 6 then ShowError(PasswordMessage)
    else if f.password != f.confirmPassword then ShowError(MismatchMessage)
    else if !EmailRegexTest(f.email) then ShowError(EmailMessage)
    else CallRegister(f.username, f.email, f.password, f.secureKey)
  }

  /** A form that reaches `register` carries a non-empty key and a password of at least 6. */
  lemma SubmittedFormIsComplete(f: RegisterForm)
    requires ValidateRegistration(f).CallRegister?
    ensures ValidateRegistration(f).secureKey != "" && |ValidateRegistration(f).password| >= 6
    ensures '@' in ValidateRegistration(f).email && NoSpace(ValidateRegistration(f).email)
  {
    EmailTestMatchesPattern(f.email);
    var i := IndexOf(f.email, "@").value;
    assert f.email[i..i + 1][0] == f.email[i];
  }
}
