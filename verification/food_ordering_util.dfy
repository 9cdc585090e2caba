/**
 * The static helpers of FoodOrderingUtil: the null-or-empty check, the regular-expression
 * validators for email, contact number, pin code and password strength, and the decoder
 * of the `Bearer` authorization header (section 2.1 of RFC 6750).
 *
 * Each regular expression is modelled as a scan over the characters, and its contract
 * states, independently of the scan, which strings java.util.regex lets `matches()` accept.
 */
module FoodOrderingUtil {
  import opened Wrappers
  import opened ServiceErrors
  import opened JavaStrings

  const BASIC_TOKEN := "Basic "
  const BEARER_TOKEN := "Bearer "
  const COLON := ":"
  const EIGHT_HOURS_IN_MILLIS: int := 8 * 60 * 60 * 1000

  lemma EightHoursInMillis()
    ensures EIGHT_HOURS_IN_MILLIS == 28_800_000
  {
  }

  /** `isInValid`: a request field is missing (null) or empty. */
  function IsInValid(value: Option<string>): (r: bool)
    ensures !r <==> value.Some? && |value.value| >= 1
  {
    value.None? || value.value == ""
  }

  // ---------------------------------------------------------------------------
  // Character classes

  predicate IsAsciiDigit(c: char) { '0' <= c <= '9' }
  predicate IsAsciiUpper(c: char) { 'A' <= c <= 'Z' }
  predicate IsAsciiLetter(c: char) { IsAsciiUpper(c) || 'a' <= c <= 'z' }

  /** `[#@$%&*!^]`, the special characters of a strong password. */
  predicate IsPasswordSpecial(c: char) { c in "#@$%&*!^" }

  /** The characters that `.` does not match in java.util.regex (without DOTALL). */
  predicate IsLineTerminator(c: char) {
    c == '\n' || c == '\r' || c == '\U{85}' || c == '\U{2028}' || c == '\U{2029}'
  }

  predicate IsNotLineTerminator(c: char) { !IsLineTerminator(c) }

  /** `[a-zA-Z0-9_!#$%&'*+/=?`{|}~^-]`, a character of the local part of an email. */
  predicate IsLocalChar(c: char) { IsAsciiLetter(c) || IsAsciiDigit(c) || c in "_!#$%&'*+/=?`{|}~^-" }

  /** `[a-zA-Z0-9-]`, a character of the domain of an email. */
  predicate IsDomainChar(c: char) { IsAsciiLetter(c) || IsAsciiDigit(c) || c == '-' }

  // ---------------------------------------------------------------------------
  // Scans

  /** Some character of `s` has property P. */
  function Any(s: string, P: char -> bool): (r: bool)
    ensures r <==> exists i :: 0 <= i < |s| && P(s[i])
    decreases |s|
  {
    if |s| == 0 then false else P(s[0]) || Any(s[1..], P)
  }

  /** Every character of `s` has property P. */
  function All(s: string, P: char -> bool): (r: bool)
    ensures r <==> forall i :: 0 <= i < |s| ==> P(s[i])
    decreases |s|
  {
    if |s| == 0 then true else P(s[0]) && All(s[1..], P)
  }

  // ---------------------------------------------------------------------------
  // Contact number, pin code, password

  /** `isInValidContactNumber`: not a match of `\d{10}`. */
  function IsInValidContactNumber(contactNumber: string): (r: bool)
    ensures !r <==> |contactNumber| == 10 && forall i :: 0 <= i < 10 ==> IsAsciiDigit(contactNumber[i])
  {
    !(|contactNumber| == 10 && All(contactNumber, IsAsciiDigit))
  }

  /**
   * `isInvalidPinCode`: not a match of `(\b\d{6}+\b)`. Under `matches()` the whole string
   * is the six digits, and both word boundaries hold at its ends.
   */
  function IsInvalidPinCode(pinCode: string): (r: bool)
    ensures !r <==> |pinCode| == 6 && forall i :: 0 <= i < 6 ==> IsAsciiDigit(pinCode[i])
  {
    !(|pinCode| == 6 && All(pinCode, IsAsciiDigit))
  }

  /**
   * `isStrongPassword`: a match of `(?=.*[A-Z])(?=.*\d)(?=.*[#@$%&*!^])(.*){8,}`.
   * The three look-aheads ask for an upper-case letter, a digit and a special character.
   * The whole string must be consumed by `.`, so it has no line terminator. java.util.regex
   * leaves a group loop as soon as an iteration matches the empty string, so `(.*){8,}`
   * sets no minimum length.
   */
  function IsStrongPassword(password: string): (r: bool)
    ensures r <==>
      && (exists i :: 0 <= i < |password| && IsAsciiUpper(password[i]))
      && (exists i :: 0 <= i < |password| && IsAsciiDigit(password[i]))
      && (exists i :: 0 <= i < |password| && IsPasswordSpecial(password[i]))
      && (forall i :: 0 <= i < |password| ==> !IsLineTerminator(password[i]))
  {
    Any(password, IsAsciiUpper) && Any(password, IsAsciiDigit) && Any(password, IsPasswordSpecial)
    && All(password, IsNotLineTerminator)
  }

  lemma StrongPasswordAccepted()
    ensures IsStrongPassword("Strong1!")
  {
    var p := "Strong1!";
    assert IsAsciiUpper(p[0]) && IsAsciiDigit(p[6]) && IsPasswordSpecial(p[7]);
  }

  /** Length is not checked: six characters with all three classes are strong. */
  lemma ShortPasswordAccepted()
    ensures IsStrongPassword("Weak1!")
  {
    var p := "Weak1!";
    assert IsAsciiUpper(p[0]) && IsAsciiDigit(p[4]) && IsPasswordSpecial(p[5]);
  }

  lemma PasswordWithoutSpecialRejected()
    ensures !IsStrongPassword("Weak1")
  {
    var p := "Weak1";
    assert p == ['W', 'e', 'a', 'k', '1'];
    assert !IsPasswordSpecial('W') && !IsPasswordSpecial('e') && !IsPasswordSpecial('a');
    assert !IsPasswordSpecial('k') && !IsPasswordSpecial('1');
  }

  lemma PasswordWithLineBreakRejected()
    ensures !IsStrongPassword("Secret@1\n")
  {
    var p := "Secret@1\n";
    assert IsLineTerminator(p[8]);
  }

  // ---------------------------------------------------------------------------
  // Email

  /** A character of the local part (`local`) or of the domain. */
  predicate IsAtomChar(c: char, local: bool) {
    if local then IsLocalChar(c) else IsDomainChar(c)
  }

  /**
   * One or more non-empty runs of atom characters separated by single dots:
   * `[A]+(\.[A]+)*` for the local or the domain character class A.
   */
  predicate IsDotAtoms(s: string, local: bool) {
    && |s| > 0
    && s[0] != '.'
    && s[|s| - 1] != '.'
    && (forall i :: 0 <= i < |s| ==> s[i] == '.' || IsAtomChar(s[i], local))
    && (forall i :: 0 <= i < |s| - 1 ==> s[i] != '.' || s[i + 1] != '.')
  }

  /** What may follow an atom character within a dotted run: `s` such that `x + s` is a dotted run for any atom character x. */
  predicate IsAtomTail(s: string, local: bool) {
    && (|s| == 0 || s[|s| - 1] != '.')
    && (forall i :: 0 <= i < |s| ==> s[i] == '.' || IsAtomChar(s[i], local))
    && (forall i :: 0 <= i < |s| - 1 ==> s[i] != '.' || s[i + 1] != '.')
  }

  /** The `@` at position k separates a dotted local part from a dotted domain. */
  predicate EmailSplitAt(email: string, k: int) {
    0 <= k < |email| && email[k] == '@' && IsDotAtoms(email[..k], true) && IsDotAtoms(email[k + 1..], false)
  }

  /** `local@domain`, the strings that `^A+(?:\.A+)*@D+(?:\.D+)*$` matches. */
  ghost predicate IsEmailAddress(email: string) {
    exists k :: EmailSplitAt(email, k)
  }

  /** The states of the matcher for the email expression. */
  datatype EmailState = LocalStart | LocalAtom | DomainStart | DomainAtom | Dead

  function EmailStep(st: EmailState, c: char): EmailState {
    match st
    case LocalStart => if IsLocalChar(c) then LocalAtom else Dead
    case LocalAtom =>
      if IsLocalChar(c) then LocalAtom
      else if c == '.' then LocalStart
      else if c == '@' then DomainStart
      else Dead
    case DomainStart => if IsDomainChar(c) then DomainAtom else Dead
    case DomainAtom =>
      if IsDomainChar(c) then DomainAtom
      else if c == '.' then DomainStart
      else Dead
    case Dead => Dead
  }

  function EmailRun(st: EmailState, s: string): EmailState
    decreases |s|
  {
    if |s| == 0 then st else EmailRun(EmailStep(st, s[0]), s[1..])
  }

  /** `isInValidEmail`: false exactly for the strings of the form local `@` domain. */
  function IsInValidEmail(email: string): (r: bool)
    ensures !r <==> IsEmailAddress(email)
  {
    EmailMatcherCorrect(email);
    EmailRun(LocalStart, email) != DomainAtom
  }

  lemma EmailAccepted()
    ensures !IsInValidEmail("ab@cd.com")
  {
    var e := "ab@cd.com";
    assert e[..2] == "ab" && e[3..] == "cd.com";
    assert IsDotAtoms(e[..2], true);
    var d := e[3..];
    assert d[0] != '.' && d[|d| - 1] != '.';
    assert forall i :: 0 <= i < |d| ==> d[i] == '.' || IsDomainChar(d[i]);
    assert IsDotAtoms(d, false);
    assert EmailSplitAt(e, 2);
  }

  lemma EmailWithoutAtRejected(email: string)
    requires forall i :: 0 <= i < |email| ==> email[i] != '@'
    ensures IsInValidEmail(email)
  {
  }

  lemma {:induction false} DeadStaysDead(s: string)
    ensures EmailRun(Dead, s) == Dead
    decreases |s|
  {
    if |s| > 0 {
      DeadStaysDead(s[1..]);
    }
  }

  /** How an atom tail grows at the front. */
  lemma AtomTailCons(c: char, s: string, local: bool)
    ensures IsAtomChar(c, local) ==> (IsAtomTail([c] + s, local) <==> IsAtomTail(s, local))
    ensures c == '.' ==> (IsAtomTail([c] + s, local) <==> |s| > 0 && s[0] != '.' && IsAtomTail(s, local))
    ensures c != '.' && !IsAtomChar(c, local) ==> !IsAtomTail([c] + s, local)
  {
    var t := [c] + s;
    assert t[1..] == s;
    assert forall i :: 0 <= i < |s| ==> t[i + 1] == s[i];
    if IsAtomTail(t, local) {
      assert t[0] == '.' || IsAtomChar(t[0], local);
      assert forall i :: 0 <= i < |s| ==> s[i] == '.' || IsAtomChar(s[i], local) by {
        forall i | 0 <= i < |s| ensures s[i] == '.' || IsAtomChar(s[i], local) {
          assert t[i + 1] == s[i];
        }
      }
      assert forall i :: 0 <= i < |s| - 1 ==> s[i] != '.' || s[i + 1] != '.' by {
        forall i | 0 <= i < |s| - 1 ensures s[i] != '.' || s[i + 1] != '.' {
          assert t[i + 1] == s[i] && t[i + 2] == s[i + 1];
        }
      }
      if c == '.' {
        assert |t| > 1;
        assert t[1] != '.';
      }
    }
  }

  /** A dotted run is an atom character followed by an atom tail. */
  lemma DotAtomsSplit(s: string, local: bool)
    requires |s| > 0
    ensures IsDotAtoms(s, local) <==> IsAtomChar(s[0], local) && IsAtomTail(s[1..], local)
  {
    assert [s[0]] + s[1..] == s;
    if IsDotAtoms(s, local) {
      assert IsAtomChar(s[0], local);
    }
    if IsAtomChar(s[0], local) {
      AtomTailCons(s[0], s[1..], local);
    }
  }

  /** From inside a domain atom, the matcher accepts exactly the atom tails. */
  lemma {:induction false} DomainAtomAccepts(s: string)
    ensures EmailRun(DomainAtom, s) == DomainAtom <==> IsAtomTail(s, false)
    decreases |s|
  {
    if |s| > 0 {
      var c, rest := s[0], s[1..];
      assert s == [c] + rest;
      AtomTailCons(c, rest, false);
      if IsDomainChar(c) {
        DomainAtomAccepts(rest);
      } else if c == '.' {
        DomainStartAccepts(rest);
        if |rest| > 0 {
          DotAtomsSplit(rest, false);
          AtomTailCons(rest[0], rest[1..], false);
          assert rest == [rest[0]] + rest[1..];
        }
      } else {
        DeadStaysDead(rest);
      }
    }
  }

  /** After an `@` or a dot in the domain, the matcher accepts exactly the dotted domain runs. */
  lemma {:induction false} DomainStartAccepts(s: string)
    ensures EmailRun(DomainStart, s) == DomainAtom <==> IsDotAtoms(s, false)
    decreases |s|
  {
    if |s| > 0 {
      DotAtomsSplit(s, false);
      if IsDomainChar(s[0]) {
        DomainAtomAccepts(s[1..]);
      } else {
        DeadStaysDead(s[1..]);
      }
    }
  }

  /** The `@` at position k ends the rest of a local part and starts a dotted domain. */
  predicate LocalSplitAt(s: string, k: int) {
    0 <= k < |s| && s[k] == '@' && IsAtomTail(s[..k], true) && IsDotAtoms(s[k + 1..], false)
  }

  /** What may follow a local atom character: the rest of the local part, `@`, and a domain. */
  ghost predicate IsLocalTail(s: string) {
    exists k :: LocalSplitAt(s, k)
  }

  /** A local character in front moves the `@` one place on. */
  lemma LocalSplitConsLocalChar(c: char, s: string, k: int)
    requires IsLocalChar(c)
    ensures LocalSplitAt([c] + s, k + 1) <==> LocalSplitAt(s, k)
  {
    var t := [c] + s;
    if 0 <= k < |s| {
      assert t[..k + 1] == [c] + s[..k];
      assert t[k + 2..] == s[k + 1..];
      assert t[k + 1] == s[k];
      AtomTailCons(c, s[..k], true);
    }
  }

  /** The `@` cannot come first after a local character. */
  lemma LocalSplitNotFirst(t: string)
    requires |t| > 0 && t[0] != '@'
    ensures !LocalSplitAt(t, 0)
  {
  }

  /** A local character in front of a local tail changes nothing. */
  lemma LocalTailConsLocalChar(c: char, s: string)
    requires IsLocalChar(c)
    ensures IsLocalTail([c] + s) <==> IsLocalTail(s)
  {
    var t := [c] + s;
    if IsLocalTail(t) {
      var k :| LocalSplitAt(t, k);
      LocalSplitNotFirst(t);
      LocalSplitConsLocalChar(c, s, k - 1);
    }
    if IsLocalTail(s) {
      var k :| LocalSplitAt(s, k);
      LocalSplitConsLocalChar(c, s, k);
    }
  }

  /** A dot must be followed by a local character. */
  lemma LocalTailConsDot(s: string)
    ensures IsLocalTail(['.'] + s) <==> |s| > 0 && IsLocalChar(s[0]) && IsLocalTail(s[1..])
  {
    if IsLocalTail(['.'] + s) {
      var k :| LocalSplitAt(['.'] + s, k);
      LocalSplitAfterDot(s, k);
    }
    if |s| > 0 && IsLocalChar(s[0]) && IsLocalTail(s[1..]) {
      assert s == [s[0]] + s[1..];
      LocalTailConsLocalChar(s[0], s[1..]);
      var k :| LocalSplitAt(s, k);
      LocalSplitBeforeDot(s, k);
    }
  }

  /** Behind a leading dot comes a local character and a local tail. */
  lemma LocalSplitAfterDot(s: string, k: int)
    requires LocalSplitAt(['.'] + s, k)
    ensures |s| > 0 && IsLocalChar(s[0]) && IsLocalTail(s[1..])
  {
    var t := ['.'] + s;
    assert k > 0;
    var u := s[..k - 1];
    assert t[..k] == ['.'] + u;
    AtomTailCons('.', u, true);
    assert u[0] == s[0];
    assert LocalSplitAt(s, k - 1) by {
      assert t[k + 1..] == s[k..];
    }
    assert s == [s[0]] + s[1..];
    LocalTailConsLocalChar(s[0], s[1..]);
  }

  /** A dot may precede a local character that starts a local tail. */
  lemma LocalSplitBeforeDot(s: string, k: int)
    requires |s| > 0 && IsLocalChar(s[0]) && LocalSplitAt(s, k)
    ensures LocalSplitAt(['.'] + s, k + 1)
  {
    var t := ['.'] + s;
    assert k > 0;
    var u := s[..k];
    assert u[0] == s[0];
    AtomTailCons('.', u, true);
    assert t[..k + 1] == ['.'] + u;
    assert t[k + 2..] == s[k + 1..];
  }

  /** After the `@` comes the domain. */
  lemma LocalTailConsAt(s: string)
    ensures IsLocalTail(['@'] + s) <==> IsDotAtoms(s, false)
  {
    var t := ['@'] + s;
    if IsLocalTail(t) {
      var k :| LocalSplitAt(t, k);
      if k > 0 {
        assert t[..k] == ['@'] + s[..k - 1];
        AtomTailCons('@', s[..k - 1], true);
        assert false;
      }
      assert t[1..] == s;
    }
    if IsDotAtoms(s, false) {
      assert t[..0] == [] && t[1..] == s;
      assert LocalSplitAt(t, 0);
    }
  }

  /** Any other character ends every match. */
  lemma LocalTailConsOther(c: char, s: string)
    requires c != '.' && c != '@' && !IsLocalChar(c)
    ensures !IsLocalTail([c] + s)
  {
    var t := [c] + s;
    if IsLocalTail(t) {
      var k :| LocalSplitAt(t, k);
      assert k > 0;
      assert t[..k] == [c] + s[..k - 1];
      AtomTailCons(c, s[..k - 1], true);
    }
  }

  /** From inside a local atom, the matcher accepts exactly the local tails. */
  lemma {:induction false} LocalAtomAccepts(s: string)
    ensures EmailRun(LocalAtom, s) == DomainAtom <==> IsLocalTail(s)
    decreases |s|
  {
    if |s| == 0 {
      assert !IsLocalTail(s);
    } else {
      var c, rest := s[0], s[1..];
      assert s == [c] + rest;
      if IsLocalChar(c) {
        LocalTailConsLocalChar(c, rest);
        LocalAtomAccepts(rest);
      } else if c == '.' {
        LocalTailConsDot(rest);
        if |rest| > 0 {
          if IsLocalChar(rest[0]) {
            LocalAtomAccepts(rest[1..]);
          } else {
            DeadStaysDead(rest[1..]);
          }
        }
      } else if c == '@' {
        LocalTailConsAt(rest);
        DomainStartAccepts(rest);
      } else {
        LocalTailConsOther(c, rest);
        DeadStaysDead(rest);
      }
    }
  }

  /** The `@` of an address is the `@` of the local tail after its first character. */
  lemma EmailSplitShift(email: string, k: int)
    requires |email| > 0 && 0 < k < |email|
    ensures EmailSplitAt(email, k) <==> IsLocalChar(email[0]) && LocalSplitAt(email[1..], k - 1)
  {
    var rest := email[1..];
    DotAtomsSplit(email[..k], true);
    assert email[..k][1..] == rest[..k - 1];
    assert email[k + 1..] == rest[k..];
    assert email[..k][0] == email[0];
  }

  /** An email address is a local character followed by a local tail. */
  lemma EmailAddressShift(email: string)
    requires |email| > 0
    ensures IsEmailAddress(email) <==> IsLocalChar(email[0]) && IsLocalTail(email[1..])
  {
    var rest := email[1..];
    if IsEmailAddress(email) {
      var k :| EmailSplitAt(email, k);
      EmailSplitShift(email, k);
    }
    if IsLocalChar(email[0]) && IsLocalTail(rest) {
      var k :| LocalSplitAt(rest, k);
      EmailSplitShift(email, k + 1);
    }
  }

  /** The matcher accepts exactly the email addresses. */
  lemma EmailMatcherCorrect(email: string)
    ensures EmailRun(LocalStart, email) == DomainAtom <==> IsEmailAddress(email)
  {
    if |email| > 0 {
      EmailAddressShift(email);
      if IsLocalChar(email[0]) {
        LocalAtomAccepts(email[1..]);
      } else {
        DeadStaysDead(email[1..]);
      }
    }
  }

  /** A valid email has exactly one `@`; it separates the local part from the domain. */
  lemma EmailHasOneAt(email: string, k: nat)
    requires !IsInValidEmail(email)
    requires k < |email| && email[k] == '@'
    ensures IsDotAtoms(email[..k], true) && IsDotAtoms(email[k + 1..], false)
  {
    var m :| EmailSplitAt(email, m);
  }

  lemma EmailWithEmptyLabelRejected(local: string, domain: string)
    requires forall i :: 0 <= i < |local| ==> local[i] != '@'
    ensures IsInValidEmail(local + "@." + domain)
    ensures IsInValidEmail(local + ".@" + domain)
  {
    var e1 := local + "@." + domain;
    if !IsInValidEmail(e1) {
      assert e1[|local|] == '@';
      EmailHasOneAt(e1, |local|);
    }
    var e2 := local + ".@" + domain;
    if !IsInValidEmail(e2) {
      assert e2[|local| + 1] == '@';
      EmailHasOneAt(e2, |local| + 1);
    }
  }

  // ---------------------------------------------------------------------------
  // Bearer header

  /**
   * `decodeBearerToken`: the second piece of `authorization.split("Bearer ")`, or
   * ATHR-001 when the split yields fewer than two pieces.
   */
  function DecodeBearerToken(authorization: string): (r: Result<string, ServiceError>)
    ensures r.Failure? ==> r.error == ATHR_001
  {
    var pieces := Split(authorization, BEARER_TOKEN);
    if |pieces| > 1 then Success(pieces[1]) else Failure(ATHR_001)
  }

  /** Round trip: the header a client builds from a token decodes to that token. */
  lemma DecodeBearerRoundTrip(token: string)
    requires token != "" && !Occurs(BEARER_TOKEN, token)
    ensures DecodeBearerToken(BEARER_TOKEN + token) == Success(token)
  {
    OccursAtStart(BEARER_TOKEN, token);
    SplitRawDelimiterFirst(BEARER_TOKEN, token);
    SplitRawNoOccurrence(token, BEARER_TOKEN);
  }

  /** The prefix is not anchored: text before the first `Bearer ` is discarded. */
  lemma DecodeBearerUnanchored(junk: string, token: string)
    requires !Occurs(BEARER_TOKEN, junk)
    requires token != "" && !Occurs(BEARER_TOKEN, token)
    ensures DecodeBearerToken(junk + BEARER_TOKEN + token) == Success(token)
  {
    var h := junk + BEARER_TOKEN + token;
    assert h == junk + (BEARER_TOKEN + token);
    FirstOccurrenceAppended(junk, BEARER_TOKEN, token);
    SplitRawLatePrefix(junk, BEARER_TOKEN + token, BEARER_TOKEN);
    SplitRawDelimiterFirst(BEARER_TOKEN, token);
    SplitRawNoOccurrence(token, BEARER_TOKEN);
    assert junk + "" == junk;
    assert SplitRaw(h, BEARER_TOKEN) == [junk, token];
    JoinSplitRaw(h, BEARER_TOKEN);
    if !Occurs(BEARER_TOKEN, h) {
      SplitRawNoOccurrence(h, BEARER_TOKEN);
    }
  }

  /** A header without `Bearer ` is rejected. */
  lemma DecodeBearerMissingPrefix(authorization: string)
    requires !Occurs(BEARER_TOKEN, authorization)
    ensures DecodeBearerToken(authorization) == Failure(ATHR_001)
  {
  }

  /** A header whose only `Bearer ` is at its end is rejected: split drops the trailing empty piece. */
  lemma DecodeBearerNothingAfter(junk: string)
    requires !Occurs(BEARER_TOKEN, junk)
    ensures DecodeBearerToken(junk + BEARER_TOKEN) == Failure(ATHR_001)
  {
    var h := junk + BEARER_TOKEN;
    FirstOccurrenceAppended(junk, BEARER_TOKEN, "");
    assert BEARER_TOKEN + "" == BEARER_TOKEN;
    SplitRawLatePrefix(junk, BEARER_TOKEN + "", BEARER_TOKEN);
    SplitRawDelimiterFirst(BEARER_TOKEN, "");
    assert SplitRaw(h, BEARER_TOKEN) == [junk + "", ""];
    assert junk + "" == junk;
  }

  /** A doubled prefix yields the empty token between the two occurrences. */
  lemma DecodeBearerDoubledPrefix(token: string)
    requires token != "" && !Occurs(BEARER_TOKEN, token)
    ensures DecodeBearerToken(BEARER_TOKEN + BEARER_TOKEN + token) == Success("")
  {
    var h := BEARER_TOKEN + BEARER_TOKEN + token;
    assert h == BEARER_TOKEN + (BEARER_TOKEN + token);
    OccursAtStart(BEARER_TOKEN, BEARER_TOKEN + token);
    SplitRawDelimiterFirst(BEARER_TOKEN, BEARER_TOKEN + token);
    SplitRawDelimiterFirst(BEARER_TOKEN, token);
    SplitRawNoOccurrence(token, BEARER_TOKEN);
    assert SplitRaw(h, BEARER_TOKEN) == ["", "", token];
  }

  /**
   * Whatever the header, a decoded token is the text between the first `Bearer ` and the
   * next one (or the end): the header is `pre + "Bearer " + token + post`, where neither
   * `pre` nor the token contains `Bearer ` and `post` is empty or starts with `Bearer `.
   */
  lemma DecodeBearerShape(authorization: string)
    requires DecodeBearerToken(authorization).Success?
    ensures var token := DecodeBearerToken(authorization).value;
            var pre := SplitRaw(authorization, BEARER_TOKEN)[0];
            var n := |pre| + |BEARER_TOKEN| + |token|;
            && n <= |authorization|
            && authorization[..n] == pre + BEARER_TOKEN + token
            && !Occurs(BEARER_TOKEN, pre)
            && !Occurs(BEARER_TOKEN, token)
            && (n == |authorization| || (n + |BEARER_TOKEN| <= |authorization| && authorization[n..n + |BEARER_TOKEN|] == BEARER_TOKEN))
  {
    var raw := SplitRaw(authorization, BEARER_TOKEN);
    assert Occurs(BEARER_TOKEN, authorization);
    assert |raw| >= 2 && DecodeBearerToken(authorization).value == raw[1];
    JoinSplitRaw(authorization, BEARER_TOKEN);
    SplitRawPiecesAvoid(authorization, BEARER_TOKEN);
    JoinSecondPiece(raw, BEARER_TOKEN);
  }

  /** The text of a join up to the end of its second piece, and what follows. */
  lemma JoinSecondPiece(parts: seq<string>, d: string)
    requires |parts| >= 2
    ensures var n := |parts[0]| + |d| + |parts[1]|;
            var j := Join(parts, d);
            && n <= |j|
            && j[..n] == parts[0] + d + parts[1]
            && (n == |j| || (n + |d| <= |j| && j[n..n + |d|] == d))
  {
    var post := if |parts| > 2 then d + Join(parts[2..], d) else "";
    assert Join(parts[1..], d) == parts[1] + post by {
      assert parts[1..][0] == parts[1];
      if |parts| > 2 {
        assert parts[1..][1..] == parts[2..];
      }
    }
    var j := Join(parts, d);
    assert j == (parts[0] + d + parts[1]) + post;
  }
}
