/**
 * `validatePassword` of Login.jsx: the regular expression
 * `^(?=.*[0-9])(?=.*[!@#$%^&*])[A-Za-z\d!@#$%^&*]{8,}$`, written as its
 * three parts (two lookaheads at the start, one repeated class to the end),
 * and proved equal to the plain character-class rule.
 */
module Password {

  predicate IsDigit(c: char) { '0' <= c <= '9' }

  predicate IsSpecial(c: char) { c in "!@#$%^&*" }

  predicate IsLetter(c: char) { 'A' <= c <= 'Z' || 'a' <= c <= 'z' }

  /** The class `[A-Za-z\d!@#$%^&*]`; `\d` is ASCII-only in JavaScript. */
  predicate IsAllowed(c: char) { IsLetter(c) || IsDigit(c) || IsSpecial(c) }

  /** The line terminators of ECMAScript, which `.` does not match. */
  predicate IsLineTerminator(c: char) {
    c == '\n' || c == '\r' || c == '\U{2028}' || c == '\U{2029}'
  }

  datatype CharClass = Digits | Specials | PasswordChars

  predicate InClass(c: char, k: CharClass) {
    match k
    case Digits => IsDigit(c)
    case Specials => IsSpecial(c)
    case PasswordChars => IsAllowed(c)
  }

  /** Whether `.*[k]` matches a prefix of `s`, backtracking over the length of `.*`. */
  predicate DotStarThen(s: string, k: CharClass)
    decreases |s|
  {
    |s| > 0 && (InClass(s[0], k) || (!IsLineTerminator(s[0]) && DotStarThen(s[1..], k)))
  }

  /** Whether `[k]{min,}$` matches all of `s`. */
  predicate RepeatToEnd(s: string, k: CharClass, min: nat)
    decreases |s|
  {
    if s == [] then min == 0
    else InClass(s[0], k) && RepeatToEnd(s[1..], k, if min > 0 then min - 1 else 0)
  }

  /** `regex.test(password)`: the anchored pattern matches at position 0. */
  predicate ValidatePassword(p: string) {
    && DotStarThen(p, Digits)
    && DotStarThen(p, Specials)
    && RepeatToEnd(p, PasswordChars, 8)
  }

  /** The rule as the login screen's error message states it. */
  predicate MeetsPasswordRule(p: string) {
    && |p| >= 8
    && (exists i :: 0 <= i < |p| && IsDigit(p[i]))
    && (exists i :: 0 <= i < |p| && IsSpecial(p[i]))
    && (forall i :: 0 <= i < |p| ==> IsAllowed(p[i]))
  }

  lemma {:induction false} RepeatToEndMeaning(s: string, k: CharClass, min: nat)
    ensures RepeatToEnd(s, k, min) <==> |s| >= min && forall i :: 0 <= i < |s| ==> InClass(s[i], k)
    decreases |s|
  {
    if s != [] {
      RepeatToEndMeaning(s[1..], k, if min > 0 then min - 1 else 0);
      if forall i :: 0 <= i < |s| ==> InClass(s[i], k) {
        assert forall i :: 0 <= i < |s[1..]| ==> InClass(s[1..][i], k) by {
          forall i | 0 <= i < |s[1..]| ensures InClass(s[1..][i], k) {
            assert s[1..][i] == s[i + 1];
          }
        }
      }
      if InClass(s[0], k) && forall i :: 0 <= i < |s[1..]| ==> InClass(s[1..][i], k) {
        forall i | 0 <= i < |s| ensures InClass(s[i], k) {
          if i > 0 { assert s[i] == s[1..][i - 1]; }
        }
      }
    }
  }

  lemma {:induction false} DotStarThenMeaning(s: string, k: CharClass)
    requires forall i :: 0 <= i < |s| ==> !IsLineTerminator(s[i])
    ensures DotStarThen(s, k) <==> exists i :: 0 <= i < |s| && InClass(s[i], k)
    decreases |s|
  {
    if s != [] {
      assert forall i :: 0 <= i < |s[1..]| ==> !IsLineTerminator(s[1..][i]) by {
        forall i | 0 <= i < |s[1..]| ensures !IsLineTerminator(s[1..][i]) {
          assert s[1..][i] == s[i + 1];
        }
      }
      DotStarThenMeaning(s[1..], k);
      if exists i :: 0 <= i < |s| && InClass(s[i], k) {
        var i :| 0 <= i < |s| && InClass(s[i], k);
        if i > 0 { assert InClass(s[1..][i - 1], k); }
      }
      if DotStarThen(s[1..], k) {
        var i :| 0 <= i < |s[1..]| && InClass(s[1..][i], k);
        assert s[i + 1] == s[1..][i];
      }
    }
  }

  /**
   * The regular expression accepts exactly the passwords of at least eight
   * characters drawn from letters, digits and `!@#$%^&*`, with at least one
   * digit and at least one of those special characters.
   */
  lemma ValidatePasswordMeetsRule(p: string)
    ensures ValidatePassword(p) <==> MeetsPasswordRule(p)
  {
    RepeatToEndMeaning(p, PasswordChars, 8);
    if forall i :: 0 <= i < |p| ==> IsAllowed(p[i]) {
      assert forall i :: 0 <= i < |p| ==> !IsLineTerminator(p[i]) by {
        forall i | 0 <= i < |p| ensures !IsLineTerminator(p[i]) {
          assert InClass(p[i], PasswordChars);
        }
      }
      DotStarThenMeaning(p, Digits);
      DotStarThenMeaning(p, Specials);
      assert (exists i :: 0 <= i < |p| && InClass(p[i], Digits)) <==>
             (exists i :: 0 <= i < |p| && IsDigit(p[i]));
      assert (exists i :: 0 <= i < |p| && InClass(p[i], Specials)) <==>
             (exists i :: 0 <= i < |p| && IsSpecial(p[i]));
    } else {
      var i :| 0 <= i < |p| && !IsAllowed(p[i]);
      assert !InClass(p[i], PasswordChars);
    }
  }

  /** Concrete cases of the rule: a short password is refused, a conforming one accepted. */
  lemma PasswordExamples()
    ensures !ValidatePassword("ab1!")
    ensures ValidatePassword("abcdef1!")
  {
  }
}
