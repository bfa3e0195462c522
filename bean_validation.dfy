/** The Jakarta Bean Validation constraints the request classes use, read as
    predicates over a possibly-null `String` (`Option<string>`, `None` for
    `null`). `@Size` and `@Pattern` accept `null`; `@NotBlank` does not. */
module BeanValidation {
  import opened Wrappers
  import opened JavaText

  /** `@NotBlank`: not null, and not empty once trimmed. */
  predicate NotBlank(s: Option<string>)
  {
    s.Some? && Trim(s.value) != []
  }

  /** A string holding some non-white character is not blank. */
  lemma NotBlankWhen(s: string, c: char)
    requires c in s && !IsWhite(c)
    ensures NotBlank(Some(s))
  {
    TrimKeeps(s, c);
  }

  /** `@Size(min, max)`. */
  predicate SizeWithin(s: Option<string>, min: nat, max: nat)
  {
    s.None? || min <= |s.value| <= max
  }

  /** `@Pattern(regexp)`: the whole string must match. */
  predicate PatternHolds(s: Option<string>, matches: string -> bool)
  {
    s.None? || matches(s.value)
  }
}

/** The password rule shared by registration and password reset, and the
    six-digit OTP rule of password reset. */
module PasswordPolicy {
  import opened JavaText

  /** The characters `.` does not match. */
  predicate IsLineTerminator(c: char)
  {
    c == '\n' || c == '\r' || c == '\U{0085}' || c == '\U{2028}' || c == '\U{2029}'
  }

  /** `[@$!%*?&]` */
  predicate IsSpecial(c: char)
  {
    c == '@' || c == '$' || c == '!' || c == '%' || c == '*' || c == '?' || c == '&'
  }

  /** `[A-Za-z\d@$!%*?&]` */
  predicate IsPasswordChar(c: char)
  {
    IsLetter(c) || IsDigit(c) || IsSpecial(c)
  }

  /** The lookahead `(?=.*X)` at the start of the input: some character of
      class X with no line terminator in front of it. */
  predicate Lookahead(s: string, cls: char -> bool)
  {
    exists i :: 0 <= i < |s| && cls(s[i]) && (forall j :: 0 <= j < i ==> !IsLineTerminator(s[j]))
  }

  /** The four lookaheads of the password pattern. */
  predicate HasAllClasses(s: string)
  {
    Lookahead(s, IsLower) && Lookahead(s, IsUpper) && Lookahead(s, IsDigit) && Lookahead(s, IsSpecial)
  }

  /** `^(?=.*[a-z])(?=.*[A-Z])(?=.*\d)(?=.*[@$!%*?&])[A-Za-z\d@$!%*?&]`,
      as written: after the lookaheads the pattern consumes exactly one
      character, so a whole-string match needs a one-character input. */
  predicate PasswordPatternAsWritten(s: string)
  {
    |s| == 1 && IsPasswordChar(s[0]) && HasAllClasses(s)
  }

  /** The same pattern with a `{8,}$` quantifier, matching the `@Size(min = 8)`
      on the same field; with `+` instead it agrees only together with that
      size constraint. */
  predicate PasswordPatternIntended(s: string)
  {
    |s| >= 8 && (forall i :: 0 <= i < |s| ==> IsPasswordChar(s[i])) && HasAllClasses(s)
  }

  /** Some character of the class occurs in the string. */
  predicate Contains(s: string, cls: char -> bool)
  {
    exists i :: 0 <= i < |s| && cls(s[i])
  }

  lemma LookaheadOfOne(s: string, cls: char -> bool)
    requires |s| == 1
    ensures Lookahead(s, cls) ==> cls(s[0])
  {
    if Lookahead(s, cls) {
      var i :| 0 <= i < |s| && cls(s[i]);
      assert i == 0;
    }
  }

  /** No string matches the password pattern as written: its only character
      would have to be a lower-case and an upper-case letter at once. */
  lemma PasswordPatternUnsatisfiable(s: string)
    ensures !PasswordPatternAsWritten(s)
  {
    if |s| == 1 {
      LookaheadOfOne(s, IsLower);
      LookaheadOfOne(s, IsUpper);
    }
  }

  /** Over allowed characters the lookaheads just ask that each class
      occurs, since no allowed character is a line terminator. */
  lemma LookaheadOverPasswordChars(s: string, cls: char -> bool)
    requires forall i :: 0 <= i < |s| ==> IsPasswordChar(s[i])
    ensures Lookahead(s, cls) <==> Contains(s, cls)
  {
    if Contains(s, cls) {
      var i :| 0 <= i < |s| && cls(s[i]);
      assert forall j :: 0 <= j < i ==> !IsLineTerminator(s[j]) by {
        forall j | 0 <= j < i ensures !IsLineTerminator(s[j]) {
          assert IsPasswordChar(s[j]);
        }
      }
    }
  }

  /** The intended pattern accepts exactly the strings of at least eight
      allowed characters holding a lower-case letter, an upper-case letter,
      a digit and a special character. */
  lemma PasswordPatternIntendedMeaning(s: string)
    ensures PasswordPatternIntended(s) <==>
      |s| >= 8 && (forall i :: 0 <= i < |s| ==> IsPasswordChar(s[i])) &&
      Contains(s, IsLower) && Contains(s, IsUpper) && Contains(s, IsDigit) && Contains(s, IsSpecial)
  {
    if |s| >= 8 && forall i :: 0 <= i < |s| ==> IsPasswordChar(s[i]) {
      LookaheadOverPasswordChars(s, IsLower);
      LookaheadOverPasswordChars(s, IsUpper);
      LookaheadOverPasswordChars(s, IsDigit);
      LookaheadOverPasswordChars(s, IsSpecial);
    }
  }

  /** The intended pattern is satisfiable. */
  lemma PasswordPatternIntendedAccepts()
    ensures PasswordPatternIntended("Abcdef1!")
  {
    var s := "Abcdef1!";
    assert IsUpper(s[0]) && IsLower(s[1]) && IsDigit(s[6]) && IsSpecial(s[7]);
    PasswordPatternIntendedMeaning(s);
  }

  /** `^\d{6}$`: exactly six ASCII digits. */
  predicate OtpPatternMatches(s: string)
  {
    |s| == 6 && AllDigits(s)
  }
}
