/** The `@EmailOrPhone` constraint: input containing `@` must be an e-mail
    address; any other input is normalised to a Vietnamese `+84` number and
    matched against the mobile-number pattern. */
module EmailOrPhoneValidator {
  import opened Wrappers
  import opened JavaText

  /** `[a-zA-Z0-9._%+-]` */
  predicate IsLocalChar(c: char)
  {
    IsLetter(c) || IsDigit(c) || c == '.' || c == '_' || c == '%' || c == '+' || c == '-'
  }

  /** `[a-zA-Z0-9.-]` */
  predicate IsDomainChar(c: char)
  {
    IsLetter(c) || IsDigit(c) || c == '.' || c == '-'
  }

  /** One way of reading `s` against EMAIL_PATTERN: the `@` at index `at`,
      the `\.` at index `dot`, a non-empty local part, a non-empty domain and
      a top-level domain of at least two letters. */
  predicate EmailReading(s: string, at: int, dot: int)
  {
    0 < at && at + 1 < dot && dot + 2 < |s| && s[at] == '@' && s[dot] == '.' &&
    (forall i :: 0 <= i < at ==> IsLocalChar(s[i])) &&
    (forall i :: at < i < dot ==> IsDomainChar(s[i])) &&
    (forall i :: dot < i < |s| ==> IsLetter(s[i]))
  }

  /** `^[a-zA-Z0-9._%+-]+@[a-zA-Z0-9.-]+\.[a-zA-Z]{2,}$`, whole-string. */
  predicate EmailPatternMatches(s: string)
  {
    exists at, dot :: 0 <= at < |s| && 0 <= dot < |s| && EmailReading(s, at, dot)
  }

  /** Every `local@domain.tld` built from the allowed characters matches. */
  lemma EmailPatternAccepts(local: string, domain: string, tld: string)
    requires local != [] && forall i :: 0 <= i < |local| ==> IsLocalChar(local[i])
    requires domain != [] && forall i :: 0 <= i < |domain| ==> IsDomainChar(domain[i])
    requires |tld| >= 2 && forall i :: 0 <= i < |tld| ==> IsLetter(tld[i])
    ensures EmailPatternMatches(local + "@" + domain + "." + tld)
  {
    var s := local + "@" + domain + "." + tld;
    var at, dot := |local|, |local| + 1 + |domain|;
    assert forall i :: 0 <= i < at ==> s[i] == local[i];
    assert forall i :: at < i < dot ==> s[i] == domain[i - at - 1];
    assert forall i :: dot < i < |s| ==> s[i] == tld[i - dot - 1];
    assert EmailReading(s, at, dot);
  }

  /** A matching address has exactly one `@`, with a non-empty part on each
      side. */
  lemma EmailPatternOneAt(s: string)
    requires EmailPatternMatches(s)
    ensures exists at :: 0 < at < |s| - 1 && s[at] == '@' && '@' !in s[..at] && '@' !in s[at + 1..]
  {
    var at, dot :| 0 <= at < |s| && 0 <= dot < |s| && EmailReading(s, at, dot);
    assert !IsLocalChar('@') && !IsDomainChar('@') && !IsLetter('@');
    forall i | 0 <= i < |s| && i != at ensures s[i] != '@' {
      if i < at {
        assert IsLocalChar(s[i]);
      } else if i < dot {
        assert IsDomainChar(s[i]);
      } else if i > dot {
        assert IsLetter(s[i]);
      }
    }
    assert '@' !in s[..at];
    assert '@' !in s[at + 1..];
  }

  /** `3[2-9]|5[689]|7[06-9]|8[1-689]|9[0-46-9]`: the mobile carrier
      prefixes. */
  predicate IsCarrierPrefix(a: char, b: char)
  {
    (a == '3' && '2' <= b <= '9') ||
    (a == '5' && (b == '6' || b == '8' || b == '9')) ||
    (a == '7' && (b == '0' || '6' <= b <= '9')) ||
    (a == '8' && ('1' <= b <= '6' || b == '8' || b == '9')) ||
    (a == '9' && ('0' <= b <= '4' || '6' <= b <= '9'))
  }

  /** A carrier prefix followed by `[0-9]{7}`. */
  predicate MobileBody(s: string)
  {
    |s| == 9 && IsCarrierPrefix(s[0], s[1]) && AllDigits(s[2..])
  }

  /** `^(\+84|84|0)(carrier)[0-9]{7}$` */
  predicate MobileNumber(s: string)
  {
    (StartsWith(s, "+84") && MobileBody(s[3..])) ||
    (StartsWith(s, "84") && MobileBody(s[2..])) ||
    (StartsWith(s, "0") && MobileBody(s[1..]))
  }

  /** PHONE_PATTERN as written: the trailing `|` adds an empty alternative,
      so the empty string matches as well. */
  predicate PhonePatternMatches(s: string)
  {
    MobileNumber(s) || s == []
  }

  /** `normalizePhone`: keep `+` and digits, then rewrite a leading `0` or a
      leading `84` to `+84`. The result holds only `+` and digits and never
      starts with `0` or with `84`. */
  function NormalizePhone(phone: Option<string>): (r: string)
    ensures AllPlusOrDigit(r)
    ensures !StartsWith(r, "0") && !StartsWith(r, "84")
    ensures phone.Some? && StartsWith(KeepPlusDigits(phone.value), "0") ==>
      r == "+84" + KeepPlusDigits(phone.value)[1..]
    ensures phone.Some? && StartsWith(KeepPlusDigits(phone.value), "84") ==>
      r == "+" + KeepPlusDigits(phone.value)
    ensures phone.Some? && !StartsWith(KeepPlusDigits(phone.value), "0")
            && !StartsWith(KeepPlusDigits(phone.value), "84")
            ==> r == KeepPlusDigits(phone.value)
  {
    if phone.None? then ""
    else
      var cleaned := KeepPlusDigits(phone.value);
      if StartsWith(cleaned, "0") then
        var r := "+84" + cleaned[1..];
        assert r[0] == '+' && r[1] == '8' && r[2] == '4';
        assert forall i :: 3 <= i < |r| ==> r[i] == cleaned[i - 2];
        r
      else if StartsWith(cleaned, "84") && !StartsWith(cleaned, "+84") then
        var r := "+" + cleaned;
        assert r[0] == '+';
        assert forall i :: 1 <= i < |r| ==> r[i] == cleaned[i - 1];
        r
      else cleaned
  }

  /** `isValid` with the phone pattern given as a parameter, so that the
      pattern as written and the intended one share the rest. */
  predicate ValidWith(s: Option<string>, phonePattern: string -> bool)
  {
    s.Some? && Trim(s.value) != [] &&
    var trimmed := Trim(s.value);
    if '@' in trimmed then EmailPatternMatches(trimmed)
    else phonePattern(NormalizePhone(Some(trimmed)))
  }

  /** `isValid` as written. */
  predicate IsValid(s: Option<string>)
  {
    ValidWith(s, PhonePatternMatches)
  }

  /** `null` and blank input are invalid. */
  lemma NullOrBlankInvalid(s: Option<string>)
    requires s.None? || Trim(s.value) == []
    ensures !IsValid(s) && !IsValidIntended(s)
  {
  }

  /** Input holding `@` is valid iff its trimmed form matches EMAIL_PATTERN. */
  lemma EmailBranch(s: string)
    requires '@' in Trim(s)
    ensures IsValid(Some(s)) <==> EmailPatternMatches(Trim(s))
  {
  }

  /** A normalised number that matches a mobile alternative is always the
      `+84` one: `+84`, a carrier prefix and seven digits, twelve characters
      in all. */
  lemma NormalizedMobileShape(phone: Option<string>)
    requires MobileNumber(NormalizePhone(phone))
    ensures var n := NormalizePhone(phone);
      |n| == 12 && StartsWith(n, "+84") && MobileBody(n[3..])
  {
    var n := NormalizePhone(phone);
    assert !StartsWith(n, "0") && !StartsWith(n, "84");
  }

  /** Every accepted phone input that normalises to a non-empty string
      normalises to `+84`, a carrier prefix and seven digits. */
  lemma AcceptedPhoneShape(s: string)
    requires IsValid(Some(s)) && '@' !in Trim(s)
    requires NormalizePhone(Some(Trim(s))) != []
    ensures var n := NormalizePhone(Some(Trim(s)));
      |n| == 12 && StartsWith(n, "+84") && MobileBody(n[3..])
  {
    NormalizedMobileShape(Some(Trim(s)));
  }

  /** Any non-blank input with no `@`, `+` or digit normalises to the empty
      string, which the empty alternative accepts: `"abc"` is a valid
      username. */
  lemma EmptyAlternativeAcceptsLetters()
    ensures IsValid(Some("abc"))
  {
    var s := "abc";
    assert forall i :: 0 <= i < |s| ==> !IsWhite(s[i]);
    assert Trim(s) == s;
    assert s[1..] == "bc" && "bc"[1..] == "c" && "c"[1..] == [];
    assert KeepPlusDigits(s) == [];
    assert '@' !in s;
    assert NormalizePhone(Some(s)) == [];
  }

  /** PHONE_PATTERN without the trailing `|`. */
  predicate PhonePatternIntended(s: string)
  {
    MobileNumber(s)
  }

  predicate IsValidIntended(s: Option<string>)
  {
    ValidWith(s, PhonePatternIntended)
  }

  /** With the intended pattern every accepted input is either an e-mail
      address or normalises to `+84`, a carrier prefix and seven digits; in
      particular `"abc"` is rejected. */
  lemma IntendedPhoneShape(s: string)
    requires IsValidIntended(Some(s))
    ensures var t := Trim(s);
      if '@' in t then EmailPatternMatches(t)
      else
        var n := NormalizePhone(Some(t));
        |n| == 12 && StartsWith(n, "+84") && MobileBody(n[3..])
  {
    if '@' !in Trim(s) {
      NormalizedMobileShape(Some(Trim(s)));
    }
  }

  lemma IntendedRejectsLetters()
    ensures !IsValidIntended(Some("abc"))
  {
    var s := "abc";
    assert forall i :: 0 <= i < |s| ==> !IsWhite(s[i]);
    assert Trim(s) == s;
    assert s[1..] == "bc" && "bc"[1..] == "c" && "c"[1..] == [];
    assert KeepPlusDigits(s) == [];
    assert '@' !in s;
    assert NormalizePhone(Some(s)) == [];
  }
}
