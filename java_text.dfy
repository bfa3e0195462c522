/** The handful of java.lang.String operations the authentication code relies on,
    written out over `seq<char>`: trim, ASCII lower-casing, the
    `replaceAll("[^+\\d]", "")` clean-up, `split`, `String.format` with `%s`
    directives and the zero-padded `%0Nd` conversion. */
module JavaText {

  /** `String.trim` removes every leading and trailing character whose code is
      at most U+0020. */
  predicate IsWhite(c: char) { c <= ' ' }

  predicate IsDigit(c: char) { '0' <= c <= '9' }

  predicate IsUpper(c: char) { 'A' <= c <= 'Z' }

  predicate IsLower(c: char) { 'a' <= c <= 'z' }

  predicate IsLetter(c: char) { IsUpper(c) || IsLower(c) }

  /** The characters the regular expression `[^+\d]` does NOT remove. */
  predicate IsPlusOrDigit(c: char) { c == '+' || IsDigit(c) }

  predicate AllDigits(s: string) { forall i :: 0 <= i < |s| ==> IsDigit(s[i]) }

  predicate AllPlusOrDigit(s: string) { forall i :: 0 <= i < |s| ==> IsPlusOrDigit(s[i]) }

  /** Java's `s.startsWith(p)`. */
  predicate StartsWith(s: string, p: string) { |p| <= |s| && s[..|p|] == p }

  /** Java's `s.endsWith(p)`. */
  predicate EndsWith(s: string, p: string) { |p| <= |s| && s[|s| - |p|..] == p }

  /** Java's `s.contains(x)` for a string argument. */
  predicate IsInfix(x: string, s: string) {
    exists i :: 0 <= i <= |s| && StartsWith(s[i..], x)
  }

  /** `x` occurs in `a + x + b`. */
  lemma InfixAt(a: string, x: string, b: string)
    ensures IsInfix(x, a + x + b)
  {
    var s := a + x + b;
    assert s[|a|..] == x + b;
    assert StartsWith(s[|a|..], x);
  }

  /** `y` ends `x + y`. */
  lemma SuffixOf(x: string, y: string)
    ensures EndsWith(x + y, y)
  {
    assert (x + y)[|x + y| - |y|..] == y;
  }

  // ---------------------------------------------------------------- trim

  function TrimStart(s: string): (r: string)
    ensures |r| <= |s| && r == s[|s| - |r|..]
    ensures r == [] || !IsWhite(r[0])
    ensures forall i :: 0 <= i < |s| - |r| ==> IsWhite(s[i])
  {
    if |s| > 0 && IsWhite(s[0]) then TrimStart(s[1..]) else s
  }

  function TrimEnd(s: string): (r: string)
    ensures |r| <= |s| && r == s[..|r|]
    ensures r == [] || !IsWhite(r[|r| - 1])
    ensures forall i :: |r| <= i < |s| ==> IsWhite(s[i])
  {
    if |s| > 0 && IsWhite(s[|s| - 1]) then TrimEnd(s[..|s| - 1]) else s
  }

  /** `String.trim`: the longest infix that neither starts nor ends with a
      character at most U+0020. */
  function Trim(s: string): (r: string)
    ensures r == [] || (!IsWhite(r[0]) && !IsWhite(r[|r| - 1]))
    ensures (forall i :: 0 <= i < |s| ==> !IsWhite(s[i])) ==> r == s
  {
    TrimEnd(TrimStart(s))
  }

  /** A string that neither starts nor ends with white space is its own trim. */
  lemma TrimFixed(s: string)
    requires s == [] || (!IsWhite(s[0]) && !IsWhite(s[|s| - 1]))
    ensures Trim(s) == s
  {
  }

  lemma TrimIdempotent(s: string)
    ensures Trim(Trim(s)) == Trim(s)
  {
    TrimFixed(Trim(s));
  }

  /** Trimming only drops white space: every other character survives. */
  lemma TrimKeeps(s: string, c: char)
    requires !IsWhite(c)
    ensures c in Trim(s) <==> c in s
  {
    var a := TrimStart(s);
    var b := TrimEnd(a);
    var k := |s| - |a|;
    assert a == s[k..];
    assert b == a[..|b|];
    if c in b {
      var j :| 0 <= j < |b| && b[j] == c;
      assert a[j] == c;
      assert s[k + j] == c;
    }
    if c in s {
      var i :| 0 <= i < |s| && s[i] == c;
      assert !IsWhite(s[i]);
      assert k <= i;
      assert a[i - k] == c;
      assert !IsWhite(a[i - k]);
      assert i - k < |b|;
      assert b[i - k] == c;
    }
  }

  // ---------------------------------------------------------- lower case

  /** `Character.toLowerCase` restricted to ASCII. */
  function LowerChar(c: char): (r: char)
    ensures IsWhite(r) <==> IsWhite(c)
    ensures r == '@' <==> c == '@'
    ensures !IsUpper(r)
  {
    if IsUpper(c) then (c as int - 'A' as int + 'a' as int) as char else c
  }

  function ToLower(s: string): (r: string)
    ensures |r| == |s|
    ensures forall i :: 0 <= i < |s| ==> r[i] == LowerChar(s[i])
  {
    seq(|s|, i requires 0 <= i < |s| => LowerChar(s[i]))
  }

  lemma ToLowerIdempotent(s: string)
    ensures ToLower(ToLower(s)) == ToLower(s)
  {
  }

  lemma ToLowerKeepsAt(s: string)
    ensures '@' in ToLower(s) <==> '@' in s
  {
  }

  /** A trimmed, lower-cased string is left alone by both operations. */
  lemma LowerTrimmedFixed(s: string)
    ensures var n := ToLower(Trim(s));
            Trim(n) == n && ToLower(n) == n
  {
    var t := Trim(s);
    TrimFixed(ToLower(t));
    ToLowerIdempotent(t);
  }

  // ------------------------------------------------- replaceAll("[^+\\d]", "")

  /** `s.replaceAll("[^+\\d]", "")`: keep `+` and the ASCII digits, in order. */
  function KeepPlusDigits(s: string): (r: string)
    ensures AllPlusOrDigit(r)
    ensures |r| <= |s|
  {
    if s == [] then []
    else (if IsPlusOrDigit(s[0]) then [s[0]] else []) + KeepPlusDigits(s[1..])
  }

  /** A string made only of `+` and digits is left alone by the clean-up. */
  lemma {:induction false} KeepPlusDigitsFixed(s: string)
    requires AllPlusOrDigit(s)
    ensures KeepPlusDigits(s) == s
  {
    if s != [] {
      KeepPlusDigitsFixed(s[1..]);
    }
  }

  /** Nothing the clean-up keeps is white space or `@`. */
  lemma NoWhiteNoAt(s: string)
    requires AllPlusOrDigit(s)
    ensures '@' !in s
    ensures forall i :: 0 <= i < |s| ==> !IsWhite(s[i])
  {
  }

  // ------------------------------------------------------------- split

  /** Index of the first occurrence of `c` (Java `indexOf`, here only called
      when `c` occurs). */
  function IndexOf(s: string, c: char): (i: nat)
    requires c in s
    ensures i < |s| && s[i] == c && c !in s[..i]
  {
    if s[0] == c then 0 else 1 + IndexOf(s[1..], c)
  }

  /** Every field of `s` between occurrences of `c`, trailing empty ones included. */
  function SplitAll(s: string, c: char): (r: seq<string>)
    ensures |r| >= 1
    ensures c !in s ==> r == [s]
    decreases |s|
  {
    if c !in s then [s]
    else
      var i := IndexOf(s, c);
      [s[..i]] + SplitAll(s[i + 1..], c)
  }

  function DropTrailingEmpty(parts: seq<string>): (r: seq<string>)
    ensures |r| <= |parts| && r == parts[..|r|]
    ensures r == [] || r[|r| - 1] != []
    ensures forall j :: |r| <= j < |parts| ==> parts[j] == []
  {
    if parts != [] && parts[|parts| - 1] == [] then DropTrailingEmpty(parts[..|parts| - 1])
    else parts
  }

  /** `s.split(c)` (limit 0): when `c` does not occur the result is `[s]`;
      otherwise the fields with trailing empty fields removed. */
  function Split(s: string, c: char): seq<string>
  {
    if c !in s then [s] else DropTrailingEmpty(SplitAll(s, c))
  }

  /** `s.split(c, 2)`: the text before the first `c` and everything after it. */
  function SplitFirst(s: string, c: char): (r: seq<string>)
    ensures c in s ==> |r| == 2 && r[0] + [c] + r[1] == s && c !in r[0]
    ensures c !in s ==> r == [s]
  {
    if c !in s then [s]
    else
      var i := IndexOf(s, c);
      assert s == s[..i] + [c] + s[i + 1..];
      [s[..i], s[i + 1..]]
  }

  /** For `local + "@" + domain` with no `@` in either part and a non-empty
      domain, `split("@")` yields exactly the two parts. */
  lemma SplitAddress(local: string, domain: string)
    requires '@' !in local && '@' !in domain && domain != []
    ensures Split(local + "@" + domain, '@') == [local, domain]
  {
    var s := local + "@" + domain;
    assert s[|local|] == '@';
    assert s[..|local|] == local;
    var i := IndexOf(s, '@');
    assert i == |local|;
    assert s[i + 1..] == domain;
    assert SplitAll(s, '@') == [local, domain];
  }

  /** With nothing after the only `@`, `split("@")` keeps just the local part
      (and drops it too when it is empty). */
  lemma SplitTrailingAt(local: string)
    requires '@' !in local
    ensures Split(local + "@", '@') == if local == [] then [] else [local]
  {
    var s := local + "@";
    assert s[|local|] == '@';
    assert s[..|local|] == local;
    var i := IndexOf(s, '@');
    assert i == |local|;
    assert s[i + 1..] == [];
    assert SplitAll(s, '@') == [local, []];
    assert [local, []][..1] == [local];
    assert DropTrailingEmpty([local, []]) == DropTrailingEmpty([local]);
    if local == [] {
      assert [local][..0] == [];
      assert DropTrailingEmpty([local]) == DropTrailingEmpty([]);
    }
  }

  // ---------------------------------------------------------- String.format

  /** Number of `%s` directives in a format string. */
  function Directives(fmt: string): nat
    decreases |fmt|
  {
    if |fmt| < 2 then 0
    else if fmt[0] == '%' && fmt[1] == 's' then 1 + Directives(fmt[2..])
    else Directives(fmt[1..])
  }

  /** `String.format(fmt, args...)` for format strings whose only directives
      are `%s`; Java throws MissingFormatArgumentException when arguments run
      out, which the precondition rules out. */
  function Format(fmt: string, args: seq<string>): string
    requires Directives(fmt) <= |args|
    decreases |fmt|
  {
    if |fmt| < 2 then fmt
    else if fmt[0] == '%' && fmt[1] == 's' then args[0] + Format(fmt[2..], args[1..])
    else [fmt[0]] + Format(fmt[1..], args)
  }

  /** Literal text without `%` is copied to the output unchanged. */
  lemma {:induction false} FormatLiteral(lit: string, rest: string, args: seq<string>)
    requires '%' !in lit
    ensures Directives(lit + rest) == Directives(rest)
    ensures Directives(rest) <= |args| ==> Format(lit + rest, args) == lit + Format(rest, args)
  {
    if lit == [] {
      assert lit + rest == rest;
    } else {
      var fmt := lit + rest;
      assert lit[0] in lit;
      assert fmt[0] == lit[0] != '%';
      assert fmt[1..] == lit[1..] + rest;
      FormatLiteral(lit[1..], rest, args);
      if |fmt| < 2 {
        assert rest == [] && lit == [lit[0]];
      } else {
        assert Directives(fmt) == Directives(fmt[1..]);
        if Directives(rest) <= |args| {
          assert Format(fmt, args) == [fmt[0]] + Format(fmt[1..], args);
          assert lit == [lit[0]] + lit[1..];
        }
      }
    }
  }

  /** A `%s` directive is replaced by the next argument. */
  lemma FormatDirective(rest: string, args: seq<string>)
    ensures Directives("%s" + rest) == 1 + Directives(rest)
    ensures 1 + Directives(rest) <= |args| ==>
              Format("%s" + rest, args) == args[0] + Format(rest, args[1..])
  {
    assert ("%s" + rest)[2..] == rest;
  }

  /** Literal text, then a `%s` directive, then the rest of the format. */
  lemma FormatStep(lead: string, rest: string, args: seq<string>)
    requires '%' !in lead
    ensures Directives(lead + "%s" + rest) == 1 + Directives(rest)
    ensures 1 + Directives(rest) <= |args| ==>
              Format(lead + "%s" + rest, args) == lead + args[0] + Format(rest, args[1..])
  {
    assert lead + "%s" + rest == lead + ("%s" + rest);
    FormatLiteral(lead, "%s" + rest, args);
    FormatDirective(rest, args);
  }

  /** A format without directives is copied unchanged. */
  lemma FormatPlain(lit: string, args: seq<string>)
    requires '%' !in lit
    ensures Directives(lit) == 0 && Format(lit, args) == lit
  {
    FormatLiteral(lit, [], args);
    assert lit + [] == lit;
  }

  /** The one-argument layout `lead %s`, e.g. `"OTP_BLOCK:%s"`. */
  lemma FormatOne(lead: string, a: string)
    requires '%' !in lead
    ensures Directives(lead + "%s") == 1
    ensures Format(lead + "%s", [a]) == lead + a
  {
    assert lead + "%s" == lead + "%s" + [];
    FormatStep(lead, [], [a]);
    FormatPlain([], [a][1..]);
  }

  /** The two-argument layout `lead %s sep %s tail`, e.g. `"otp:%s:%s"` or
      the SMS texts. */
  lemma FormatTwo(lead: string, sep: string, tail: string, a: string, b: string)
    requires '%' !in lead && '%' !in sep && '%' !in tail
    ensures Directives(lead + "%s" + sep + "%s" + tail) == 2
    ensures Format(lead + "%s" + sep + "%s" + tail, [a, b]) == lead + a + sep + b + tail
  {
    var rest := sep + "%s" + tail;
    assert lead + "%s" + sep + "%s" + tail == lead + "%s" + rest;
    FormatStep(sep, tail, [b]);
    FormatPlain(tail, []);
    assert [b][1..] == [];
    FormatStep(lead, rest, [a, b]);
    assert [a, b][1..] == [b];
  }

  // ---------------------------------------------------------- "%0Nd"

  function Pow10(n: nat): (r: nat)
    ensures r >= 1
  {
    if n == 0 then 1 else 10 * Pow10(n - 1)
  }

  function DigitChar(d: nat): (c: char)
    requires d < 10
    ensures IsDigit(c) && c as int - '0' as int == d
  {
    ('0' as int + d) as char
  }

  /** `String.format("%0" + width + "d", n)` for `n < 10^width`: the decimal
      digits of `n`, left-padded with zeros to exactly `width` characters. */
  function PadDecimal(n: nat, width: nat): (r: string)
    ensures |r| == width && AllDigits(r)
  {
    if width == 0 then [] else PadDecimal(n / 10, width - 1) + [DigitChar(n % 10)]
  }

  /** The number a string of decimal digits denotes (`Integer.parseInt`). */
  function DecimalValue(s: string): nat
    requires AllDigits(s)
  {
    if s == [] then 0
    else 10 * DecimalValue(s[..|s| - 1]) + (s[|s| - 1] as int - '0' as int)
  }

  /** Padding loses nothing: the padded text denotes the number again. */
  lemma {:induction false} PadDecimalRoundTrip(n: nat, width: nat)
    requires n < Pow10(width)
    ensures DecimalValue(PadDecimal(n, width)) == n
  {
    if width > 0 {
      var p := PadDecimal(n, width);
      assert p[..|p| - 1] == PadDecimal(n / 10, width - 1);
      assert n / 10 < Pow10(width - 1);
      PadDecimalRoundTrip(n / 10, width - 1);
    }
  }

  // ------------------------------------------------------- separators

  /** Index of the last occurrence of `c` (Java `lastIndexOf`). */
  function LastIndexOf(s: string, c: char): nat
    requires c in s
  {
    if s[|s| - 1] == c then |s| - 1
    else
      assert c in s[..|s| - 1] by {
        var i :| 0 <= i < |s| && s[i] == c;
        assert s[..|s| - 1][i] == c;
      }
      LastIndexOf(s[..|s| - 1], c)
  }

  lemma {:induction false} LastIndexAfter(x: string, y: string, c: char)
    requires c !in y
    ensures c in x + [c] + y && LastIndexOf(x + [c] + y, c) == |x|
  {
    var s := x + [c] + y;
    assert s[|x|] == c;
    if y != [] {
      var y' := y[..|y| - 1];
      assert s[..|s| - 1] == x + [c] + y';
      assert s[|s| - 1] == y[|y| - 1];
      LastIndexAfter(x, y', c);
    }
  }

  /** Splitting at the first occurrence of a character is unambiguous. */
  lemma SplitAtFirst(x1: string, y1: string, x2: string, y2: string, c: char)
    requires x1 + [c] + y1 == x2 + [c] + y2
    requires c !in x1 && c !in x2
    ensures x1 == x2 && y1 == y2
  {
    var s := x1 + [c] + y1;
    assert s[..|x1|] == x1 && s[|x1|] == c;
    assert s[..|x2|] == x2 && s[|x2|] == c;
    FirstOccurrence(s, c, |x1|, |x2|);
    FirstOccurrence(s, c, |x2|, |x1|);
    assert x1 == s[..|x1|] == x2;
    assert y1 == s[|x1| + 1..] == y2;
  }

  /** A prefix free of `c` ends at or before any occurrence of `c`. */
  lemma FirstOccurrence(s: string, c: char, i: nat, j: nat)
    requires i < |s| && s[i] == c && j <= |s| && c !in s[..j]
    ensures j <= i
  {
    forall k | 0 <= k < j
      ensures s[k] != c
    {
      assert s[..j][k] == s[k];
    }
  }

  /** A character of `s` that differs from `p` at the same index rules out
      `p` as a prefix. */
  lemma NotPrefix(s: string, p: string, i: nat)
    requires i < |p| && i < |s| && s[i] != p[i]
    ensures !StartsWith(s, p)
  {
    if |p| <= |s| {
      assert s[..|p|][i] == s[i];
    }
  }

  /** A prefix fixes the characters it covers. */
  lemma PrefixChar(s: string, p: string, i: nat)
    requires StartsWith(s, p) && i < |p|
    ensures s[i] == p[i]
  {
    assert s[..|p|][i] == s[i];
  }

  /** When the part after the last separator contains no separator, a
      string `x + [c] + y` determines both `x` and `y`. */
  lemma SplitAtLast(x1: string, y1: string, x2: string, y2: string, c: char)
    requires x1 + [c] + y1 == x2 + [c] + y2
    requires c !in y1 && c !in y2
    ensures x1 == x2 && y1 == y2
  {
    var s := x1 + [c] + y1;
    LastIndexAfter(x1, y1, c);
    LastIndexAfter(x2, y2, c);
    assert x1 == s[..|x1|] == x2;
    assert y1 == s[|x1| + 1..] == y2;
  }
}
