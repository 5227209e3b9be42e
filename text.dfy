/**
 * The Python string operations the pipeline relies on: str.strip, str.lower,
 * the `in` substring test, str.replace of one character, str.capitalize,
 * str(int), float(str) on plain decimal literals, "\n".join, split("\n")
 * and the fixed-point format of f"{x:.2f}".
 */
module Text {
  import opened Wrappers

  /** Python's str.isspace for one character. */
  predicate IsSpace(c: char) {
    c == ' ' || ('\U{9}' <= c <= '\U{D}') || ('\U{1C}' <= c <= '\U{1F}')
    || c == '\U{85}' || c == '\U{A0}' || c == '\U{1680}' || ('\U{2000}' <= c <= '\U{200A}')
    || c == '\U{2028}' || c == '\U{2029}' || c == '\U{202F}' || c == '\U{205F}' || c == '\U{3000}'
  }

  /** Drops the leading whitespace: what is left is a suffix of `s`. */
  function TrimStart(s: string): (r: string)
    ensures |r| <= |s| && r == s[|s| - |r|..]
    ensures forall i :: 0 <= i < |s| - |r| ==> IsSpace(s[i])
    ensures r == [] || !IsSpace(r[0])
    decreases |s|
  {
    if |s| > 0 && IsSpace(s[0]) then TrimStart(s[1..]) else s
  }

  /** Drops the trailing whitespace: what is left is a prefix of `s`. */
  function TrimEnd(s: string): (r: string)
    ensures |r| <= |s| && r == s[..|r|]
    ensures forall i :: |r| <= i < |s| ==> IsSpace(s[i])
    ensures r == [] || !IsSpace(r[|r| - 1])
    decreases |s|
  {
    if |s| > 0 && IsSpace(s[|s| - 1]) then TrimEnd(s[..|s| - 1]) else s
  }

  /** str.strip() with no argument. */
  function Strip(s: string): (r: string)
    ensures r == [] || (!IsSpace(r[0]) && !IsSpace(r[|r| - 1]))
    ensures forall c :: c in r ==> c in s
    ensures (forall i :: 0 <= i < |s| ==> !IsSpace(s[i])) ==> r == s
    ensures exists a, b :: 0 <= a <= b <= |s| && r == s[a..b] && BlankOutside(s, a, b)
  {
    var t := TrimStart(s);
    assert forall c :: c in t ==> c in s;
    TrimmedIsSlice(s);
    TrimEnd(t)
  }

  /** Every character of `s` before position a and from position b on is whitespace. */
  predicate BlankOutside(s: string, a: nat, b: nat) {
    (forall i :: 0 <= i < a && i < |s| ==> IsSpace(s[i])) && (forall i :: b <= i < |s| ==> IsSpace(s[i]))
  }

  /** What strip keeps is one slice of `s`, with only whitespace on either side of it. */
  lemma TrimmedIsSlice(s: string)
    ensures exists a, b :: 0 <= a <= b <= |s| && TrimEnd(TrimStart(s)) == s[a..b] && BlankOutside(s, a, b)
  {
    var t := TrimStart(s);
    var r := TrimEnd(t);
    var a := |s| - |t|;
    PrefixOfSuffix(s, t, r, a);
    assert BlankOutside(s, a, a + |r|);
  }

  /** A prefix `r` of the suffix `t` of `s` that starts at a is the slice of `s` from a, with t's blanks past r being s's. */
  lemma PrefixOfSuffix(s: string, t: string, r: string, a: nat)
    requires a <= |s| && t == s[a..] && |r| <= |t| && r == t[..|r|]
    ensures r == s[a..a + |r|]
    ensures forall i :: a + |r| <= i < |s| ==> s[i] == t[i - a]
  {
  }

  /** A string whose ends are not blank strips to itself. */
  lemma StripUnpadded(s: string)
    requires |s| > 0 && !IsSpace(s[0]) && !IsSpace(s[|s| - 1])
    ensures Strip(s) == s
  {
    assert TrimStart(s) == s;
  }

  /** Lower case of one character (ASCII and the Latin-1 capitals). */
  function LowerChar(c: char): char {
    if 'A' <= c <= 'Z' || ('\U{C0}' <= c <= '\U{DE}' && c != '\U{D7}') then (c as int + 32) as char else c
  }

  /** Upper case of one ASCII character. */
  function UpperChar(c: char): char {
    if 'a' <= c <= 'z' then (c as int - 32) as char else c
  }

  /** str.lower(). */
  function Lower(s: string): string {
    seq(|s|, i requires 0 <= i < |s| => LowerChar(s[i]))
  }

  predicate IsAscii(s: string) {
    forall i :: 0 <= i < |s| ==> s[i] < '\U{80}'
  }

  /** str.capitalize(): first character upper case, the rest lower case. */
  function Capitalize(s: string): (r: string)
    ensures |r| == |s|
  {
    if s == [] then [] else [UpperChar(s[0])] + Lower(s[1..])
  }

  /** str.replace(a, b) for single characters. */
  function ReplaceChar(s: string, a: char, b: char): (r: string)
    ensures |r| == |s|
    ensures forall i :: 0 <= i < |s| ==> r[i] == if s[i] == a then b else s[i]
  {
    seq(|s|, i requires 0 <= i < |s| => if s[i] == a then b else s[i])
  }

  predicate IsPrefix(p: string, s: string) {
    |p| <= |s| && s[..|p|] == p
  }

  /** Python's `sub in s`. */
  predicate Contains(s: string, sub: string)
    decreases |s|
  {
    IsPrefix(sub, s) || (|s| > 0 && Contains(s[1..], sub))
  }

  lemma {:induction false} NotContainsChar(s: string, sub: string)
    requires |sub| > 0 && sub[0] !in s
    ensures !Contains(s, sub)
    decreases |s|
  {
    if |s| > 0 {
      NotContainsChar(s[1..], sub);
    }
  }

  predicate IsAsciiDigit(c: char) {
    '0' <= c <= '9'
  }

  predicate AllDigits(s: string) {
    forall i :: 0 <= i < |s| ==> IsAsciiDigit(s[i])
  }

  function DigitChar(d: nat): (c: char)
    requires d < 10
    ensures IsAsciiDigit(c) && c as int - '0' as int == d
  {
    ('0' as int + d) as char
  }

  /** str(n) for n >= 0: the shortest decimal rendering. */
  function NatText(n: nat): (r: string)
    ensures |r| >= 1 && AllDigits(r)
    ensures n > 0 ==> r[0] != '0'
    decreases n
  {
    if n < 10 then [DigitChar(n)] else NatText(n / 10) + [DigitChar(n % 10)]
  }

  /** str(i) for a Python int. */
  function IntText(i: int): (r: string)
    ensures |r| >= 1 && '\n' !in r
  {
    if i < 0 then "-" + NatText(-i) else NatText(i)
  }

  function Pow10(n: nat): (p: nat)
    ensures p >= 1
  {
    if n == 0 then 1 else 10 * Pow10(n - 1)
  }

  /** The value of a string of decimal digits ("" reads as 0). */
  function DigitsValue(s: string): nat
    requires AllDigits(s)
  {
    if s == [] then 0 else DigitsValue(s[..|s| - 1]) * 10 + (s[|s| - 1] as int - '0' as int)
  }

  lemma {:induction false} NatTextValue(n: nat)
    ensures DigitsValue(NatText(n)) == n
    decreases n
  {
    if n >= 10 {
      NatTextValue(n / 10);
      var s := NatText(n);
      assert s[..|s| - 1] == NatText(n / 10);
    }
  }

  /** Distinct numbers have distinct decimal renderings. */
  lemma NatTextInjective(m: nat, n: nat)
    requires m != n
    ensures NatText(m) != NatText(n)
  {
    NatTextValue(m);
    NatTextValue(n);
  }

  /** The first index of `c` in `s`, or |s| when there is none. */
  function IndexOf(s: string, c: char): (k: nat)
    ensures k <= |s|
    ensures k < |s| ==> s[k] == c
    ensures forall i :: 0 <= i < k ==> s[i] != c
  {
    if s == [] then 0 else if s[0] == c then 0 else 1 + IndexOf(s[1..], c)
  }

  /** float(s) restricted to unsigned decimal literals: digits, at most one '.', at least one digit. */
  function ParseUnsigned(s: string): Option<real> {
    var k := IndexOf(s, '.');
    var whole := s[..k];
    var frac := if k < |s| then s[k + 1..] else "";
    if AllDigits(whole) && AllDigits(frac) && |whole| + |frac| > 0
    then Some(DigitsValue(whole) as real + Fraction(frac))
    else None
  }

  /** The value of the digits after the decimal point. */
  function Fraction(frac: string): real
    requires AllDigits(frac)
  {
    if frac == [] then 0.0 else DigitsValue(frac) as real / Pow10(|frac|) as real
  }

  /** The number a string reads as under pandas' to_numeric: an optional sign, then a decimal literal. */
  function ParseNumber(s: string): Option<real> {
    if |s| > 0 && (s[0] == '-' || s[0] == '+') then
      match ParseUnsigned(s[1..])
      case None => None
      case Some(v) => Some(if s[0] == '-' then -v else v)
    else ParseUnsigned(s)
  }

  /** Reading back the text of an integer gives the integer. */
  lemma ParseIntText(i: int)
    ensures ParseNumber(IntText(i)) == Some(i as real)
  {
    var n: nat := if i < 0 then -i else i;
    var d := NatText(n);
    ParseDigits(d);
    NatTextValue(n);
    if i < 0 {
      var s := IntText(i);
      assert s[0] == '-' && s[1..] == d;
    } else {
      assert IsAsciiDigit(d[0]);
    }
  }

  /** A non-empty run of digits reads as its value. */
  lemma ParseDigits(s: string)
    requires |s| > 0 && AllDigits(s)
    ensures ParseUnsigned(s) == Some(DigitsValue(s) as real)
  {
    assert forall k :: 0 <= k < |s| ==> s[k] != '.';
    assert IndexOf(s, '.') == |s|;
    assert s[..|s|] == s;
  }

  /** "sep".join(lines). */
  function Join(lines: seq<string>, sep: string): string {
    if |lines| == 0 then "" else if |lines| == 1 then lines[0] else lines[0] + sep + Join(lines[1..], sep)
  }

  /** s.split("\n"). */
  function SplitLines(s: string): (r: seq<string>)
    ensures |r| >= 1
    decreases |s|
  {
    if |s| == 0 then [""]
    else if s[0] == '\n' then [""] + SplitLines(s[1..])
    else
      var rest := SplitLines(s[1..]);
      [[s[0]] + rest[0]] + rest[1..]
  }

  lemma {:induction false} SplitNoNewline(a: string)
    requires '\n' !in a
    ensures SplitLines(a) == [a]
    decreases |a|
  {
    if |a| > 0 {
      SplitNoNewline(a[1..]);
      assert [a[0]] + a[1..] == a;
    }
  }

  lemma {:induction false} SplitAfterLine(a: string, b: string)
    requires '\n' !in a
    ensures SplitLines(a + "\n" + b) == [a] + SplitLines(b)
    decreases |a|
  {
    var s := a + "\n" + b;
    if a == [] {
      assert s == "\n" + b;
      assert s[1..] == b;
    } else {
      assert s[0] == a[0];
      assert s[1..] == a[1..] + "\n" + b;
      SplitAfterLine(a[1..], b);
      assert [a[0]] + a[1..] == a;
    }
  }

  /** Splitting the "\n"-join of one or more newline-free lines gives the lines back. */
  lemma {:induction false} SplitJoin(lines: seq<string>)
    requires |lines| >= 1
    requires forall k :: 0 <= k < |lines| ==> '\n' !in lines[k]
    ensures SplitLines(Join(lines, "\n")) == lines
    decreases |lines|
  {
    if |lines| == 1 {
      SplitNoNewline(lines[0]);
    } else {
      SplitJoin(lines[1..]);
      SplitAfterLine(lines[0], Join(lines[1..], "\n"));
      assert [lines[0]] + lines[1..] == lines;
    }
  }

  lemma {:induction false} JoinNoNewline(lines: seq<string>, sep: string)
    requires '\n' !in sep
    requires forall k :: 0 <= k < |lines| ==> '\n' !in lines[k]
    ensures '\n' !in Join(lines, sep)
    decreases |lines|
  {
    if |lines| > 1 {
      JoinNoNewline(lines[1..], sep);
    }
  }

  /** Rounds to the nearest integer, ties to the even one (Python's round-half-even). */
  function RoundHalfEven(x: real): (q: int)
    ensures x - 0.5 <= q as real <= x + 0.5
  {
    var f := x.Floor;
    var diff := x - f as real;
    if diff < 0.5 then f else if diff > 0.5 then f + 1 else if f % 2 == 0 then f else f + 1
  }

  function Repeat(c: char, n: nat): (r: string)
    ensures |r| == n && forall i :: 0 <= i < n ==> r[i] == c
  {
    if n == 0 then [] else [c] + Repeat(c, n - 1)
  }

  /** Left-pads with zeros to `width` characters. */
  function ZeroPad(s: string, width: nat): (r: string)
    ensures |r| == if |s| >= width then |s| else width
    ensures '\n' !in s ==> '\n' !in r
  {
    if |s| >= width then s else Repeat('0', width - |s|) + s
  }

  /** f"{x:.{d}f}" on an exact value: sign, integer part, '.', then d digits, rounded half to even. */
  function Fixed(x: real, d: nat): (r: string)
    ensures '\n' !in r
  {
    var q := RoundHalfEven(Scaled(Magnitude(x), Pow10(d)));
    var m: nat := if q < 0 then 0 else q;
    var p := Pow10(d);
    (if x < 0.0 then ['-'] else []) + FixedDigits(Quotient(m, p), Remainder(m, p), d)
  }

  function Scaled(x: real, p: nat): real {
    x * p as real
  }

  function Quotient(m: nat, p: nat): (q: nat)
    requires p >= 1
  {
    m / p
  }

  function Remainder(m: nat, p: nat): (q: nat)
    requires p >= 1
  {
    m % p
  }

  /** |x|. */
  function Magnitude(x: real): (r: real)
    ensures r >= 0.0
  {
    if x < 0.0 then -x else x
  }

  lemma DigitsOneLine(s: string)
    requires AllDigits(s)
    ensures '\n' !in s
  {
    forall i | 0 <= i < |s|
      ensures s[i] != '\n'
    {
      assert IsAsciiDigit(s[i]);
    }
  }

  /** The integer part `whole`, then, when d > 0, '.' and the d-digit zero-padded `low`. */
  function FixedDigits(whole: nat, low: nat, d: nat): (r: string)
    ensures '\n' !in r
  {
    var w := NatText(whole);
    DigitsOneLine(w);
    if d == 0 then w
    else
      var l := NatText(low);
      DigitsOneLine(l);
      w + ['.'] + ZeroPad(l, d)
  }
}
