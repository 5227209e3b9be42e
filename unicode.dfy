/**
 * The part of Unicode that normalize_text uses: canonical decomposition (NFD,
 * Unicode Standard Annex #15) and the test for combining marks, for the
 * precomposed Latin-1 letters of French and the neighbouring languages.
 */
module Unicode {
  import opened Wrappers
  import opened Text

  /** The Combining Diacritical Marks block, U+0300..U+036F (general category Mn). */
  predicate IsCombining(c: char) {
    '\U{300}' <= c <= '\U{36F}'
  }

  /** Grave, acute, circumflex, diaeresis. */
  function Mark4(k: int): char requires 0 <= k < 4 {
    if k == 0 then '\U{300}' else if k == 1 then '\U{301}' else if k == 2 then '\U{302}' else '\U{308}'
  }

  /** Grave, acute, circumflex, tilde, diaeresis. */
  function Mark5(k: int): char requires 0 <= k < 5 {
    if k < 3 then Mark4(k) else if k == 3 then '\U{303}' else '\U{308}'
  }

  /** Grave, acute, circumflex, tilde, diaeresis, ring above. */
  function Mark6(k: int): char requires 0 <= k < 6 {
    if k < 5 then Mark5(k) else '\U{30A}'
  }

  /** The decomposition of a lower-case Latin-1 code point (0xE0..0xFF): base letter and mark. */
  function LowerLatinPair(k: int): Option<(char, char)> {
    if 0xE0 <= k <= 0xE5 then Some(('a', Mark6(k - 0xE0)))
    else if k == 0xE7 then Some(('c', '\U{327}'))
    else if 0xE8 <= k <= 0xEB then Some(('e', Mark4(k - 0xE8)))
    else if 0xEC <= k <= 0xEF then Some(('i', Mark4(k - 0xEC)))
    else if k == 0xF1 then Some(('n', '\U{303}'))
    else if 0xF2 <= k <= 0xF6 then Some(('o', Mark5(k - 0xF2)))
    else if 0xF9 <= k <= 0xFC then Some(('u', Mark4(k - 0xF9)))
    else if k == 0xFD then Some(('y', '\U{301}'))
    else if k == 0xFF then Some(('y', '\U{308}'))
    else None
  }

  /** The canonical decomposition of one character, e.g. 'é' to "e" + U+0301. */
  function DecomposeChar(c: char): (r: seq<char>)
    ensures 1 <= |r| <= 2
    ensures |r| == 2 ==> 'A' <= r[0] <= 'z' && IsCombining(r[1])
    ensures c < '\U{C0}' || c > '\U{FF}' ==> r == [c]
  {
    if '\U{C0}' <= c <= '\U{FF}' then
      var upper := c <= '\U{DE}';
      match LowerLatinPair(if upper then c as int + 32 else c as int)
      case None => [c]
      case Some(p) => [if upper then UpperChar(p.0) else p.0, p.1]
    else [c]
  }

  /** NFD of a string: every character replaced by its decomposition. */
  function Nfd(s: string): (r: string)
    ensures forall i :: 0 <= i < |r| ==> DecomposeChar(r[i]) == [r[i]]
    ensures IsAscii(s) ==> r == s
    ensures |s| == 1 ==> r == DecomposeChar(s[0])
    decreases |s|
  {
    if s == [] then []
    else
      var d := DecomposeChar(s[0]);
      assert forall i :: 0 <= i < |d| ==> DecomposeChar(d[i]) == [d[i]];
      d + Nfd(s[1..])
  }

  /** NFD works character by character: it maps concatenation to concatenation. */
  lemma {:induction false} NfdAppend(a: string, b: string)
    ensures Nfd(a + b) == Nfd(a) + Nfd(b)
    decreases |a|
  {
    if a == [] {
      assert a + b == b;
    } else {
      var ab := a + b;
      assert ab[0] == a[0] && ab[1..] == a[1..] + b;
      NfdAppend(a[1..], b);
      assert Nfd(ab) == DecomposeChar(a[0]) + (Nfd(a[1..]) + Nfd(b));
    }
  }

  /** Decomposing a decomposed string changes nothing. */
  lemma {:induction false} NfdIdempotent(s: string)
    ensures Nfd(Nfd(s)) == Nfd(s)
  {
    var r := Nfd(s);
    FixedPointsDecomposeToThemselves(r);
  }

  lemma {:induction false} FixedPointsDecomposeToThemselves(r: string)
    requires forall i :: 0 <= i < |r| ==> DecomposeChar(r[i]) == [r[i]]
    ensures Nfd(r) == r
    decreases |r|
  {
    if r != [] {
      FixedPointsDecomposeToThemselves(r[1..]);
      assert [r[0]] + r[1..] == r;
    }
  }

  /** Keeps the characters that are not combining marks, in order. */
  function DropMarks(s: string): (r: string)
    ensures forall i :: 0 <= i < |r| ==> !IsCombining(r[i])
    ensures forall c :: c in r <==> c in s && !IsCombining(c)
    ensures (forall i :: 0 <= i < |s| ==> !IsCombining(s[i])) ==> r == s
    ensures |s| == 1 ==> r == if IsCombining(s[0]) then [] else s
    decreases |s|
  {
    if s == [] then []
    else
      assert forall c :: c in s <==> c == s[0] || c in s[1..];
      if IsCombining(s[0]) then DropMarks(s[1..]) else [s[0]] + DropMarks(s[1..])
  }

  /** DropMarks keeps each character on its own: it maps concatenation to concatenation. */
  lemma {:induction false} DropMarksAppend(a: string, b: string)
    ensures DropMarks(a + b) == DropMarks(a) + DropMarks(b)
    decreases |a|
  {
    if a == [] {
      assert a + b == b;
    } else {
      var ab := a + b;
      assert ab[0] == a[0] && ab[1..] == a[1..] + b;
      DropMarksAppend(a[1..], b);
    }
  }
}
