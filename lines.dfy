/**
 * How "\n".join and str.split("\n") interact when some of the joined
 * pieces are themselves multi-line texts: the report is assembled that way.
 */
module Lines {
  import opened Text

  /** Splitting at a joining newline splits both sides. */
  lemma {:induction false} SplitAround(a: string, b: string)
    ensures SplitLines(a + "\n" + b) == SplitLines(a) + SplitLines(b)
    decreases |a|
  {
    var s := a + "\n" + b;
    if a == [] {
      assert s == "\n" + b && s[1..] == b;
    } else {
      assert s[0] == a[0] && s[1..] == a[1..] + "\n" + b;
      SplitAround(a[1..], b);
    }
  }

  /** The lines of each piece, one piece after the other. */
  function LinesOf(pieces: seq<string>): seq<string> {
    if pieces == [] then [] else SplitLines(pieces[0]) + LinesOf(pieces[1..])
  }

  lemma {:induction false} LinesOfAppend(a: seq<string>, b: seq<string>)
    ensures LinesOf(a + b) == LinesOf(a) + LinesOf(b)
    decreases |a|
  {
    if a == [] {
      assert a + b == b;
    } else {
      assert (a + b)[0] == a[0] && (a + b)[1..] == a[1..] + b;
      LinesOfAppend(a[1..], b);
    }
  }

  /** Pieces without a newline are their own lines. */
  lemma {:induction false} LinesOfSingle(pieces: seq<string>)
    requires forall k :: 0 <= k < |pieces| ==> '\n' !in pieces[k]
    ensures LinesOf(pieces) == pieces
    decreases |pieces|
  {
    if pieces != [] {
      SplitNoNewline(pieces[0]);
      LinesOfSingle(pieces[1..]);
    }
  }

  /** "\n".join(pieces).split("\n") gives the lines of the pieces in order. */
  lemma {:induction false} SplitJoinPieces(pieces: seq<string>)
    requires |pieces| >= 1
    ensures SplitLines(Join(pieces, "\n")) == LinesOf(pieces)
    decreases |pieces|
  {
    if |pieces| == 1 {
      assert LinesOf(pieces[1..]) == [];
    } else {
      SplitJoinPieces(pieces[1..]);
      SplitAround(pieces[0], Join(pieces[1..], "\n"));
    }
  }

  /** Fixed newline-free lines around three texts split into the fixed lines and the lines of each text. */
  lemma Layout(head: seq<string>, a: string, mid1: seq<string>, b: string, mid2: seq<string>, c: string, tail: seq<string>)
    requires forall k :: 0 <= k < |head| ==> '\n' !in head[k]
    requires forall k :: 0 <= k < |mid1| ==> '\n' !in mid1[k]
    requires forall k :: 0 <= k < |mid2| ==> '\n' !in mid2[k]
    requires forall k :: 0 <= k < |tail| ==> '\n' !in tail[k]
    ensures SplitLines(Join(head + ([a] + (mid1 + ([b] + (mid2 + ([c] + tail))))), "\n"))
            == head + (SplitLines(a) + (mid1 + (SplitLines(b) + (mid2 + (SplitLines(c) + tail)))))
  {
    var r2 := mid2 + ([c] + tail);
    var r1 := mid1 + ([b] + r2);
    SplitJoinPieces(head + ([a] + r1));
    LinesAfterFixed(head, a, r1);
    LinesAfterFixed(mid1, b, r2);
    LinesAfterFixed(mid2, c, tail);
    LinesOfSingle(tail);
  }

  /** The lines of fixed newline-free pieces, one text and more pieces. */
  lemma LinesAfterFixed(fixed: seq<string>, x: string, rest: seq<string>)
    requires forall k :: 0 <= k < |fixed| ==> '\n' !in fixed[k]
    ensures LinesOf(fixed + ([x] + rest)) == fixed + (SplitLines(x) + LinesOf(rest))
  {
    LinesOfAppend(fixed, [x] + rest);
    LinesOfSingle(fixed);
    assert ([x] + rest)[0] == x && ([x] + rest)[1..] == rest;
  }
}
