/**
 * The table model: a pandas DataFrame as a sequence of column labels and a
 * sequence of rows, each row a sequence of cells in column order. Labels may
 * repeat, as pandas allows. Every null pandas knows (NaN, None, NaT) is the
 * cell Empty.
 */
module Frame {
  import opened Wrappers
  import opened Text
  import opened Calendar

  /** A cell: null, text, an integer, a floating-point number, or an instant (seconds from 1899-12-30). */
  datatype Cell = Empty | Str(s: string) | Int(i: int) | Num(r: real) | Date(t: int)

  type Row = seq<Cell>

  /** The KeyError df[name] raises when no column carries `name`. */
  datatype Failure = KeyError(column: string)

  datatype Table = Table(labels: seq<string>, rows: seq<Row>)

  /** Every row has one cell per label, as every DataFrame does. */
  predicate WellFormed(t: Table) {
    forall i :: 0 <= i < |t.rows| ==> |t.rows[i]| == |t.labels|
  }

  /** The cell in column j, Empty past the end of the row. */
  function Get(row: Row, j: int): Cell {
    if 0 <= j < |row| then row[j] else Empty
  }

  /** The position of the first column carrying `name`: the column `df[name]` reads. */
  function ColumnIndex(labels: seq<string>, name: string): (r: Option<nat>)
    ensures r.Some? <==> name in labels
    ensures r.Some? ==> r.value < |labels| && labels[r.value] == name
    ensures r.Some? ==> forall k :: 0 <= k < r.value ==> labels[k] != name
  {
    if labels == [] then None
    else if labels[0] == name then Some(0)
    else match ColumnIndex(labels[1..], name)
      case None => None
      case Some(k) => Some(k + 1)
  }

  /** Appending labels does not move the first column carrying a label already present. */
  lemma ColumnIndexPrefix(labels: seq<string>, more: seq<string>, name: string)
    requires name in labels
    ensures ColumnIndex(labels + more, name) == ColumnIndex(labels, name)
  {
    var k := ColumnIndex(labels, name).value;
    var m := ColumnIndex(labels + more, name).value;
    assert (labels + more)[k] == name;
  }

  /** A label appended to labels that lack it is read at the new last position, and the others do not move. */
  lemma ColumnIndexAppended(labels: seq<string>, name: string)
    requires name !in labels
    ensures ColumnIndex(labels + [name], name) == Some(|labels|)
    ensures forall l :: l in labels ==> ColumnIndex(labels + [name], l) == ColumnIndex(labels, l)
  {
    forall l | l in labels ensures ColumnIndex(labels + [name], l) == ColumnIndex(labels, l) {
      ColumnIndexPrefix(labels, [name], l);
    }
    assert (labels + [name])[|labels|] == name;
  }

  /** df[name]: the position of the column read, or the KeyError. */
  function Col(labels: seq<string>, name: string): (r: Result<nat, Failure>)
    ensures r.Ok? <==> name in labels
    ensures r.Ok? ==> r.value < |labels| && labels[r.value] == name && r.value == ColumnIndex(labels, name).value
    ensures r.Err? ==> r.error == KeyError(name)
  {
    match ColumnIndex(labels, name)
    case Some(j) => Ok(j)
    case None => Err(KeyError(name))
  }

  /** The text astype(str) gives a null cell. */
  const NullText: string := "nan"

  /** Up to n decimal digits of a fraction, stopping once it is exhausted. */
  function FracDigits(f: real, n: nat): (r: string)
    requires 0.0 <= f < 1.0
    ensures AllDigits(r)
    decreases n
  {
    if n == 0 || f == 0.0 then ""
    else
      var x := f * 10.0;
      var d := x.Floor;
      [DigitChar(d)] + FracDigits(x - d as real, n - 1)
  }

  /** str(float): sign, integer part, '.', then the fraction digits (at least one). */
  function RealText(r: real): string {
    var a := if r < 0.0 then -r else r;
    var w := a.Floor;
    var fd := FracDigits(a - w as real, 17);
    (if r < 0.0 then "-" else "") + NatText(w) + "." + (if fd == "" then "0" else fd)
  }

  /** astype(str) of one cell. */
  function CellText(c: Cell): string {
    match c
    case Empty => NullText
    case Str(s) => s
    case Int(i) => IntText(i)
    case Num(r) => RealText(r)
    case Date(t) => TimestampText(t)
  }

  /** The number a numeric cell holds; any other cell compares like NaN. */
  function NumValue(c: Cell): Option<real> {
    match c
    case Int(i) => Some(i as real)
    case Num(r) => Some(r)
    case _ => None
  }

  /** The cells of column j, top to bottom. */
  function Column(t: Table, j: int): (col: seq<Cell>)
    ensures |col| == |t.rows|
  {
    seq(|t.rows|, i requires 0 <= i < |t.rows| => Get(t.rows[i], j))
  }

  /** The cells of `row` at the positions `idx`, in that order. */
  function Project(row: Row, idx: seq<nat>): (r: Row)
    ensures |r| == |idx|
  {
    seq(|idx|, k requires 0 <= k < |idx| => Get(row, idx[k]))
  }

  function CountWhere<T>(s: seq<T>, p: T -> bool): (n: nat)
    ensures n <= |s|
  {
    if s == [] then 0 else (if p(s[0]) then 1 else 0) + CountWhere(s[1..], p)
  }

  /** `a` is `b` with some elements left out, the rest in their order. */
  predicate IsSubseq<T(==)>(a: seq<T>, b: seq<T>)
    decreases |b|
  {
    a == [] || (|b| > 0 && ((a[0] == b[0] && IsSubseq(a[1..], b[1..])) || IsSubseq(a, b[1..])))
  }

  /** A boolean-mask selection df[mask]: the elements for which `p` holds, in order. */
  function Filter<T(==, !new)>(s: seq<T>, p: T -> bool): (r: seq<T>)
    ensures |r| == CountWhere(s, p)
    ensures forall x :: x in r <==> x in s && p(x)
    ensures forall x :: multiset(r)[x] == if p(x) then multiset(s)[x] else 0
    ensures IsSubseq(r, s)
  {
    if s == [] then []
    else
      var rest := Filter(s[1..], p);
      assert s == [s[0]] + s[1..];
      if p(s[0]) then
        var r := [s[0]] + rest;
        assert r[1..] == rest;
        r
      else
        rest
  }

  /** df[name] = values: overwrites the first column carrying `name`, or appends a new last column. */
  function WithColumn(t: Table, name: string, values: seq<Cell>): (r: Table)
    requires WellFormed(t) && |values| == |t.rows|
    ensures WellFormed(r) && |r.rows| == |t.rows|
    ensures name in t.labels ==> r.labels == t.labels
    ensures name !in t.labels ==> r.labels == t.labels + [name]
    ensures |r.labels| >= |t.labels| && r.labels[..|t.labels|] == t.labels
    ensures forall l :: l in r.labels <==> l in t.labels || l == name
    ensures forall l :: l in t.labels ==> ColumnIndex(r.labels, l) == ColumnIndex(t.labels, l)
    ensures ColumnIndex(r.labels, name).Some?
    ensures forall i :: 0 <= i < |r.rows| ==> Get(r.rows[i], ColumnIndex(r.labels, name).value) == values[i]
    ensures forall i, j :: 0 <= i < |t.rows| && 0 <= j < |t.labels| && j != ColumnIndex(r.labels, name).value
              ==> r.rows[i][j] == t.rows[i][j]
  {
    match ColumnIndex(t.labels, name)
    case Some(j) => SetColumn(t, j, values)
    case None =>
      var r := AppendColumn(t, name, values);
      ColumnIndexAppended(t.labels, name);
      r
  }

  /** Column j of every row replaced by the matching value. */
  function SetColumn(t: Table, j: nat, values: seq<Cell>): (r: Table)
    requires WellFormed(t) && j < |t.labels| && |values| == |t.rows|
    ensures WellFormed(r) && r.labels == t.labels && |r.rows| == |t.rows|
    ensures forall i :: 0 <= i < |r.rows| ==> r.rows[i][j] == values[i]
    ensures forall i, k :: 0 <= i < |t.rows| && 0 <= k < |t.labels| && k != j ==> r.rows[i][k] == t.rows[i][k]
  {
    Table(t.labels, seq(|t.rows|, i requires 0 <= i < |t.rows| => t.rows[i][j := values[i]]))
  }

  /** A new last column `name` holding the values. */
  function AppendColumn(t: Table, name: string, values: seq<Cell>): (r: Table)
    requires WellFormed(t) && |values| == |t.rows|
    ensures WellFormed(r) && r.labels == t.labels + [name] && |r.rows| == |t.rows|
    ensures forall i :: 0 <= i < |r.rows| ==> r.rows[i][|t.labels|] == values[i]
    ensures forall i, k :: 0 <= i < |t.rows| && 0 <= k < |t.labels| ==> r.rows[i][k] == t.rows[i][k]
  {
    Table(t.labels + [name], seq(|t.rows|, i requires 0 <= i < |t.rows| => t.rows[i] + [values[i]]))
  }

  /** df[name] = df[name].apply(f), on every column carrying `name`. */
  function MapColumn(t: Table, name: string, f: Cell -> Cell): (r: Table)
    ensures r.labels == t.labels && |r.rows| == |t.rows|
    ensures forall i :: 0 <= i < |t.rows| ==> |r.rows[i]| == |t.rows[i]|
    ensures forall i, j :: 0 <= i < |t.rows| && 0 <= j < |t.rows[i]| ==>
              r.rows[i][j] == if j < |t.labels| && t.labels[j] == name then f(t.rows[i][j]) else t.rows[i][j]
  {
    Table(t.labels, seq(|t.rows|, i requires 0 <= i < |t.rows| =>
      seq(|t.rows[i]|, j requires 0 <= j < |t.rows[i]| =>
        if j < |t.labels| && t.labels[j] == name then f(t.rows[i][j]) else t.rows[i][j])))
  }

  /** The positions below n that satisfy p, in increasing order: the row or column labels a boolean mask keeps. */
  function Indices(n: nat, p: nat -> bool): (r: seq<nat>)
    ensures |r| <= n
    ensures forall k :: 0 <= k < |r| ==> r[k] < n && p(r[k])
    ensures forall i :: 0 <= i < n && p(i) ==> i in r
    ensures forall k, l :: 0 <= k < l < |r| ==> r[k] < r[l]
  {
    if n == 0 then [] else Indices(n - 1, p) + (if p(n - 1) then [n - 1] else [])
  }

  /** Strictly increasing positions below n: a selection that keeps the original order. */
  predicate Increasing(idx: seq<nat>, n: nat) {
    (forall k :: 0 <= k < |idx| ==> idx[k] < n) && (forall k, l :: 0 <= k < l < |idx| ==> idx[k] < idx[l])
  }

  /** df.iloc[idx]: the rows at the positions `idx`, labels unchanged. */
  function KeepRows(t: Table, idx: seq<nat>): (r: Table)
    requires forall k :: 0 <= k < |idx| ==> idx[k] < |t.rows|
    ensures r.labels == t.labels && |r.rows| == |idx|
    ensures forall k :: 0 <= k < |idx| ==> r.rows[k] == t.rows[idx[k]]
    ensures WellFormed(t) ==> WellFormed(r)
  {
    Table(t.labels, seq(|idx|, k requires 0 <= k < |idx| => t.rows[idx[k]]))
  }

  /** df.iloc[:, idx]: the columns at the positions `idx`, rows kept. */
  function KeepColumns(t: Table, idx: seq<nat>): (r: Table)
    requires WellFormed(t)
    requires forall k :: 0 <= k < |idx| ==> idx[k] < |t.labels|
    ensures WellFormed(r) && |r.labels| == |idx| && |r.rows| == |t.rows|
    ensures forall k :: 0 <= k < |idx| ==> r.labels[k] == t.labels[idx[k]]
    ensures forall i, k :: 0 <= i < |t.rows| && 0 <= k < |idx| ==> r.rows[i][k] == t.rows[i][idx[k]]
  {
    Table(seq(|idx|, k requires 0 <= k < |idx| => t.labels[idx[k]]),
          seq(|t.rows|, i requires 0 <= i < |t.rows| => Project(t.rows[i], idx)))
  }

  /** df[[x, y]] for the columns at positions a and b. */
  function KeepPair(t: Table, a: nat, b: nat): (r: Table)
    requires WellFormed(t) && a < |t.labels| && b < |t.labels|
    ensures WellFormed(r) && |r.rows| == |t.rows|
  {
    KeepColumns(t, [a, b])
  }

  /** Keeping two columns gives rows of two cells. */
  lemma KeepTwoColumns(t: Table, a: nat, b: nat)
    requires WellFormed(t) && a < |t.labels| && b < |t.labels|
    ensures var r := KeepPair(t, a, b);
            && |r.labels| == 2 && r.labels[0] == t.labels[a] && r.labels[1] == t.labels[b]
            && forall i :: 0 <= i < |t.rows| ==> r.rows[i] == [t.rows[i][a], t.rows[i][b]]
  {
    var r := KeepPair(t, a, b);
    forall i | 0 <= i < |t.rows| ensures r.rows[i] == [t.rows[i][a], t.rows[i][b]] {
      assert |r.rows[i]| == 2;
    }
  }

  /** df.rename(columns=m): every label that is a key of m is replaced by its value. */
  function Rename(labels: seq<string>, m: map<string, string>): (r: seq<string>)
    ensures |r| == |labels|
    ensures forall j :: 0 <= j < |labels| ==> r[j] == if labels[j] in m then m[labels[j]] else labels[j]
  {
    seq(|labels|, j requires 0 <= j < |labels| => if labels[j] in m then m[labels[j]] else labels[j])
  }

  /** df[name].astype(str) for the first column carrying `name`. */
  function Texts(t: Table, j: int): (r: seq<string>)
    ensures |r| == |t.rows|
  {
    seq(|t.rows|, i requires 0 <= i < |t.rows| => CellText(Get(t.rows[i], j)))
  }

  /** df[n] for every n of `names` in turn: their positions, or the KeyError of the first one missing. */
  function ReadColumns(labels: seq<string>, names: seq<string>): (r: Result<seq<nat>, Failure>)
    ensures r.Ok? <==> forall k :: 0 <= k < |names| ==> names[k] in labels
    ensures r.Ok? ==> |r.value| == |names| && forall k :: 0 <= k < |names| ==> r.value[k] == ColumnIndex(labels, names[k]).value
    ensures r.Err? ==> exists k :: 0 <= k < |names| && r.error == KeyError(names[k]) && names[k] !in labels
                         && forall l :: 0 <= l < k ==> names[l] in labels
  {
    if names == [] then Ok([])
    else match Col(labels, names[0])
      case Err(e) => Err(e)
      case Ok(j) =>
        match ReadColumns(labels, names[1..])
        case Err(e) =>
          assert exists k :: 0 <= k < |names| - 1 && e == KeyError(names[1..][k]) && names[1..][k] !in labels
                   && forall l :: 0 <= l < k ==> names[1..][l] in labels;
          var k :| 0 <= k < |names| - 1 && e == KeyError(names[1..][k]) && names[1..][k] !in labels
                   && forall l :: 0 <= l < k ==> names[1..][l] in labels;
          assert forall l :: 0 <= l < k + 1 ==> names[l] in labels by {
            forall l | 0 <= l < k + 1 ensures names[l] in labels {
              if l > 0 { assert names[l] == names[1..][l - 1]; }
            }
          }
          Err(e)
        case Ok(js) =>
          assert forall k :: 0 <= k < |names| ==> names[k] in labels by {
            forall k | 0 <= k < |names| ensures names[k] in labels {
              if k > 0 { assert names[k] == names[1..][k - 1]; }
            }
          }
          Ok([j] + js)
  }

  /** The empty pd.DataFrame(). */
  const EmptyTable: Table := Table([], [])
}
