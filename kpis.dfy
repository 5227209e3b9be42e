/**
 * The indicators of app/utils/kpis.py. Every indicator first checks the
 * columns it needs and returns its default (0.0 or an empty table) when one
 * is missing. Sums and means skip nulls as pandas does; prices, means and
 * rotations are exact reals.
 */
module Kpis {
  import opened Wrappers
  import opened Frame
  import opened Alerts

  const PurchasePrice: string := "prix_achat_ht"
  const SalePrice: string := "prix_vente_ttc"
  const Stock: string := "stock_actuel"
  const MinStock: string := "stock_min"
  const Designation: string := "designation"
  const RotationLabel: string := "rotation"

  // ---------------------------------------------------------------------
  // Sums and counts that skip nulls

  /** Series.sum(): the values present added up, nulls skipped, 0 for none. */
  function SumPresent(xs: seq<Option<real>>): real {
    if xs == [] then 0.0 else (if xs[0].Some? then xs[0].value else 0.0) + SumPresent(xs[1..])
  }

  /** Series.count(): how many values are present. */
  function CountPresent(xs: seq<Option<real>>): (n: nat)
    ensures n <= |xs|
  {
    if xs == [] then 0 else (if xs[0].Some? then 1 else 0) + CountPresent(xs[1..])
  }

  lemma {:induction false} SumPresentAppend(a: seq<Option<real>>, b: seq<Option<real>>)
    ensures SumPresent(a + b) == SumPresent(a) + SumPresent(b)
    decreases |a|
  {
    if a == [] {
      assert a + b == b;
    } else {
      assert (a + b)[0] == a[0];
      assert (a + b)[1..] == a[1..] + b;
      SumPresentAppend(a[1..], b);
    }
  }

  /** n values present, each at least lo, add up to at least n * lo. */
  lemma {:induction false} SumPresentAtLeast(xs: seq<Option<real>>, lo: real)
    requires forall k :: 0 <= k < |xs| && xs[k].Some? ==> xs[k].value >= lo
    ensures SumPresent(xs) >= CountPresent(xs) as real * lo
    decreases |xs|
  {
    if xs != [] {
      SumPresentAtLeast(xs[1..], lo);
    }
  }

  /** n values present, each at most hi, add up to at most n * hi. */
  lemma {:induction false} SumPresentAtMost(xs: seq<Option<real>>, hi: real)
    requires forall k :: 0 <= k < |xs| && xs[k].Some? ==> xs[k].value <= hi
    ensures SumPresent(xs) <= CountPresent(xs) as real * hi
    decreases |xs|
  {
    if xs != [] {
      SumPresentAtMost(xs[1..], hi);
    }
  }

  // ---------------------------------------------------------------------
  // 1) stock_value

  /** a * b on two cells; null unless both are numbers. */
  function Product(a: Cell, b: Cell): (r: Option<real>)
    ensures r.Some? <==> NumValue(a).Some? && NumValue(b).Some?
  {
    if NumValue(a).Some? && NumValue(b).Some? then Some(NumValue(a).value * NumValue(b).value) else None
  }

  /** prix_achat_ht * stock_actuel, row by row. */
  function Products(rows: seq<Row>, pa: nat, sa: nat): (r: seq<Option<real>>)
    ensures |r| == |rows|
    ensures forall i :: 0 <= i < |rows| ==> r[i] == Product(Get(rows[i], pa), Get(rows[i], sa))
  {
    seq(|rows|, i requires 0 <= i < |rows| => Product(Get(rows[i], pa), Get(rows[i], sa)))
  }

  /** stock_value: the sum over rows of prix_achat_ht * stock_actuel (rows lacking either skipped), 0.0 when a column is missing. */
  function StockValue(t: Table): (v: real)
    ensures !(PurchasePrice in t.labels && Stock in t.labels) ==> v == 0.0
    ensures PurchasePrice in t.labels && Stock in t.labels ==>
              v == SumPresent(Products(t.rows, ColumnIndex(t.labels, PurchasePrice).value, ColumnIndex(t.labels, Stock).value))
  {
    if PurchasePrice !in t.labels || Stock !in t.labels then 0.0
    else SumPresent(Products(t.rows, ColumnIndex(t.labels, PurchasePrice).value, ColumnIndex(t.labels, Stock).value))
  }

  /** The stock value of two blocks of rows is the sum of their values. */
  lemma StockValueAdditive(labels: seq<string>, a: seq<Row>, b: seq<Row>)
    ensures StockValue(Table(labels, a + b)) == StockValue(Table(labels, a)) + StockValue(Table(labels, b))
  {
    if PurchasePrice in labels && Stock in labels {
      var pa := ColumnIndex(labels, PurchasePrice).value;
      var sa := ColumnIndex(labels, Stock).value;
      assert Products(a + b, pa, sa) == Products(a, pa, sa) + Products(b, pa, sa);
      SumPresentAppend(Products(a, pa, sa), Products(b, pa, sa));
    }
  }

  /** The product of two cells holding no negative number is not negative. */
  lemma ProductNonNegative(a: Cell, b: Cell)
    requires NumValue(a).Some? ==> NumValue(a).value >= 0.0
    requires NumValue(b).Some? ==> NumValue(b).value >= 0.0
    ensures Product(a, b).Some? ==> Product(a, b).value >= 0.0
  {
  }

  /** Non-negative prices and stocks give a non-negative stock value. */
  lemma StockValueNonNegative(t: Table)
    requires forall i, j ::
               (0 <= i < |t.rows| && 0 <= j < |t.labels| && (t.labels[j] == PurchasePrice || t.labels[j] == Stock)
                && NumValue(Get(t.rows[i], j)).Some?) ==> NumValue(Get(t.rows[i], j)).value >= 0.0
    ensures StockValue(t) >= 0.0
  {
    if PurchasePrice in t.labels && Stock in t.labels {
      var pa := ColumnIndex(t.labels, PurchasePrice).value;
      var sa := ColumnIndex(t.labels, Stock).value;
      var ps := Products(t.rows, pa, sa);
      forall k | 0 <= k < |ps| && ps[k].Some? ensures ps[k].value >= 0.0 {
        var a := Get(t.rows[k], pa);
        var b := Get(t.rows[k], sa);
        assert t.labels[pa] == PurchasePrice && t.labels[sa] == Stock;
        assert NumValue(a).Some? ==> NumValue(a).value >= 0.0;
        assert NumValue(b).Some? ==> NumValue(b).value >= 0.0;
        ProductNonNegative(a, b);
      }
      SumPresentAtLeast(ps, 0.0);
    }
  }

  // ---------------------------------------------------------------------
  // 2) average_margin

  /** prix_vente_ttc - prix_achat_ht, row by row. */
  function Margins(rows: seq<Row>, pv: nat, pa: nat): (r: seq<Option<real>>)
    ensures |r| == |rows|
    ensures forall i :: 0 <= i < |rows| ==>
              r[i] == if NumValue(Get(rows[i], pv)).Some? && NumValue(Get(rows[i], pa)).Some?
                      then Some(NumValue(Get(rows[i], pv)).value - NumValue(Get(rows[i], pa)).value) else None
  {
    seq(|rows|, i requires 0 <= i < |rows| =>
      if NumValue(Get(rows[i], pv)).Some? && NumValue(Get(rows[i], pa)).Some?
      then Some(NumValue(Get(rows[i], pv)).value - NumValue(Get(rows[i], pa)).value) else None)
  }

  /** Series.mean(): the sum of the values present over their number; None (NaN) when there is none. */
  function Mean(xs: seq<Option<real>>): (m: Option<real>)
    ensures m.None? <==> CountPresent(xs) == 0
    ensures m.Some? ==> m.value * CountPresent(xs) as real == SumPresent(xs)
  {
    if CountPresent(xs) == 0 then None else Some(SumPresent(xs) / CountPresent(xs) as real)
  }

  /** A mean lies between the bounds of the values it averages. */
  lemma MeanWithin(xs: seq<Option<real>>, lo: real, hi: real)
    requires forall k :: 0 <= k < |xs| && xs[k].Some? ==> lo <= xs[k].value <= hi
    ensures Mean(xs).Some? ==> lo <= Mean(xs).value <= hi
  {
    SumPresentAtLeast(xs, lo);
    SumPresentAtMost(xs, hi);
    if Mean(xs).Some? {
      QuotientBetween(SumPresent(xs), CountPresent(xs) as real, lo, hi);
    }
  }

  lemma QuotientBetween(s: real, n: real, lo: real, hi: real)
    requires n > 0.0 && n * lo <= s <= n * hi
    ensures lo <= s / n <= hi
  {
  }

  function HasPrices(t: Table): bool {
    PurchasePrice in t.labels && SalePrice in t.labels
  }

  function MarginsOf(t: Table): seq<Option<real>>
    requires HasPrices(t)
  {
    Margins(t.rows, ColumnIndex(t.labels, SalePrice).value, ColumnIndex(t.labels, PurchasePrice).value)
  }

  /** average_margin: the mean of prix_vente_ttc - prix_achat_ht (None for NaN), 0.0 when a column is missing. */
  function AverageMargin(t: Table): (m: Option<real>)
    ensures !HasPrices(t) ==> m == Some(0.0)
    ensures HasPrices(t) ==> m == Mean(MarginsOf(t))
  {
    if !HasPrices(t) then Some(0.0) else Mean(MarginsOf(t))
  }

  /** When no row sells below its purchase price (prix_anormal is empty) the average margin is not negative. */
  lemma NoAbnormalPriceNoNegativeMargin(t: Table)
    requires HasPrices(t)
    requires PrixAnormal(t, ColumnIndex(t.labels, SalePrice).value, ColumnIndex(t.labels, PurchasePrice).value) == []
    ensures AverageMargin(t).Some? ==> AverageMargin(t).value >= 0.0
  {
    var pv := ColumnIndex(t.labels, SalePrice).value;
    var pa := ColumnIndex(t.labels, PurchasePrice).value;
    var ms := MarginsOf(t);
    forall k | 0 <= k < |ms| && ms[k].Some? ensures ms[k].value >= 0.0 {
      assert t.rows[k] in t.rows;
      assert !Below(Get(t.rows[k], pv), Get(t.rows[k], pa));
    }
    SumPresentAtLeast(ms, 0.0);
    if AverageMargin(t).Some? {
      assert AverageMargin(t).value == SumPresent(ms) / CountPresent(ms) as real;
    }
  }

  // ---------------------------------------------------------------------
  // 3) stock_rotation and 4) dormant_products

  /** stock_min.replace(0, 1): the divisor, never zero. */
  function Divisor(smin: real): (d: real)
    ensures d != 0.0
    ensures smin != 0.0 ==> d == smin
    ensures smin == 0.0 ==> d == 1.0
  {
    if smin == 0.0 then 1.0 else smin
  }

  /** stock_actuel / stock_min.replace(0, 1) on one row; null unless both are numbers. */
  function Rotation(sa: Cell, smin: Cell): (r: Option<real>)
    ensures r.Some? <==> NumValue(sa).Some? && NumValue(smin).Some?
    ensures r.Some? ==> r.value * Divisor(NumValue(smin).value) == NumValue(sa).value
  {
    if NumValue(sa).Some? && NumValue(smin).Some? then Some(NumValue(sa).value / Divisor(NumValue(smin).value)) else None
  }

  function RotationCell(sa: Cell, smin: Cell): Cell {
    match Rotation(sa, smin)
    case Some(x) => Num(x)
    case None => Empty
  }

  function HasStocks(t: Table): bool {
    Stock in t.labels && MinStock in t.labels
  }

  /** df["rotation"] = stock_actuel / stock_min.replace(0, 1). */
  function WithRotation(t: Table): (r: Table)
    requires WellFormed(t) && HasStocks(t)
    ensures WellFormed(r) && |r.rows| == |t.rows|
    ensures |r.labels| >= |t.labels| && r.labels[..|t.labels|] == t.labels
    ensures ColumnIndex(r.labels, RotationLabel).Some?
  {
    WithColumn(t, RotationLabel, Rotations(t))
  }

  /** stock_actuel / stock_min.replace(0, 1), row by row. */
  function Rotations(t: Table): (r: seq<Cell>)
    requires HasStocks(t)
    ensures |r| == |t.rows|
  {
    var sa := ColumnIndex(t.labels, Stock).value;
    var smin := ColumnIndex(t.labels, MinStock).value;
    seq(|t.rows|, i requires 0 <= i < |t.rows| => RotationCell(Get(t.rows[i], sa), Get(t.rows[i], smin)))
  }

  /** The labels of the input keep their positions, and only the rotation label is added. */
  lemma WithRotationLabels(t: Table)
    requires WellFormed(t) && HasStocks(t)
    ensures var r := WithRotation(t);
            && (forall l :: l in r.labels <==> l in t.labels || l == RotationLabel)
            && (forall l :: l in t.labels ==> ColumnIndex(r.labels, l) == ColumnIndex(t.labels, l))
  {
  }

  /** The rotation column holds each row's rotation. */
  lemma WithRotationCells(t: Table)
    requires WellFormed(t) && HasStocks(t)
    ensures var r := WithRotation(t);
            var sa := ColumnIndex(t.labels, Stock).value;
            var smin := ColumnIndex(t.labels, MinStock).value;
            var rot := ColumnIndex(r.labels, RotationLabel).value;
            forall i :: 0 <= i < |t.rows| ==> Get(r.rows[i], rot) == RotationCell(Get(t.rows[i], sa), Get(t.rows[i], smin))
  {
    var vs := Rotations(t);
    assert forall i :: 0 <= i < |t.rows| ==> vs[i] == RotationCell(Get(t.rows[i], ColumnIndex(t.labels, Stock).value), Get(t.rows[i], ColumnIndex(t.labels, MinStock).value));
  }

  /** Every other cell is the input's. */
  lemma WithRotationKeeps(t: Table)
    requires WellFormed(t) && HasStocks(t)
    ensures var r := WithRotation(t);
            var rot := ColumnIndex(r.labels, RotationLabel).value;
            forall i, j :: 0 <= i < |t.rows| && 0 <= j < |t.labels| && j != rot ==> r.rows[i][j] == t.rows[i][j]
  {
  }

  /**
   * stock_rotation: the designation and rotation of every row, an empty table when a stock
   * column is missing, or a KeyError when designation is.
   */
  function StockRotation(t: Table): (r: Result<Table, Failure>)
    requires WellFormed(t)
    ensures !HasStocks(t) ==> r == Ok(EmptyTable)
    ensures HasStocks(t) ==> (r.Ok? <==> Designation in t.labels)
    ensures HasStocks(t) && r.Err? ==> r.error == KeyError(Designation)
    ensures HasStocks(t) && r.Ok? ==> r.value == RotationView(t)
  {
    if !HasStocks(t) then Ok(EmptyTable)
    else
      var t1 := WithRotation(t);
      assert Designation != RotationLabel;
      match Col(t1.labels, Designation)
      case Err(e) => Err(e)
      case Ok(d) => Ok(RotationView(t))
  }

  /** df[["designation", "rotation"]] once the rotation column is set. */
  function RotationView(t: Table): (r: Table)
    requires WellFormed(t) && HasStocks(t) && Designation in t.labels
    ensures |r.rows| == |t.rows|
  {
    var t1 := WithRotation(t);
    var d := ColumnIndex(t.labels, Designation).value;
    assert d < |t.labels| <= |t1.labels|;
    KeepPair(t1, d, ColumnIndex(t1.labels, RotationLabel).value)
  }

  /** Each row of the view holds the row's designation, then its rotation. */
  lemma RotationViewContents(t: Table)
    requires WellFormed(t) && HasStocks(t) && Designation in t.labels
    ensures var r := RotationView(t);
            var des := ColumnIndex(t.labels, Designation).value;
            var sa := ColumnIndex(t.labels, Stock).value;
            var smin := ColumnIndex(t.labels, MinStock).value;
            && |r.labels| == 2 && r.labels[0] == Designation && r.labels[1] == RotationLabel
            && forall i :: 0 <= i < |t.rows| ==>
                 r.rows[i] == [Get(t.rows[i], des), RotationCell(Get(t.rows[i], sa), Get(t.rows[i], smin))]
  {
    var t1 := WithRotation(t);
    WithRotationCells(t);
    WithRotationKeeps(t);
    var d := ColumnIndex(t.labels, Designation).value;
    var rot := ColumnIndex(t1.labels, RotationLabel).value;
    assert t1.labels[d] == Designation;
    KeepTwoColumns(t1, d, rot);
  }

  /** The mask of dormant_products on one row: rotation below its threshold and stock above its own. */
  predicate Dormant(row: Row, sa: nat, smin: nat, rotationThreshold: real, stockThreshold: real) {
    var rot := Rotation(Get(row, sa), Get(row, smin));
    rot.Some? && rot.value < rotationThreshold && NumValue(Get(row, sa)).value > stockThreshold
  }

  /** The positions of the dormant rows, in order. */
  function DormantRows(t: Table, rotationThreshold: real, stockThreshold: real): (idx: seq<nat>)
    requires HasStocks(t)
    ensures Increasing(idx, |t.rows|)
    ensures forall i :: 0 <= i < |t.rows| ==>
              (i in idx <==> Dormant(t.rows[i], ColumnIndex(t.labels, Stock).value, ColumnIndex(t.labels, MinStock).value, rotationThreshold, stockThreshold))
  {
    var sa := ColumnIndex(t.labels, Stock).value;
    var smin := ColumnIndex(t.labels, MinStock).value;
    Indices(|t.rows|, (i: nat) => i < |t.rows| && Dormant(t.rows[i], sa, smin, rotationThreshold, stockThreshold))
  }

  /**
   * dormant_products: the rows (with their rotation column) whose rotation is below
   * rotationThreshold and whose stock is above stockThreshold, in their original order;
   * an empty table when a stock column is missing.
   */
  function DormantProducts(t: Table, rotationThreshold: real, stockThreshold: real): (r: Table)
    requires WellFormed(t)
    ensures !HasStocks(t) ==> r == EmptyTable
    ensures HasStocks(t) ==> r == KeepRows(WithRotation(t), DormantRows(t, rotationThreshold, stockThreshold))
  {
    if !HasStocks(t) then EmptyTable
    else KeepRows(WithRotation(t), DormantRows(t, rotationThreshold, stockThreshold))
  }

  /** The default thresholds of dormant_products. */
  const DefaultRotationThreshold: real := 0.5
  const DefaultStockThreshold: real := 20.0

  /**
   * With the default thresholds and a non-negative minimum, a dormant product has more than 20
   * units and a minimum above twice its stock (so above 40): every dormant product is also a
   * stock_critique alert.
   */
  lemma DormantIsCritical(row: Row, sa: nat, smin: nat)
    requires Dormant(row, sa, smin, DefaultRotationThreshold, DefaultStockThreshold)
    requires NumValue(Get(row, smin)).Some? && NumValue(Get(row, smin)).value >= 0.0
    ensures NumValue(Get(row, smin)).value > 2.0 * NumValue(Get(row, sa)).value > 40.0
    ensures AtMost(Get(row, sa), Get(row, smin))
  {
    var s := NumValue(Get(row, sa)).value;
    var m := NumValue(Get(row, smin)).value;
    var q := Rotation(Get(row, sa), Get(row, smin)).value;
    assert q * Divisor(m) == s;
    assert m != 0.0;
    assert q * m == s;
    assert q * m < 0.5 * m;
  }

  /** Every row dormant_products returns is a dormant row of the input, in the input's order, with its cells kept. */
  lemma DormantProductsSelects(t: Table, rotationThreshold: real, stockThreshold: real)
    requires WellFormed(t) && HasStocks(t)
    ensures var r := DormantProducts(t, rotationThreshold, stockThreshold);
            var idx := DormantRows(t, rotationThreshold, stockThreshold);
            var rot := ColumnIndex(r.labels, RotationLabel).value;
            && RotationLabel in r.labels
            && |r.rows| == |idx|
            && forall k, j :: 0 <= k < |idx| && 0 <= j < |t.labels| && j != rot ==> r.rows[k][j] == t.rows[idx[k]][j]
  {
    WithRotationKeeps(t);
  }

  // ---------------------------------------------------------------------
  // 5) top_expensive

  /** `a` may come before `b` in sort_values(ascending=False): a larger or equal number, nulls last. */
  predicate Before(a: Cell, b: Cell) {
    NumValue(b).None? || (NumValue(a).Some? && NumValue(a).value >= NumValue(b).value)
  }

  predicate SortedDesc(rows: seq<Row>, j: nat) {
    forall k, l :: 0 <= k < l < |rows| ==> Before(Get(rows[k], j), Get(rows[l], j))
  }

  /** Places x before the first row it may precede. */
  function Insert(x: Row, s: seq<Row>, j: nat): (r: seq<Row>)
    requires SortedDesc(s, j)
    ensures |r| == |s| + 1
    ensures multiset(r) == multiset(s) + multiset{x}
    ensures SortedDesc(r, j)
  {
    if s == [] then [x]
    else if Before(Get(x, j), Get(s[0], j)) then
      assert forall k :: 0 <= k < |s| ==> Before(Get(s[0], j), Get(s[k], j));
      [x] + s
    else
      var rest := Insert(x, s[1..], j);
      assert s == [s[0]] + s[1..];
      HeadStaysFirst(s[0], x, s[1..], rest, j);
      [s[0]] + rest
  }

  /** A row that may precede x and every row of `tail` stays first once x is inserted into `tail`. */
  lemma HeadStaysFirst(h: Row, x: Row, tail: seq<Row>, rest: seq<Row>, j: nat)
    requires SortedDesc([h] + tail, j) && !Before(Get(x, j), Get(h, j))
    requires multiset(rest) == multiset(tail) + multiset{x} && SortedDesc(rest, j)
    ensures SortedDesc([h] + rest, j)
  {
    forall y | y in rest ensures Before(Get(h, j), Get(y, j)) {
      assert y in multiset(rest);
      if y != x {
        var l :| 0 <= l < |tail| && tail[l] == y;
        assert ([h] + tail)[0] == h && ([h] + tail)[l + 1] == y;
      }
    }
    var r := [h] + rest;
    forall a, b | 0 <= a < b < |r| ensures Before(Get(r[a], j), Get(r[b], j)) {
      if a == 0 {
        assert r[b] == rest[b - 1] && r[b] in rest;
      } else {
        assert r[a] == rest[a - 1] && r[b] == rest[b - 1];
      }
    }
  }

  /** sort_values(j, ascending=False) as an insertion sort. */
  function SortDesc(rows: seq<Row>, j: nat): (r: seq<Row>)
    ensures |r| == |rows|
    ensures multiset(r) == multiset(rows)
    ensures SortedDesc(r, j)
  {
    if rows == [] then []
    else
      assert rows == [rows[0]] + rows[1..];
      Insert(rows[0], SortDesc(rows[1..], j), j)
  }

  function Min(a: nat, b: nat): nat {
    if a <= b then a else b
  }

  /**
   * top_expensive: the n rows with the highest prix_achat_ht, highest first; an empty table
   * when the column is missing. Every row left out costs no more than every row returned.
   */
  function TopExpensive(t: Table, n: nat): (r: Table)
    ensures PurchasePrice !in t.labels ==> r == EmptyTable
    ensures PurchasePrice in t.labels ==>
              var pa := ColumnIndex(t.labels, PurchasePrice).value;
              && r.labels == t.labels
              && |r.rows| == Min(n, |t.rows|)
              && SortedDesc(r.rows, pa)
              && multiset(r.rows) <= multiset(t.rows)
              && forall x, y :: x in r.rows && multiset(r.rows)[y] < multiset(t.rows)[y] ==> Before(Get(x, pa), Get(y, pa))
  {
    if PurchasePrice !in t.labels then EmptyTable
    else
      var pa := ColumnIndex(t.labels, PurchasePrice).value;
      var s := SortDesc(t.rows, pa);
      var m := Min(n, |t.rows|);
      TopRowsDominate(s, pa, m);
      Table(t.labels, s[..m])
  }

  lemma TopRowsDominate(s: seq<Row>, j: nat, m: nat)
    requires SortedDesc(s, j) && m <= |s|
    ensures multiset(s[..m]) <= multiset(s)
    ensures forall x, y :: x in s[..m] && multiset(s[..m])[y] < multiset(s)[y] ==> Before(Get(x, j), Get(y, j))
  {
    assert s == s[..m] + s[m..];
    forall x, y | x in s[..m] && multiset(s[..m])[y] < multiset(s)[y] ensures Before(Get(x, j), Get(y, j)) {
      assert multiset(s[m..])[y] > 0;
      assert y in s[m..];
      var k :| 0 <= k < m && s[..m][k] == x;
      var l :| 0 <= l < |s| - m && s[m..][l] == y;
      assert s[k] == x && s[m + l] == y;
    }
  }

  /** top_expensive with its default n returns at most ten rows. */
  lemma TopTenAtMostTen(t: Table)
    ensures |TopExpensive(t, 10).rows| <= 10
  {
  }

  // ---------------------------------------------------------------------
  // 6) category_distribution and 7) supplier_distribution

  /** How many cells of `col` equal v. */
  function Count(col: seq<Cell>, v: Cell): (n: nat)
    ensures n > 0 <==> v in col
  {
    if col == [] then 0
    else
      assert col == col[..|col| - 1] + [col[|col| - 1]];
      Count(col[..|col| - 1], v) + (if col[|col| - 1] == v then 1 else 0)
  }

  /** Series.count(): how many cells are not null. */
  function NonNull(col: seq<Cell>): (n: nat)
    ensures n <= |col|
  {
    if col == [] then 0 else NonNull(col[..|col| - 1]) + (if col[|col| - 1].Empty? then 0 else 1)
  }

  /** The distinct non-null values of `col`, in order of first appearance. */
  function Uniques(col: seq<Cell>): (u: seq<Cell>)
    ensures forall v :: v in u <==> v in col && !v.Empty?
    ensures forall a, b :: 0 <= a < b < |u| ==> u[a] != u[b]
  {
    if col == [] then []
    else
      var u := Uniques(col[..|col| - 1]);
      var last := col[|col| - 1];
      assert col == col[..|col| - 1] + [last];
      if last.Empty? || last in u then u else u + [last]
  }

  /** Each value paired with its number of occurrences in `col`. */
  function Tally(keys: seq<Cell>, col: seq<Cell>): (ps: seq<(Cell, nat)>)
    ensures |ps| == |keys|
    ensures forall k :: 0 <= k < |keys| ==> ps[k] == (keys[k], Count(col, keys[k]))
  {
    seq(|keys|, k requires 0 <= k < |keys| => (keys[k], Count(col, keys[k])))
  }

  function SumCounts(ps: seq<(Cell, nat)>): nat {
    if ps == [] then 0 else SumCounts(ps[..|ps| - 1]) + ps[|ps| - 1].1
  }

  lemma {:induction false} SumCountsCons(p: (Cell, nat), ps: seq<(Cell, nat)>)
    ensures SumCounts([p] + ps) == p.1 + SumCounts(ps)
    decreases |ps|
  {
    if ps != [] {
      assert ([p] + ps)[..|ps|] == [p] + ps[..|ps| - 1];
      SumCountsCons(p, ps[..|ps| - 1]);
    }
  }

  /** One more cell adds one to the tally of the distinct keys that holds it. */
  lemma {:induction false} SumTallySnoc(keys: seq<Cell>, col: seq<Cell>, c: Cell)
    requires forall a, b :: 0 <= a < b < |keys| ==> keys[a] != keys[b]
    ensures SumCounts(Tally(keys, col + [c])) == SumCounts(Tally(keys, col)) + (if c in keys then 1 else 0)
    decreases |keys|
  {
    if keys != [] {
      var n := |keys| - 1;
      assert Tally(keys, col + [c])[..n] == Tally(keys[..n], col + [c]);
      assert Tally(keys, col)[..n] == Tally(keys[..n], col);
      SumTallySnoc(keys[..n], col, c);
      assert (col + [c])[..|col|] == col;
      assert keys == keys[..n] + [keys[n]];
      assert c in keys <==> c in keys[..n] || c == keys[n];
    }
  }

  /** The occurrences of the distinct values add up to the number of non-null cells. */
  lemma {:induction false} TallyCoversNonNull(col: seq<Cell>)
    ensures SumCounts(Tally(Uniques(col), col)) == NonNull(col)
    decreases |col|
  {
    if col != [] {
      var p := col[..|col| - 1];
      var c := col[|col| - 1];
      var u := Uniques(p);
      assert col == p + [c];
      TallyCoversNonNull(p);
      SumTallySnoc(u, p, c);
      if !(c.Empty? || c in u) {
        TallyNewKey(u, p, c);
      } else {
        assert Uniques(col) == u;
      }
    }
  }

  /** A value seen for the first time adds a key whose tally is one. */
  lemma TallyNewKey(u: seq<Cell>, p: seq<Cell>, c: Cell)
    requires forall a, b :: 0 <= a < b < |u| ==> u[a] != u[b]
    requires c !in u && c !in p
    ensures SumCounts(Tally(u + [c], p + [c])) == SumCounts(Tally(u, p)) + 1
  {
    var col := p + [c];
    var us := u + [c];
    var all := Tally(us, col);
    assert all[..|u|] == Tally(u, col);
    assert all[|u|] == (c, Count(col, c));
    assert Count(col, c) == 1 by {
      assert col[..|col| - 1] == p;
    }
    SumTallySnoc(u, p, c);
  }

  predicate DistinctKeys(ps: seq<(Cell, nat)>) {
    forall a, b :: 0 <= a < b < |ps| ==> ps[a].0 != ps[b].0
  }

  predicate ByCountDesc(ps: seq<(Cell, nat)>) {
    forall a, b :: 0 <= a < b < |ps| ==> ps[a].1 >= ps[b].1
  }

  /** Places p before the first pair with a smaller count, so that ties keep their order. */
  function InsertByCount(p: (Cell, nat), s: seq<(Cell, nat)>): (r: seq<(Cell, nat)>)
    requires ByCountDesc(s) && DistinctKeys(s)
    requires forall q :: q in s ==> q.0 != p.0
    ensures forall q :: q in r <==> q == p || q in s
    ensures |r| == |s| + 1
    ensures SumCounts(r) == p.1 + SumCounts(s)
    ensures ByCountDesc(r) && DistinctKeys(r)
  {
    if s == [] then
      SumCountsCons(p, s);
      [p]
    else if p.1 > s[0].1 then
      SumCountsCons(p, s);
      NewHead(p, s);
      [p] + s
    else
      var rest := InsertByCount(p, s[1..]);
      assert s == [s[0]] + s[1..];
      SumCountsCons(s[0], s[1..]);
      SumCountsCons(s[0], rest);
      KeepHead(s[0], p, s[1..], rest);
      [s[0]] + rest
  }

  lemma NewHead(p: (Cell, nat), s: seq<(Cell, nat)>)
    requires ByCountDesc(s) && DistinctKeys(s) && |s| > 0 && p.1 > s[0].1
    requires forall q :: q in s ==> q.0 != p.0
    ensures ByCountDesc([p] + s) && DistinctKeys([p] + s)
  {
    var r := [p] + s;
    forall a, b | 0 <= a < b < |r| ensures r[a].1 >= r[b].1 && r[a].0 != r[b].0 {
      if a == 0 {
        assert r[b] == s[b - 1] && r[b] in s;
      } else {
        assert r[a] == s[a - 1] && r[b] == s[b - 1];
      }
    }
  }

  lemma KeepHead(h: (Cell, nat), p: (Cell, nat), tail: seq<(Cell, nat)>, rest: seq<(Cell, nat)>)
    requires ByCountDesc([h] + tail) && DistinctKeys([h] + tail)
    requires p.1 <= h.1 && p.0 != h.0
    requires forall q :: q in rest <==> q == p || q in tail
    requires ByCountDesc(rest) && DistinctKeys(rest)
    ensures ByCountDesc([h] + rest) && DistinctKeys([h] + rest)
  {
    var s := [h] + tail;
    forall q | q in tail ensures q.1 <= h.1 && q.0 != h.0 {
      var l :| 0 <= l < |tail| && tail[l] == q;
      assert s[0] == h && s[l + 1] == q;
    }
    var r := [h] + rest;
    forall a, b | 0 <= a < b < |r| ensures r[a].1 >= r[b].1 && r[a].0 != r[b].0 {
      if a == 0 {
        assert r[b] == rest[b - 1] && r[b] in rest;
      } else {
        assert r[a] == rest[a - 1] && r[b] == rest[b - 1];
      }
    }
  }

  function SortByCount(ps: seq<(Cell, nat)>): (r: seq<(Cell, nat)>)
    requires DistinctKeys(ps)
    ensures forall q :: q in r <==> q in ps
    ensures |r| == |ps| && SumCounts(r) == SumCounts(ps)
    ensures ByCountDesc(r) && DistinctKeys(r)
  {
    if ps == [] then []
    else
      assert ps == [ps[0]] + ps[1..];
      SumCountsCons(ps[0], ps[1..]);
      InsertByCount(ps[0], SortByCount(ps[1..]))
  }

  /**
   * Series.value_counts(): each distinct non-null value once, with its number of occurrences,
   * most frequent first; the counts add up to the number of non-null cells.
   */
  function ValueCounts(col: seq<Cell>): (r: seq<(Cell, nat)>)
    ensures forall k :: 0 <= k < |r| ==> !r[k].0.Empty? && r[k].1 == Count(col, r[k].0) && r[k].1 > 0
    ensures forall v :: v in col && !v.Empty? ==> exists k :: 0 <= k < |r| && r[k].0 == v
    ensures DistinctKeys(r) && ByCountDesc(r)
    ensures SumCounts(r) == NonNull(col)
  {
    var ps := Tally(Uniques(col), col);
    TallyCoversNonNull(col);
    SortedTallyEntries(col);
    SortByCount(ps)
  }

  /** Sorting the tally keeps one entry per distinct non-null value, with its count. */
  lemma SortedTallyEntries(col: seq<Cell>)
    ensures var r := SortByCount(Tally(Uniques(col), col));
            (forall k :: 0 <= k < |r| ==> !r[k].0.Empty? && r[k].1 == Count(col, r[k].0) && r[k].1 > 0)
            && forall v :: v in col && !v.Empty? ==> exists k :: 0 <= k < |r| && r[k].0 == v
  {
    var u := Uniques(col);
    var ps := Tally(u, col);
    var r := SortByCount(ps);
    forall k | 0 <= k < |r| ensures !r[k].0.Empty? && r[k].1 == Count(col, r[k].0) && r[k].1 > 0 {
      assert r[k] in ps;
    }
    forall v | v in col && !v.Empty? ensures exists k :: 0 <= k < |r| && r[k].0 == v {
      var i :| 0 <= i < |u| && u[i] == v;
      assert ps[i] in r;
    }
  }

  /** The value counts of column `name`; None stands for the empty table returned when it is missing. */
  function Distribution(t: Table, name: string): (r: Option<seq<(Cell, nat)>>)
    ensures r.None? <==> name !in t.labels
    ensures r.Some? ==> r.value == ValueCounts(Column(t, ColumnIndex(t.labels, name).value))
    ensures r.Some? ==> SumCounts(r.value) == NonNull(Column(t, ColumnIndex(t.labels, name).value))
  {
    match ColumnIndex(t.labels, name)
    case None => None
    case Some(j) => Some(ValueCounts(Column(t, j)))
  }

  /** category_distribution. */
  function CategoryDistribution(t: Table): (r: Option<seq<(Cell, nat)>>)
    ensures r.None? <==> "categorie" !in t.labels
    ensures r.Some? ==> r.value == ValueCounts(Column(t, ColumnIndex(t.labels, "categorie").value))
    ensures r.Some? ==> DistinctKeys(r.value) && ByCountDesc(r.value)
    ensures r.Some? ==> SumCounts(r.value) == NonNull(Column(t, ColumnIndex(t.labels, "categorie").value))
  {
    Distribution(t, "categorie")
  }

  /** supplier_distribution. */
  function SupplierDistribution(t: Table): (r: Option<seq<(Cell, nat)>>)
    ensures r.None? <==> "fournisseur" !in t.labels
    ensures r.Some? ==> r.value == ValueCounts(Column(t, ColumnIndex(t.labels, "fournisseur").value))
    ensures r.Some? ==> DistinctKeys(r.value) && ByCountDesc(r.value)
    ensures r.Some? ==> SumCounts(r.value) == NonNull(Column(t, ColumnIndex(t.labels, "fournisseur").value))
  {
    Distribution(t, "fournisseur")
  }

  // ---------------------------------------------------------------------
  // 8) compute_all_kpis

  datatype KpiSet = KpiSet(
    valeurStock: real,
    margeMoyenne: Option<real>,
    rotation: Table,
    dormants: Table,
    topChers: Table,
    repartitionCategories: Option<seq<(Cell, nat)>>,
    repartitionFournisseurs: Option<seq<(Cell, nat)>>)

  /** compute_all_kpis: every indicator with its defaults; it fails with stock_rotation's KeyError. */
  function ComputeAllKpis(t: Table): (r: Result<KpiSet, Failure>)
    requires WellFormed(t)
    ensures r.Err? <==> HasStocks(t) && Designation !in t.labels
    ensures r.Err? ==> r.error == KeyError(Designation)
    ensures r.Ok? ==> |r.value.topChers.rows| <= 10
    ensures r.Ok? ==> r.value.valeurStock == StockValue(t) && r.value.margeMoyenne == AverageMargin(t)
  {
    match StockRotation(t)
    case Err(e) => Err(e)
    case Ok(rot) =>
      Ok(KpiSet(StockValue(t), AverageMargin(t), rot,
                DormantProducts(t, DefaultRotationThreshold, DefaultStockThreshold),
                TopExpensive(t, 10), CategoryDistribution(t), SupplierDistribution(t)))
  }
}
