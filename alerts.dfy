/**
 * generate_all_alerts of app/utils/alerts.py: six boolean-mask selections of
 * the cleaned table, keyed in a fixed order. "Today" is a parameter, an
 * instant in seconds from 1899-12-30 like every date cell.
 */
module Alerts {
  import opened Wrappers
  import opened Calendar
  import opened Frame

  /** One entry of the alerts dictionary: its key and the rows it selects. */
  datatype Alert = Alert(key: string, rows: seq<Row>)

  const PerimesKey: string := "perimes"
  const BientotPerimesKey: string := "bientot_perimes"
  const RupturesKey: string := "ruptures"
  const StockCritiqueKey: string := "stock_critique"
  const PrixAnormalKey: string := "prix_anormal"
  const CipDupliqueKey: string := "cip_duplique"

  /** The keys of the alerts dictionary, in insertion order. */
  const AlertKeys: seq<string> := [PerimesKey, BientotPerimesKey, RupturesKey, StockCritiqueKey, PrixAnormalKey, CipDupliqueKey]

  /** pd.Timedelta(days=90), in seconds. */
  const SoonWindow: int := 90 * SecondsPerDay

  /** date < today; NaT compares false. */
  predicate Expired(c: Cell, today: int) {
    c.Date? && c.t < today
  }

  /** today <= date <= today + 90 days; NaT compares false. */
  predicate ExpiresSoon(c: Cell, today: int) {
    c.Date? && today <= c.t <= today + SoonWindow
  }

  /** x == 0 on a numeric cell; NaN compares false. */
  predicate IsZero(c: Cell) {
    NumValue(c) == Some(0.0)
  }

  /** a <= b on numeric cells; NaN compares false. */
  predicate AtMost(a: Cell, b: Cell) {
    NumValue(a).Some? && NumValue(b).Some? && NumValue(a).value <= NumValue(b).value
  }

  /** a < b on numeric cells; NaN compares false. */
  predicate Below(a: Cell, b: Cell) {
    NumValue(a).Some? && NumValue(b).Some? && NumValue(a).value < NumValue(b).value
  }

  /** How many rows carry `key` in column j. */
  function KeyCount(rows: seq<Row>, j: nat, key: Cell): (n: nat)
    ensures n <= |rows|
  {
    CountWhere(rows, (x: Row) => Get(x, j) == key)
  }

  /** perimes: exactly the rows whose expiry date is past. */
  function Perimes(t: Table, d: nat, today: int): (r: seq<Row>)
    ensures IsSubseq(r, t.rows)
    ensures forall x :: x in r <==> x in t.rows && Expired(Get(x, d), today)
    ensures forall x :: multiset(r)[x] == if Expired(Get(x, d), today) then multiset(t.rows)[x] else 0
  {
    Filter(t.rows, (x: Row) => Expired(Get(x, d), today))
  }

  /** bientot_perimes: exactly the rows expiring between today and 90 days from today, both included. */
  function BientotPerimes(t: Table, d: nat, today: int): (r: seq<Row>)
    ensures IsSubseq(r, t.rows)
    ensures forall x :: x in r <==> x in t.rows && ExpiresSoon(Get(x, d), today)
    ensures forall x :: multiset(r)[x] == if ExpiresSoon(Get(x, d), today) then multiset(t.rows)[x] else 0
  {
    Filter(t.rows, (x: Row) => ExpiresSoon(Get(x, d), today))
  }

  /** ruptures: exactly the rows with no stock. */
  function Ruptures(t: Table, sa: nat): (r: seq<Row>)
    ensures IsSubseq(r, t.rows)
    ensures forall x :: x in r <==> x in t.rows && IsZero(Get(x, sa))
    ensures forall x :: multiset(r)[x] == if IsZero(Get(x, sa)) then multiset(t.rows)[x] else 0
  {
    Filter(t.rows, (x: Row) => IsZero(Get(x, sa)))
  }

  /** stock_critique: exactly the rows whose stock is at most the minimum. */
  function StockCritique(t: Table, sa: nat, smin: nat): (r: seq<Row>)
    ensures IsSubseq(r, t.rows)
    ensures forall x :: x in r <==> x in t.rows && AtMost(Get(x, sa), Get(x, smin))
    ensures forall x :: multiset(r)[x] == if AtMost(Get(x, sa), Get(x, smin)) then multiset(t.rows)[x] else 0
  {
    Filter(t.rows, (x: Row) => AtMost(Get(x, sa), Get(x, smin)))
  }

  /** prix_anormal: exactly the rows selling below their purchase price. */
  function PrixAnormal(t: Table, pv: nat, pa: nat): (r: seq<Row>)
    ensures IsSubseq(r, t.rows)
    ensures forall x :: x in r <==> x in t.rows && Below(Get(x, pv), Get(x, pa))
    ensures forall x :: multiset(r)[x] == if Below(Get(x, pv), Get(x, pa)) then multiset(t.rows)[x] else 0
  {
    Filter(t.rows, (x: Row) => Below(Get(x, pv), Get(x, pa)))
  }

  /** cip_duplique, duplicated(keep=False): every occurrence of a code_cip that occurs at least twice. */
  function CipDuplique(t: Table, cip: nat): (r: seq<Row>)
    ensures IsSubseq(r, t.rows)
    ensures forall x :: x in r <==> x in t.rows && KeyCount(t.rows, cip, Get(x, cip)) >= 2
    ensures forall x :: multiset(r)[x] == if KeyCount(t.rows, cip, Get(x, cip)) >= 2 then multiset(t.rows)[x] else 0
  {
    Filter(t.rows, (x: Row) => KeyCount(t.rows, cip, Get(x, cip)) >= 2)
  }

  /**
   * generate_all_alerts. A missing column raises KeyError; the columns are read in the
   * order date_peremption, stock_actuel, stock_min, prix_vente_ttc, prix_achat_ht, code_cip.
   */
  function GenerateAllAlerts(t: Table, today: int): (r: Result<seq<Alert>, Failure>)
    ensures r.Ok? <==> forall k :: 0 <= k < |ReadOrder| ==> ReadOrder[k] in t.labels
    ensures r.Ok? <==> AlertColumns(t.labels)
    ensures r.Err? ==> exists k :: 0 <= k < |ReadOrder| && r.error == KeyError(ReadOrder[k]) && ReadOrder[k] !in t.labels
                         && forall l :: 0 <= l < k ==> ReadOrder[l] in t.labels
    ensures r.Ok? ==> |r.value| == |AlertKeys| && forall k :: 0 <= k < |AlertKeys| ==> r.value[k].key == AlertKeys[k]
    ensures r.Ok? ==> forall k :: 0 <= k < |r.value| ==> IsSubseq(r.value[k].rows, t.rows)
    ensures r.Ok? ==> forall k :: 0 <= k < |r.value| ==> r.value[k].rows == Selection(t, AlertPositions(t.labels), today, k)
  {
    assert ReadOrder[0] == "date_peremption" && ReadOrder[1] == "stock_actuel" && ReadOrder[2] == "stock_min";
    assert ReadOrder[3] == "prix_vente_ttc" && ReadOrder[4] == "prix_achat_ht" && ReadOrder[5] == "code_cip";
    var cols := ReadColumns(t.labels, ReadOrder);
    match cols
    case Err(e) => Err(e)
    case Ok(c) =>
      Ok(seq(|AlertKeys|, k requires 0 <= k < |AlertKeys| => Alert(AlertKeys[k], Selection(t, c, today, k))))
  }

  /** The positions of the columns generate_all_alerts reads, in ReadOrder, once they are all present. */
  function AlertPositions(labels: seq<string>): (c: seq<nat>)
    requires AlertColumns(labels)
    ensures |c| == |ReadOrder|
    ensures forall k :: 0 <= k < |c| ==> c[k] == ColumnIndex(labels, ReadOrder[k]).value
  {
    assert forall k :: 0 <= k < |ReadOrder| ==> ReadOrder[k] in labels;
    ReadColumns(labels, ReadOrder).value
  }

  /** The rows of the k-th alert, once the columns read are at the positions `c`. */
  function Selection(t: Table, c: seq<nat>, today: int, k: nat): (r: seq<Row>)
    requires |c| == |ReadOrder| && k < |AlertKeys|
    ensures IsSubseq(r, t.rows)
    ensures k == 0 ==> r == Perimes(t, c[0], today)
    ensures k == 1 ==> r == BientotPerimes(t, c[0], today)
    ensures k == 2 ==> r == Ruptures(t, c[1])
    ensures k == 3 ==> r == StockCritique(t, c[1], c[2])
    ensures k == 4 ==> r == PrixAnormal(t, c[3], c[4])
    ensures k == 5 ==> r == CipDuplique(t, c[5])
  {
    match k
    case 0 => Perimes(t, c[0], today)
    case 1 => BientotPerimes(t, c[0], today)
    case 2 => Ruptures(t, c[1])
    case 3 => StockCritique(t, c[1], c[2])
    case 4 => PrixAnormal(t, c[3], c[4])
    case _ => CipDuplique(t, c[5])
  }

  /** Every column generate_all_alerts reads is present. */
  predicate AlertColumns(labels: seq<string>) {
    "date_peremption" in labels && "stock_actuel" in labels && "stock_min" in labels
    && "prix_vente_ttc" in labels && "prix_achat_ht" in labels && "code_cip" in labels
  }

  /** The columns generate_all_alerts reads, in the order it first reads them. */
  const ReadOrder: seq<string> := ["date_peremption", "stock_actuel", "stock_min", "prix_vente_ttc", "prix_achat_ht", "code_cip"]

  // ---------------------------------------------------------------------
  // Properties

  /** No row is both expired and expiring soon, and a null date is in neither. */
  lemma ExpiryAlertsDisjoint(t: Table, d: nat, today: int)
    ensures forall x :: x in Perimes(t, d, today) ==> x !in BientotPerimes(t, d, today)
    ensures forall x :: Get(x, d).Empty? ==> x !in Perimes(t, d, today) && x !in BientotPerimes(t, d, today)
  {
  }

  /** With a non-negative minimum, every rupture is also critical. */
  lemma RupturesAreCritical(t: Table, sa: nat, smin: nat)
    requires forall x :: x in t.rows ==> NumValue(Get(x, smin)).Some? && NumValue(Get(x, smin)).value >= 0.0
    ensures forall x :: x in Ruptures(t, sa) ==> x in StockCritique(t, sa, smin)
  {
  }

  /** A key held by one row only counts once. */
  lemma {:induction false} KeyCountOfUniqueKey(rows: seq<Row>, j: nat, i: nat)
    requires i < |rows|
    requires forall a, b :: 0 <= a < b < |rows| ==> Get(rows[a], j) != Get(rows[b], j)
    ensures KeyCount(rows, j, Get(rows[i], j)) == 1
    decreases |rows|
  {
    var key := Get(rows[i], j);
    if i == 0 {
      KeyCountAbsent(rows[1..], j, key);
    } else {
      KeyCountOfUniqueKey(rows[1..], j, i - 1);
      assert rows[1..][i - 1] == rows[i];
    }
  }

  lemma {:induction false} KeyCountAbsent(rows: seq<Row>, j: nat, key: Cell)
    requires forall a :: 0 <= a < |rows| ==> Get(rows[a], j) != key
    ensures KeyCount(rows, j, key) == 0
    decreases |rows|
  {
    if rows != [] {
      KeyCountAbsent(rows[1..], j, key);
    }
  }

  /** On a table whose code_cip values are pairwise distinct, as clean_dataframe leaves it, cip_duplique is empty. */
  lemma CipDupliqueEmptyWhenUnique(t: Table, cip: nat)
    requires forall a, b :: 0 <= a < b < |t.rows| ==> Get(t.rows[a], cip) != Get(t.rows[b], cip)
    ensures CipDuplique(t, cip) == []
  {
    var r := CipDuplique(t, cip);
    if r != [] {
      assert r[0] in r;
      var i :| 0 <= i < |t.rows| && t.rows[i] == r[0];
      KeyCountOfUniqueKey(t.rows, cip, i);
    }
  }

  /** Every occurrence of a repeated code_cip is reported. */
  lemma RepeatedCipReported(t: Table, cip: nat, a: nat, b: nat)
    requires a < b < |t.rows| && Get(t.rows[a], cip) == Get(t.rows[b], cip)
    ensures t.rows[a] in CipDuplique(t, cip) && t.rows[b] in CipDuplique(t, cip)
  {
    KeyCountAtLeastTwo(t.rows, cip, a, b);
  }

  lemma {:induction false} KeyCountAtLeastTwo(rows: seq<Row>, j: nat, a: nat, b: nat)
    requires a < b < |rows| && Get(rows[a], j) == Get(rows[b], j)
    ensures KeyCount(rows, j, Get(rows[a], j)) >= 2
    decreases |rows|
  {
    var key := Get(rows[a], j);
    if a == 0 {
      KeyCountPresent(rows[1..], j, b - 1);
      assert rows[1..][b - 1] == rows[b];
    } else {
      KeyCountAtLeastTwo(rows[1..], j, a - 1, b - 1);
      assert rows[1..][a - 1] == rows[a] && rows[1..][b - 1] == rows[b];
    }
  }

  lemma {:induction false} KeyCountPresent(rows: seq<Row>, j: nat, i: nat)
    requires i < |rows|
    ensures KeyCount(rows, j, Get(rows[i], j)) >= 1
    decreases |rows|
  {
    if i > 0 {
      KeyCountPresent(rows[1..], j, i - 1);
      assert rows[1..][i - 1] == rows[i];
    }
  }
}
