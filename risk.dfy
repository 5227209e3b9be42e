/**
 * compute_risk_and_recos of app/utils/risk.py: a per-row score from four
 * weighted conditions, and the recommendation tier that score falls in.
 * The comparisons are pandas' element-wise ones: a null operand never
 * satisfies a condition. "Today" is a parameter.
 */
module Risk {
  import opened Wrappers
  import opened Frame
  import opened Alerts

  const ScoreLabel: string := "risk_score"
  const RecoLabel: string := "recommendation"

  const Urgent: string := "Action urgente"
  const Watch: string := "Surveillance"
  const Low: string := "Risque faible"

  /** The columns compute_risk_and_recos reads, in the order it first reads them. */
  const RiskReads: seq<string> := ["stock_actuel", "stock_min", "prix_vente_ttc", "date_peremption"]

  /** prix_vente_ttc > 50. */
  predicate Pricey(c: Cell) {
    NumValue(c).Some? && NumValue(c).value > 50.0
  }

  /** condition.astype(int) * weight. */
  function Points(b: bool, weight: nat): nat {
    if b then weight else 0
  }

  /** The risk score of one row from its stock, minimum stock, sale price and expiry date. */
  function Score(sa: Cell, smin: Cell, pv: Cell, d: Cell, today: int): (s: int)
    ensures 0 <= s <= 100 && s % 20 == 0
    ensures s == 100 <==> IsZero(sa) && AtMost(sa, smin) && Pricey(pv) && Expired(d, today)
    ensures s == 0 <==> !IsZero(sa) && !AtMost(sa, smin) && !Pricey(pv) && !Expired(d, today)
  {
    Points(IsZero(sa), 40) + Points(AtMost(sa, smin), 20) + Points(Pricey(pv), 20) + Points(Expired(d, today), 20)
  }

  /** The tier a score falls in. */
  function Recommendation(x: int): (r: string)
    ensures r == Urgent <==> x >= 70
    ensures r == Watch <==> 40 <= x < 70
    ensures r == Low <==> x < 40
  {
    if x >= 70 then Urgent else if x >= 40 then Watch else Low
  }

  /** The score of row `row`, given the positions of the four columns read. */
  function RowScore(row: Row, c: seq<nat>, today: int): int
    requires |c| == |RiskReads|
  {
    Score(Get(row, c[0]), Get(row, c[1]), Get(row, c[2]), Get(row, c[3]), today)
  }

  /**
   * compute_risk_and_recos: a copy of the table with the risk_score and recommendation columns
   * set (overwritten when present, appended otherwise), or the KeyError of the first column
   * read that is missing.
   */
  function ComputeRiskAndRecos(t: Table, today: int): (r: Result<Table, Failure>)
    requires WellFormed(t)
    ensures r.Ok? <==> forall k :: 0 <= k < |RiskReads| ==> RiskReads[k] in t.labels
    ensures r.Err? ==> exists k :: 0 <= k < |RiskReads| && r.error == KeyError(RiskReads[k]) && RiskReads[k] !in t.labels
                         && forall l :: 0 <= l < k ==> RiskReads[l] in t.labels
    ensures r.Ok? ==> r == Ok(Scored(t, ReadColumns(t.labels, RiskReads).value, today))
  {
    match ReadColumns(t.labels, RiskReads)
    case Err(e) => Err(e)
    case Ok(c) => Ok(Scored(t, c, today))
  }

  /** The table with both new columns, once the four columns read are at the positions `c`. */
  function Scored(t: Table, c: seq<nat>, today: int): (r: Table)
    requires WellFormed(t) && |c| == |RiskReads|
    ensures WellFormed(r) && |r.rows| == |t.rows|
    ensures ColumnIndex(r.labels, ScoreLabel).Some? && ColumnIndex(r.labels, RecoLabel).Some?
  {
    var t1 := WithScores(t, c, today);
    WithColumn(t1, RecoLabel, Recos(t, c, today))
  }

  /** The recommendation of each row. */
  function Recos(t: Table, c: seq<nat>, today: int): (r: seq<Cell>)
    requires |c| == |RiskReads|
    ensures |r| == |t.rows|
    ensures forall i :: 0 <= i < |t.rows| ==> r[i] == Str(Recommendation(RowScore(t.rows[i], c, today)))
  {
    seq(|t.rows|, i requires 0 <= i < |t.rows| => Str(Recommendation(RowScore(t.rows[i], c, today))))
  }

  /** The scored table keeps the original labels first and adds at most the two new ones. */
  lemma ScoredLabels(t: Table, c: seq<nat>, today: int)
    requires WellFormed(t) && |c| == |RiskReads|
    ensures var r := Scored(t, c, today);
            && |r.labels| >= |t.labels| && r.labels[..|t.labels|] == t.labels
            && forall l :: l in r.labels <==> l in t.labels || l == ScoreLabel || l == RecoLabel
  {
    var t1 := WithScores(t, c, today);
    var r := Scored(t, c, today);
    assert r.labels[..|t.labels|] == t1.labels[..|t.labels|];
  }

  /** Every row gets its score and the recommendation that score falls in. */
  lemma ScoredCells(t: Table, c: seq<nat>, today: int)
    requires WellFormed(t) && |c| == |RiskReads|
    ensures var r := Scored(t, c, today);
            var sc := ColumnIndex(r.labels, ScoreLabel).value;
            var rc := ColumnIndex(r.labels, RecoLabel).value;
            forall i :: 0 <= i < |t.rows| ==>
              Get(r.rows[i], sc) == Int(RowScore(t.rows[i], c, today))
              && Get(r.rows[i], rc) == Str(Recommendation(RowScore(t.rows[i], c, today)))
  {
    var t1 := WithScores(t, c, today);
    var r := Scored(t, c, today);
    var sc := ColumnIndex(t1.labels, ScoreLabel).value;
    assert ColumnIndex(r.labels, ScoreLabel).value == sc;
    var rc := ColumnIndex(r.labels, RecoLabel).value;
    assert sc != rc;
    forall i | 0 <= i < |t.rows|
      ensures Get(r.rows[i], sc) == Int(RowScore(t.rows[i], c, today))
    {
      assert r.rows[i][sc] == t1.rows[i][sc];
    }
  }

  /** Every other cell is left as it was. */
  lemma ScoredKeepsOthers(t: Table, c: seq<nat>, today: int)
    requires WellFormed(t) && |c| == |RiskReads|
    ensures var r := Scored(t, c, today);
            var sc := ColumnIndex(r.labels, ScoreLabel).value;
            var rc := ColumnIndex(r.labels, RecoLabel).value;
            forall i, j :: 0 <= i < |t.rows| && 0 <= j < |t.labels| && j != sc && j != rc ==> r.rows[i][j] == t.rows[i][j]
  {
    var t1 := WithScores(t, c, today);
    var r := Scored(t, c, today);
    assert ColumnIndex(r.labels, ScoreLabel) == ColumnIndex(t1.labels, ScoreLabel);
  }

  /** df["risk_score"] = the score of each row. */
  function WithScores(t: Table, c: seq<nat>, today: int): (r: Table)
    requires WellFormed(t) && |c| == |RiskReads|
    ensures WellFormed(r) && |r.rows| == |t.rows|
    ensures |r.labels| >= |t.labels| && r.labels[..|t.labels|] == t.labels
    ensures forall l :: l in r.labels <==> l in t.labels || l == ScoreLabel
    ensures ColumnIndex(r.labels, ScoreLabel).Some?
    ensures var sc := ColumnIndex(r.labels, ScoreLabel).value;
            forall i :: 0 <= i < |t.rows| ==> Get(r.rows[i], sc) == Int(RowScore(t.rows[i], c, today))
    ensures var sc := ColumnIndex(r.labels, ScoreLabel).value;
            forall i, j :: 0 <= i < |t.rows| && 0 <= j < |t.labels| && j != sc ==> r.rows[i][j] == t.rows[i][j]
  {
    WithColumn(t, ScoreLabel, seq(|t.rows|, i requires 0 <= i < |t.rows| => Int(RowScore(t.rows[i], c, today))))
  }

  // ---------------------------------------------------------------------
  // Properties

  /** Zero stock with a non-negative minimum scores at least 60, so it is never low risk. */
  lemma ZeroStockNeverLowRisk(sa: Cell, smin: Cell, pv: Cell, d: Cell, today: int)
    requires IsZero(sa)
    requires NumValue(smin).Some? && NumValue(smin).value >= 0.0
    ensures Score(sa, smin, pv, d, today) >= 60
    ensures Recommendation(Score(sa, smin, pv, d, today)) != Low
  {
  }

  /** A null expiry date adds nothing: the row scores as if it expired today or later. */
  lemma NullDateAddsNothing(sa: Cell, smin: Cell, pv: Cell, today: int, later: int)
    requires later >= today
    ensures Score(sa, smin, pv, Empty, today) == Score(sa, smin, pv, Date(later), today)
    ensures Score(sa, smin, pv, Empty, today) <= 80
  {
  }

  /** Only a product out of stock can reach "Action urgente": the other three conditions give at most 60. */
  lemma UrgentMeansOutOfStock(sa: Cell, smin: Cell, pv: Cell, d: Cell, today: int)
    requires Recommendation(Score(sa, smin, pv, d, today)) == Urgent
    ensures IsZero(sa)
  {
  }

  /** Every row recommended "Action urgente" is also a rupture alert. */
  lemma UrgentRowsAreRuptures(t: Table, today: int, i: nat)
    requires forall k :: 0 <= k < |RiskReads| ==> RiskReads[k] in t.labels
    requires i < |t.rows|
    requires Recommendation(RowScore(t.rows[i], ReadColumns(t.labels, RiskReads).value, today)) == Urgent
    ensures t.rows[i] in Ruptures(t, ReadColumns(t.labels, RiskReads).value[0])
  {
    var c := ReadColumns(t.labels, RiskReads).value;
    UrgentMeansOutOfStock(Get(t.rows[i], c[0]), Get(t.rows[i], c[1]), Get(t.rows[i], c[2]), Get(t.rows[i], c[3]), today);
  }
}
