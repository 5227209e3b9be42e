/**
 * The text report of app/utils/report.py: one summary line per alert, four
 * KPI lines, four risk lines, and the full report that frames them in fixed
 * sections. The report's clock reading is a parameter.
 */
module Report {
  import opened Wrappers
  import opened Text
  import opened Lines
  import opened Calendar
  import opened Frame
  import opened Alerts
  import opened Risk
  import opened Kpis

  // ---------------------------------------------------------------------
  // summarize_alerts

  /** key.replace('_', ' ').capitalize(). */
  function AlertLabel(key: string): (r: string)
    ensures |r| == |key|
    ensures '\n' !in key ==> '\n' !in r
    ensures forall i :: 0 <= i < |r| ==> r[i] != '_'
    ensures forall i :: 0 <= i < |r| ==>
              var c := if key[i] == '_' then ' ' else key[i];
              r[i] == if i == 0 then UpperChar(c) else LowerChar(c)
  {
    var spaced := ReplaceChar(key, '_', ' ');
    var r := Capitalize(spaced);
    assert forall i :: 0 <= i < |r| ==> r[i] == if i == 0 then UpperChar(spaced[0]) else LowerChar(spaced[i]);
    r
  }

  /** The summary line of one alert. */
  function AlertLine(a: Alert): string {
    "- " + AlertLabel(a.key) + " : " + IntText(|a.rows|) + " produit(s)"
  }

  function AlertLines(alerts: seq<Alert>): (lines: seq<string>)
    ensures |lines| == |alerts|
    ensures forall k :: 0 <= k < |alerts| ==> lines[k] == AlertLine(alerts[k])
  {
    seq(|alerts|, k requires 0 <= k < |alerts| => AlertLine(alerts[k]))
  }

  lemma AlertLineOneLine(a: Alert)
    requires '\n' !in a.key
    ensures '\n' !in AlertLine(a)
  {
    assert '\n' !in AlertLabel(a.key);
  }

  /** The figure of an alert line reads back as the number of rows of that alert. */
  lemma AlertLineReportsCount(a: Alert)
    ensures var line := AlertLine(a);
            var start := 2 + |a.key| + 3;
            var stop := |line| - |" produit(s)"|;
            0 <= start <= stop <= |line| && ParseNumber(line[start..stop]) == Some(|a.rows| as real)
  {
    var line := AlertLine(a);
    var start := 2 + |a.key| + 3;
    assert line[start..|line| - |" produit(s)"|] == IntText(|a.rows|);
    ParseIntText(|a.rows|);
  }

  /**
   * The label of a key written in small letters and underscores, as every alert key is: a
   * capital first letter, then the rest with each underscore read as a space.
   */
  lemma SnakeKeyLabel(key: string)
    requires |key| > 0 && 'a' <= key[0] <= 'z'
    requires forall i :: 0 <= i < |key| ==> 'a' <= key[i] <= 'z' || key[i] == '_'
    ensures |AlertLabel(key)| == |key| && 'A' <= AlertLabel(key)[0] <= 'Z' && AlertLabel(key)[0] == UpperChar(key[0])
    ensures forall i :: 1 <= i < |key| ==> AlertLabel(key)[i] == if key[i] == '_' then ' ' else key[i]
  {
  }

  /** "bientot_perimes" reads "Bientot perimes". */
  lemma BientotPerimesLabel(key: string)
    requires key == BientotPerimesKey
    ensures AlertLabel(key) == "Bientot perimes"
  {
    SnakeKeyLabel(key);
    var r := AlertLabel(key);
    assert |r| == 15 && r[0] == 'B' && r[7] == ' ';
  }

  /**
   * summarize_alerts: one line per alert, in order, joined with newlines. The text splits back
   * into exactly those lines when there is at least one alert and no key holds a newline.
   */
  method SummarizeAlerts(alerts: seq<Alert>) returns (text: string)
    ensures text == Join(AlertLines(alerts), "\n")
    ensures |alerts| >= 1 && (forall k :: 0 <= k < |alerts| ==> '\n' !in alerts[k].key) ==>
              SplitLines(text) == AlertLines(alerts)
    ensures alerts == [] ==> text == ""
  {
    var summary: seq<string> := [];
    for k := 0 to |alerts|
      invariant |summary| == k
      invariant forall i :: 0 <= i < k ==> summary[i] == AlertLine(alerts[i])
    {
      summary := summary + [AlertLine(alerts[k])];
    }
    assert summary == AlertLines(alerts);
    text := Join(summary, "\n");
    if |alerts| >= 1 && (forall k :: 0 <= k < |alerts| ==> '\n' !in alerts[k].key) {
      forall k | 0 <= k < |summary| ensures '\n' !in summary[k] {
        AlertLineOneLine(alerts[k]);
      }
      SplitJoin(summary);
    }
  }

  // ---------------------------------------------------------------------
  // summarize_kpis

  /** f"{x:.2f}" of a mean that may be NaN. */
  function FixedOrNan(x: Option<real>, d: nat): (r: string)
    ensures '\n' !in r
  {
    match x
    case Some(v) => Fixed(v, d)
    case None => "nan"
  }

  const StockValueCaption: string := "- Valeur totale du stock : "
  const MarginCaption: string := "- Marge brute moyenne : "
  const DormantCaption: string := "- Produits dormants : "
  const TopCaption: string := "- Top produits chers : "
  const Euro: string := " \U{20AC}"

  lemma KpiCaptionsOneLine()
    ensures '\n' !in StockValueCaption && '\n' !in MarginCaption && '\n' !in Euro
  {
  }

  lemma KpiCountCaptionsOneLine()
    ensures '\n' !in DormantCaption && '\n' !in TopCaption
  {
  }

  function KpiLines(k: KpiSet): (lines: seq<string>)
    ensures |lines| == 4 && forall i :: 0 <= i < 4 ==> '\n' !in lines[i]
  {
    KpiCaptionsOneLine();
    KpiCountCaptionsOneLine();
    [StockValueCaption + Fixed(k.valeurStock, 2) + Euro,
     MarginCaption + FixedOrNan(k.margeMoyenne, 2) + Euro,
     DormantCaption + IntText(|k.dormants.rows|),
     TopCaption + IntText(|k.topChers.rows|)]
  }

  /** summarize_kpis: exactly four lines, the last two reporting the number of dormant and of top products. */
  function SummarizeKpis(k: KpiSet): (r: string)
    ensures SplitLines(r) == KpiLines(k)
    ensures |SplitLines(r)| == 4
  {
    var lines := KpiLines(k);
    SplitJoin(lines);
    Join(lines, "\n")
  }

  /** With compute_all_kpis' default n, the top-products figure is at most 10. */
  lemma TopFigureAtMostTen(t: Table)
    requires WellFormed(t) && ComputeAllKpis(t).Ok?
    ensures KpiLines(ComputeAllKpis(t).value)[3] == TopCaption + IntText(|ComputeAllKpis(t).value.topChers.rows|)
    ensures |ComputeAllKpis(t).value.topChers.rows| <= 10
  {
  }

  // ---------------------------------------------------------------------
  // summarize_risk

  predicate ScoreAtLeast(c: Cell, bound: real) {
    NumValue(c).Some? && NumValue(c).value >= bound
  }

  predicate ScoreBelow(c: Cell, bound: real) {
    NumValue(c).Some? && NumValue(c).value < bound
  }

  function HighCount(rows: seq<Row>, j: nat): nat {
    CountWhere(rows, (row: Row) => ScoreAtLeast(Get(row, j), 70.0))
  }

  function MidCount(rows: seq<Row>, j: nat): nat {
    CountWhere(rows, (row: Row) => ScoreAtLeast(Get(row, j), 40.0) && ScoreBelow(Get(row, j), 70.0))
  }

  function LowCount(rows: seq<Row>, j: nat): nat {
    CountWhere(rows, (row: Row) => ScoreBelow(Get(row, j), 40.0))
  }

  function RiskLines(t: Table, j: nat): (lines: seq<string>)
    ensures |lines| == 4 && forall i :: 0 <= i < 4 ==> '\n' !in lines[i]
  {
    var avg := Mean(seq(|t.rows|, i requires 0 <= i < |t.rows| => NumValue(Get(t.rows[i], j))));
    RiskCaptionsOneLine();
    RiskCountCaptionsOneLine();
    [AverageCaption + FixedOrNan(avg, 1) + OutOf100,
     HighCaption + IntText(HighCount(t.rows, j)),
     MidCaption + IntText(MidCount(t.rows, j)),
     LowCaption + IntText(LowCount(t.rows, j))]
  }

  const AverageCaption: string := "- Score moyen : "
  const OutOf100: string := "/100"
  const HighCaption: string := "- Risque \U{E9}lev\U{E9} : "
  const MidCaption: string := "- Risque moyen : "
  const LowCaption: string := "- Risque faible : "

  lemma RiskCaptionsOneLine()
    ensures '\n' !in AverageCaption && '\n' !in OutOf100 && '\n' !in HighCaption
  {
  }

  lemma RiskCountCaptionsOneLine()
    ensures '\n' !in MidCaption && '\n' !in LowCaption
  {
  }

  /** summarize_risk: four lines from the risk_score column, or the KeyError when it is missing. */
  function SummarizeRisk(t: Table): (r: Result<string, Failure>)
    ensures r.Err? <==> ScoreLabel !in t.labels
    ensures r.Err? ==> r.error == KeyError(ScoreLabel)
    ensures r.Ok? ==> SplitLines(r.value) == RiskLines(t, ColumnIndex(t.labels, ScoreLabel).value)
  {
    match Col(t.labels, ScoreLabel)
    case Err(e) => Err(e)
    case Ok(j) =>
      var lines := RiskLines(t, j);
      SplitJoin(lines);
      Ok(Join(lines, "\n"))
  }

  /** Three predicates of which each element satisfies exactly one count the elements between them. */
  lemma {:induction false} CountPartition<T>(s: seq<T>, p: T -> bool, q: T -> bool, r: T -> bool)
    requires forall x :: x in s ==> (p(x) && !q(x) && !r(x)) || (!p(x) && q(x) && !r(x)) || (!p(x) && !q(x) && r(x))
    ensures CountWhere(s, p) + CountWhere(s, q) + CountWhere(s, r) == |s|
    decreases |s|
  {
    if s != [] {
      assert s[0] in s;
      assert forall x :: x in s[1..] ==> x in s;
      CountPartition(s[1..], p, q, r);
    }
  }

  /** Two predicates that agree on every element count the same elements. */
  lemma {:induction false} CountAgree<T>(s: seq<T>, p: T -> bool, q: T -> bool)
    requires forall k :: 0 <= k < |s| ==> p(s[k]) == q(s[k])
    ensures CountWhere(s, p) == CountWhere(s, q)
    decreases |s|
  {
    if s != [] {
      assert forall k :: 0 <= k < |s| - 1 ==> s[1..][k] == s[k + 1];
      CountAgree(s[1..], p, q);
    }
  }

  /** When every score is a number, the high, mid and low counts partition the rows. */
  lemma RiskCountsPartition(t: Table, j: nat)
    requires forall i :: 0 <= i < |t.rows| ==> NumValue(Get(t.rows[i], j)).Some?
    ensures HighCount(t.rows, j) + MidCount(t.rows, j) + LowCount(t.rows, j) == |t.rows|
  {
    CountPartition(t.rows, (row: Row) => ScoreAtLeast(Get(row, j), 70.0),
                   (row: Row) => ScoreAtLeast(Get(row, j), 40.0) && ScoreBelow(Get(row, j), 70.0),
                   (row: Row) => ScoreBelow(Get(row, j), 40.0));
  }

  /** A score is high exactly when its recommendation is urgent, and low exactly when it is "Risque faible". */
  lemma TiersAgree(s: int)
    ensures ScoreAtLeast(Int(s), 70.0) == (Str(Recommendation(s)) == Str(Urgent))
    ensures ScoreBelow(Int(s), 40.0) == (Str(Recommendation(s)) == Str(Low))
  {
  }

  /**
   * On the output of compute_risk_and_recos the high count is the number of "Action urgente"
   * rows and the low count the number of "Risque faible" rows: the tiers use the same thresholds.
   */
  lemma RiskCountsMatchRecommendations(t: Table, c: seq<nat>, today: int)
    requires WellFormed(t) && |c| == |RiskReads|
    ensures var r := Scored(t, c, today);
            var sc := ColumnIndex(r.labels, ScoreLabel).value;
            var rc := ColumnIndex(r.labels, RecoLabel).value;
            && HighCount(r.rows, sc) == CountWhere(r.rows, (row: Row) => Get(row, rc) == Str(Urgent))
            && LowCount(r.rows, sc) == CountWhere(r.rows, (row: Row) => Get(row, rc) == Str(Low))
            && HighCount(r.rows, sc) + MidCount(r.rows, sc) + LowCount(r.rows, sc) == |r.rows|
  {
    var r := Scored(t, c, today);
    var sc := ColumnIndex(r.labels, ScoreLabel).value;
    var rc := ColumnIndex(r.labels, RecoLabel).value;
    ScoredTiers(t, c, today);
    CountAgree(r.rows, (row: Row) => ScoreAtLeast(Get(row, sc), 70.0), (row: Row) => Get(row, rc) == Str(Urgent));
    CountAgree(r.rows, (row: Row) => ScoreBelow(Get(row, sc), 40.0), (row: Row) => Get(row, rc) == Str(Low));
    RiskCountsPartition(r, sc);
  }

  /** On scored output every score is a number, and its tier agrees with the row's recommendation. */
  lemma ScoredTiers(t: Table, c: seq<nat>, today: int)
    requires WellFormed(t) && |c| == |RiskReads|
    ensures var r := Scored(t, c, today);
            var sc := ColumnIndex(r.labels, ScoreLabel).value;
            var rc := ColumnIndex(r.labels, RecoLabel).value;
            && (forall i :: 0 <= i < |r.rows| ==> NumValue(Get(r.rows[i], sc)).Some?)
            && (forall i :: 0 <= i < |r.rows| ==>
                  ScoreAtLeast(Get(r.rows[i], sc), 70.0) == (Get(r.rows[i], rc) == Str(Urgent))
                  && ScoreBelow(Get(r.rows[i], sc), 40.0) == (Get(r.rows[i], rc) == Str(Low)))
  {
    var r := Scored(t, c, today);
    var sc := ColumnIndex(r.labels, ScoreLabel).value;
    var rc := ColumnIndex(r.labels, RecoLabel).value;
    ScoredCells(t, c, today);
    forall i | 0 <= i < |r.rows|
      ensures ScoreAtLeast(Get(r.rows[i], sc), 70.0) == (Get(r.rows[i], rc) == Str(Urgent))
      ensures ScoreBelow(Get(r.rows[i], sc), 40.0) == (Get(r.rows[i], rc) == Str(Low))
    {
      TiersAgree(RowScore(t.rows[i], c, today));
    }
  }

  // ---------------------------------------------------------------------
  // generate_full_report

  const Rule31: string := "==============================="
  const Rule32: string := "================================"
  const Dashes: string := "--------------------------------"
  const Title: string := "   RAPPORT D'ANALYSE PHARMACIE"
  const StampCaption: string := "G\U{E9}n\U{E9}r\U{E9} le : "
  const AlertsTitle: string := "1) Synth\U{E8}se des alertes"
  const KpisTitle: string := "2) Indicateurs cl\U{E9}s (KPIs)"
  const RiskTitle: string := "3) Analyse du risque global"
  const AdviceTitle: string := "4) Recommandations g\U{E9}n\U{E9}rales"
  const CheckExpired: string := "- V\U{E9}rifier les produits p\U{E9}rim\U{E9}s"
  const SellExpensive: string := "- Prioriser l'\U{E9}coulement des produits chers"
  const Restock: string := "- R\U{E9}approvisionner les ruptures"
  const WatchDormant: string := "- Surveiller les produits dormants"
  const Closing: string := "Fin du rapport"

  lemma RulesOneLine()
    ensures '\n' !in Rule31 && '\n' !in Rule32 && '\n' !in Dashes
  {
  }

  lemma BannerOneLine()
    ensures '\n' !in Title && '\n' !in StampCaption && '\n' !in Closing
  {
  }

  lemma TitlesOneLine()
    ensures '\n' !in AlertsTitle && '\n' !in KpisTitle
  {
  }

  lemma MoreTitlesOneLine()
    ensures '\n' !in RiskTitle && '\n' !in AdviceTitle
  {
  }

  lemma AdviceOneLine()
    ensures '\n' !in CheckExpired && '\n' !in SellExpensive
  {
  }

  lemma MoreAdviceOneLine()
    ensures '\n' !in Restock && '\n' !in WatchDormant
  {
  }

  /** An empty line, a rule, the section's title and a rule. */
  function SectionHead(title: string): (lines: seq<string>)
    ensures '\n' !in title ==> forall k :: 0 <= k < |lines| ==> '\n' !in lines[k]
  {
    RulesOneLine();
    ["", Dashes, title, Dashes]
  }

  /** The lines before the alert summary. */
  function HeadLines(now: int): (lines: seq<string>)
    ensures forall k :: 0 <= k < |lines| ==> '\n' !in lines[k]
  {
    RulesOneLine();
    BannerOneLine();
    TitlesOneLine();
    ["", Rule31, Title, Rule31, StampCaption + ReportStamp(now)] + SectionHead(AlertsTitle)
  }

  /** The lines after the risk summary: the fixed recommendations and the closing banner. */
  function TailLines(): (lines: seq<string>)
    ensures forall k :: 0 <= k < |lines| ==> '\n' !in lines[k]
  {
    RulesOneLine();
    BannerOneLine();
    MoreTitlesOneLine();
    AdviceOneLine();
    MoreAdviceOneLine();
    SectionHead(AdviceTitle) + [CheckExpired, SellExpensive, Restock, WatchDormant] + ["", Rule32, Closing, Rule32, ""]
  }

  function KpiHead(): (lines: seq<string>)
    ensures forall k :: 0 <= k < |lines| ==> '\n' !in lines[k]
  {
    TitlesOneLine();
    SectionHead(KpisTitle)
  }

  function RiskHead(): (lines: seq<string>)
    ensures forall k :: 0 <= k < |lines| ==> '\n' !in lines[k]
  {
    MoreTitlesOneLine();
    SectionHead(RiskTitle)
  }

  /** The report as the pieces the template joins with newlines. */
  function ReportPieces(now: int, alertsText: string, kpisText: string, riskText: string): seq<string> {
    HeadLines(now) + ([alertsText] + (KpiHead() + ([kpisText] + (RiskHead() + ([riskText] + TailLines())))))
  }

  /**
   * generate_full_report: the template filled with the three summaries and the date of `now`,
   * or the KeyError of summarize_risk.
   */
  function GenerateFullReport(alerts: seq<Alert>, kpis: KpiSet, risk: Table, now: int): (r: Result<string, Failure>)
    ensures r.Err? <==> ScoreLabel !in risk.labels
    ensures r.Err? ==> r.error == KeyError(ScoreLabel)
    ensures r.Ok? ==>
              SplitLines(r.value) == HeadLines(now) + (SplitLines(Join(AlertLines(alerts), "\n")) + (KpiHead() + (KpiLines(kpis)
                                     + (RiskHead() + (RiskLines(risk, ColumnIndex(risk.labels, ScoreLabel).value) + TailLines())))))
  {
    match SummarizeRisk(risk)
    case Err(e) => Err(e)
    case Ok(riskText) =>
      var alertsText := Join(AlertLines(alerts), "\n");
      var kpisText := SummarizeKpis(kpis);
      ReportLayout(now, alertsText, kpisText, riskText);
      Ok(Join(ReportPieces(now, alertsText, kpisText, riskText), "\n"))
  }

  /** The report's lines: the fixed lines with the lines of each summary in between, in section order. */
  lemma ReportLayout(now: int, alertsText: string, kpisText: string, riskText: string)
    ensures SplitLines(Join(ReportPieces(now, alertsText, kpisText, riskText), "\n"))
            == HeadLines(now) + (SplitLines(alertsText) + (KpiHead() + (SplitLines(kpisText) + (RiskHead() + (SplitLines(riskText) + TailLines())))))
  {
    Layout(HeadLines(now), alertsText, KpiHead(), kpisText, RiskHead(), riskText, TailLines());
  }
}
