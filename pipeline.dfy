/**
 * clean_dataframe of app/utils/cleaning.py: drop the empty columns and rows,
 * drop the rows mentioning "total", rename columns by alias and by content,
 * coerce the canonical columns (date, text, integers, floats), keep the first
 * row of every code_cip and fill the text sentinels, in that order.
 */
module Pipeline {
  import opened Wrappers
  import opened Text
  import opened Calendar
  import opened Frame
  import opened Cleaning

  // ---------------------------------------------------------------------
  // Structural clean-up: dropna(axis=1, how="all"), dropna(axis=0, how="all")

  predicate AllEmpty(cells: seq<Cell>) {
    forall k :: 0 <= k < |cells| ==> cells[k].Empty?
  }

  /** The columns holding at least one non-null cell. */
  function NonEmptyColumns(t: Table): seq<nat> {
    Indices(|t.labels|, j => !AllEmpty(Column(t, j)))
  }

  /** df.dropna(axis=1, how="all"). */
  function DropEmptyColumns(t: Table): (r: Table)
    requires WellFormed(t)
    ensures WellFormed(r) && |r.rows| == |t.rows|
    ensures forall j :: 0 <= j < |r.labels| ==> !AllEmpty(Column(r, j))
    ensures forall i :: 0 <= i < |t.rows| ==> (AllEmpty(r.rows[i]) <==> AllEmpty(t.rows[i]))
    ensures forall i :: 0 <= i < |t.rows| ==> (HasTotal(r.rows[i]) <==> HasTotal(t.rows[i]))
  {
    var idx := NonEmptyColumns(t);
    var r := KeepColumns(t, idx);
    forall j | 0 <= j < |r.labels| ensures !AllEmpty(Column(r, j)) {
      assert Column(r, j) == Column(t, idx[j]);
    }
    forall i | 0 <= i < |t.rows|
      ensures (AllEmpty(r.rows[i]) <==> AllEmpty(t.rows[i])) && (HasTotal(r.rows[i]) <==> HasTotal(t.rows[i]))
    {
      ProjectionKeepsNonEmptyCells(t, idx, i);
    }
    r
  }

  /** A non-null cell lies in a kept column, so the projection keeps it. */
  lemma NonEmptyCellKept(t: Table, idx: seq<nat>, i: nat, k: nat)
    requires WellFormed(t) && i < |t.rows| && idx == NonEmptyColumns(t)
    requires k < |t.rows[i]| && !t.rows[i][k].Empty?
    ensures exists m :: 0 <= m < |idx| && KeepColumns(t, idx).rows[i][m] == t.rows[i][k]
  {
    assert !AllEmpty(Column(t, k)) by { assert Column(t, k)[i] == t.rows[i][k]; }
    assert k in idx;
    var m :| 0 <= m < |idx| && idx[m] == k;
    assert KeepColumns(t, idx).rows[i][m] == t.rows[i][k];
  }

  /** A cell outside the kept columns is null, so its row loses no value and no "total" by the projection. */
  lemma ProjectionKeepsNonEmptyCells(t: Table, idx: seq<nat>, i: nat)
    requires WellFormed(t) && i < |t.rows| && idx == NonEmptyColumns(t)
    ensures AllEmpty(KeepColumns(t, idx).rows[i]) <==> AllEmpty(t.rows[i])
    ensures HasTotal(KeepColumns(t, idx).rows[i]) <==> HasTotal(t.rows[i])
  {
    var row, proj := t.rows[i], KeepColumns(t, idx).rows[i];
    assert forall m :: 0 <= m < |proj| ==> proj[m] == row[idx[m]];
    if !AllEmpty(row) {
      var k :| 0 <= k < |row| && !row[k].Empty?;
      NonEmptyCellKept(t, idx, i, k);
    }
    if HasTotal(row) {
      var k :| 0 <= k < |row| && MentionsTotal(row[k]);
      EmptyNeverMentionsTotal();
      NonEmptyCellKept(t, idx, i, k);
    }
  }

  // ---------------------------------------------------------------------
  // The "total" filter

  /** One cell's text, lower-cased, contains "total": str.contains("total", case=False). */
  predicate MentionsTotal(c: Cell) {
    Contains(Lower(CellText(c)), "total")
  }

  /** row.astype(str).str.contains("total", case=False).any(). */
  predicate HasTotal(row: Row) {
    exists k :: 0 <= k < |row| && MentionsTotal(row[k])
  }

  /** A row the first three steps keep: not entirely null, and no cell mentioning "total". */
  predicate KeptRow(row: Row) {
    !AllEmpty(row) && !HasTotal(row)
  }

  /** A null cell reads "nan", which mentions no total. */
  lemma EmptyNeverMentionsTotal()
    ensures !MentionsTotal(Empty)
  {
    var s := Lower(CellText(Empty));
    assert s == "nan";
    NotContainsChar(s, "total");
  }

  /** The rows that are not entirely null. */
  function NonEmptyRows(t: Table): (idx: seq<nat>)
    ensures Increasing(idx, |t.rows|)
    ensures forall i :: 0 <= i < |t.rows| ==> (i in idx <==> !AllEmpty(t.rows[i]))
  {
    Indices(|t.rows|, (i: nat) => i < |t.rows| && !AllEmpty(t.rows[i]))
  }

  /** The rows none of whose cells mentions "total". */
  function TotalFreeRows(t: Table): (idx: seq<nat>)
    ensures Increasing(idx, |t.rows|)
    ensures forall i :: 0 <= i < |t.rows| ==> (i in idx <==> !HasTotal(t.rows[i]))
  {
    Indices(|t.rows|, (i: nat) => i < |t.rows| && !HasTotal(t.rows[i]))
  }

  /** After the first two steps, no column and no row is entirely null. */
  lemma {:induction false} NoEmptyColumnOrRowSurvives(t: Table)
    requires WellFormed(t)
    ensures var c := DropEmptyColumns(t);
            var r := KeepRows(c, NonEmptyRows(c));
            (forall j :: 0 <= j < |r.labels| ==> !AllEmpty(Column(r, j)))
            && (forall i :: 0 <= i < |r.rows| ==> !AllEmpty(r.rows[i]))
  {
    var c := DropEmptyColumns(t);
    var idx := NonEmptyRows(c);
    forall j | 0 <= j < |c.labels| ensures !AllEmpty(Column(KeepRows(c, idx), j)) {
      KeptColumnNotEmpty(c, idx, j);
    }
  }

  /** A column with a non-null cell keeps it when the rows that are not all-null are kept. */
  lemma KeptColumnNotEmpty(c: Table, idx: seq<nat>, j: nat)
    requires WellFormed(c) && j < |c.labels| && !AllEmpty(Column(c, j))
    requires forall k :: 0 <= k < |idx| ==> idx[k] < |c.rows|
    requires forall i :: 0 <= i < |c.rows| ==> (i in idx <==> !AllEmpty(c.rows[i]))
    ensures !AllEmpty(Column(KeepRows(c, idx), j))
  {
    var r := KeepRows(c, idx);
    var i :| 0 <= i < |c.rows| && !Column(c, j)[i].Empty?;
    assert !AllEmpty(c.rows[i]) by { assert c.rows[i][j] == Column(c, j)[i]; }
    var k :| 0 <= k < |idx| && idx[k] == i;
    assert Column(r, j)[k] == Column(c, j)[i];
  }

  // ---------------------------------------------------------------------
  // Column resolution

  /** The loop that builds the alias rename dictionary: a label maps to its alias target when its normalised text is a key. */
  method AliasRenames(labels: seq<string>) returns (m: map<string, string>)
    ensures forall col :: col in m <==> col in labels && AliasOf(col).Some?
    ensures forall col :: col in m ==> m[col] == AliasOf(col).value
  {
    m := map[];
    for j := 0 to |labels|
      invariant forall col :: col in m <==> col in labels[..j] && AliasOf(col).Some?
      invariant forall col :: col in m ==> m[col] == AliasOf(col).value
    {
      ghost var before := m;
      var alias := AliasOf(labels[j]);
      if alias.Some? {
        m := m[labels[j] := alias.value];
      }
      AliasStep(labels, j, AliasOf, before, m);
    }
    assert labels[..|labels|] == labels;
  }

  /** Recording the alias of labels[j], if any, extends the rename dictionary to one more label. */
  lemma AliasStep(labels: seq<string>, j: nat, alias: string -> Option<string>, m: map<string, string>, m': map<string, string>)
    requires j < |labels|
    requires forall col :: col in m <==> col in labels[..j] && alias(col).Some?
    requires forall col :: col in m ==> m[col] == alias(col).value
    requires m' == if alias(labels[j]).Some? then m[labels[j] := alias(labels[j]).value] else m
    ensures forall col :: col in m' <==> col in labels[..j + 1] && alias(col).Some?
    ensures forall col :: col in m' ==> m'[col] == alias(col).value
  {
    assert labels[..j + 1] == labels[..j] + [labels[j]];
  }

  /** The date test inside detect_column: the value parses as a date. */
  function IsDateText(parse: DateParser): string -> bool {
    s => parse(s).Some?
  }

  /** Pairwise distinct labels, as fix_duplicate_columns leaves them in the usual case. */
  predicate Distinct(labels: seq<string>) {
    forall a, b :: 0 <= a < b < |labels| ==> labels[a] != labels[b]
  }

  /** No label is already a name that sniffing gives but aliasing does not. */
  predicate NoSniffTarget(labels: seq<string>) {
    forall j :: 0 <= j < |labels| ==> labels[j] !in SniffTargets
  }

  /** The label column j ends with when it is resolved on its own: kept if an alias target, else detect_column's verdict. */
  function SniffedLabel(t: Table, j: nat, parse: DateParser): string
    requires j < |t.labels|
  {
    if t.labels[j] in AliasTargets then t.labels[j]
    else match DetectColumn(t.labels[j], Texts(t, j), IsDateText(parse))
      case Some(d) => d
      case None => t.labels[j]
  }

  /**
   * The sniffing loop: every column not carrying an alias target is renamed to what
   * detect_column says of its text, the later renames seeing the earlier ones.
   */
  method SniffColumns(t: Table, parse: DateParser) returns (labels: seq<string>)
    ensures |labels| == |t.labels|
    ensures forall j :: 0 <= j < |labels| && t.labels[j] in AliasTargets ==> labels[j] == t.labels[j]
    ensures forall j :: 0 <= j < |labels| ==> labels[j] == t.labels[j] || labels[j] in CanonicalFields
    ensures Distinct(t.labels) && NoSniffTarget(t.labels) ==>
              forall j :: 0 <= j < |labels| ==> labels[j] == SniffedLabel(t, j, parse)
  {
    labels := t.labels;
    var cols := t.labels;
    ghost var exact := Distinct(t.labels) && NoSniffTarget(t.labels);
    for i := 0 to |cols|
      invariant |labels| == |t.labels|
      invariant forall j :: 0 <= j < |labels| && t.labels[j] in AliasTargets ==> labels[j] == t.labels[j]
      invariant forall j :: 0 <= j < |labels| ==> labels[j] == t.labels[j] || labels[j] in DetectTargets
      invariant exact ==> forall j :: 0 <= j < i ==> labels[j] == SniffedLabel(t, j, parse)
      invariant exact ==> forall j :: i <= j < |labels| ==> labels[j] == t.labels[j]
    {
      var col := cols[i];
      if col !in AliasTargets {
        match ColumnIndex(labels, col) {
          case Some(k) =>
            var detected := DetectColumn(col, Texts(t, k), IsDateText(parse));
            if detected.Some? {
              ghost var before := labels;
              labels := Rename(labels, map[col := detected.value]);
              SniffRenameKeeps(t, before, col, detected.value);
              if exact {
                ExactSniffStep(t, before, i, k, parse, detected.value);
              }
            } else if exact {
              ExactRenameTouchesOnlyItself(t, labels, i, k, parse);
              ExactKeep(t, labels, i, parse);
            }
          case None =>
        }
      } else if exact {
        ExactKeep(t, labels, i, parse);
      }
    }
  }

  /** Under distinct labels, a column left alone at step i is already resolved. */
  lemma ExactKeep(t: Table, labels: seq<string>, i: nat, parse: DateParser)
    requires i < |t.labels| == |labels|
    requires forall j :: 0 <= j < i ==> labels[j] == SniffedLabel(t, j, parse)
    requires forall j :: i <= j < |labels| ==> labels[j] == t.labels[j]
    requires t.labels[i] in AliasTargets || DetectColumn(t.labels[i], Texts(t, i), IsDateText(parse)).None?
    ensures forall j :: 0 <= j <= i ==> labels[j] == SniffedLabel(t, j, parse)
  {
  }

  /** Renaming a column that is not an alias target to a detected name keeps the loop's first two invariants. */
  lemma SniffRenameKeeps(t: Table, before: seq<string>, col: string, d: string)
    requires |before| == |t.labels|
    requires col !in AliasTargets && d in DetectTargets
    requires forall j :: 0 <= j < |before| && t.labels[j] in AliasTargets ==> before[j] == t.labels[j]
    requires forall j :: 0 <= j < |before| ==> before[j] == t.labels[j] || before[j] in DetectTargets
    ensures var after := Rename(before, map[col := d]);
            (forall j :: 0 <= j < |after| && t.labels[j] in AliasTargets ==> after[j] == t.labels[j])
            && (forall j :: 0 <= j < |after| ==> after[j] == t.labels[j] || after[j] in DetectTargets)
  {
  }

  /** Under distinct labels, renaming the i-th original label resolves column i and leaves the later ones alone. */
  lemma ExactSniffStep(t: Table, before: seq<string>, i: nat, k: nat, parse: DateParser, d: string)
    requires Distinct(t.labels) && NoSniffTarget(t.labels)
    requires i < |t.labels| == |before| && t.labels[i] !in AliasTargets
    requires forall j :: 0 <= j < |before| ==> before[j] == t.labels[j] || before[j] in DetectTargets
    requires forall j :: 0 <= j < i ==> before[j] == SniffedLabel(t, j, parse)
    requires forall j :: i <= j < |before| ==> before[j] == t.labels[j]
    requires ColumnIndex(before, t.labels[i]) == Some(k)
    requires DetectColumn(t.labels[i], Texts(t, k), IsDateText(parse)) == Some(d)
    ensures var after := Rename(before, map[t.labels[i] := d]);
            (forall j :: 0 <= j <= i ==> after[j] == SniffedLabel(t, j, parse))
            && (forall j :: i < j < |after| ==> after[j] == t.labels[j])
  {
    ExactRenameTouchesOnlyItself(t, before, i, k, parse);
  }

  /** Under distinct labels, the column named like the i-th original label is the i-th one and no other. */
  lemma ExactRenameTouchesOnlyItself(t: Table, labels: seq<string>, i: nat, k: nat, parse: DateParser)
    requires Distinct(t.labels) && NoSniffTarget(t.labels)
    requires i < |t.labels| == |labels| && t.labels[i] !in AliasTargets
    requires forall j :: 0 <= j < |labels| ==> labels[j] == t.labels[j] || labels[j] in DetectTargets
    requires forall j :: i <= j < |labels| ==> labels[j] == t.labels[j]
    requires ColumnIndex(labels, t.labels[i]) == Some(k)
    ensures k == i
    ensures forall j :: 0 <= j < |labels| && j != i ==> labels[j] != t.labels[i]
  {
    forall j | 0 <= j < |labels| && j != i ensures labels[j] != t.labels[i] {
      if labels[j] != t.labels[j] {
        assert labels[j] in DetectTargets;
        assert t.labels[i] !in SniffTargets;
      }
    }
  }

  // ---------------------------------------------------------------------
  // Type coercion

  const TextCols: seq<string> := ["designation", "categorie", "fournisseur", "nom_pharmacie", "emplacement_rayon"]
  const IntCols: seq<string> := ["stock_actuel", "stock_min", "code_cip"]
  const FloatCols: seq<string> := ["prix_achat_ht", "prix_vente_ttc"]

  /** pd.to_numeric(errors="coerce") on one cell: the number it holds or spells, or None (NaN). */
  function ToNumber(c: Cell): (r: Option<real>)
    ensures c.Empty? || c.Date? ==> r.None?
    ensures NumValue(c).Some? ==> r == NumValue(c)
  {
    match c
    case Int(i) => Some(i as real)
    case Num(x) => Some(x)
    case Str(s) => ParseNumber(s)
    case _ => None
  }

  /** .fillna(0).astype(int): an unreadable cell becomes 0, a fraction is truncated toward zero. */
  function CoerceInt(c: Cell): (r: Cell)
    ensures r.Int?
    ensures ToNumber(c).None? ==> r == Int(0)
    ensures ToNumber(c).Some? ==> r == Int(Trunc(ToNumber(c).value))
    ensures c.Int? ==> r == c
  {
    match ToNumber(c)
    case None => Int(0)
    case Some(x) => Int(Trunc(x))
  }

  /** .fillna(0.0) after to_numeric: an unreadable cell becomes 0.0. */
  function CoerceFloat(c: Cell): (r: Cell)
    ensures r.Num?
    ensures r.r == if ToNumber(c).Some? then ToNumber(c).value else 0.0
  {
    Num(match ToNumber(c) case Some(x) => x case None => 0.0)
  }

  /** A text cell that spells an integer coerces to that integer. */
  lemma CoerceIntOfText(i: int)
    ensures CoerceInt(Str(IntText(i))) == Int(i)
  {
    ParseIntText(i);
  }

  /**
   * The loop `for col in cols: if col in df.columns: df[col] = f(df[col])`:
   * every column named in `cols` is converted cell by cell, the others are untouched.
   */
  method CoerceColumns(t: Table, cols: seq<string>, f: Cell -> Cell) returns (r: Table)
    requires WellFormed(t)
    requires forall a, b :: 0 <= a < b < |cols| ==> cols[a] != cols[b]
    ensures WellFormed(r) && r.labels == t.labels && |r.rows| == |t.rows|
    ensures forall i, j :: 0 <= i < |t.rows| && 0 <= j < |t.labels| ==>
              r.rows[i][j] == if t.labels[j] in cols then f(t.rows[i][j]) else t.rows[i][j]
  {
    r := t;
    for k := 0 to |cols|
      invariant WellFormed(r) && r.labels == t.labels && |r.rows| == |t.rows|
      invariant forall i, j :: 0 <= i < |t.rows| && 0 <= j < |t.labels| ==>
                  r.rows[i][j] == if t.labels[j] in cols[..k] then f(t.rows[i][j]) else t.rows[i][j]
    {
      assert cols[..k + 1] == cols[..k] + [cols[k]];
      assert cols[k] !in cols[..k];
      if cols[k] in r.labels {
        r := MapColumn(r, cols[k], f);
      }
    }
    assert cols[..|cols|] == cols;
  }

  // ---------------------------------------------------------------------
  // drop_duplicates(subset=["code_cip"], keep="first")

  /** The rows whose cell in column j equals that of no earlier row. */
  function FirstKeyRows(t: Table, j: nat): (idx: seq<nat>)
    ensures Increasing(idx, |t.rows|)
    ensures forall i :: 0 <= i < |t.rows| ==>
              (i in idx <==> forall k :: 0 <= k < i ==> Get(t.rows[k], j) != Get(t.rows[i], j))
  {
    Indices(|t.rows|, (i: nat) => i < |t.rows| && forall k :: 0 <= k < i ==> Get(t.rows[k], j) != Get(t.rows[i], j))
  }

  /** Keeping the first row of every key leaves pairwise distinct keys. */
  lemma FirstKeyRowsDistinct(t: Table, j: nat)
    ensures var idx := FirstKeyRows(t, j);
            forall a, b :: 0 <= a < b < |idx| ==> Get(t.rows[idx[a]], j) != Get(t.rows[idx[b]], j)
  {
    var idx := FirstKeyRows(t, j);
    forall a, b | 0 <= a < b < |idx| ensures Get(t.rows[idx[a]], j) != Get(t.rows[idx[b]], j) {
      assert idx[b] in idx;
    }
  }

  /** Every key of the input survives, carried by the first row that has it. */
  lemma {:induction false} EveryKeySurvives(t: Table, j: nat, i: nat)
    requires i < |t.rows|
    ensures exists f :: f <= i && f in FirstKeyRows(t, j) && Get(t.rows[f], j) == Get(t.rows[i], j)
    decreases i
  {
    var idx := FirstKeyRows(t, j);
    if i !in idx {
      var k :| 0 <= k < i && Get(t.rows[k], j) == Get(t.rows[i], j);
      EveryKeySurvives(t, j, k);
    }
  }

  /** The position of the code_cip column, if any. */
  function CipColumn(t: Table): Option<nat> {
    ColumnIndex(t.labels, "code_cip")
  }

  /** The rows drop_duplicates keeps: the first of each code_cip, or every row when there is no such column. */
  function DedupRows(t: Table): (idx: seq<nat>)
    ensures Increasing(idx, |t.rows|)
    ensures CipColumn(t).None? ==> idx == seq(|t.rows|, i => i)
    ensures CipColumn(t).Some? ==> idx == FirstKeyRows(t, CipColumn(t).value)
  {
    match CipColumn(t)
    case Some(j) => FirstKeyRows(t, j)
    case None => seq(|t.rows|, i => i)
  }

  /** Text coercion of a code_cip cell that reads as no number: 0, so all such rows share one key. */
  lemma UnreadableCipsCollapse(a: Cell, b: Cell)
    requires ToNumber(a).None? && ToNumber(b).None?
    ensures CoerceInt(a) == CoerceInt(b) == Int(0)
  {
  }

  // ---------------------------------------------------------------------
  // fillna with the text sentinels

  /** The fillna dictionary. */
  function Sentinel(name: string): Option<string> {
    if name == "categorie" then Some("inconnue")
    else if name == "fournisseur" then Some("inconnu")
    else if name == "designation" then Some("non_specifie")
    else if name == "emplacement_rayon" then Some("non_renseigne")
    else None
  }

  function FillCell(name: string, c: Cell): (r: Cell)
    ensures Sentinel(name).Some? && c.Empty? ==> r == Str(Sentinel(name).value)
    ensures Sentinel(name).None? || !c.Empty? ==> r == c
  {
    if c.Empty? && Sentinel(name).Some? then Str(Sentinel(name).value) else c
  }

  /** df.fillna({...}): only the null cells of the four text columns change. */
  function FillSentinels(t: Table): (r: Table)
    requires WellFormed(t)
    ensures WellFormed(r) && r.labels == t.labels && |r.rows| == |t.rows|
    ensures forall i, j :: 0 <= i < |t.rows| && 0 <= j < |t.labels| ==> r.rows[i][j] == FillCell(t.labels[j], t.rows[i][j])
  {
    Table(t.labels, seq(|t.rows|, i requires 0 <= i < |t.rows| =>
      seq(|t.rows[i]|, j requires 0 <= j < |t.rows[i]| => FillCell(t.labels[j], t.rows[i][j]))))
  }

  // ---------------------------------------------------------------------
  // The pipeline

  /** The text coercion: normalize_text, a null left null for the sentinel fill. */
  function CoerceText(c: Cell): (r: Cell)
    ensures c.Empty? <==> r.Empty?
    ensures r.Str? || r.Empty?
  {
    NormalizeText(c)
  }

  /** The text coercion as written: astype(str) runs first, so a null reaches normalize_text as the text "nan". */
  function CoerceTextAsWritten(c: Cell): (r: Cell)
    ensures r.Str?
    ensures !c.Empty? ==> r == CoerceText(c)
  {
    Str(NormalizeLabel(CellText(c)))
  }

  /** As written, a null categorie is "nan" by the time of the fill and keeps it; coerced as intended it becomes "inconnue". */
  lemma NullTextNeverFilledAsWritten(nan: string)
    requires nan == "nan"
    ensures FillCell("categorie", CoerceTextAsWritten(Empty)) == Str(nan)
    ensures FillCell("categorie", CoerceText(Empty)) == Str("inconnue")
  {
    NanNormalizes(nan);
    assert CellText(Empty) == nan;
  }

  /** "nan" is already normalised text. */
  lemma NanNormalizes(nan: string)
    requires nan == "nan"
    ensures NormalizeLabel(nan) == nan
  {
    assert IsAscii(nan) && !IsSpace(nan[0]) && !IsSpace(nan[|nan| - 1]);
    assert Lower(nan) == nan;
    NormalizeUnpadded(nan, nan);
  }

  /** The type a cell of column `name` has after coercion: a text cell may still be null until the sentinel fill. */
  predicate CellCoerced(name: string, c: Cell) {
    (name in IntCols ==> c.Int?)
    && (name in FloatCols ==> c.Num?)
    && (name == "date_peremption" ==> c.Date? || c.Empty?)
    && (name in TextCols ==> c.Str? || c.Empty?)
  }

  predicate Coerced(t: Table) {
    forall i, j :: 0 <= i < |t.rows| && 0 <= j < |t.labels| && j < |t.rows[i]| ==> CellCoerced(t.labels[j], t.rows[i][j])
  }

  /** The column types clean_dataframe leaves, for every column carrying a canonical name. */
  predicate Typed(t: Table) {
    forall i, j :: 0 <= i < |t.rows| && 0 <= j < |t.labels| && j < |t.rows[i]| ==>
      (t.labels[j] in IntCols ==> t.rows[i][j].Int?)
      && (t.labels[j] in FloatCols ==> t.rows[i][j].Num?)
      && (t.labels[j] == "date_peremption" ==> t.rows[i][j].Date? || t.rows[i][j].Empty?)
      && (Sentinel(t.labels[j]).Some? ==> t.rows[i][j].Str?)
  }

  /** The first row of each code_cip is all that remains: no code_cip repeats. */
  predicate CipUnique(t: Table) {
    CipColumn(t).Some? ==>
      forall a, b :: 0 <= a < b < |t.rows| ==> Get(t.rows[a], CipColumn(t).value) != Get(t.rows[b], CipColumn(t).value)
  }

  /** The positions kept by `inner` among those kept by `outer`, as positions of the original. */
  function Compose(outer: seq<nat>, inner: seq<nat>, n: nat): (r: seq<nat>)
    requires Increasing(outer, n) && Increasing(inner, |outer|)
    ensures |r| == |inner| && Increasing(r, n)
    ensures forall k :: 0 <= k < |inner| ==> r[k] == outer[inner[k]]
  {
    seq(|inner|, k requires 0 <= k < |inner| => outer[inner[k]])
  }

  /**
   * The first three steps: dropna on columns, dropna on rows, the "total" filter. The ghost
   * `src` gives, for every row left, the input row it comes from.
   */
  method DropStructure(t: Table) returns (df: Table, ghost src: seq<nat>)
    requires WellFormed(t)
    ensures df == Structured(t)
    ensures WellFormed(df) && |src| == |df.rows| && Increasing(src, |t.rows|)
    ensures df.labels == DropEmptyColumns(t).labels && |df.labels| <= |t.labels|
    ensures forall k :: 0 <= k < |src| ==> df.rows[k] == DropEmptyColumns(t).rows[src[k]]
    ensures forall k :: 0 <= k < |src| ==> KeptRow(t.rows[src[k]])
    ensures forall i :: 0 <= i < |t.rows| ==> (i in src <==> KeptRow(t.rows[i]))
  {
    var cols := DropEmptyColumns(t);
    var keep := NonEmptyRows(cols);
    var rows := KeepRows(cols, keep);
    var free := TotalFreeRows(rows);
    df := KeepRows(rows, free);
    src := Compose(keep, free, |t.rows|);
    forall k | 0 <= k < |src| ensures df.rows[k] == cols.rows[src[k]] && KeptRow(t.rows[src[k]]) {
      var f := free[k];
      var i := keep[f];
      assert rows.rows[f] == cols.rows[i];
      assert !AllEmpty(cols.rows[i]) && !HasTotal(rows.rows[f]);
    }
    forall i | 0 <= i < |t.rows| && KeptRow(t.rows[i]) ensures i in src {
      KeptRowSurvives(t, cols, keep, rows, free, src, i);
    }
  }

  /** The table the first three steps leave: all-null columns dropped, then all-null rows, then the rows mentioning "total". */
  function Structured(t: Table): (r: Table)
    requires WellFormed(t)
    ensures WellFormed(r) && r.labels == DropEmptyColumns(t).labels
  {
    var cols := DropEmptyColumns(t);
    var rows := KeepRows(cols, NonEmptyRows(cols));
    KeepRows(rows, TotalFreeRows(rows))
  }

  /** A kept input row is found by both row filters, so it is one of the rows left. */
  lemma KeptRowSurvives(t: Table, cols: Table, keep: seq<nat>, rows: Table, free: seq<nat>, src: seq<nat>, i: nat)
    requires WellFormed(t) && cols == DropEmptyColumns(t) && i < |t.rows| && KeptRow(t.rows[i])
    requires keep == NonEmptyRows(cols) && rows == KeepRows(cols, keep) && free == TotalFreeRows(rows)
    requires src == Compose(keep, free, |t.rows|)
    ensures i in src
  {
    assert i in keep;
    var f :| 0 <= f < |keep| && keep[f] == i;
    assert rows.rows[f] == cols.rows[i];
    assert f in free;
    var k :| 0 <= k < |free| && free[k] == f;
    assert src[k] == i;
  }

  /** The labels after the alias rename: each label with an alias gives way to its target. */
  function AliasedLabels(labels: seq<string>): (r: seq<string>)
    ensures |r| == |labels|
    ensures forall j :: 0 <= j < |labels| ==> r[j] == if AliasOf(labels[j]).Some? then AliasOf(labels[j]).value else labels[j]
  {
    seq(|labels|, j requires 0 <= j < |labels| => if AliasOf(labels[j]).Some? then AliasOf(labels[j]).value else labels[j])
  }

  /** Alias renaming, then content sniffing, on the labels only. */
  method ResolveColumns(df: Table, parse: DateParser) returns (labels: seq<string>)
    ensures |labels| == |df.labels|
    ensures forall j :: 0 <= j < |labels| ==> labels[j] == df.labels[j] || labels[j] in CanonicalFields
    ensures forall j :: 0 <= j < |labels| && AliasOf(df.labels[j]).Some? ==> labels[j] == AliasOf(df.labels[j]).value
    ensures forall j :: 0 <= j < |labels| && AliasedLabels(df.labels)[j] in AliasTargets ==> labels[j] == AliasedLabels(df.labels)[j]
    ensures var aliased := Table(AliasedLabels(df.labels), df.rows);
            Distinct(aliased.labels) && NoSniffTarget(aliased.labels) ==>
              forall j :: 0 <= j < |labels| ==> labels[j] == SniffedLabel(aliased, j, parse)
  {
    var newCols := AliasRenames(df.labels);
    var aliased := Table(Rename(df.labels, newCols), df.rows);
    assert aliased.labels == AliasedLabels(df.labels) by {
      forall j | 0 <= j < |df.labels| ensures aliased.labels[j] == AliasedLabels(df.labels)[j] {
        if AliasOf(df.labels[j]).Some? {
          assert df.labels[j] in newCols;
        } else {
          assert df.labels[j] !in newCols;
        }
      }
    }
    labels := SniffColumns(aliased, parse);
    forall j | 0 <= j < |labels|
      ensures labels[j] == df.labels[j] || labels[j] in CanonicalFields
      ensures AliasOf(df.labels[j]).Some? ==> labels[j] == AliasOf(df.labels[j]).value
    {
      if AliasOf(df.labels[j]).Some? {
        assert df.labels[j] in newCols;
        assert aliased.labels[j] == AliasOf(df.labels[j]).value;
      } else {
        assert df.labels[j] !in newCols;
      }
    }
  }

  /**
   * What sniffing promises of the labels `labels` it leaves on the table `df`, once the alias
   * rename has run: a column carrying an alias target keeps it, and when the aliased labels are
   * distinct and none is a sniffing-only name, each column gets detect_column's verdict on its
   * own text.
   */
  predicate Sniffed(df: Table, labels: seq<string>, parse: DateParser) {
    var aliased := Table(AliasedLabels(df.labels), df.rows);
    |labels| == |df.labels|
    && (forall j :: 0 <= j < |labels| && aliased.labels[j] in AliasTargets ==> labels[j] == aliased.labels[j])
    && (Distinct(aliased.labels) && NoSniffTarget(aliased.labels) ==>
          forall j :: 0 <= j < |labels| ==> labels[j] == SniffedLabel(aliased, j, parse))
  }

  /**
   * Under Sniffed, a column detect_column recognises is renamed: with distinct aliased labels and
   * no sniffing-only name, a column whose aliased label is no alias target and whose text is
   * detected ends under the detected name, which differs from its aliased label.
   */
  lemma SniffingRenamesDetected(df: Table, labels: seq<string>, parse: DateParser, j: nat)
    requires Sniffed(df, labels, parse)
    requires Distinct(AliasedLabels(df.labels)) && NoSniffTarget(AliasedLabels(df.labels))
    requires j < |df.labels| && AliasedLabels(df.labels)[j] !in AliasTargets
    requires DetectColumn(AliasedLabels(df.labels)[j], Texts(Table(AliasedLabels(df.labels), df.rows), j), IsDateText(parse)).Some?
    ensures labels[j] == DetectColumn(AliasedLabels(df.labels)[j], Texts(Table(AliasedLabels(df.labels), df.rows), j), IsDateText(parse)).value
    ensures labels[j] != AliasedLabels(df.labels)[j]
  {
    var aliased := Table(AliasedLabels(df.labels), df.rows);
    assert labels[j] == SniffedLabel(aliased, j, parse);
    assert aliased.labels[j] !in SniffTargets;
  }

  /**
   * What the coercions do to one cell of column `name`: the date conversion, then the
   * text, integer and float conversions, each applied when the name is in its list.
   */
  function CoerceCell(name: string, c: Cell, parse: DateParser): (r: Cell)
    ensures CellCoerced(name, r)
    ensures name == "date_peremption" ==> r == ExcelDateToDatetime(c, parse)
    ensures name in TextCols ==> r == CoerceText(c)
    ensures name in IntCols ==> r == CoerceInt(c)
    ensures name in FloatCols ==> r == CoerceFloat(c)
    ensures name != "date_peremption" && name !in TextCols && name !in IntCols && name !in FloatCols ==> r == c
  {
    ColumnListsDisjoint();
    var dated := if name == "date_peremption" then ExcelDateToDatetime(c, parse) else c;
    var text := if name in TextCols then CoerceText(dated) else dated;
    var whole := if name in IntCols then CoerceInt(text) else text;
    if name in FloatCols then CoerceFloat(whole) else whole
  }

  /** The coercions in their order: the date column, the text columns, the integer columns, the float columns. */
  method CoerceTypes(df: Table, parse: DateParser) returns (r: Table)
    requires WellFormed(df)
    ensures WellFormed(r) && r.labels == df.labels && |r.rows| == |df.rows|
    ensures forall i, j :: 0 <= i < |df.rows| && 0 <= j < |df.labels| ==>
              r.rows[i][j] == CoerceCell(df.labels[j], df.rows[i][j], parse)
    ensures Coerced(r)
  {
    var dated := df;
    if "date_peremption" in dated.labels {
      dated := MapColumn(dated, "date_peremption", c => ExcelDateToDatetime(c, parse));
    }
    var texts := CoerceColumns(dated, TextCols, CoerceText);
    var ints := CoerceColumns(texts, IntCols, CoerceInt);
    r := CoerceColumns(ints, FloatCols, CoerceFloat);
    forall i, j | 0 <= i < |df.rows| && 0 <= j < |df.labels|
      ensures r.rows[i][j] == CoerceCell(df.labels[j], df.rows[i][j], parse)
    {
      var name := df.labels[j];
      assert dated.rows[i][j] == if name == "date_peremption" then ExcelDateToDatetime(df.rows[i][j], parse) else df.rows[i][j];
      CoercionSteps(name, df.rows[i][j], dated.rows[i][j], texts.rows[i][j], ints.rows[i][j], r.rows[i][j], parse);
    }
  }

  /** The four coercion passes, seen from one cell, are CoerceCell. */
  lemma CoercionSteps(name: string, c: Cell, dated: Cell, text: Cell, whole: Cell, float: Cell, parse: DateParser)
    requires dated == if name == "date_peremption" then ExcelDateToDatetime(c, parse) else c
    requires text == if name in TextCols then CoerceText(dated) else dated
    requires whole == if name in IntCols then CoerceInt(text) else text
    requires float == if name in FloatCols then CoerceFloat(whole) else whole
    ensures float == CoerceCell(name, c, parse)
  {
  }

  /** No column is coerced twice: the date, text, integer and float names are distinct. */
  lemma ColumnListsDisjoint()
    ensures forall n :: n in IntCols ==> n !in FloatCols && n !in TextCols && n != "date_peremption"
    ensures forall n :: n in FloatCols ==> n !in TextCols && n != "date_peremption"
    ensures "date_peremption" !in TextCols
  {
  }

  /** Dropping rows keeps the column types. */
  lemma KeepRowsCoerced(t: Table, idx: seq<nat>)
    requires forall k :: 0 <= k < |idx| ==> idx[k] < |t.rows|
    requires Coerced(t)
    ensures Coerced(KeepRows(t, idx))
  {
    var r := KeepRows(t, idx);
    forall i, j | 0 <= i < |r.rows| && 0 <= j < |r.labels| && j < |r.rows[i]|
      ensures r.rows[i][j] == t.rows[idx[i]][j]
    {
    }
  }

  /** The sentinel fill turns the remaining null text cells of the four filled columns into text. */
  lemma FillCompletesTypes(t: Table)
    requires WellFormed(t) && Coerced(t)
    ensures Typed(FillSentinels(t))
  {
    var r := FillSentinels(t);
    forall i, j | 0 <= i < |r.rows| && 0 <= j < |r.labels| && j < |r.rows[i]|
      ensures r.rows[i][j] == FillCell(t.labels[j], t.rows[i][j])
    {
    }
    assert forall name :: Sentinel(name).Some? ==> name in TextCols;
  }

  /** Keeping the first row of every code_cip leaves no repeated code_cip. */
  lemma DedupMakesCipUnique(t: Table)
    ensures CipUnique(KeepRows(t, DedupRows(t)))
  {
    if CipColumn(t).Some? {
      FirstKeyRowsDistinct(t, CipColumn(t).value);
    }
  }

  /** The sentinel fill leaves the code_cip column alone. */
  lemma FillKeepsCipUnique(t: Table)
    requires WellFormed(t) && CipUnique(t)
    ensures CipUnique(FillSentinels(t))
  {
    var r := FillSentinels(t);
    if CipColumn(t).Some? {
      var j := CipColumn(t).value;
      assert Sentinel("code_cip").None?;
      forall i | 0 <= i < |r.rows| ensures Get(r.rows[i], j) == Get(t.rows[i], j) {
        assert r.rows[i][j] == FillCell(t.labels[j], t.rows[i][j]);
      }
    }
  }

  /** What clean_dataframe makes of one input cell that ends in column `name`: coerced, then filled. */
  function CleanCell(name: string, c: Cell, parse: DateParser): (r: Cell)
    ensures name in IntCols ==> r == CoerceInt(c)
    ensures name in FloatCols ==> r == CoerceFloat(c)
    ensures name == "date_peremption" ==> r == ExcelDateToDatetime(c, parse)
    ensures name in TextCols && Sentinel(name).Some? ==> r.Str? && (c.Empty? ==> r == Str(Sentinel(name).value))
    ensures name in TextCols && !c.Empty? ==> r == CoerceText(c)
  {
    ColumnListsDisjoint();
    FillCell(name, CoerceCell(name, c, parse))
  }

  /** The code_cip an input row carries once astype(int) has run on column j. */
  function CipKeyOf(row: Row, j: nat): (r: Cell)
    ensures r.Int?
  {
    CoerceInt(Get(row, j))
  }

  /**
   * Input row i is the first of its code_cip among the rows the first three steps keep,
   * the code_cip being read in column `cip` of the table with its empty columns dropped.
   */
  ghost predicate FirstOfItsCip(t: Table, cip: Option<nat>, i: nat)
    requires WellFormed(t) && i < |t.rows|
  {
    var cols := DropEmptyColumns(t);
    cip.None? || forall e :: 0 <= e < i && KeptRow(t.rows[e]) ==> CipKeyOf(cols.rows[e], cip.value) != CipKeyOf(cols.rows[i], cip.value)
  }

  /** A row drop_duplicates keeps comes from a kept input row that is the first of its code_cip. */
  lemma DedupKeepsFirsts(t: Table, src0: seq<nat>, df: Table, k: nat)
    requires WellFormed(t) && Increasing(src0, |t.rows|) && |df.rows| == |src0|
    requires forall i :: 0 <= i < |t.rows| ==> (i in src0 <==> KeptRow(t.rows[i]))
    requires CipColumn(df).Some? ==> forall m :: 0 <= m < |src0| ==>
               Get(df.rows[m], CipColumn(df).value) == CipKeyOf(DropEmptyColumns(t).rows[src0[m]], CipColumn(df).value)
    requires k < |DedupRows(df)|
    ensures var i := Compose(src0, DedupRows(df), |t.rows|)[k];
            KeptRow(t.rows[i]) && FirstOfItsCip(t, CipColumn(df), i)
  {
    var keep := DedupRows(df);
    var m := keep[k];
    var i := src0[m];
    assert i in src0;
    if CipColumn(df).Some? {
      var c := CipColumn(df).value;
      var cols := DropEmptyColumns(t);
      assert m in FirstKeyRows(df, c);
      forall e | 0 <= e < i && KeptRow(t.rows[e]) ensures CipKeyOf(cols.rows[e], c) != CipKeyOf(cols.rows[i], c) {
        assert e in src0;
        var m' :| 0 <= m' < |src0| && src0[m'] == e;
        IncreasingOrder(src0, |t.rows|, m', m);
        assert Get(df.rows[m'], c) != Get(df.rows[m], c);
      }
    }
  }

  /** A kept input row that is the first of its code_cip is kept by drop_duplicates. */
  lemma DedupKeepsEveryFirst(t: Table, src0: seq<nat>, df: Table, i: nat)
    requires WellFormed(t) && Increasing(src0, |t.rows|) && |df.rows| == |src0|
    requires forall i :: 0 <= i < |t.rows| ==> (i in src0 <==> KeptRow(t.rows[i]))
    requires CipColumn(df).Some? ==> forall m :: 0 <= m < |src0| ==>
               Get(df.rows[m], CipColumn(df).value) == CipKeyOf(DropEmptyColumns(t).rows[src0[m]], CipColumn(df).value)
    requires i < |t.rows| && KeptRow(t.rows[i]) && FirstOfItsCip(t, CipColumn(df), i)
    ensures i in Compose(src0, DedupRows(df), |t.rows|)
  {
    var keep := DedupRows(df);
    var src := Compose(src0, keep, |t.rows|);
    var m :| 0 <= m < |src0| && src0[m] == i;
    if CipColumn(df).Some? {
      var c := CipColumn(df).value;
      var cols := DropEmptyColumns(t);
      forall m' | 0 <= m' < m ensures Get(df.rows[m'], c) != Get(df.rows[m], c) {
        assert src0[m'] < i && src0[m'] in src0;
      }
      assert m in keep;
      var k :| 0 <= k < |keep| && keep[k] == m;
      assert src[k] == i;
    } else {
      assert keep[m] == m;
      assert src[m] == i;
    }
  }

  /** In an increasing sequence, the smaller value sits at the smaller position. */
  lemma IncreasingOrder(s: seq<nat>, n: nat, a: nat, b: nat)
    requires Increasing(s, n) && a < |s| && b < |s| && s[a] < s[b]
    ensures a < b
  {
  }

  /** drop_duplicates keeps exactly the kept input rows that are the first of their code_cip. */
  lemma DedupSelects(t: Table, src0: seq<nat>, df: Table)
    requires WellFormed(t) && Increasing(src0, |t.rows|) && |df.rows| == |src0|
    requires forall i :: 0 <= i < |t.rows| ==> (i in src0 <==> KeptRow(t.rows[i]))
    requires CipColumn(df).Some? ==> forall m :: 0 <= m < |src0| ==>
               Get(df.rows[m], CipColumn(df).value) == CipKeyOf(DropEmptyColumns(t).rows[src0[m]], CipColumn(df).value)
    ensures var src := Compose(src0, DedupRows(df), |t.rows|);
            forall i :: 0 <= i < |t.rows| ==> (i in src <==> KeptRow(t.rows[i]) && FirstOfItsCip(t, CipColumn(df), i))
  {
    var src := Compose(src0, DedupRows(df), |t.rows|);
    forall i | 0 <= i < |t.rows| ensures i in src <==> KeptRow(t.rows[i]) && FirstOfItsCip(t, CipColumn(df), i) {
      if i in src {
        var k :| 0 <= k < |src| && src[k] == i;
        DedupKeepsFirsts(t, src0, df, k);
      } else if KeptRow(t.rows[i]) && FirstOfItsCip(t, CipColumn(df), i) {
        DedupKeepsEveryFirst(t, src0, df, i);
      }
    }
  }

  /**
   * The steps before drop_duplicates: the structural clean-up, the renames and the coercions.
   * The ghost `src` gives, for every row left, the input row it comes from.
   */
  method PrepareColumns(t: Table, parse: DateParser) returns (df: Table, ghost src: seq<nat>)
    requires WellFormed(t)
    ensures WellFormed(df) && |src| == |df.rows| && Increasing(src, |t.rows|)
    ensures |df.labels| == |DropEmptyColumns(t).labels| <= |t.labels|
    ensures forall j :: 0 <= j < |df.labels| ==> df.labels[j] == DropEmptyColumns(t).labels[j] || df.labels[j] in CanonicalFields
    ensures forall j :: 0 <= j < |df.labels| && AliasOf(DropEmptyColumns(t).labels[j]).Some? ==>
              df.labels[j] == AliasOf(DropEmptyColumns(t).labels[j]).value
    ensures Sniffed(Structured(t), df.labels, parse)
    ensures forall i :: 0 <= i < |t.rows| ==> (i in src <==> KeptRow(t.rows[i]))
    ensures forall k :: 0 <= k < |src| ==> KeptRow(t.rows[src[k]])
    ensures forall m, j :: 0 <= m < |src| && 0 <= j < |df.labels| ==>
              df.rows[m][j] == CoerceCell(df.labels[j], DropEmptyColumns(t).rows[src[m]][j], parse)
    ensures Coerced(df)
  {
    var structured;
    structured, src := DropStructure(t);
    var labels := ResolveColumns(structured, parse);
    df := CoerceTypes(Table(labels, structured.rows), parse);
  }

  /** Each cell of the result is its input cell coerced and filled, for the column it ends in. */
  lemma CleanCellsFrom(cols: Table, src0: seq<nat>, df: Table, keep: seq<nat>, parse: DateParser)
    requires WellFormed(df) && |df.rows| == |src0| && |df.labels| == |cols.labels|
    requires forall m :: 0 <= m < |src0| ==> src0[m] < |cols.rows|
    requires WellFormed(cols)
    requires forall k :: 0 <= k < |keep| ==> keep[k] < |src0|
    requires forall m, j :: 0 <= m < |src0| && 0 <= j < |df.labels| ==>
               df.rows[m][j] == CoerceCell(df.labels[j], cols.rows[src0[m]][j], parse)
    ensures var r := FillSentinels(KeepRows(df, keep));
            forall k, j :: 0 <= k < |keep| && 0 <= j < |r.labels| ==>
              r.rows[k][j] == CleanCell(r.labels[j], cols.rows[src0[keep[k]]][j], parse)
  {
    var kept := KeepRows(df, keep);
    var r := FillSentinels(kept);
    forall k, j | 0 <= k < |keep| && 0 <= j < |r.labels|
      ensures r.rows[k][j] == CleanCell(r.labels[j], cols.rows[src0[keep[k]]][j], parse)
    {
      assert r.rows[k][j] == FillCell(df.labels[j], kept.rows[k][j]);
      assert kept.rows[k] == df.rows[keep[k]];
    }
  }

  /**
   * clean_dataframe, with `parse` standing for pd.to_datetime(errors="coerce") on text.
   * The ghost `src` gives, for every row of the result, the input row it comes from.
   */
  method CleanDataframe(t: Table, parse: DateParser) returns (r: Table, ghost src: seq<nat>)
    requires WellFormed(t)
    ensures WellFormed(r) && |src| == |r.rows| && Increasing(src, |t.rows|)
    ensures |r.labels| == |DropEmptyColumns(t).labels| <= |t.labels|
    ensures forall j :: 0 <= j < |r.labels| ==> r.labels[j] == DropEmptyColumns(t).labels[j] || r.labels[j] in CanonicalFields
    ensures forall j :: 0 <= j < |r.labels| && AliasOf(DropEmptyColumns(t).labels[j]).Some? ==>
              r.labels[j] == AliasOf(DropEmptyColumns(t).labels[j]).value
    ensures Sniffed(Structured(t), r.labels, parse)
    ensures forall k, j :: 0 <= k < |src| && 0 <= j < |r.labels| ==>
              r.rows[k][j] == CleanCell(r.labels[j], DropEmptyColumns(t).rows[src[k]][j], parse)
    ensures forall k :: 0 <= k < |src| ==> !AllEmpty(t.rows[src[k]]) && !HasTotal(t.rows[src[k]])
    ensures forall i :: 0 <= i < |t.rows| ==> (i in src <==> KeptRow(t.rows[i]) && FirstOfItsCip(t, CipColumn(r), i))
    ensures Typed(r)
    ensures CipUnique(r)
  {
    var df, rowsFrom := PrepareColumns(t, parse);
    DedupRowFacts(t, rowsFrom, df, parse);
    var keep := DedupRows(df);
    DedupCellFacts(t, rowsFrom, df, keep, parse);
    src := Compose(rowsFrom, keep, |t.rows|);
    r := FillSentinels(KeepRows(df, keep));
  }

  /** Which input rows survive drop_duplicates after the steps before it. */
  lemma DedupRowFacts(t: Table, rowsFrom: seq<nat>, df: Table, parse: DateParser)
    requires WellFormed(t) && WellFormed(df) && |df.rows| == |rowsFrom| && Increasing(rowsFrom, |t.rows|)
    requires |df.labels| == |DropEmptyColumns(t).labels|
    requires forall i :: 0 <= i < |t.rows| ==> (i in rowsFrom <==> KeptRow(t.rows[i]))
    requires forall m, j :: 0 <= m < |rowsFrom| && 0 <= j < |df.labels| ==>
               df.rows[m][j] == CoerceCell(df.labels[j], DropEmptyColumns(t).rows[rowsFrom[m]][j], parse)
    ensures var src := Compose(rowsFrom, DedupRows(df), |t.rows|);
            (forall k :: 0 <= k < |src| ==> !AllEmpty(t.rows[src[k]]) && !HasTotal(t.rows[src[k]]))
            && forall i :: 0 <= i < |t.rows| ==> (i in src <==> KeptRow(t.rows[i]) && FirstOfItsCip(t, CipColumn(df), i))
  {
    CipKeysAgree(t, rowsFrom, df, parse);
    DedupSelects(t, rowsFrom, df);
    var src := Compose(rowsFrom, DedupRows(df), |t.rows|);
    forall k | 0 <= k < |src| ensures KeptRow(t.rows[src[k]]) {
      assert src[k] in src;
    }
  }

  /** The cells, types and code_cip uniqueness of the table drop_duplicates and fillna leave. */
  lemma DedupCellFacts(t: Table, rowsFrom: seq<nat>, df: Table, keep: seq<nat>, parse: DateParser)
    requires WellFormed(t) && WellFormed(df) && |df.rows| == |rowsFrom| && Increasing(rowsFrom, |t.rows|)
    requires |df.labels| == |DropEmptyColumns(t).labels| && Coerced(df) && keep == DedupRows(df)
    requires forall m, j :: 0 <= m < |rowsFrom| && 0 <= j < |df.labels| ==>
               df.rows[m][j] == CoerceCell(df.labels[j], DropEmptyColumns(t).rows[rowsFrom[m]][j], parse)
    ensures var r := FillSentinels(KeepRows(df, keep));
            WellFormed(r) && r.labels == df.labels && |r.rows| == |keep|
            && (forall k, j :: 0 <= k < |keep| && 0 <= j < |r.labels| ==>
                  r.rows[k][j] == CleanCell(r.labels[j], DropEmptyColumns(t).rows[rowsFrom[keep[k]]][j], parse))
            && Typed(r) && CipUnique(r)
  {
    DedupMakesCipUnique(df);
    KeepRowsCoerced(df, keep);
    CleanCellsFrom(DropEmptyColumns(t), rowsFrom, df, keep, parse);
    var kept := KeepRows(df, keep);
    FillCompletesTypes(kept);
    FillKeepsCipUnique(kept);
  }

  /** After coercion, the code_cip of each row left is the astype(int) of its input row's cell. */
  lemma CipKeysAgree(t: Table, src0: seq<nat>, df: Table, parse: DateParser)
    requires WellFormed(t) && WellFormed(df) && |df.rows| == |src0|
    requires forall m :: 0 <= m < |src0| ==> src0[m] < |t.rows|
    requires |df.labels| == |DropEmptyColumns(t).labels|
    requires forall m, j :: 0 <= m < |src0| && 0 <= j < |df.labels| ==>
               df.rows[m][j] == CoerceCell(df.labels[j], DropEmptyColumns(t).rows[src0[m]][j], parse)
    ensures CipColumn(df).Some? ==> forall m :: 0 <= m < |src0| ==>
              Get(df.rows[m], CipColumn(df).value) == CipKeyOf(DropEmptyColumns(t).rows[src0[m]], CipColumn(df).value)
  {
    if CipColumn(df).Some? {
      var c := CipColumn(df).value;
      assert df.labels[c] == "code_cip" && "code_cip" in IntCols;
    }
  }
}
