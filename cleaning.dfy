/**
 * The column-resolution helpers of app/utils/cleaning.py: raw-label
 * de-duplication, text normalisation, the alias table, spreadsheet serial
 * dates and content sniffing.
 */
module Cleaning {
  import opened Wrappers
  import opened Text
  import opened Unicode
  import opened Calendar
  import opened Frame

  // ---------------------------------------------------------------------
  // fix_duplicate_columns

  /** The stripped text of every label. */
  function Bases(labels: seq<string>): (r: seq<string>)
    ensures |r| == |labels| && forall i :: 0 <= i < |labels| ==> r[i] == Strip(labels[i])
  {
    seq(|labels|, i requires 0 <= i < |labels| => Strip(labels[i]))
  }

  /** The label position i receives: its stripped text, suffixed with "_k" when k earlier labels strip to the same text. */
  function DedupLabel(labels: seq<string>, i: nat): string
    requires i < |labels|
  {
    Suffixed(Bases(labels), i)
  }

  /** How many elements of `s` equal `x`. */
  function Occurrences(s: seq<string>, x: string): (n: nat)
    ensures n <= |s|
  {
    if s == [] then 0 else Occurrences(s[..|s| - 1], x) + (if s[|s| - 1] == x then 1 else 0)
  }

  /** `x` is counted at least once exactly when it occurs. */
  lemma {:induction false} OccurrencesPositive(s: seq<string>, x: string)
    ensures Occurrences(s, x) > 0 <==> x in s
    decreases |s|
  {
    if s != [] {
      OccurrencesPositive(s[..|s| - 1], x);
      assert s == s[..|s| - 1] + [s[|s| - 1]];
    }
  }

  /** Appending one element counts it once more. */
  lemma OccurrencesSnoc(s: seq<string>, i: nat, x: string)
    requires i < |s|
    ensures Occurrences(s[..i + 1], x) == Occurrences(s[..i], x) + (if s[i] == x then 1 else 0)
  {
    assert s[..i + 1][..i] == s[..i];
  }

  /** A later prefix that takes in one more copy of `x` counts strictly more of it. */
  lemma {:induction false} OccurrencesGrow(s: seq<string>, i: nat, j: nat)
    requires i < j <= |s|
    ensures Occurrences(s[..j], s[i]) > Occurrences(s[..i], s[i])
    decreases j
  {
    OccurrencesSnoc(s, j - 1, s[i]);
    if i < j - 1 {
      OccurrencesGrow(s, i, j - 1);
    }
  }

  /** bases[i], suffixed with "_k" when it occurs k > 0 times before position i. */
  function Suffixed(bases: seq<string>, i: nat): string
    requires i < |bases|
  {
    var k := Occurrences(bases[..i], bases[i]);
    if k == 0 then bases[i] else bases[i] + "_" + NatText(k)
  }

  /** The loop of fix_duplicate_columns, with its `seen` dictionary of repeat counts. */
  method FixDuplicateColumns(labels: seq<string>) returns (newCols: seq<string>)
    ensures |newCols| == |labels|
    ensures forall i :: 0 <= i < |labels| ==> newCols[i] == DedupLabel(labels, i)
  {
    ghost var bases := Bases(labels);
    newCols := [];
    var seen: map<string, nat> := map[];
    for i := 0 to |labels|
      invariant |newCols| == i
      invariant newCols == SuffixedPrefix(bases, i)
      invariant forall b :: b in seen <==> Occurrences(bases[..i], b) > 0
      invariant forall b :: b in seen ==> seen[b] + 1 == Occurrences(bases[..i], b)
    {
      var base := Strip(labels[i]);
      assert base == bases[i];
      ghost var before := seen;
      var next: string;
      if base !in seen {
        seen := seen[base := 0];
        next := base;
      } else {
        seen := seen[base := seen[base] + 1];
        next := base + "_" + NatText(seen[base]);
      }
      SeenStep(bases, i, before, seen);
      assert next == Suffixed(bases, i);
      SuffixedPrefixSnoc(bases, i);
      newCols := newCols + [next];
    }
  }

  /** Recording bases[i] in `seen` keeps it the repeat count of every base of the longer prefix. */
  lemma SeenStep(bases: seq<string>, i: nat, seen: map<string, nat>, seen': map<string, nat>)
    requires i < |bases|
    requires forall b :: b in seen <==> Occurrences(bases[..i], b) > 0
    requires forall b :: b in seen ==> seen[b] + 1 == Occurrences(bases[..i], b)
    requires seen' == seen[bases[i] := if bases[i] in seen then seen[bases[i]] + 1 else 0]
    ensures forall b :: b in seen' <==> Occurrences(bases[..i + 1], b) > 0
    ensures forall b :: b in seen' ==> seen'[b] + 1 == Occurrences(bases[..i + 1], b)
    ensures seen'[bases[i]] == Occurrences(bases[..i], bases[i])
  {
    forall b ensures Occurrences(bases[..i + 1], b) == Occurrences(bases[..i], b) + (if bases[i] == b then 1 else 0) {
      OccurrencesSnoc(bases, i, b);
    }
  }

  /** The new labels of the first n positions. */
  function SuffixedPrefix(bases: seq<string>, n: nat): (r: seq<string>)
    requires n <= |bases|
    ensures |r| == n && forall j :: 0 <= j < n ==> r[j] == Suffixed(bases, j)
  {
    seq(n, j requires 0 <= j < n => Suffixed(bases, j))
  }

  lemma SuffixedPrefixSnoc(bases: seq<string>, n: nat)
    requires n < |bases|
    ensures SuffixedPrefix(bases, n + 1) == SuffixedPrefix(bases, n) + [Suffixed(bases, n)]
  {
  }

  /** A label keeps its bare stripped text exactly when no earlier label strips to the same text. */
  lemma FirstOccurrenceKeepsBase(labels: seq<string>, i: nat)
    requires i < |labels|
    ensures DedupLabel(labels, i) == Strip(labels[i]) <==> forall j :: 0 <= j < i ==> Strip(labels[j]) != Strip(labels[i])
  {
    var bases := Bases(labels);
    OccurrencesPositive(bases[..i], bases[i]);
    if Occurrences(bases[..i], bases[i]) != 0 {
      assert |DedupLabel(labels, i)| > |bases[i]|;
      var j :| 0 <= j < i && bases[..i][j] == bases[i];
      assert Strip(labels[j]) == Strip(labels[i]);
    } else {
      forall j | 0 <= j < i ensures bases[j] != bases[i] {
        assert bases[j] == bases[..i][j];
      }
    }
  }

  /** Two labels stripping to the same text never receive the same new label. */
  lemma RepeatsGetDistinctLabels(labels: seq<string>, i: nat, j: nat)
    requires i < j < |labels| && Strip(labels[i]) == Strip(labels[j])
    ensures DedupLabel(labels, i) != DedupLabel(labels, j)
  {
    var bases := Bases(labels);
    var b := bases[i];
    assert bases[j] == b;
    OccurrencesGrow(bases, i, j);
    var ki := Occurrences(bases[..i], b);
    var kj := Occurrences(bases[..j], b);
    assert DedupLabel(labels, j) == b + "_" + NatText(kj);
    if ki > 0 {
      assert DedupLabel(labels, i) == b + "_" + NatText(ki);
      SuffixesDiffer(b, ki, kj);
    } else {
      assert DedupLabel(labels, i) == b;
    }
  }

  /** Different repeat counts give different suffixed names. */
  lemma SuffixesDiffer(b: string, m: nat, n: nat)
    requires m != n
    ensures b + "_" + NatText(m) != b + "_" + NatText(n)
  {
    NatTextInjective(m, n);
    var p := b + "_";
    assert (p + NatText(m))[|p|..] == NatText(m);
    assert (p + NatText(n))[|p|..] == NatText(n);
  }

  /**
   * Suffixed labels are not registered as seen, so a later literal "b_1" collides with a
   * generated one: labels b, b, "b_1" (for instance "a", "a", "a_1") become b, "b_1", "b_1".
   */
  lemma GeneratedSuffixCanCollide(b: string, l: seq<string>)
    requires |b| > 0 && !IsSpace(b[0]) && !IsSpace(b[|b| - 1])
    requires l == [b, b, b + "_1"]
    ensures DedupLabel(l, 1) == b + "_1"
    ensures DedupLabel(l, 2) == b + "_1"
  {
    var b1 := b + "_1";
    StripUnpadded(b);
    assert b1[0] == b[0] && b1[|b1| - 1] == '1';
    StripUnpadded(b1);
    assert Bases(l) == [b, b, b1];
    CollidingSuffixes(Bases(l), b);
  }

  /** Bases b, b, "b_1": the second gets the suffix "_1", and the third, seen for the first time, stays "b_1". */
  lemma CollidingSuffixes(bases: seq<string>, b: string)
    requires bases == [b, b, b + "_1"]
    ensures Suffixed(bases, 1) == b + "_1"
    ensures Suffixed(bases, 2) == b + "_1"
  {
    var b1 := b + "_1";
    assert |b1| == |b| + 2 && b != b1;
    OccurrencesSnoc(bases, 0, b);
    OccurrencesSnoc(bases, 0, b1);
    OccurrencesSnoc(bases, 1, b1);
    assert Occurrences(bases[..1], b) == 1;
    assert Occurrences(bases[..2], b1) == 0;
    assert NatText(1) == "1";
    assert b + "_" + "1" == b1;
  }

  // ---------------------------------------------------------------------
  // normalize_text

  /** normalize_text on text: strip, lower-case, decompose (NFD), drop the combining marks. */
  function NormalizeLabel(s: string): (r: string)
    ensures forall i :: 0 <= i < |r| ==> !IsCombining(r[i])
    ensures forall i :: 0 <= i < |r| ==> DecomposeChar(r[i]) == [r[i]]
  {
    var n := Nfd(Lower(Strip(s)));
    DropMarksKeepsDecomposed(n);
    DropMarks(n)
  }

  lemma {:induction false} DropMarksKeepsDecomposed(s: string)
    requires forall i :: 0 <= i < |s| ==> DecomposeChar(s[i]) == [s[i]]
    ensures forall i :: 0 <= i < |DropMarks(s)| ==> DecomposeChar(DropMarks(s)[i]) == [DropMarks(s)[i]]
    decreases |s|
  {
    if s != [] {
      DropMarksKeepsDecomposed(s[1..]);
    }
  }

  lemma AsciiStaysAscii(s: string)
    ensures IsAscii(s) ==> IsAscii(Lower(Strip(s)))
  {
    var st := Strip(s);
    if IsAscii(s) {
      forall i | 0 <= i < |st| ensures st[i] < '\U{80}' {
        assert st[i] in st;
      }
    }
  }

  /** normalize_text on a cell: a null passes through, anything else becomes normalised text. */
  function NormalizeText(c: Cell): (r: Cell)
    ensures c.Empty? ==> r == Empty
    ensures !c.Empty? ==> r.Str? && forall i :: 0 <= i < |r.s| ==> !IsCombining(r.s[i])
  {
    if c.Empty? then c else Str(NormalizeLabel(CellText(c)))
  }

  /** On ASCII text, normalisation is strip followed by lower-casing. */
  lemma NormalizeAscii(s: string)
    requires IsAscii(s)
    ensures NormalizeLabel(s) == Lower(Strip(s))
  {
    var lo := Lower(Strip(s));
    AsciiStaysAscii(s);
    assert Nfd(lo) == lo;
    assert forall i :: 0 <= i < |lo| ==> !IsCombining(lo[i]);
  }

  // ---------------------------------------------------------------------
  // COLUMN_ALIASES

  /** Normalised raw label to canonical field. */
  const ColumnAliases: map<string, string> := map[
    "stock" := "stock_actuel",
    "qte" := "stock_actuel",
    "quantite" := "stock_actuel",
    "quantité" := "stock_actuel",
    "stock_physique" := "stock_actuel",
    "min" := "stock_min",
    "seuil" := "stock_min",
    "stock_minimum" := "stock_min",
    "prix_achat" := "prix_achat_ht",
    "pa_ht" := "prix_achat_ht",
    "pa" := "prix_achat_ht",
    "prix_vente" := "prix_vente_ttc",
    "pv_ttc" := "prix_vente_ttc",
    "pv" := "prix_vente_ttc",
    "peremption" := "date_peremption",
    "date_exp" := "date_peremption",
    "exp" := "date_peremption",
    "dlc" := "date_peremption",
    "rayon" := "emplacement_rayon",
    "emplacement" := "emplacement_rayon",
    "localisation" := "emplacement_rayon"
  ]

  /** COLUMN_ALIASES.values(). */
  const AliasTargets: set<string> :=
    {"stock_actuel", "stock_min", "prix_achat_ht", "prix_vente_ttc", "date_peremption", "emplacement_rayon"}

  /** The names detect_column gives that are no alias target. */
  const SniffTargets: set<string> := {"code_cip", "categorie", "fournisseur"}

  /** Every name detect_column can give. */
  const DetectTargets: set<string> := AliasTargets - {"emplacement_rayon"} + SniffTargets

  /** The canonical fields of the cleaned table. */
  const CanonicalFields: set<string> :=
    {"code_cip", "designation", "categorie", "fournisseur", "emplacement_rayon",
     "stock_actuel", "stock_min", "prix_achat_ht", "prix_vente_ttc", "date_peremption"}

  /** The alias lookup of one raw label: by its exact normalised text. */
  function AliasOf(name: string): (r: Option<string>)
    ensures r.Some? ==> r.value in AliasTargets && r.value in CanonicalFields
    ensures r.Some? <==> NormalizeLabel(name) in ColumnAliases
  {
    var n := NormalizeLabel(name);
    if n in ColumnAliases then Some(ColumnAliases[n]) else None
  }

  /** The alias targets are exactly the values of the alias table. */
  lemma AliasTargetsAreValues()
    ensures ColumnAliases.Values == AliasTargets
  {
    assert ColumnAliases["stock"] == "stock_actuel";
    assert ColumnAliases["min"] == "stock_min";
    assert ColumnAliases["pa"] == "prix_achat_ht";
    assert ColumnAliases["pv"] == "prix_vente_ttc";
    assert ColumnAliases["dlc"] == "date_peremption";
    assert ColumnAliases["rayon"] == "emplacement_rayon";
  }

  /** Normalising an ASCII label whose ends are not blank only lower-cases it. */
  lemma NormalizeUnpadded(s: string, lowered: string)
    requires IsAscii(s) && |s| > 0 && !IsSpace(s[0]) && !IsSpace(s[|s| - 1])
    requires Lower(s) == lowered
    ensures NormalizeLabel(s) == lowered
  {
    assert TrimStart(s) == s;
    assert TrimEnd(s) == s;
    NormalizeAscii(s);
  }

  lemma NormalizeQte(s: string)
    requires s == "Qté"
    ensures NormalizeLabel(s) == "qte"
  {
    QteStrip(s);
    QteLower(s);
    QteNfd("qté");
    QteDropMarks("qte\U{301}");
  }

  lemma QteStrip(s: string)
    requires s == "Qté"
    ensures Strip(s) == s
  {
    assert s[0] == 'Q' && s[|s| - 1] == 'é';
    StripUnpadded(s);
  }

  lemma QteLower(s: string)
    requires s == "Qté"
    ensures Lower(s) == "qté"
  {
  }

  lemma QteNfd(lo: string)
    requires lo == "qté"
    ensures Nfd(lo) == "qte\U{301}"
  {
    assert DecomposeChar('é') == ['e', '\U{301}'];
    assert Nfd(lo[2..]) == ['e', '\U{301}'] + Nfd(lo[3..]);
    assert Nfd(lo[1..]) == "t" + Nfd(lo[2..]);
  }

  lemma QteDropMarks(n: string)
    requires n == "qte\U{301}"
    ensures DropMarks(n) == "qte"
  {
    assert DropMarks(n[3..]) == "";
    assert DropMarks(n[2..]) == "e" + DropMarks(n[3..]);
    assert DropMarks(n[1..]) == "t" + DropMarks(n[2..]);
  }


  /** "Qté" normalises to "qte", an alias of stock_actuel. */
  lemma AliasQte(s: string)
    requires s == "Qté"
    ensures AliasOf(s) == Some("stock_actuel")
  {
    NormalizeQte(s);
    QteKey();
  }

  lemma QteKey()
    ensures "qte" in ColumnAliases && ColumnAliases["qte"] == "stock_actuel"
  {
  }

  lemma NormalizePaHt(a: string)
    requires a == "pa_ht"
    ensures NormalizeLabel(a) == "pa_ht"
  {
    assert IsAscii(a) && !IsSpace(a[0]) && !IsSpace(a[|a| - 1]);
    assert Lower(a) == "pa_ht";
    NormalizeUnpadded(a, "pa_ht");
  }

  /** "pa_ht" is an alias of prix_achat_ht. */
  lemma AliasPaHt(a: string)
    requires a == "pa_ht"
    ensures AliasOf(a) == Some("prix_achat_ht")
  {
    NormalizePaHt(a);
    PaHtKey();
  }

  lemma PaHtKey()
    ensures "pa_ht" in ColumnAliases && ColumnAliases["pa_ht"] == "prix_achat_ht"
  {
  }

  lemma NormalizeSpacedPaHt(b: string)
    requires b == "PA HT"
    ensures NormalizeLabel(b) == "pa ht"
  {
    assert IsAscii(b) && !IsSpace(b[0]) && !IsSpace(b[|b| - 1]);
    assert Lower(b) == "pa ht";
    NormalizeUnpadded(b, "pa ht");
  }

  /** "PA HT" (a space, not an underscore) is no alias at all. */
  lemma SpacedPaHtIsNoAlias(b: string)
    requires b == "PA HT"
    ensures AliasOf(b) == None
  {
    NormalizeSpacedPaHt(b);
    NoAliasFor(b);
  }

  lemma NoAliasFor(b: string)
    requires NormalizeLabel(b) == "pa ht"
    ensures AliasOf(b) == None
  {
    PaHtIsNoKey();
  }

  lemma PaHtIsNoKey()
    ensures "pa ht" !in ColumnAliases
  {
  }

  /** The key "quantité" can never match: normalised labels carry no precomposed letters. */
  lemma AccentedAliasUnreachable(name: string)
    ensures NormalizeLabel(name) != "quantité"
  {
    var n := NormalizeLabel(name);
    assert DecomposeChar('é') == ['e', '\U{301}'];
    if |n| == 8 {
      assert DecomposeChar(n[7]) == [n[7]];
    }
  }

  // ---------------------------------------------------------------------
  // excel_date_to_datetime

  /** The serial days Python's datetime can represent: 0001-01-01 up to 9999-12-31. */
  const MinSerial: int := -693593
  const MaxSerial: int := 2958465

  /** int(x) on a float: truncation toward zero. */
  function Trunc(x: real): (n: int)
    ensures x >= 0.0 ==> 0 <= n && n as real <= x < n as real + 1.0
    ensures x < 0.0 ==> n <= 0 && n as real - 1.0 < x <= n as real
  {
    if x >= 0.0 then x.Floor else -((-x).Floor)
  }

  /** pd.to_datetime(s, errors="coerce") on text: an instant, or None for NaT. */
  type DateParser = string -> Option<int>

  /** datetime(1899, 12, 30) + timedelta(days=n), or NaT when the sum leaves datetime's range. */
  function FromSerial(n: int): Cell {
    if MinSerial <= n <= MaxSerial then Date(n * SecondsPerDay) else Empty
  }

  /** excel_date_to_datetime: a number is a day count from 1899-12-30, truncated; text goes to the date parser; nothing raises. */
  function ExcelDateToDatetime(v: Cell, parse: DateParser): (r: Cell)
    ensures r.Empty? || r.Date?
    ensures NumValue(v).Some? ==>
              var n := Trunc(NumValue(v).value);
              (r.Date? <==> MinSerial <= n <= MaxSerial) && (r.Date? ==> DayOf(r.t) == n && r.t % SecondsPerDay == 0)
    ensures v.Str? ==> (r.Date? <==> parse(v.s).Some?)
    ensures v.Empty? ==> r.Empty?
  {
    match v
    case Int(i) =>
      assert Trunc(i as real) == i;
      FromSerial(i)
    case Num(x) => FromSerial(Trunc(x))
    case Str(s) => (match parse(s) case Some(t) => Date(t) case None => Empty)
    case Empty => Empty
    case Date(t) => Date(t)
  }

  /** Serial 44197 is midnight on 2021-01-01, whatever the parser. */
  lemma ExcelSerial44197(parse: DateParser)
    ensures ExcelDateToDatetime(Int(44197), parse).Date?
    ensures CivilFromDays(DayOf(ExcelDateToDatetime(Int(44197), parse).t)) == (2021, 1, 1)
  {
    Serial44197();
  }

  /** The day count is truncated toward zero, not floored: -0.5 is the epoch day, 44197.9 is 44197. */
  lemma ExcelTruncatesTowardZero(parse: DateParser)
    ensures ExcelDateToDatetime(Num(-0.5), parse) == Date(0)
    ensures ExcelDateToDatetime(Num(44197.9), parse) == ExcelDateToDatetime(Int(44197), parse)
  {
    assert Trunc(-0.5) == 0;
    assert Trunc(44197.9) == 44197;
  }

  // ---------------------------------------------------------------------
  // detect_column

  /** re.match(r"^\d{7,13}$", s): 7 to 13 digits, optionally followed by one final newline, which `$` admits. */
  predicate IsCipText(s: string) {
    (7 <= |s| <= 13 && AllDigits(s))
    || (8 <= |s| <= 14 && s[|s| - 1] == '\n' && AllDigits(s[..|s| - 1]))
  }

  /** str.isdigit(). */
  predicate IsDigitText(s: string) {
    |s| > 0 && AllDigits(s)
  }

  /** s.replace('.', ''). */
  function RemoveDots(s: string): (r: string)
    ensures '.' !in s ==> r == s
    ensures forall c :: c in r <==> c in s && c != '.'
    ensures |s| == 1 ==> r == if s[0] == '.' then [] else s
    decreases |s|
  {
    if s == [] then []
    else
      assert forall c :: c in s <==> c == s[0] || c in s[1..];
      (if s[0] == '.' then [] else [s[0]]) + RemoveDots(s[1..])
  }

  /** RemoveDots drops each '.' on its own: it maps concatenation to concatenation. */
  lemma {:induction false} RemoveDotsAppend(a: string, b: string)
    ensures RemoveDots(a + b) == RemoveDots(a) + RemoveDots(b)
    decreases |a|
  {
    if a == [] {
      assert a + b == b;
    } else {
      var ab := a + b;
      assert ab[0] == a[0] && ab[1..] == a[1..] + b;
      RemoveDotsAppend(a[1..], b);
    }
  }

  /** s.replace('.', '').isdigit(). */
  predicate IsDottedNumeric(s: string) {
    IsDigitText(RemoveDots(s))
  }

  predicate HasAnti(s: string) { Contains(s, "anti") }

  predicate HasLaboratoire(s: string) { Contains(s, "laboratoire") }

  /** The threshold rules of detect_column, tried in order; `isDate` decides whether one value reads as a date. */
  function DetectColumn(col: string, values: seq<string>, isDate: string -> bool): (r: Option<string>)
    ensures r.Some? ==> r.value in DetectTargets && r.value in CanonicalFields
    ensures |values| < 6 ==> r.None? || r.value == "categorie" || r.value == "fournisseur"
    ensures |values| < 4 ==> r.None?
  {
    var colNorm := NormalizeLabel(col);
    if CountWhere(values, IsCipText) > 5 then Some("code_cip")
    else if CountWhere(values, isDate) > 5 then Some("date_peremption")
    else if CountWhere(values, IsDottedNumeric) > 5 && Contains(colNorm, "vente") then Some("prix_vente_ttc")
    else if CountWhere(values, IsDottedNumeric) > 5 && Contains(colNorm, "achat") then Some("prix_achat_ht")
    else if CountWhere(values, IsDigitText) > 5 then
      (if Contains(colNorm, "min") then Some("stock_min") else Some("stock_actuel"))
    else if CountWhere(values, HasAnti) > 3 then Some("categorie")
    else if CountWhere(values, HasLaboratoire) > 3 then Some("fournisseur")
    else None
  }

  lemma {:induction false} CountWhereMono<T>(s: seq<T>, p: T -> bool, q: T -> bool)
    requires forall x :: p(x) ==> q(x)
    ensures CountWhere(s, p) <= CountWhere(s, q)
    decreases |s|
  {
    if s != [] {
      CountWhereMono(s[1..], p, q);
    }
  }

  lemma DigitTextIsDottedNumeric(s: string)
    requires IsDigitText(s)
    ensures IsDottedNumeric(s)
  {
    assert forall i :: 0 <= i < |s| ==> s[i] != '.';
  }

  /**
   * A digit-only column (no CIP, no dates) whose normalised label mentions "vente" is a sale price:
   * every digit-only value is also dotted-numeric, so the price rule fires before the stock rule.
   */
  lemma DigitColumnWithVenteIsSalePrice(col: string, values: seq<string>, isDate: string -> bool)
    requires CountWhere(values, IsCipText) <= 5 && CountWhere(values, isDate) <= 5
    requires CountWhere(values, IsDigitText) > 5
    requires Contains(NormalizeLabel(col), "vente")
    ensures DetectColumn(col, values, isDate) == Some("prix_vente_ttc")
  {
    forall s | IsDigitText(s) ensures IsDottedNumeric(s) { DigitTextIsDottedNumeric(s); }
    CountWhereMono(values, IsDigitText, IsDottedNumeric);
  }

  /** The same for "achat" without "vente": a purchase price. */
  lemma DigitColumnWithAchatIsPurchasePrice(col: string, values: seq<string>, isDate: string -> bool)
    requires CountWhere(values, IsCipText) <= 5 && CountWhere(values, isDate) <= 5
    requires CountWhere(values, IsDigitText) > 5
    requires !Contains(NormalizeLabel(col), "vente") && Contains(NormalizeLabel(col), "achat")
    ensures DetectColumn(col, values, isDate) == Some("prix_achat_ht")
  {
    forall s | IsDigitText(s) ensures IsDottedNumeric(s) { DigitTextIsDottedNumeric(s); }
    CountWhereMono(values, IsDigitText, IsDottedNumeric);
  }

  /** Otherwise a digit-only column is a stock: stock_min when the label mentions "min", else stock_actuel. */
  lemma DigitColumnIsStock(col: string, values: seq<string>, isDate: string -> bool)
    requires CountWhere(values, IsCipText) <= 5 && CountWhere(values, isDate) <= 5
    requires CountWhere(values, IsDigitText) > 5
    requires !Contains(NormalizeLabel(col), "vente") && !Contains(NormalizeLabel(col), "achat")
    ensures DetectColumn(col, values, isDate) == if Contains(NormalizeLabel(col), "min") then Some("stock_min") else Some("stock_actuel")
  {
  }

  /** The date rule as written counts every value: isinstance(NaT, datetime) holds, since NaT's type derives from datetime. */
  function DetectColumnAsWritten(col: string, values: seq<string>): (r: Option<string>)
    ensures |values| > 5 && CountWhere(values, IsCipText) <= 5 ==> r == Some("date_peremption")
  {
    CountAll(values);
    DetectColumn(col, values, AnyValue)
  }

  predicate AnyValue(s: string) { true }

  lemma {:induction false} CountAll(values: seq<string>)
    ensures CountWhere(values, AnyValue) == |values|
    decreases |values|
  {
    if values != [] {
      CountAll(values[1..]);
    }
  }

  /** Six plain names, none a date, are taken for expiry dates as written, and left unmapped as intended. */
  lemma DateRuleAsWrittenMisfires()
    ensures DetectColumnAsWritten("designation", ["a", "a", "a", "a", "a", "a"]) == Some("date_peremption")
    ensures DetectColumn("designation", ["a", "a", "a", "a", "a", "a"], (s: string) => false) == None
  {
    var v := ["a", "a", "a", "a", "a", "a"];
    assert !IsCipText("a");
    assert !IsDigitText("a") by { assert !IsAsciiDigit("a"[0]); }
    assert RemoveDots("a") == "a";
    assert !HasAnti("a") && !HasLaboratoire("a");
    assert CountWhere(v, IsCipText) == 0;
    assert CountWhere(v, IsDottedNumeric) == 0;
    assert CountWhere(v, IsDigitText) == 0;
    assert CountWhere(v, (s: string) => false) == 0;
    assert CountWhere(v, HasAnti) == 0;
    assert CountWhere(v, HasLaboratoire) == 0;
  }
}
