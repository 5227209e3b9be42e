# Pharmacy inventory cleaning, alerts, risk, KPIs and report — a Dafny model

This project models the data core of a pharmacy stock-analysis application:

- The normalisation pipeline for an uploaded inventory table:
  - label de-duplication;
  - text normalisation;
  - the column alias table;
  - spreadsheet serial dates;
  - content sniffing of unnamed columns;
  - the `clean_dataframe` sequence.
- The consumers of the cleaned table:
  - the six stock alerts;
  - the per-product risk score and recommendation;
  - the stock KPIs;
  - the plain-text report.

A pandas DataFrame is a `Frame.Table`: a sequence of labels and a sequence of rows of `Frame.Cell`s. A cell is one of five kinds:

- `Empty`, which stands for every pandas null: NaN, None and NaT;
- `Str`;
- `Int`;
- `Num`, an exact real;
- `Date`, seconds counted from 1899-12-30.

A missing column read with `df[name]` is a `KeyError`, carried in a `Result`. "Today", the report's clock reading and pandas' date-string parser (`pd.to_datetime(errors="coerce")`) are parameters.

Modules, one per concern:

- `Wrappers`: Option and Result.
- `Text`: the Python string operations.
- `Unicode`: NFD for Latin-1 and the combining-mark test.
- `Calendar`: civil dates.
- `Frame`: the table and the pandas selections.
- `Lines`: join/split layout.
- `Cleaning`: the helpers of `cleaning.py`.
- `Pipeline`: `clean_dataframe`.
- `Alerts`, `Risk`, `Kpis`, `Report`.

Where the code loops and updates state, the model is a method with loop invariants:

- `fix_duplicate_columns`: `Cleaning.FixDuplicateColumns`.
- The alias rename loop: `Pipeline.AliasRenames`.
- The sniffing loop: `Pipeline.SniffColumns`.
- The coercion loops: `Pipeline.CoerceColumns`.
- `clean_dataframe`'s rebinding of `df`: `Pipeline.CleanDataframe`.
- `summarize_alerts`: `Report.SummarizeAlerts`.

Each method is proved against a function or predicate whose properties are proved as lemmas. The pure expression code is modelled as functions.

Some behaviours of the code worth knowing:

- The alert and risk engines index `df[...]` directly (app/utils/alerts.py:6-14, app/utils/risk.py:7-10), so a missing column raises `KeyError`. The model returns `Err(KeyError(name))` for the first column read that is missing.
- The risk score is a plain sum of four weighted conditions. It needs no clipping: `Risk.Score` is always in 0..100.
- A raw label "PA HT" normalises to "pa ht", which is not a key of the alias table (only "pa_ht" is), as `Cleaning.SpacedPaHtIsNoAlias` shows.
- `compute_all_kpis` raises `KeyError` when both stock columns exist but `designation` does not, because `stock_rotation` selects `df[["designation", "rotation"]]`.

## Model

| member | source | states |
|---|---|---|
| Cleaning.Bases | app/utils/cleaning.py:12-13 | one base per label, in order: the label stripped of surrounding whitespace |
| Cleaning.OccurrencesPositive | app/utils/cleaning.py:14 | a stripped label has been seen before exactly when it occurs in the earlier bases |
| Cleaning.FixDuplicateColumns | app/utils/cleaning.py:9-21 | one new label per input label, in order; label i is its stripped text, suffixed "_k" when k > 0 earlier labels strip to the same text; the loop keeps `seen[b] + 1` equal to the occurrences of b so far |
| Cleaning.SeenStep | app/utils/cleaning.py:14-19 | one loop step keeps the `seen` dictionary exactly the set of bases seen, each mapped to its repeat count, and reads the suffix of the current label |
| Cleaning.FirstOccurrenceKeepsBase | app/utils/cleaning.py:14-16 | a label keeps its bare stripped text if and only if no earlier label strips to the same text |
| Cleaning.RepeatsGetDistinctLabels | app/utils/cleaning.py:17-19 | two labels stripping to the same text never receive the same new label |
| Cleaning.GeneratedSuffixCanCollide | app/utils/cleaning.py:14-19 | generated names are not recorded as seen: for any label b with no blank at either end (such as "a"), labels b, b, "b_1" become b, "b_1", "b_1" |
| Cleaning.NormalizeLabel | app/utils/cleaning.py:58-60 | the normalised text holds no combining mark and no character that decomposes further |
| Cleaning.NormalizeText | app/utils/cleaning.py:55-61 | a null passes through unchanged; any other value becomes text without combining marks |
| Cleaning.NormalizeAscii | app/utils/cleaning.py:58-60 | on ASCII input normalisation is strip followed by lower-casing |
| Cleaning.AliasOf | app/utils/cleaning.py:91-93 | a label has an alias exactly when its normalised text is a key of COLUMN_ALIASES, and the alias is one of the canonical fields |
| Cleaning.AliasTargetsAreValues | app/utils/cleaning.py:23-45 | the values of the alias table are exactly the six alias targets |
| Cleaning.AliasQte | app/utils/cleaning.py:25 | "Qté" normalises to "qte", an alias of stock_actuel |
| Cleaning.AliasPaHt | app/utils/cleaning.py:33 | "pa_ht" is an alias of prix_achat_ht |
| Cleaning.SpacedPaHtIsNoAlias | app/utils/cleaning.py:33 | "PA HT" normalises to "pa ht", which has no alias |
| Cleaning.AccentedAliasUnreachable | app/utils/cleaning.py:27 | no label normalises to the key "quantité", since normalised text carries no precomposed letter |
| Cleaning.Trunc | app/utils/cleaning.py:50 | int(x) truncates toward zero: the result lies within one of x, on the side of zero |
| Cleaning.ExcelDateToDatetime | app/utils/cleaning.py:47-53 | the result is always a date or NaT, never an exception; a number gives midnight of the day `int(v)` days after 1899-12-30, or NaT outside datetime's range; text is a date exactly when the parser reads it; a null stays null |
| Cleaning.ExcelSerial44197 | app/utils/cleaning.py:50 | the serial 44197 is midnight on 2021-01-01 |
| Cleaning.ExcelTruncatesTowardZero | app/utils/cleaning.py:50 | -0.5 is the epoch day and 44197.9 is the day 44197: truncation, not flooring |
| Cleaning.RemoveDots | app/utils/cleaning.py:69 | `replace('.', '')` keeps a character exactly when it is not a dot: a one-character text stays unless it is ".", and text without a dot is unchanged |
| Cleaning.RemoveDotsAppend | app/utils/cleaning.py:69 | the replacement works character by character: the result for a concatenation is the concatenation of the results, so the other characters keep their order |
| Cleaning.DetectColumn | app/utils/cleaning.py:63-82 | the rules tried in order, first match wins; any result is a canonical name; with fewer than 6 values only the categorie or fournisseur rules can fire, and with fewer than 4 none does |
| Cleaning.DigitTextIsDottedNumeric | app/utils/cleaning.py:69-74 | every digit-only text also passes the dotted-numeric test |
| Cleaning.DigitColumnWithVenteIsSalePrice | app/utils/cleaning.py:69-71 | a digit-only column (no CIP, no dates) whose label mentions "vente" is prix_vente_ttc, because the price rule comes before the stock rule |
| Cleaning.DigitColumnWithAchatIsPurchasePrice | app/utils/cleaning.py:69-73 | the same column mentioning "achat" but not "vente" is prix_achat_ht |
| Cleaning.DigitColumnIsStock | app/utils/cleaning.py:74-77 | otherwise a digit-only column is stock_min when its label mentions "min", else stock_actuel |
| Cleaning.DetectColumnAsWritten | app/utils/cleaning.py:67 | as written, any column of more than 5 values that the CIP rule does not claim is taken for date_peremption |
| Cleaning.DateRuleAsWrittenMisfires | app/utils/cleaning.py:67 | six plain names become date_peremption as written, and stay unmapped when the rule tests for a parsed date |
| Calendar.Serial44197 | app/utils/cleaning.py:50 | day 44197 after 1899-12-30 is 2021-01-01 |
| Calendar.Civil20210101 | app/utils/cleaning.py:50 | 2021-01-01 is day 44197 after 1899-12-30 |
| Calendar.EpochDay | app/utils/cleaning.py:50 | day 0 is 1899-12-30 |
| Calendar.UnixEpochDay | app/utils/cleaning.py:50 | 1970-01-01 is day 25569 |
| Calendar.DatetimeFirstDay | app/utils/cleaning.py:50 | the lowest serial accepted is 0001-01-01, the first day datetime holds |
| Calendar.DayBeforeDatetimeFirstDay | app/utils/cleaning.py:50 | the serial below it is year 0, which datetime cannot hold |
| Calendar.DatetimeLastDay | app/utils/cleaning.py:50 | the highest serial accepted is 9999-12-31, the last day datetime holds |
| Calendar.DayAfterDatetimeLastDay | app/utils/cleaning.py:50 | the serial above it is year 10000, which datetime cannot hold |
| Calendar.ReportStamp | app/utils/report.py:31 | the "%d/%m/%Y %H:%M" stamp is a single line |
| Unicode.DecomposeChar | app/utils/cleaning.py:59 | a precomposed Latin-1 letter decomposes into a base letter and one combining mark; every other character is its own decomposition |
| Unicode.Nfd | app/utils/cleaning.py:59 | a single character becomes its decomposition; NFD output holds only characters that decompose to themselves; ASCII text is unchanged |
| Unicode.NfdAppend | app/utils/cleaning.py:59 | NFD works character by character: the NFD of a concatenation is the concatenation of the NFDs |
| Unicode.NfdIdempotent | app/utils/cleaning.py:59 | NFD applied twice is NFD applied once |
| Unicode.DropMarks | app/utils/cleaning.py:59-60 | a character is kept exactly when it is not a combining mark (category Mn): a single character stays unless it is a mark, no mark is left, and mark-free text is unchanged |
| Unicode.DropMarksAppend | app/utils/cleaning.py:59-60 | the filter works character by character: the result for a concatenation is the concatenation of the results, so the kept characters keep their order |
| Text.Strip | app/utils/cleaning.py:13 | the stripped text is one slice `s[a..b]` of the input with only whitespace before a and from b on, and with no blank at either end; text without blanks is unchanged |
| Text.NatTextInjective | app/utils/cleaning.py:19 | distinct repeat counts give distinct suffixes |
| Text.ParseIntText | app/utils/cleaning.py:110 | the text of an integer reads back as that integer |
| Text.ReplaceChar | app/utils/report.py:6 | `replace('_', ' ')` changes exactly the underscores |
| Text.SplitJoin | app/utils/report.py:7 | splitting the newline-join of one or more single-line texts gives them back |
| Text.Fixed | app/utils/report.py:11 | the fixed-point rendering of a number is a single line |
| Lines.SplitJoinPieces | app/utils/report.py:33-65 | the lines of a newline-joined template are the lines of its pieces, in order |
| Lines.Layout | app/utils/report.py:33-65 | fixed single-line pieces around three texts split into the fixed lines with each text's lines in between |
| Frame.Col | app/utils/alerts.py:6 | `df[name]` reads the first column carrying the label, or raises KeyError(name) exactly when there is none |
| Frame.ReadColumns | app/utils/alerts.py:6-14 | reading a list of columns in order succeeds exactly when all are present; otherwise it fails with the KeyError of the first missing one |
| Frame.Filter | app/utils/alerts.py:6 | a boolean-mask selection keeps exactly the rows satisfying the mask, each with its multiplicity, in input order |
| Frame.WithColumn | app/utils/risk.py:6 | `df[name] = values` overwrites the first column carrying the label, or appends it last; every other cell and label keeps its place |
| Frame.KeepColumns | app/utils/kpis.py:52 | `df[[...]]` keeps the chosen columns in the chosen order, with every row |
| Frame.KeepRows | app/utils/cleaning.py:115 | a row selection keeps the labels and the chosen rows, in order |
| Frame.MapColumn | app/utils/cleaning.py:101 | `apply` on a column changes that column's cells only |
| Frame.Rename | app/utils/cleaning.py:94 | `rename(columns=m)` replaces exactly the labels that are keys of m |
| Pipeline.DropEmptyColumns | app/utils/cleaning.py:86 | no all-null column is left, and every row keeps its all-null status and its "total" mentions |
| Pipeline.NonEmptyCellKept | app/utils/cleaning.py:86 | a non-null cell lies in a kept column |
| Pipeline.ProjectionKeepsNonEmptyCells | app/utils/cleaning.py:86 | dropping all-null columns changes neither whether a row is all-null nor whether it mentions "total" |
| Pipeline.EmptyNeverMentionsTotal | app/utils/cleaning.py:88 | a null cell, read as "nan", never mentions "total" |
| Pipeline.NonEmptyRows | app/utils/cleaning.py:87 | a row is kept, in order, exactly when it is not all-null |
| Pipeline.TotalFreeRows | app/utils/cleaning.py:88 | a row is kept, in order, exactly when none of its cells mentions "total" in any case |
| Pipeline.NoEmptyColumnOrRowSurvives | app/utils/cleaning.py:86-87 | after the two dropna steps no column and no row is entirely null |
| Pipeline.AliasRenames | app/utils/cleaning.py:89-93 | the rename dictionary maps exactly the labels that have an alias, each to its alias |
| Pipeline.AliasStep | app/utils/cleaning.py:91-93 | one loop step extends the rename dictionary to one more label |
| Pipeline.SniffColumns | app/utils/cleaning.py:95-99 | a column carrying an alias target is never renamed; every label ends up unchanged or canonical; with distinct labels each column gets detect_column's verdict on its own text, with the date rule as intended (a value counts when it parses as a date) |
| Pipeline.ExactKeep | app/utils/cleaning.py:95-99 | a column the loop leaves alone is already resolved |
| Pipeline.SniffRenameKeeps | app/utils/cleaning.py:98-99 | a rename to a detected name keeps alias targets in place and all labels unchanged or canonical |
| Pipeline.ExactSniffStep | app/utils/cleaning.py:97-99 | with distinct labels, renaming column i resolves it and touches no later column |
| Pipeline.ExactRenameTouchesOnlyItself | app/utils/cleaning.py:97-99 | with distinct labels, the column read for the i-th label is the i-th column and no other carries that label |
| Pipeline.ToNumber | app/utils/cleaning.py:110 | to_numeric keeps a number, reads a number's text, and turns a null into NaN; a date cell counts as unreadable (column dtypes are not modelled) |
| Pipeline.CoerceInt | app/utils/cleaning.py:110 | an unreadable cell becomes 0, a number is truncated toward zero, and an integer is unchanged |
| Pipeline.CoerceFloat | app/utils/cleaning.py:113 | an unreadable cell becomes 0.0, and a readable one keeps its value |
| Pipeline.CoerceIntOfText | app/utils/cleaning.py:110 | the text of an integer coerces back to that integer |
| Pipeline.CoerceColumns | app/utils/cleaning.py:103-113 | each column named in the list is converted cell by cell; every other cell is untouched |
| Pipeline.FirstKeyRows | app/utils/cleaning.py:115 | a row is kept, in order, exactly when no earlier row has the same key |
| Pipeline.FirstKeyRowsDistinct | app/utils/cleaning.py:115 | the kept rows have pairwise distinct keys |
| Pipeline.EveryKeySurvives | app/utils/cleaning.py:115 | every key of the input survives, carried by the first row that has it |
| Pipeline.DedupRows | app/utils/cleaning.py:114-115 | first row per code_cip when the column exists, every row otherwise |
| Pipeline.UnreadableCipsCollapse | app/utils/cleaning.py:106-115 | all unreadable codes become 0 and so share one key |
| Pipeline.FillCell | app/utils/cleaning.py:116-121 | a null cell of a sentinel column gets that column's sentinel; any other cell is unchanged |
| Pipeline.FillSentinels | app/utils/cleaning.py:116-121 | the fill changes each cell as FillCell says and keeps labels and rows |
| Pipeline.CoerceText | app/utils/cleaning.py:105 | intended text coercion: null stays null, and anything else becomes text |
| Pipeline.CoerceTextAsWritten | app/utils/cleaning.py:105 | as written every cell becomes text, and a non-null cell gets the same text as intended |
| Pipeline.NullTextNeverFilledAsWritten | app/utils/cleaning.py:105-117 | as written a null categorie ends as "nan"; coerced as intended it is filled with "inconnue" |
| Pipeline.DropStructure | app/utils/cleaning.py:85-88 | the result is the table of the three steps; its labels are those left after dropping the all-null columns; each row left is, in order, an input row with those columns dropped; an input row is kept exactly when it is not all-null and none of its cells mentions "total" |
| Pipeline.KeptRowSurvives | app/utils/cleaning.py:87-88 | an input row that is not all-null and mentions no "total" passes both row filters |
| Pipeline.ResolveColumns | app/utils/cleaning.py:89-99 | each label ends unchanged or canonical; a label with an alias ends as its alias, and a column whose aliased label is an alias target keeps it; when the aliased labels are distinct and none is a sniffing-only name, each label ends as it is kept (an alias target) or as detect_column's verdict on its own column, with the date rule as intended |
| Pipeline.SniffingRenamesDetected | app/utils/cleaning.py:95-99 | with distinct aliased labels and no sniffing-only name, a column that is no alias target and whose text detect_column recognises, with the date rule as intended, ends under the detected name, never under its aliased label |
| Pipeline.CoerceCell | app/utils/cleaning.py:100-113 | one cell of a column after the coercions: date_peremption is converted by excel_date_to_datetime, a text column by normalize_text with the text coercion as intended (a null stays null, not "nan"), an integer column by to_numeric-fillna(0)-astype(int), a float column by to_numeric-fillna(0.0), any other column is unchanged; the result has its column's type |
| Pipeline.CoerceTypes | app/utils/cleaning.py:100-113 | labels and row count kept; every cell is its input cell coerced for its column, with the text coercion as intended, and every canonical column holds its type |
| Pipeline.CoercionSteps | app/utils/cleaning.py:100-113 | the four passes in their order, seen from one cell, give that cell's coercion |
| Pipeline.ColumnListsDisjoint | app/utils/cleaning.py:102-107 | no column is in two of the date, text, integer and float lists |
| Pipeline.KeepRowsCoerced | app/utils/cleaning.py:115 | dropping rows keeps the column types |
| Pipeline.FillCompletesTypes | app/utils/cleaning.py:116-121 | after the fill the four sentinel columns hold only text |
| Pipeline.DedupMakesCipUnique | app/utils/cleaning.py:114-115 | after drop_duplicates no code_cip repeats |
| Pipeline.FillKeepsCipUnique | app/utils/cleaning.py:116-121 | the fill keeps code_cip unique |
| Pipeline.CleanCell | app/utils/cleaning.py:100-121 | what the pipeline makes of one input cell: integer, float and date columns by their coercion; with the text coercion as intended, a text column with a sentinel is never null, and holds the sentinel where the input was null |
| Pipeline.DedupKeepsFirsts | app/utils/cleaning.py:114-115 | every row drop_duplicates keeps comes from a kept input row with no earlier kept row carrying the same code_cip |
| Pipeline.DedupKeepsEveryFirst | app/utils/cleaning.py:114-115 | every kept input row with no earlier kept row carrying the same code_cip survives drop_duplicates |
| Pipeline.DedupSelects | app/utils/cleaning.py:114-115 | drop_duplicates keeps exactly the kept input rows that are the first of their code_cip |
| Pipeline.CipKeysAgree | app/utils/cleaning.py:110-115 | the code_cip drop_duplicates compares is the astype(int) of the input row's cell |
| Pipeline.CleanCellsFrom | app/utils/cleaning.py:114-121 | after drop_duplicates and fillna, each cell is its input cell coerced and filled for the column it ends in, with the text coercion as intended |
| Pipeline.DedupRowFacts | app/utils/cleaning.py:110-115 | the rows drop_duplicates leaves, traced back to the input, are exactly the input rows that are not all-null, mention no "total" and are the first of their code_cip among such rows |
| Pipeline.DedupCellFacts | app/utils/cleaning.py:114-121 | after drop_duplicates and fillna the table keeps its labels, every cell is its input cell coerced and filled with the text coercion as intended, every typed column holds its type and code_cip values are pairwise distinct |
| Pipeline.PrepareColumns | app/utils/cleaning.py:85-113 | the steps before drop_duplicates, with the date rule and text coercion as intended: an input row is kept, in order, exactly when it is not all-null and mentions no "total"; labels are unchanged, canonical or their alias, alias targets stay, and with distinct aliased labels and no sniffing-only name each is the sniffing verdict on its column of the structured table; every cell is its input cell coerced for its column |
| Pipeline.CleanDataframe | app/utils/cleaning.py:84-122 | the whole pipeline, with the date rule and text coercion as intended: an input row is kept, in order, exactly when it is not all-null, mentions no "total" and is the first of its code_cip among such rows; each label is unchanged, canonical or its alias, an alias target stays, and with distinct aliased labels and no sniffing-only name each is the sniffing verdict on its column; each cell is its input cell coerced and filled for its column; every canonical column holds its type; no code_cip repeats |
| Alerts.Perimes | app/utils/alerts.py:6 | exactly the rows whose expiry date is before today, with multiplicity, in order |
| Alerts.BientotPerimes | app/utils/alerts.py:7-10 | exactly the rows expiring between today and today + 90 days inclusive, in order |
| Alerts.Ruptures | app/utils/alerts.py:11 | exactly the rows with zero stock, in order |
| Alerts.StockCritique | app/utils/alerts.py:12 | exactly the rows whose stock is at most the minimum, in order |
| Alerts.PrixAnormal | app/utils/alerts.py:13 | exactly the rows selling below their purchase price, in order |
| Alerts.CipDuplique | app/utils/alerts.py:14 | exactly the rows whose code_cip occurs at least twice, every occurrence kept, in order |
| Alerts.GenerateAllAlerts | app/utils/alerts.py:3-16 | six alerts under the six keys in insertion order, each holding exactly the rows of its own filter on the columns read; or the KeyError of the first column read that is missing |
| Alerts.AlertPositions | app/utils/alerts.py:6-14 | when all six columns are present, the position of each column read, in reading order |
| Alerts.Selection | app/utils/alerts.py:6-14 | the k-th alert uses the k-th filter: perimes and bientot_perimes on the date column, ruptures on stock_actuel, stock_critique on stock_actuel and stock_min, prix_anormal on the two prices, cip_duplique on code_cip; each is a subsequence of the rows |
| Alerts.ExpiryAlertsDisjoint | app/utils/alerts.py:6-10 | no row is both expired and expiring soon, and a null date is in neither |
| Alerts.RupturesAreCritical | app/utils/alerts.py:11-12 | with a non-negative minimum, every rupture is also critical |
| Alerts.KeyCountOfUniqueKey | app/utils/alerts.py:14 | a key carried by one row is counted once |
| Alerts.KeyCountAbsent | app/utils/alerts.py:14 | a key no row carries is counted zero times |
| Alerts.CipDupliqueEmptyWhenUnique | app/utils/alerts.py:14 | with pairwise distinct codes, as after the dedup step, cip_duplique is empty |
| Alerts.RepeatedCipReported | app/utils/alerts.py:14 | both rows of a repeated code are reported |
| Alerts.KeyCountAtLeastTwo | app/utils/alerts.py:14 | a key carried by two rows is counted at least twice |
| Alerts.KeyCountPresent | app/utils/alerts.py:14 | a key carried by some row is counted at least once |
| Risk.Score | app/utils/risk.py:6-11 | the score is a multiple of 20 in 0..100; it is 100 exactly when all four conditions hold, and 0 exactly when none does |
| Risk.Recommendation | app/utils/risk.py:13-17 | "Action urgente" if and only if the score is at least 70, "Surveillance" if and only if it is in 40..69, "Risque faible" if and only if it is below 40 |
| Risk.ComputeRiskAndRecos | app/utils/risk.py:3-19 | succeeds exactly when the four columns read are present, otherwise gives the KeyError of the first missing one; the result is the scored table |
| Risk.Scored | app/utils/risk.py:4-17 | the same rows, with a risk_score and a recommendation column |
| Risk.Recos | app/utils/risk.py:13-17 | each row's recommendation is the tier of its score |
| Risk.WithScores | app/utils/risk.py:6-11 | the risk_score column holds each row's score, and every other cell keeps its place |
| Risk.ScoredLabels | app/utils/risk.py:4-19 | the input labels come first, and only risk_score and recommendation are added |
| Risk.ScoredCells | app/utils/risk.py:6-17 | each row carries its score and the recommendation of that score |
| Risk.ScoredKeepsOthers | app/utils/risk.py:4-19 | every other cell of every row is unchanged |
| Risk.ZeroStockNeverLowRisk | app/utils/risk.py:7-17 | zero stock with a non-negative minimum scores at least 60, so it is never "Risque faible" |
| Risk.NullDateAddsNothing | app/utils/risk.py:10 | a null expiry date scores like a date not yet past, and caps the score at 80 |
| Risk.UrgentMeansOutOfStock | app/utils/risk.py:6-17 | "Action urgente" is reached only with zero stock |
| Risk.UrgentRowsAreRuptures | app/utils/risk.py:6-17 | every "Action urgente" row is also a rupture alert |
| Kpis.Product | app/utils/kpis.py:20 | the product of two cells is defined exactly when both are numbers |
| Kpis.Products | app/utils/kpis.py:20 | each row's prix_achat_ht * stock_actuel |
| Kpis.StockValue | app/utils/kpis.py:12-20 | 0.0 when a column is missing; otherwise the sum of the row products, skipping nulls |
| Kpis.StockValueAdditive | app/utils/kpis.py:20 | the value of two blocks of rows is the sum of their values |
| Kpis.StockValueNonNegative | app/utils/kpis.py:20 | non-negative prices and stocks give a non-negative value |
| Kpis.Margins | app/utils/kpis.py:35 | each row's prix_vente_ttc - prix_achat_ht, null unless both are numbers |
| Kpis.Mean | app/utils/kpis.py:36 | NaN exactly when no value is present; otherwise mean times count equals the sum |
| Kpis.MeanWithin | app/utils/kpis.py:36 | a mean lies between the bounds of its values |
| Kpis.AverageMargin | app/utils/kpis.py:26-36 | 0.0 when a column is missing; otherwise the mean of the margins |
| Kpis.NoAbnormalPriceNoNegativeMargin | app/utils/kpis.py:35-36 | when prix_anormal is empty the average margin is not negative |
| Kpis.Divisor | app/utils/kpis.py:51 | `replace(0, 1)` never yields zero and changes only a zero |
| Kpis.Rotation | app/utils/kpis.py:51 | defined exactly when both stocks are numbers; rotation times divisor is the stock |
| Kpis.WithRotation | app/utils/kpis.py:51 | the rows kept, the labels kept in place, and a rotation column added |
| Kpis.Rotations | app/utils/kpis.py:51 | one rotation per row |
| Kpis.WithRotationLabels | app/utils/kpis.py:51 | only the rotation label is added, and no existing label moves |
| Kpis.WithRotationCells | app/utils/kpis.py:51 | the rotation column holds each row's rotation |
| Kpis.WithRotationKeeps | app/utils/kpis.py:51 | every other cell is unchanged |
| Kpis.StockRotation | app/utils/kpis.py:42-52 | an empty table when a stock column is missing; a KeyError exactly when designation is missing; otherwise the two-column view |
| Kpis.RotationView | app/utils/kpis.py:52 | one row per input row |
| Kpis.RotationViewContents | app/utils/kpis.py:50-52 | the view's columns are designation and rotation, and each row holds the row's designation and rotation |
| Kpis.DormantRows | app/utils/kpis.py:68-70 | a row is selected, in order, exactly when its rotation is below the threshold and its stock above its threshold |
| Kpis.DormantProducts | app/utils/kpis.py:58-71 | an empty table when a stock column is missing; otherwise the dormant rows with their rotation, in order |
| Kpis.DormantIsCritical | app/utils/kpis.py:58-71 | with the default thresholds and a non-negative minimum, a dormant product's minimum exceeds twice its stock, so it is a stock_critique alert |
| Kpis.DormantProductsSelects | app/utils/kpis.py:67-71 | every returned row is a dormant input row, in order, with its cells kept |
| Kpis.Insert | app/utils/kpis.py:84 | inserting into a descending run keeps it descending and a permutation |
| Kpis.SortDesc | app/utils/kpis.py:84 | `sort_values(ascending=False)` gives a descending permutation, nulls last |
| Kpis.TopExpensive | app/utils/kpis.py:77-84 | an empty table when prix_achat_ht is missing; otherwise min(n, rows) rows, sorted descending, drawn from the input, each costing at least every row left out |
| Kpis.TopRowsDominate | app/utils/kpis.py:84 | the head of a descending run dominates its tail |
| Kpis.TopTenAtMostTen | app/utils/kpis.py:77-84 | with n = 10 at most ten rows are returned |
| Kpis.Count | app/utils/kpis.py:97 | a value is counted at least once exactly when it occurs |
| Kpis.Uniques | app/utils/kpis.py:97 | the distinct non-null values, each once |
| Kpis.Tally | app/utils/kpis.py:97 | each distinct value with its number of occurrences |
| Kpis.TallyCoversNonNull | app/utils/kpis.py:97 | the tallies add up to the number of non-null cells |
| Kpis.TallyNewKey | app/utils/kpis.py:97 | a value seen for the first time adds a tally of one |
| Kpis.InsertByCount | app/utils/kpis.py:97 | inserting by count keeps the keys distinct, the counts descending and the total |
| Kpis.SortByCount | app/utils/kpis.py:97 | sorting by count keeps the entries and total, descending, with distinct keys |
| Kpis.ValueCounts | app/utils/kpis.py:97 | each distinct non-null value appears exactly once with its count, most frequent first, and the counts sum to the number of non-null cells |
| Kpis.SortedTallyEntries | app/utils/kpis.py:97 | the sorted tally has one entry per distinct non-null value, with its positive count |
| Kpis.Distribution | app/utils/kpis.py:94-97 | the empty default exactly when the column is missing; otherwise the value counts of that column, summing to its non-null cells |
| Kpis.CategoryDistribution | app/utils/kpis.py:90-100 | the empty default exactly when categorie is missing; otherwise the value counts of categorie: distinct values, most frequent first, counts summing to its non-null cells |
| Kpis.SupplierDistribution | app/utils/kpis.py:106-116 | the empty default exactly when fournisseur is missing; otherwise the value counts of fournisseur: distinct values, most frequent first, counts summing to its non-null cells |
| Kpis.ComputeAllKpis | app/utils/kpis.py:122-134 | fails, with KeyError("designation"), exactly when both stock columns exist and designation does not; otherwise it carries the stock value, the average margin and at most ten top products |
| Report.AlertLabel | app/utils/report.py:6 | `replace('_', ' ').capitalize()`: each underscore becomes a space, the first character is upper-cased and every other lower-cased; the length is kept, and a key without a newline gives a single line |
| Report.SnakeKeyLabel | app/utils/report.py:6 | a key of small letters and underscores, as every alert key is, gets a capital first letter and each underscore read as a space |
| Report.AlertLines | app/utils/report.py:3-7 | one line per alert, in order |
| Report.AlertLineReportsCount | app/utils/report.py:6 | the figure on an alert line reads back as that alert's number of rows |
| Report.BientotPerimesLabel | app/utils/report.py:6 | "bientot_perimes" is labelled "Bientot perimes" |
| Report.SummarizeAlerts | app/utils/report.py:3-7 | the lines joined with newlines, which split back into exactly one line per alert; empty for no alerts |
| Report.FixedOrNan | app/utils/report.py:11-12 | a formatted mean, or "nan", is a single line |
| Report.KpiLines | app/utils/report.py:10-15 | four single lines |
| Report.SummarizeKpis | app/utils/report.py:9-15 | exactly four lines, which are the KPI lines |
| Report.TopFigureAtMostTen | app/utils/report.py:15 | the top-products line reports the number of top rows, which is at most 10 |
| Report.RiskLines | app/utils/report.py:18-28 | four single lines |
| Report.SummarizeRisk | app/utils/report.py:17-28 | a KeyError exactly when risk_score is missing; otherwise exactly the four risk lines |
| Report.RiskCountsPartition | app/utils/report.py:19-21 | with numeric scores, high + mid + low counts equal the number of rows |
| Report.TiersAgree | app/utils/report.py:19-21 | a score is high exactly when its recommendation is urgent, and low exactly when it is "Risque faible" |
| Report.ScoredTiers | app/utils/report.py:19-21 | on scored output every score is a number, and a row counts as high or low exactly when its recommendation is "Action urgente" or "Risque faible" |
| Report.RiskCountsMatchRecommendations | app/utils/report.py:19-21 | on scored output, high count = "Action urgente" rows, low count = "Risque faible" rows, and the three counts partition the rows |
| Report.GenerateFullReport | app/utils/report.py:30-65 | fails with KeyError("risk_score") exactly when risk_score is missing; otherwise the report's lines are the banner, then the alert, KPI, risk and recommendation sections in that order, each summary's lines in place |
| Report.ReportLayout | app/utils/report.py:33-65 | the template's lines are the fixed lines with each summary's lines in between, in section order |

## Left out

- Reading the upload (`process_uploaded_file`), the `PYARROW_IGNORE_TIMEZONE` setting and the Streamlit application: I/O outside the data core.
- `pd.to_datetime` on text is a parameter (`DateParser`); the model does not parse date strings.
- `pd.Timestamp.today()` and `datetime.now()` are parameters.
- Floating point: prices, means and rotations are exact reals, and `float(str)` reads only plain decimal literals with an optional sign.
- Text.Fixed: renders the exact value rounded half to even; it does not model the binary rounding of `:.2f` and `:.1f`. Only its single-line shape is proved.
- Frame.RealText: `str(float)` is rendered as an exact decimal of up to 17 fraction digits, not Python's shortest round-trip repr. It only matters for the "total" and sniffing tests on float cells.
- Pandas tables with duplicate labels: `df[name]` reads the first column carrying the label. The model does not give the DataFrame that pandas returns for a duplicated label.
- Two columns that end under one label, such as "Stock" and "Qté", which both become stock_actuel: `df[col]` is then a DataFrame, so `pd.to_numeric` (app/utils/cleaning.py:110 and 113) raises `TypeError` for an integer or float label, and for a text label `normalize_text` receives a whole column, on which `if pd.isna(value)` raises `ValueError`. Either way `clean_dataframe` fails. `Pipeline.CleanDataframe` has no such error path: it returns a table, coercing each of the columns by its label.
- Unicode: NFD and the `Mn` category cover the precomposed Latin-1 letters and the Combining Diacritical Marks block. `lower()` covers ASCII and the Latin-1 capitals. `Report.AlertLabel` upper-cases only ASCII letters, while `capitalize()` title-cases any letter ("é" becomes "É"); the six alert keys are ASCII, so their labels are unaffected.
- Labels are text by type. `fix_duplicate_columns` calls `col.strip()` (app/utils/cleaning.py:13), which raises `AttributeError` on a label that is not a string, such as a numeric spreadsheet header; the model has no such label.
- Pipeline.ToNumber: column dtypes are not modelled. On a column whose cells are all dates (dtype datetime64), `pd.to_numeric` returns nanosecond counts since 1970, with NaT the int64 minimum, and line 110 stores them. The model reads each date cell as unreadable, so such a column (a "seuil" column of dates renamed to stock_min, say) becomes `Int(0)` cells.
- Cleaning.DetectColumn: its digit tests accept only '0'..'9'. The regular expression `\d` (app/utils/cleaning.py:65) and `str.isdigit()` (lines 69 and 74) also accept the digits of other scripts, and `isdigit()` accepts superscripts such as "²".
- Pipeline.CoerceInt: `astype(int)` (app/utils/cleaning.py:110) gives a 64-bit integer and raises on an infinite value. The model uses unbounded integers, and reads text such as "inf", which `to_numeric` accepts and `fillna(0)` keeps, as an unreadable cell, giving `Int(0)`.
- `astype(str)` of a null is the text "nan" for every null kind; pandas writes "None" for a None in an object column.
- Cells of the wrong kind in numeric columns (text, dates) compare like NaN in the alert, risk and KPI masks.
- Kpis.SortDesc: a stable sort, so rows with equal prix_achat_ht keep their input order, because Kpis.Insert places each earlier row ahead of the equal rows that follow it. `sort_values` with its default quicksort (app/utils/kpis.py:84) promises no order among ties, so at the `head(n)` boundary Kpis.TopExpensive may return other tied rows than pandas; its contract holds for any choice among ties.
- Kpis.ValueCounts: ties between equal counts keep first-appearance order (a stable sort). Pandas' tie order depends on its version. The output column names of `reset_index().rename(...)` are not modelled: the result is a list of (value, count) pairs, and None stands for the empty DataFrame.
- Kpis.ComputeAllKpis: states the stock value, the average margin, the top-products bound and the failure case. The other entries are the results of the functions named in its body, and their properties are proved on those functions.
- Kpis.RotationView: its own contract gives the row count only. The columns and cells are stated by Kpis.RotationViewContents.
- Risk.Scored: its own contract gives shape only. Labels, cells and untouched cells are stated by Risk.ScoredLabels, Risk.ScoredCells and Risk.ScoredKeepsOthers.
- Pipeline.SniffColumns: the exact per-column outcome is proved only when the labels are pairwise distinct and none is already a sniffing-only name (code_cip, categorie, fournisseur). Otherwise an earlier rename can change which column a later label reads, and the contract states only the invariants.
- Pipeline.SniffColumns: sniffs with the intended date rule (a value counts when it parses as a date, app/utils/cleaning.py:67 under Findings); as written, every column of more than five rows that is neither an alias target nor CIP-like is renamed date_peremption.
- Pipeline.ResolveColumns: its sniffing verdict is detect_column with the intended date rule (a value counts when it parses as a date, app/utils/cleaning.py:67 under Findings), passed on from Pipeline.SniffColumns.
- Pipeline.SniffingRenamesDetected: "detect_column recognises" means detect_column with the intended date rule (a value counts when it parses as a date, app/utils/cleaning.py:67 under Findings).
- Pipeline.CoerceCell: coerces a text column with the intended text coercion (a null text cell stays null instead of becoming "nan", app/utils/cleaning.py:105 under Findings); as written, `astype(str)` runs before `normalize_text` and a null becomes "nan".
- Pipeline.CoerceTypes: its cells are Pipeline.CoerceCell's, so they follow the intended text coercion.
- Pipeline.CleanCell: the sentinel where the input was null holds only with the intended text coercion (a null text cell stays null instead of becoming "nan", app/utils/cleaning.py:105 under Findings); as written, such a cell ends as "nan".
- Pipeline.CleanCellsFrom: its cells are Pipeline.CleanCell's, so they follow the intended text coercion.
- Pipeline.DedupCellFacts: its cells are Pipeline.CleanCell's, so they follow the intended text coercion.
- Pipeline.PrepareColumns: sniffs with the intended date rule (a value counts when it parses as a date, app/utils/cleaning.py:67 under Findings) and coerces cells with the intended text coercion (a null text cell stays null instead of becoming "nan", app/utils/cleaning.py:105 under Findings).
- Pipeline.CleanDataframe: uses the intended date rule (a value counts when it parses as a date) and the intended text coercion (a null stays null until the sentinel fill), as recorded under Findings.

## Findings

| source | as written | input that shows it | evidently intended | confidence | as-written member | corrected member |
|---|---|---|---|---|---|---|
| app/utils/cleaning.py:67 | `isinstance(excel_date_to_datetime(x), datetime)` also holds for NaT, whose type derives from `datetime`, so every value counts as a date | a column "designation" of six plain names such as "a", which the CIP rule does not claim | count only the values that parse as dates | high, not executed | Cleaning.DateRuleAsWrittenMisfires | Cleaning.DetectColumn |
| app/utils/cleaning.py:105 | `astype(str)` runs before `normalize_text`, so a null text cell becomes "nan" and the sentinel fill at lines 116-121 never applies | a null `categorie` cell | a null stays null and is filled with "inconnue" | high, not executed | Pipeline.NullTextNeverFilledAsWritten | Pipeline.CoerceText |
