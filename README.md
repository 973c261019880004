# Norm-installation metrics engine, modelled in Dafny

This project models the metrics engine of a fleet dashboard that tracks the
installation of graphical "norms" (mandated markings) on buses. The input is a
spreadsheet: one row per bus and one column per norm. Each norm cell says whether
the norm is installed ("1", "instalada", …), not applicable ("no aplica") or
pending (blank). The engine is written twice, and the two versions disagree.

`app.py` is the first version:

- the cell classifier, in its three normalisations;
- `process_data`: resolves the identity columns, picks the norm columns and
  blanks `'nan'`/`'None'`;
- `calculate_metrics`: fleet efficiency, the complete/incomplete partition with
  ordered missing-norm lists, per-norm and per-bus progress, and the bus-id rule;
- `generate_bus_report`: finds a row with four lookup strategies, gives each
  norm an exclusive status, and computes progress over the required norms;
- the counting done in the charts and in `main`:
  - the global pie, and terminal and subclass progress;
  - the missing-norm tally and its top-10 ranking;
  - the progress ranges;
  - the bus-list filters, sort orders and pages of 10.

`normas_graficas_app/app.py` is the second version:

- `calcular_metricas`: exact-match counters and progress over applicable norms;
- the fleet share of complete buses;
- the per-norm shortfall ranking and the per-norm table;
- the status badge, the sidebar filters and the Estado rule of the bus list.

How the source is represented:

- **Table.** `Frames.Table` holds the column names and rows of optional string
  cells.
  - `None` is pandas' NaN.
  - `str(NaN)` is `"nan"`.
- **Dicts.** Python dicts are insertion-ordered association lists.
  - `d[k] = v` replaces the value in place when `k` is present, and appends otherwise.
- **Loops.** Each source loop that builds a result list, dict or counter is a Dafny
  `method` with a `for`/`while` loop.
  - The method is proved against a function that states what the loop builds.
  - Lemmas about those functions state the properties.
  - Two inner loops are functions rather than methods. They are the per-column
    accumulation loops of the terminal and subclass charts (app.py:785-792,
    1017-1024), written as the function `Dashboard.CellsWhere`.
  - Comprehensions and generator sums (`sum(1 for ...)`) are also functions.
- **DataFrames.** A DataFrame that the source rebinds (`df = df.rename(...)`,
  `df[col] = ...`) is a `Table` value that the method reassigns.
- **Percentages.** They are `real` ratios, with no rounding.

Where the two variants differ, the model keeps both and proves the differences
as lemmas:

- the trim before or after lower-casing;
- exact match versus substring match;
- 100 % versus 0 % for a bus with nothing applicable.

Modules, one per file:

- `Text` (text.dfy): the Python string primitives.
- `Frames` (table.dfy): tables, dicts, and counting and filtering loops.
- `Sorting` (sorting.dfy): a stable sort by key.
- `Classifier` (classify.dfy).
- `Schema` (schema.dfy): `process_data`.
- `Metrics` (metrics.dfy): `calculate_metrics`.
- `BusReport` (report.dfy): `generate_bus_report`.
- `Dashboard` (dashboard.dfy): the chart and `main` rules of app.py.
- `Graficas` (graficas.dfy): the second variant.

The model keeps these behaviours of the code as written:

- **Empty norm set.** When no norm column is found, `process_data` returns the
  table and `[]` rather than failing (`Schema.ProcessData`).
- **Ties in the ranking.** Ties in the missing-norm ranking follow the tally's
  insertion order, which is the order in which the missing lists are visited.
  They do not follow the norm-column order (`Dashboard.TopMissingSpec`).
- **Filters.** The sidebar filters of the second variant are single-valued, with
  "Todos" meaning "no filter". They are not multi-selects (`Graficas.FiltrarSpec`).
- **The two classifiers.** A cell that contains both "instalad" and "no aplica"
  is counted twice by the charts' global pie and group progress. It is counted
  once everywhere else. (See Findings.)

## Model

| member | source | states |
|---|---|---|
| Text.TrimLeft | app.py:297 | the leading part of `strip()`: the result is a suffix of the input, does not start with whitespace, and only whitespace was removed |
| Text.TrimRight | app.py:297 | the trailing part of `strip()`: the result is a prefix, does not end with whitespace, and only whitespace was removed |
| Text.Trim | app.py:297 | definition of `strip()`: TrimRight after TrimLeft; its properties are the Text.TrimLeft, Text.TrimRight and Text.TrimLowerCommute rows |
| Text.SpacesFrom | app.py:297 | the first non-whitespace position at or after `i` (the scan that `strip` does) |
| Text.TrimLowerCommute | app.py:536 | trimming then lower-casing gives the same text as lower-casing then trimming, so the report's `strip().lower()` and the metrics' `lower().strip()` see the same value |
| Text.ContainsIffOccurs | app.py:302 | Python's `t in s` holds exactly when `t` occurs at some offset of `s` |
| Text.ContainsFromIff | app.py:302 | the search from offset `k` succeeds exactly when `t` occurs at some offset at or after `k` |
| Text.ContainsLength | app.py:303 | a pattern is found only in a text at least as long |
| Text.ContainsFirstChar | app.py:303 | a non-empty pattern is found only in a text containing its first character |
| Text.RemoveAll | app.py:481 | `replace(p, "")` never lengthens the text |
| Text.RemoveAllAbsent | app.py:481 | `replace` leaves a text lacking the pattern's first character unchanged |
| Text.NatToString | app.py:290 | `f"{idx}"` is a non-empty string of digits without a leading zero |
| Text.ParseInt | app.py:489 | definition of `int(s)` on ASCII text: surrounding whitespace, an optional sign, then digits; none stands for the ValueError; Text.ParseIntOfNat and BusReport.LocateNegativeIndexParse state its results |
| Text.ParseIntOfNat | app.py:489 | `int(...)` of the formatted index gives the index back (round trip with Text.NatToString) |
| Text.DigitsValueOfNat | app.py:489 | the digit value of the decimal text of `n` is `n` |
| Frames.IndexOf | app.py:171 | the position of the first column with that name; none exactly when the name is absent |
| Frames.IndexOfDistinct | app.py:171 | with distinct names the found column is the only one with that name |
| Frames.NormalizeText | app.py:203 | `.replace('nan', '').replace('None', '')` on a whole cell text gives `''` exactly for `''`, `'nan'` and `'None'`, and otherwise leaves the text unchanged |
| Frames.Filter | app.py:190-191 | a comprehension with a condition keeps only elements of the input that pass it |
| Frames.FilterIn | app.py:190-191 | an element is kept exactly when it is in the input and passes the test |
| Frames.FilterSubsequence | app.py:190-191 | the kept elements are a subsequence of the input, in input order |
| Frames.FilterKeepsOrder | app.py:190-191 | in a list without repetitions the kept elements keep their relative positions |
| Frames.FilterCount | app.py:316-317 | the length of a filtered list is the number of elements passing the test |
| Frames.FilterNoneFlag | app.py:293-308 | the `all_complete` / `missing.append` loop builds the filtered list and sets the flag exactly when it stays empty |
| Frames.PutSpec | app.py:314 | `d[k] = v` keeps the key order when `k` is present, else appends `(k, v)`; other entries are untouched |
| Frames.PutEntries | app.py:314 | after `d[k] = v` the dict holds `(k, v)`, no key is lost, and nothing but `(k, v)` is new |
| Frames.PutDistinct | app.py:314 | assignment never duplicates a key |
| Frames.Get | app.py:437 | `k in d` fails exactly when `k` is not a key |
| Frames.GetFound | app.py:438 | a value read back is stored under that key |
| Frames.GetPut | app.py:314 | reading a key after `d[k] = v` gives `v` for `k` and the old value for every other key |
| Frames.PutAllSpec | app.py:346-442 | a dict built by assigning a list of pairs holds each key once, and every entry is one of the pairs |
| Frames.PutAllDistinct | app.py:325-341 | pairs with distinct keys build a dict equal to the list itself |
| Frames.GetPutAll | app.py:442 | every key of the pair list can be read back, with a value paired with it in the list |
| Frames.GetPutAllOf | app.py:442 | when all pairs for a key agree on its value, the dict gives that value, and none for a key never assigned |
| Frames.KeysFilterIn | app.py:313-314 | a key survives a conditional assignment loop exactly when some pair with that key passes the condition |
| Frames.FilterKeys | normas_graficas_app/app.py:266-268 | with one pair per key, a key survives exactly when its own pair passes the condition |
| Frames.GetPutAllFilter | normas_graficas_app/app.py:260-272 | the dict filled only for pairs passing `keep` has distinct keys and gives a key's value exactly when its pair passes |
| Frames.PutAllFilterSnoc | normas_graficas_app/app.py:266-272 | one more step of the conditional assignment loop |
| Frames.CountIf | app.py:256 | a count never exceeds the number of elements |
| Frames.CountBoth | app.py:371-387 | one pass with two counters counts the elements passing each test |
| Frames.CountWhere | app.py:413-416 | one pass with a counter counts the elements passing the test |
| Frames.CountIfAll | app.py:310 | every element is counted exactly when all pass |
| Frames.CountIfNone | app.py:310 | nothing is counted exactly when none passes |
| Frames.CountIfMono | app.py:256 | a weaker test counts at least as many |
| Frames.CountIfMonoEq | app.py:256 | with `p` implying `q`, the counts agree exactly when `q` implies `p` |
| Frames.CountIfUnion | app.py:256 | inclusion-exclusion for the OR of two tests |
| Frames.CountIfComplement | app.py:386-387 | a test and its negation split the elements |
| Frames.SumBound | app.py:256 | a sum of terms at most `b` is at most `b` times the count, with equality exactly when every term is `b` |
| Sorting.Insert | app.py:1479 | inserting keeps every element (multiset) and adds one |
| Sorting.SortBy | app.py:1479 | `sorted` returns a permutation of its input |
| Sorting.SortBySorted | app.py:1479 | under a key comparison (strict weak order) the result is sorted |
| Sorting.SortByStable | app.py:1479 | stability: every tie class keeps its input order |
| Sorting.InsertSorted | app.py:1479 | inserting into a sorted list keeps it sorted |
| Sorting.InsertTies | app.py:1479 | inserting puts the new element after every element it ties with |
| Classifier.IsInstalled | app.py:298-302 | definition of the installed test: '1', 'instalada', 'instalado' or containing 'instalad'; Classifier.InstalledIff reduces it |
| Classifier.IsNotApplicable | app.py:303 | definition of the not-applicable test: containing 'no aplica' |
| Classifier.ColumnCompleted | app.py:245-256 | definition of a completed cell as the column sums test it: installed or not applicable on `str.lower()` of the cell, untrimmed; Classifier.TrimDiscrepancy contrasts it with the row-wise test |
| Classifier.RowCompleted | app.py:296-305 | definition of a completed cell as the row loops test it: installed or not applicable on `lower().strip()`; Classifier.RowCompletedIff restates it on the text |
| Classifier.InstalledIff | app.py:247-250 | the installed test is `== '1'` or contains "instalad" (the explicit spellings are subsumed) |
| Classifier.RowCompletedIff | app.py:296-308 | a row-wise cell is completed exactly when its lower-cased, trimmed text is "1" or contains "instalad" or "no aplica" |
| Classifier.ReportStatus | app.py:536-544 | the report status is one of Instalada / No Aplica / Pendiente; Instalada exactly when the installed test holds, No Aplica exactly when it fails and "no aplica" is contained |
| Classifier.ReportAgreesWithRow | app.py:536-544 | the report's status is not Pendiente exactly when the row-wise completed test holds, and is Instalada exactly when the row-wise installed test holds |
| Classifier.TrimDiscrepancy | app.py:245 | "` 1`" is completed row-wise but not column-wise: the column-wise counts do not trim |
| Schema.EnsureColumn | app.py:159-176 | an existing identity column is kept; else the first similar column is renamed in place; else `"{col}_{i}"` is appended for every row i; the table stays well formed |
| Schema.IsSimilar | app.py:162-165 | definition of the fuzzy match: 'intern' or 'numer' for 'N° Interno', 'ppu', 'paten' or 'placa' for 'PPU', on the lower-cased name; Schema.InternoNotSimilarToPpu uses it |
| Schema.IdentityColumnsPresent | app.py:159-176 | after both passes 'N° Interno' and 'PPU' are columns and the row count is unchanged |
| Schema.InternoNotSimilarToPpu | app.py:165 | the PPU fuzzy match never picks 'N° Interno', so the second pass cannot undo the first |
| Schema.NormColumnsSpec | app.py:186-191 | a column is a norm exactly when it is present, not on the deny-list, and its upper-cased name contains neither "FECHA" nor "NORMA INSTALADA"; the norms keep the column order |
| Schema.IsExcludedName | app.py:191 | definition of the name exclusion: the upper-cased name contains 'FECHA' or 'NORMA INSTALADA' |
| Schema.NormColumns | app.py:186-191 | definition of `norm_cols`; its properties are Schema.NormColumnsSpec |
| Schema.NormalizeColumn | app.py:201-203 | one norm column's cells become `str(cell)` with 'nan'/'None' blanked; every other cell is unchanged |
| Schema.NormalizeColumns | app.py:199-203 | the loop over the norm columns rewrites exactly the norm cells |
| Schema.ProcessData | app.py:154-215 | identity columns present, `cols_info` and `norm_cols` as defined, norm cells normalised, and with no norm column the resolved table is returned untouched |
| Metrics.Percent | app.py:260 | `num / den * 100` lies in [0, 100] when `num <= den`, is 100 exactly when `num == den`, 0 exactly when `num == 0`, and is 0 for `den == 0` |
| Metrics.CompletedCells | app.py:243-256 | the completed cells never exceed buses × norms |
| Metrics.CompletedCellsBound | app.py:243-266 | completed ≤ total cells, with equality exactly when every cell is completed column-wise |
| Metrics.SumCompleted | app.py:243-256 | the column loop accumulates exactly the completed cells |
| Metrics.InternoNamed | app.py:281 | both named identity columns are also found by the "INTERNO" search |
| Metrics.BusId | app.py:274-290 | definition of the bus id: non-null 'N° Interno', then non-null 'Numero Interno', then the text of the first "INTERNO" column, then `"PPU_" + PPU`, then `"Bus_" + idx`; Metrics.BusIdFromInterno and Metrics.BusIdFallback state which applies |
| Metrics.BusIdFromInterno | app.py:274-290 | once 'N° Interno' exists, the id is the text of some column named like "INTERNO" |
| Metrics.BusIdFallback | app.py:284-290 | without any "INTERNO" column the id is `"PPU_" + PPU` for a non-null PPU, else `"Bus_" + idx`; after `process_data` 'N° Interno' always exists (Schema.IdentityColumnsPresent), so in the program's flow these branches are unreachable |
| Metrics.MissingNormsSpec | app.py:296-308 | a norm is missing exactly when it is a norm the row has not completed; the list follows `norm_cols` order |
| Metrics.MissingNorms | app.py:293-308 | definition of `missing_norms` of a row; Metrics.MissingNormsSpec and Metrics.MissingNormsEmpty state its meaning |
| Metrics.MissingNormsEmpty | app.py:306-310 | a bus has no missing norm exactly when every norm cell is completed |
| Metrics.MissingOf | app.py:293-308 | the inner loop returns the missing list with `all_complete` true exactly when it is empty |
| Metrics.CollectBusRows | app.py:273-308 | the row loop computes every row's id and missing list |
| Metrics.BusCount | app.py:310-317 | `complete_buses + incomplete_buses == total_buses` |
| Metrics.BusPartition | app.py:310-313 | an id is in the complete list exactly when some row with it misses nothing, and in the incomplete list exactly when some row with it misses something |
| Metrics.StatusMapSpec | app.py:314 | `bus_completion_status` holds each key once, its keys are the incomplete ids, and each stored list is a non-empty missing list of a row with that id |
| Metrics.Partition | app.py:310-314 | the bookkeeping loop builds the two lists and the status dict |
| Metrics.PartitionBuses | app.py:269-322 | the first pass over the rows yields the complete list, the incomplete list and `bus_completion_status` |
| Metrics.CompletoExact | app.py:434-440 | a row missing nothing is in the complete list; with distinct ids, `completo` holds exactly for a row missing nothing and the stored missing list is that row's |
| Metrics.StatusLookup | app.py:437-440 | with distinct ids, a row's `normas_faltantes` is its own missing list |
| Metrics.StatusLookupComplete | app.py:439-440 | with distinct ids, a complete row has no stored missing list |
| Metrics.StatusLookupIncomplete | app.py:437-438 | with distinct ids, an incomplete row's stored list is its missing list |
| Metrics.NormProgressBounds | app.py:326-341 | per-norm progress lies in [0, 100] and is 100 exactly when every bus completed the norm; an all-"no aplica" norm is at 100 %, because the denominator is never reduced |
| Metrics.NormProgress | app.py:327-340 | definition of one norm's progress: completed cells over all buses; its bounds are Metrics.NormProgressBounds |
| Metrics.NormProgressSpec | app.py:325-343 | `norm_progress` has a single entry per norm, holding that norm's progress |
| Metrics.BuildNormProgress | app.py:325-341 | the loop builds exactly `norm_progress` |
| Metrics.CountBusNorms | app.py:367-387 | the per-bus loop counts the completed norms and the applicable norms |
| Metrics.CountInstalledOnly | app.py:411-417 | the fallback loop counts the installed norms only |
| Metrics.BusInfoBounds | app.py:366-417 | `total_norms` is the norm count, completed ≤ total, applicable + not-applicable = total, progress in [0, 100]; with at least one norm column, progress is 100 exactly when the bus misses nothing (with no norm column every bus is at 0 % and misses nothing) |
| Metrics.BusInfoOf | app.py:366-440 | definition of one bus's `bus_info`: progress, counts, PPU, renewal date, installed norms, terminal, subclass, `completo` and `normas_faltantes`; Metrics.BusInfoBounds and Metrics.CompletoExact state its meaning |
| Metrics.BusInfoAt | app.py:366-440 | the figures of one bus are `BusInfoOf` of its row |
| Metrics.BusProgressSpec | app.py:346-444 | `bus_progress` has one entry per bus id, each the figures of a row with that id (the last one when ids repeat) |
| Metrics.BuildBusProgress | app.py:346-442 | the loop builds exactly `bus_progress` |
| Metrics.CalculateMetrics | app.py:218-446 | all-zero metrics for an empty table; otherwise completed + pending = cells, complete + incomplete = buses, efficiency in [0, 100] and equal to completed over cells, and every field as the functions above define it |
| BusReport.MatchRow | app.py:469-471 | `matching_rows.iloc[0]`: the first row whose text equals the id; none exactly when no row matches |
| BusReport.Locate | app.py:466-494 | a found row is a valid row position |
| BusReport.LocateBus | app.py:467-494 | the flag-style search with `bus_row` reassigned computes the four-strategy lookup |
| BusReport.LocateInternoId | app.py:468-471 | with distinct 'N° Interno' texts, the id the metrics give a row with a non-null 'N° Interno' finds that row |
| BusReport.LocatePpuId | app.py:480-484 | without "INTERNO" columns, `"PPU_" + PPU` finds its row (distinct PPUs that do not contain "PPU_"); like the PPU and index ids themselves, unreachable after `process_data`, which always adds 'N° Interno' |
| BusReport.LocateIndexId | app.py:487-491 | without "INTERNO" columns and PPU, `"Bus_" + idx` finds row idx; like the PPU and index ids themselves, unreachable after `process_data`, which always adds 'N° Interno' |
| BusReport.LocateNegativeIndex | app.py:489-491 | "Bus_-1" reaches the last row, because `iloc` counts negative positions from the end |
| BusReport.LocateIndexTooNegative | app.py:491 | "Bus_-1" on an empty table raises an `IndexError`, which leads to the error report |
| BusReport.LocateNegativeIndexParse | app.py:489 | `int("-1")` parses after removing the "Bus_" prefix |
| BusReport.RemovePrefix | app.py:481 | removing a non-empty prefix that does not occur in the rest gives the rest back |
| BusReport.NullInternoCollapse | app.py:283 | two rows with null 'N° Interno' both get the id "nan", and the report for "nan" shows the first row |
| BusReport.InfoValue | app.py:523-530 | a field's value comes from its first candidate that is a column ('N/A' when null), or is 'N/A' when no candidate is present |
| BusReport.InfoFrom | app.py:523 | the candidate search from the `k`-th candidate on |
| BusReport.FieldValue | app.py:523-530 | the candidate loop computes InfoValue |
| BusReport.StatusFor | app.py:535-546 | definition of one norm's status: the report classifier on the cell when the column exists, else 'No Disponible'; BusReport.FoundStatusSpec states its meaning |
| BusReport.ReportProgress | app.py:550-559 | definition of the report's progress: installed over required, or 100 when nothing is required; BusReport.ReportProgressBounds states its bounds |
| BusReport.FoundReport | app.py:504-559 | definition of the report for a found row: `bus_info`, `norm_status` and the progress |
| BusReport.NotFoundReport | app.py:496-501 | definition of the not-found report; BusReport.NotFoundReportSpec states its contents |
| BusReport.ErrorReport | app.py:561-568 | definition of the report after an exception: the id, 'N/A', the error text, every norm 'Error' and progress 0; BusReport.GenerateBusReport returns it for an out-of-range `iloc` |
| BusReport.BuildInfo | app.py:504-530 | `bus_info` starts with the id and assigns every field in order |
| BusReport.BuildStatus | app.py:533-548 | the loop builds exactly `norm_status` |
| BusReport.FoundStatusSpec | app.py:533-548 | `norm_status` keys are the requested norms, each once, with its status; an absent column is 'No Disponible'; a present one is not 'Pendiente' exactly when completed row-wise |
| BusReport.FoundReportStatuses | app.py:536-546 | a found report uses only the four statuses Instalada, No Aplica, Pendiente and No Disponible |
| BusReport.PlaceholderSpec | app.py:501 | every requested norm has the placeholder status |
| BusReport.NotFoundReportSpec | app.py:496-501 | the not-found report names the bus, has an 'Error' key, marks every norm 'Desconocido' and has progress 0 |
| BusReport.ReportProgressBounds | app.py:550-559 | progress lies in [0, 100], is 100 exactly when every required norm is installed (so also when none is required), and 0 exactly when some are required and none is installed |
| BusReport.GenerateBusReport | app.py:464-568 | not found gives the placeholder, an `iloc` error gives the error report, found gives the row's report; progress always in [0, 100] |
| BusReport.StatusesMatchRow | app.py:550-556 | every required norm is installed exactly when every norm cell is completed row-wise |
| BusReport.ReportAgreesWithMetrics | app.py:550-556 | with distinct norms, the report's 100 % holds exactly when the metrics find nothing missing, although the two denominators differ |
| BusReport.InGroup | app.py:633-635 | with distinct norms, a norm is in a status group exactly when its status is that one |
| BusReport.StatusCounts | app.py:633-635 | the four status groups count every norm once |
| BusReport.StatusGroups | app.py:633-635 | the pending, installed and not-applicable lists plus the unavailable norms split the norms: the sizes add up, a norm is in a group exactly when it has that status, and in no two groups |
| Dashboard.CellsWhere | app.py:731-740 | the cells passing a test never exceed rows × norms |
| Dashboard.InstalledPlusNotApplicable | app.py:731-742 | installed + not-applicable counts = completed cells + cells matching both |
| Dashboard.InstalledPlusOnlyNotApplicable | app.py:731-742 | installed + only-not-applicable = completed cells |
| Dashboard.GlobalPie | app.py:726-742 | the pie's slices as the loop accumulates them, with pending = total − installed − not applicable |
| Dashboard.ExclusivePie | app.py:731-742 | definition of the corrected pie, with the not-applicable slice taken only over cells that are not installed; Dashboard.ExclusivePieSpec states its meaning |
| Dashboard.PieOverlap | app.py:742 | the pie's pending slice is the metrics' pending count minus the cells matching both tests |
| Dashboard.NegativePending | app.py:742 | one cell "instalada no aplica" makes the pending slice −1 |
| Dashboard.SampleIsBoth | app.py:734-740 | "instalada no aplica" passes both column-wise tests and counts as completed row-wise |
| Dashboard.ExclusivePieSpec | app.py:742 | with the not-applicable count taken after the installed test, the slices add up to the cell count, and pending is non-negative and equals the metrics' pending count |
| Dashboard.GroupRows | app.py:775 | `df[df[col] == value]`: a well-formed table of some of the rows |
| Dashboard.RequiredZeroIff | app.py:793 | `required == 0` exactly when every norm cell of the group contains "no aplica" |
| Dashboard.TerminalProgress | app.py:779-796 | definition of a terminal's progress: installed over required, none (the terminal is skipped) when nothing is required |
| Dashboard.SubclassProgress | app.py:1013-1027 | definition of a subclass's progress: installed over required, 0 when nothing is required; Dashboard.GroupProgressBounds and Dashboard.ProgressAbove100 state its range |
| Dashboard.GroupProgressAgree | app.py:793-796 | the terminal and subclass helpers agree when something is required; otherwise the terminal is dropped and the subclass shows 0 |
| Dashboard.GroupProgressBounds | app.py:1026-1027 | without cells matching both tests, a group's progress lies in [0, 100]; when something is required, it is 100 exactly when every cell is completed (a group of only 'no aplica' cells is completed and shows 0) |
| Dashboard.ProgressAbove100 | app.py:1026-1027 | one bus with "instalada no aplica" and "1" shows 200 % in the subclass chart |
| Dashboard.ExclusiveGroupProgress | app.py:1013-1027 | definition of the corrected group progress, with the exclusive not-applicable count; Dashboard.ExclusiveGroupProgressBounds states its range |
| Dashboard.ExclusiveGroupProgressBounds | app.py:1026-1027 | the group progress with the exclusive not-applicable count always lies in [0, 100]; when something is required, it is 100 exactly when every cell is completed |
| Dashboard.PresentValuesIn | app.py:770 | `dropna()` keeps exactly the non-null values |
| Dashboard.Unique | app.py:770 | `unique()` holds each value once |
| Dashboard.UniqueIn | app.py:770 | `unique()` keeps every value of the input and adds none |
| Dashboard.EntriesSpec | app.py:769-796 | the progress dict has each value with a figure once, holding that figure, and nothing else |
| Dashboard.BuildEntries | app.py:770-796 | the dict-filling loop builds Entries |
| Dashboard.TerminalColumnSpec | app.py:759-766 | a terminal column is found exactly when some column is 'Terminal' or contains "term"; the found one is such a column |
| Dashboard.TerminalProgressMap | app.py:769-796 | `terminal_progress` is the entries of the non-empty terminals that require something |
| Dashboard.SubclassProgressMap | app.py:1007-1028 | `subclass_progress` is the entries of every non-null subclass |
| Dashboard.TerminalMapSpec | app.py:769-796 | a terminal is charted once, exactly when it is a non-empty value of the column whose rows require something, with those rows' progress |
| Dashboard.SubclassMapSpec | app.py:1007-1028 | every non-null subclass is charted once, with its group's progress |
| Dashboard.BumpSpec | app.py:1472-1475 | one `+= 1` / `= 1` step keeps the keys distinct and changes only the bumped norm's count |
| Dashboard.Tally | app.py:1469-1475 | definition of the tally of a list of names, one `+= 1` / `= 1` step per name; Dashboard.TallySpec states its meaning |
| Dashboard.BumpOne | app.py:1472-1475 | the loop body performs one tally step |
| Dashboard.BumpAll | app.py:1471-1475 | the inner loop tallies one bus's missing list on top of the counts so far |
| Dashboard.TallyMissing | app.py:1469-1475 | `normas_faltantes_conteo` is the tally of all missing lists, in dict order |
| Dashboard.TallyDistinct | app.py:1469-1475 | the tally never holds a norm twice |
| Dashboard.TallyGet | app.py:1469-1475 | a norm's tally is its number of occurrences, and absent when it never occurs |
| Dashboard.TallySpec | app.py:1469-1475 | the tally holds each norm once, with the number of times it occurs |
| Dashboard.TallyCountsBuses | app.py:1470-1475 | when no missing list repeats a norm, its tally is the number of buses missing it |
| Dashboard.OccurrencesDistinct | app.py:1471 | a norm occurs at most once in a list without repetitions |
| Dashboard.ByCountDescOrder | app.py:1479 | `key=count, reverse=True` is a strict weak order |
| Dashboard.TopMissing | app.py:1479-1489 | definition of `normas_sorted[:10]`; Dashboard.TopMissingSpec states its meaning |
| Dashboard.TopMissingSpec | app.py:1479-1489 | the ranking is a permutation of the tally, by non-increasing count, ties in tally order; the top ten are its first `min(10, n)` entries and none of the rest has a higher count |
| Dashboard.Bucket | app.py:1320-1330 | a progress falls into one of the five ranges |
| Dashboard.BucketSpec | app.py:1320-1330 | a higher progress never falls into a lower range, and a progress lies at or above its range's floor and below the next one |
| Dashboard.CountRanges | app.py:1311-1330 | the loop counts, for each range, the buses falling into it |
| Dashboard.RangesCover | app.py:1320-1330 | every bus is counted in exactly one range |
| Dashboard.FilterBusesSpec | app.py:1706-1711 | 'Todos' keeps the list; each filter keeps a subsequence, exactly the entries passing it; Completos and Incompletos split a list with progress ≤ 100; every critical bus is incomplete |
| Dashboard.FilterBuses | app.py:1706-1711 | definition of the bus-list filter: 'Todos' keeps the list, otherwise the entries passing the chosen test; Dashboard.FilterBusesSpec states its meaning |
| Dashboard.LexTotal | app.py:1714 | Python's string `<` is total |
| Dashboard.LexTransitive | app.py:1714 | Python's string `<` is transitive |
| Dashboard.OrderIsStrictWeak | app.py:1713-1718 | each of the three sort keys is a strict weak order |
| Dashboard.SortBusesSpec | app.py:1713-1718 | each sort order keeps the buses, sorts them and leaves ties in list order |
| Dashboard.SortBuses | app.py:1713-1718 | definition of `bus_list.sort(...)` for each sort option; Dashboard.SortBusesSpec states its meaning |
| Dashboard.ConcatChunks | app.py:1721 | the first `m` pages concatenated are the first `10 m` buses |
| Dashboard.ChunksSpec | app.py:1721 | the pages concatenated give the list; every page holds 1 to 10 buses, all but the last exactly 10; page `k` starts at bus `10 k` |
| Graficas.PrepCell | normas_graficas_app/app.py:148-153 | after `astype(str)` and `replace('nan', '')` no cell reads 'nan'; the two numeric columns keep their nulls; other cells are unchanged |
| Graficas.EsUno | normas_graficas_app/app.py:191 | definition of the installed counter's test: `str(val).strip() == '1'` |
| Graficas.EsNoAplica | normas_graficas_app/app.py:194 | definition of the not-applicable counter's test with the trim first; Graficas.EsNoAplicaAsWritten shows it equals `lower().strip()` |
| Graficas.EsVacia | normas_graficas_app/app.py:197 | definition of the blank counter's test: `str(val).strip() == ''`; Graficas.CellTestsDisjoint shows the three tests exclusive |
| Graficas.Preparar | normas_graficas_app/app.py:148-153 | the whole table after both rewrites: same shape, no 'nan' text anywhere |
| Graficas.EsNoAplicaAsWritten | normas_graficas_app/app.py:194 | the model's trim-then-lower test equals the source's `lower().strip() == 'no aplica'` |
| Graficas.CellTestsDisjoint | normas_graficas_app/app.py:190-197 | no cell passes two of the three exact-match tests |
| Graficas.CountIfDisjoint3 | normas_graficas_app/app.py:190-197 | three pairwise exclusive tests count each element at most once |
| Graficas.ColumnasNormasSpec | normas_graficas_app/app.py:181 | a column is a norm exactly when it is present and not on the info list; the norms keep the column order and have no repetitions |
| Graficas.ColumnasNormas | normas_graficas_app/app.py:181 | definition of `columnas_normas`; Graficas.ColumnasNormasSpec states its meaning |
| Graficas.ColumnasInfoEnApp | normas_graficas_app/app.py:177-179 | this info list is app.py's list less 'CALL CENTER' |
| Graficas.ColumnasNormasVsApp | normas_graficas_app/app.py:181 | every norm column of app.py is one here, and 'CALL CENTER' is a norm column here only |
| Graficas.ColumnasNormasIn | normas_graficas_app/app.py:181 | the norm columns are columns of the table |
| Graficas.NoAplicaFila | normas_graficas_app/app.py:193-194 | a bus's 'no aplica' count never exceeds its number of norms |
| Graficas.ConteosFila | normas_graficas_app/app.py:190-197 | a bus's three counts add up to at most its number of norms |
| Graficas.Avance | normas_graficas_app/app.py:200-207 | installed over applicable × 100 lies in [0, 100]; it is 0 when nothing is applicable, 100 exactly when something is applicable and all of it is installed, and 0 exactly when nothing is installed |
| Graficas.FigurasSpec | normas_graficas_app/app.py:187-200 | a bus's counts never exceed its norm count, and applicable = total − not applicable |
| Graficas.FigurasDe | normas_graficas_app/app.py:187-207 | definition of one bus's figures: norm count, the three counts, applicable norms and progress; Graficas.FigurasSpec and Graficas.PorcentajeSpec state its meaning |
| Graficas.PorcentajeSpec | normas_graficas_app/app.py:200-207 | a bus's progress lies in [0, 100], is 0 when nothing is applicable, otherwise installed over applicable, and is 100 exactly when all applicable norms are installed |
| Graficas.Derivar | normas_graficas_app/app.py:199-207 | the derived columns, with the `df.loc[...] = 0` overwrite and the `inf`/`NaN` replacement, give each bus the figures of its three counts |
| Graficas.CalcularMetricas | normas_graficas_app/app.py:172-209 | the norm columns and, for every bus, the counts and derived figures of its row |
| Graficas.ProcesarArchivo | normas_graficas_app/app.py:147-169 | the empty frame exactly when a required column is missing; otherwise the rewritten table with its figures |
| Graficas.PorcentajeFlotaSpec | normas_graficas_app/app.py:220-222 | the fleet share lies in [0, 100]; it is 0 for no buses, 100 exactly when no bus has a blank norm, and 0 exactly when every bus has one |
| Graficas.PorcentajeFlota | normas_graficas_app/app.py:220-222 | definition of the fleet share of buses without blanks; Graficas.PorcentajeFlotaSpec states its range |
| Graficas.DistribucionSpec | normas_graficas_app/app.py:225-228 | the three status totals add up to at most norms × buses |
| Graficas.NoAplicaColumna | normas_graficas_app/app.py:263 | a column's 'no aplica' count never exceeds the bus count |
| Graficas.ConteosColumna | normas_graficas_app/app.py:262-263 | a column's three counts add up to at most the bus count |
| Graficas.FaltanteSpec | normas_graficas_app/app.py:262-272 | blanks ≤ applicable, the missing share lies in [0, 100], and is 100 exactly when every applicable bus has it blank |
| Graficas.FaltanteDe | normas_graficas_app/app.py:262-270 | definition of one norm's shortfall entry: blanks, applicable buses and their share; Graficas.FaltanteSpec states its range |
| Graficas.ContarFaltante | normas_graficas_app/app.py:262-264 | one pass counts the blank cells and the applicable buses of a norm |
| Graficas.NormasFaltantes | normas_graficas_app/app.py:258-272 | the loop fills the dict only for norms with an applicable bus |
| Graficas.NormasFaltantesSpec | normas_graficas_app/app.py:258-272 | the dict holds exactly the norms with at least one applicable bus, each once, with its blank count, applicable count and share |
| Graficas.ByCantidadDescOrder | normas_graficas_app/app.py:275 | `key=cantidad, reverse=True` is a strict weak order |
| Graficas.TopFaltantesSpec | normas_graficas_app/app.py:275-276 | the ranking is a permutation by non-increasing blank count, ties in dict order; the top ten are its first `min(10, n)` entries and none of the rest has more blanks |
| Graficas.TopFaltantes | normas_graficas_app/app.py:275-276 | definition of the sorted shortfall list's first ten; Graficas.TopFaltantesSpec states its meaning |
| Graficas.AnalisisSpec | normas_graficas_app/app.py:704-708 | a norm's three counts add up to at most the rows; "% Avance" lies in [0, 100], is 0 when no row is applicable, and is 100 exactly when every applicable row reads '1' |
| Graficas.AnalisisDe | normas_graficas_app/app.py:704-716 | definition of one norm's analysis row; Graficas.AnalisisSpec states its meaning |
| Graficas.AnalizarNorma | normas_graficas_app/app.py:704-716 | one loop pass builds the norm's analysis row |
| Graficas.AnalizarNormas | normas_graficas_app/app.py:702-716 | the loop builds one row per norm, in norm order |
| Graficas.OrdenPorAvance | normas_graficas_app/app.py:719 | `sort_values("% Avance")` keeps the rows and orders them by non-decreasing progress |
| Graficas.NoAplicaText | normas_graficas_app/app.py:194 | the cell 'no aplica' passes this variant's test and is No Aplica in the report of app.py |
| Graficas.BadgeAgreesWithCounters | normas_graficas_app/app.py:505-512 | the badge is INSTALADA exactly when the '1' counter counts the cell, and NO APLICA exactly when the 'no aplica' counter does; a blank cell is PENDIENTE |
| Graficas.EstadoBadge | normas_graficas_app/app.py:505-512 | definition of `get_estado_badge` on `strip().lower()`; Graficas.BadgeAgreesWithCounters relates it to the counters |
| Graficas.FiltrarSpec | normas_graficas_app/app.py:582-593 | a bus is kept exactly when it passes the terminal test (unless "Todos"), the subclass test (unless "Todos" or there is no subclass column) and `lo <= avance <= hi` |
| Graficas.Filtrar | normas_graficas_app/app.py:582-593 | definition of `df_filtrado` as the row positions it keeps; Graficas.FiltrarSpec and Graficas.FiltrarOrden state its meaning |
| Graficas.FiltrarOrden | normas_graficas_app/app.py:582-593 | the kept buses keep table order, each once |
| Graficas.FiltrarTodos | normas_graficas_app/app.py:582-593 | the default filters keep every bus |
| Graficas.Seleccion | normas_graficas_app/app.py:590-593 | the filtered frame holds the kept rows, in order |
| Graficas.SeleccionConservaFiguras | normas_graficas_app/app.py:590-593 | recomputing a bus's figures on the filtered frame gives the figures of its original row |
| Graficas.EstadoSpec | normas_graficas_app/app.py:831-835 | Completo exactly when no norm is missing; Crítico is upward-closed in the missing count; some listed bus is not Crítico, because not every value lies above the exact mean `Sum / len` |
| Graficas.Media | normas_graficas_app/app.py:833 | definition of `df_filtrado['normas_faltantes'].mean()` as the exact real quotient `Sum / len`, over a non-empty list because the page stops when no bus is kept (normas_graficas_app/app.py:596-598) |
| Graficas.EstadoDe | normas_graficas_app/app.py:831-835 | definition of one bus's Estado; Graficas.EstadoSpec states its meaning |
| Graficas.Estados | normas_graficas_app/app.py:831-835 | one Estado per listed bus |
| Graficas.AllNotApplicableHere | normas_graficas_app/app.py:204 | a bus whose norms all read 'no aplica' is at 0 % in this variant |
| Graficas.AllNotApplicableReport | app.py:552-554 | the same bus is at 100 % in app.py's report |

Some functions have no row here. They stand for a pandas or Python view of the data, and
their contracts only give the length and the element at each position:
`Text.Lower` and `Text.Upper` (`str.lower`/`str.upper`), `Frames.Map`, `Frames.Keys` and
`Frames.Values` (`d.keys()`/`d.values()`), `Sorting.Take` (`lst[:n]`),
`Metrics.ColumnCells` and `BusReport.ColumnTexts` (`df[col]`), `Metrics.RowCells`
(`row[c] for c in norm_cols`), `Metrics.ColumnCounts` and `Dashboard.CountsBy` (per-column
sums), `Metrics.BusRows`, `Metrics.NormProgressPairs`, `Metrics.BusProgressPairs`,
`BusReport.InfoPairs`, `BusReport.StatusPairs`, `BusReport.Placeholder`,
`Graficas.FaltantePares` (the pairs a dict-filling loop assigns), `Graficas.ColumnaFaltantes`
(`df['normas_faltantes']`) and `Dashboard.Chunks` (the page list). What they mean is stated
by the rows of Metrics.CompletedCellsBound, Metrics.BusPartition, Metrics.NormProgressSpec,
Metrics.BusProgressSpec, BusReport.FoundStatusSpec, BusReport.PlaceholderSpec,
Dashboard.TopMissingSpec, Dashboard.ChunksSpec and Graficas.NormasFaltantesSpec.

## Left out

- **Out of scope.** Streamlit layout, widgets, session state and caching are not modelled. Neither are the Plotly/Altair/matplotlib charts, the HTML report, the download links or the Excel/CSV export. These are presentation.
- **File loading.** `pd.read_excel` and the header-row retry are file I/O. The loaded table is a parameter. Only the `'nan'`/`'None'` cell rewrites are modelled.
- **Fake data.** The simulated trend and projection of the second variant are not modelled. They are fake data built with floats and date arithmetic.
- **Floating point.**
  - `round(..., 2)` is not modelled.
  - Floats are exact `real`s.
  - `.mean()` is the exact real quotient of the sum by the count (`Graficas.Media`).
  - `np.inf`/`NaN` appear only as a `NotFinite` ratio that `Graficas.Derivar` replaces.
- **Exceptions.**
  - The `try/except` fallbacks are left out, and the functions are total.
  - The one exception the model can reach is kept: `iloc` with an index below `-len(df)` in the report lookup (`BusReport.Lookup.Raised`). It leads to the error report.
- **Informational output.** `process_data`'s display of unique values (app.py:205-213) is not modelled. It has no effect on the result.
- **Bus-list columns.** The bus-list table columns other than Estado (renaming, PPU, terminal) are not modelled. They are copies of the figures.
- **Cell type.** Every cell is an optional string. Numbers read by pandas are represented by their `str()` text, so `1.0` versus `1` formatting is not modelled.
- Text.Lower: lower-cases ASCII and Latin-1 letters only, not full Unicode.
- Text.Upper: upper-cases ASCII and Latin-1 small letters one for one. It leaves ß, ÿ, µ and every character outside Latin-1 unchanged, where Python's `str.upper` maps ß to "SS", ÿ to "Ÿ", µ to "Μ" and ſ to "S". A column name with such a character can therefore be excluded by app.py:191 or found by the "INTERNO" search of app.py:281 while the model disagrees (Schema.IsExcludedName, Metrics.InternoColumns).
- Text.RemoveAll: states only that the length does not grow; round trips are stated in BusReport.RemovePrefix and BusReport.RemoveAllNone.
- Metrics.BusId: the table carries no pandas index, so the `idx` of `df.iterrows()` in `f"Bus_{idx}"` (app.py:290) is modelled as the row position, as for a default RangeIndex. On a frame that `main` has filtered, the source's label differs from the position, and `df.iloc[idx]` (app.py:491) reads it as a position; the round trip that BusReport.LocateIndexId proves then does not hold in the source. After `process_data` the branch is unreachable, because 'N° Interno' always exists.
- Metrics.BusIdFallback: the `"Bus_" + idx` case uses the row position for `idx`, as described under Metrics.BusId.
- BusReport.LocateIndexId: the round trip holds for a RangeIndex only; on a filtered frame the source's `"Bus_"` label and the positional `iloc` disagree, as described under Metrics.BusId.
- Metrics.CompletedCells: states only the bound; the equality case is in Metrics.CompletedCellsBound.
- BusReport.Locate: states only that a found row is valid; what each strategy finds is proved in BusReport.LocateInternoId, BusReport.LocatePpuId, BusReport.LocateIndexId and BusReport.LocateNegativeIndex.
- Frames.CountIf: states only the bound; exact counts are the lemmas beside it.
- Dashboard.Unique: states distinctness; membership is Dashboard.UniqueIn.
- Graficas.Estados: states only the length; each element is `EstadoDe` of that bus, whose properties are Graficas.EstadoSpec.

## Findings

| source | as written | input that shows it | evidently intended | confidence | as-written member | corrected member |
|---|---|---|---|---|---|---|
| app.py:731-742 | `pendientes = total_normas - instaladas - no_aplica`, with the two counts taken independently | one norm cell "instalada no aplica": installed 1, not applicable 1, pending −1 | count not-applicable only for cells that are not installed, so the slices add up to the cells and pending is never negative | not executed | Dashboard.NegativePending | Dashboard.ExclusivePieSpec |
| app.py:1017-1027 | `required = total - not_applicable`, with not-applicable counted whether or not the cell is also installed | one bus, norms "instalada no aplica" and "1": installed 2, required 1, progress 200 % | progress within [0, 100]: count not-applicable only for cells that are not installed | not executed | Dashboard.ProgressAbove100 | Dashboard.ExclusiveGroupProgressBounds |
