/** `calculate_metrics` of app.py (app.py:218-461): fleet efficiency, the complete /
    incomplete partition of the buses, their missing norms, per-norm and per-bus progress. */
module Metrics {
  import opened Text
  import opened Frames
  import opened Classifier
  import opened Schema

  /** The norm columns handed to the engine are columns of the table. */
  predicate NormsIn(t: Table, cols: seq<string>) {
    forall j :: 0 <= j < |cols| ==> cols[j] in t.columns
  }

  /** `num / den * 100`, and 0 when the denominator is 0. */
  function Percent(num: nat, den: nat): (r: real)
    ensures 0.0 <= r
    ensures num <= den ==> r <= 100.0
    ensures den > 0 ==> (r == 100.0 <==> num == den)
    ensures den > 0 ==> (r == 0.0 <==> num == 0)
    ensures den == 0 ==> r == 0.0
  {
    if den > 0 then
      var r := (num as real) / (den as real) * 100.0;
      assert r * (den as real) == (num as real) * 100.0;
      r
    else 0.0
  }

  /** `df[c]`. */
  function ColumnCells(t: Table, c: string): (r: seq<Cell>)
    requires WellFormed(t) && c in t.columns
    ensures |r| == |t.rows|
    ensures forall i :: 0 <= i < |t.rows| ==> r[i] == CellAt(t, i, c)
  {
    seq(|t.rows|, i requires 0 <= i < |t.rows| => CellAt(t, i, c))
  }

  /** `row[c] for c in cols`. */
  function RowCells(t: Table, i: nat, cols: seq<string>): (r: seq<Cell>)
    requires WellFormed(t) && i < |t.rows| && NormsIn(t, cols)
    ensures |r| == |cols|
    ensures forall j :: 0 <= j < |cols| ==> r[j] == CellAt(t, i, cols[j])
  {
    seq(|cols|, j requires 0 <= j < |cols| => CellAt(t, i, cols[j]))
  }

  /** `(is_installed | is_not_applicable).sum()` for one norm (app.py:245-253, 330-337). */
  function ColumnCompletedCount(t: Table, c: string): nat
    requires WellFormed(t) && c in t.columns
  {
    CountIf(ColumnCells(t, c), ColumnCompleted)
  }

  /** The per-norm completed counts, in `norm_cols` order. */
  function ColumnCounts(t: Table, cols: seq<string>): (r: seq<nat>)
    requires WellFormed(t) && NormsIn(t, cols)
    ensures |r| == |cols|
    ensures forall j :: 0 <= j < |cols| ==> r[j] == ColumnCompletedCount(t, cols[j])
  {
    seq(|cols|, j requires 0 <= j < |cols| => ColumnCompletedCount(t, cols[j]))
  }

  /** `completed_cells` after the loop of app.py:243-256. */
  function CompletedCells(t: Table, cols: seq<string>): (n: nat)
    requires WellFormed(t) && NormsIn(t, cols)
    ensures n <= |t.rows| * |cols|
  {
    var counts := ColumnCounts(t, cols);
    SumBound(counts, |t.rows|);
    Sum(counts)
  }

  /** At most every cell counts towards the efficiency, and all of them do exactly when
      every norm column is fully completed, column-wise. */
  lemma CompletedCellsBound(t: Table, cols: seq<string>)
    requires WellFormed(t) && NormsIn(t, cols)
    ensures CompletedCells(t, cols) <= |t.rows| * |cols|
    ensures CompletedCells(t, cols) == |t.rows| * |cols| <==>
      forall j, i :: 0 <= j < |cols| && 0 <= i < |t.rows| ==> ColumnCompleted(CellAt(t, i, cols[j]))
  {
    var counts := ColumnCounts(t, cols);
    SumBound(counts, |t.rows|);
    forall j | 0 <= j < |cols|
      ensures counts[j] == |t.rows| <==> forall i :: 0 <= i < |t.rows| ==> ColumnCompleted(CellAt(t, i, cols[j]))
    {
      CountIfAll(ColumnCells(t, cols[j]), ColumnCompleted);
    }
  }

  // ---------------------------------------------------------------------------
  // Bus identity (app.py:274-290, repeated at 343-359).

  predicate NamesInterno(c: string) {
    Contains(Upper(c), "INTERNO")
  }

  /** `interno_cols`: the columns whose upper-cased name contains "INTERNO". */
  function InternoColumns(cols: seq<string>): seq<string> {
    Filter(cols, NamesInterno)
  }

  /** Both named identity columns are also found by the "INTERNO" search. */
  lemma InternoNamed()
    ensures NamesInterno(Interno) && NamesInterno(NumeroInterno)
  {
    var u := Upper(Interno);
    assert u[3..10] == "INTERNO";
    OccursContains(u, "INTERNO", 3);
    var v := Upper(NumeroInterno);
    assert v[7..14] == "INTERNO";
    OccursContains(v, "INTERNO", 7);
  }

  /** The bus id of row `i`: the first of non-null 'N° Interno', non-null 'Numero Interno',
      the first "INTERNO" column (null printing as "nan"), "PPU_" + PPU, "Bus_" + index. */
  function BusId(t: Table, i: nat): string
    requires WellFormed(t) && i < |t.rows|
  {
    if Interno in t.columns && CellAt(t, i, Interno).Some? then CellAt(t, i, Interno).value
    else if NumeroInterno in t.columns && CellAt(t, i, NumeroInterno).Some? then CellAt(t, i, NumeroInterno).value
    else
      var ic := InternoColumns(t.columns);
      if ic != [] then CellText(CellAt(t, i, ic[0]))
      else if Ppu in t.columns && CellAt(t, i, Ppu).Some? then "PPU_" + CellAt(t, i, Ppu).value
      else "Bus_" + NatToString(i)
  }

  /** Once 'N° Interno' exists (as it does after `process_data`), the id is always the text
      of a column named like "INTERNO": the PPU and index fallbacks are never reached. */
  lemma BusIdFromInterno(t: Table, i: nat)
    requires WellFormed(t) && i < |t.rows| && Interno in t.columns
    ensures exists k :: 0 <= k < |t.columns| && NamesInterno(t.columns[k]) && BusId(t, i) == CellText(t.rows[i][k])
  {
    InternoNamed();
    var id := BusId(t, i);
    if CellAt(t, i, Interno).Some? {
      var k := IndexOf(t.columns, Interno).value;
      assert NamesInterno(t.columns[k]) && id == CellText(t.rows[i][k]);
    } else if NumeroInterno in t.columns && CellAt(t, i, NumeroInterno).Some? {
      var k := IndexOf(t.columns, NumeroInterno).value;
      assert NamesInterno(t.columns[k]) && id == CellText(t.rows[i][k]);
    } else {
      var ic := InternoColumns(t.columns);
      FilterIn(t.columns, NamesInterno, Interno);
      var k := IndexOf(t.columns, ic[0]).value;
      assert NamesInterno(t.columns[k]) && id == CellText(t.rows[i][k]);
    }
  }

  /** Without any "INTERNO" column the id is "PPU_" + a non-null PPU, else "Bus_" + index. */
  lemma BusIdFallback(t: Table, i: nat)
    requires WellFormed(t) && i < |t.rows| && InternoColumns(t.columns) == []
    ensures BusId(t, i) ==
      if Ppu in t.columns && CellAt(t, i, Ppu).Some? then "PPU_" + CellAt(t, i, Ppu).value
      else "Bus_" + NatToString(i)
  {
    InternoNamed();
    FilterIn(t.columns, NamesInterno, Interno);
    FilterIn(t.columns, NamesInterno, NumeroInterno);
  }

  // ---------------------------------------------------------------------------
  // Missing norms of one bus (app.py:292-322).

  function MissingTest(t: Table, i: nat): string -> bool
    requires WellFormed(t) && i < |t.rows|
  {
    c => c in t.columns && !RowCompleted(CellAt(t, i, c))
  }

  /** `missing_norms` of row `i`. */
  function MissingNorms(t: Table, i: nat, cols: seq<string>): seq<string>
    requires WellFormed(t) && i < |t.rows|
  {
    Filter(cols, MissingTest(t, i))
  }

  /** The missing list holds exactly the norms the row has not completed, row-wise, in
      `norm_cols` order. */
  lemma MissingNormsSpec(t: Table, i: nat, cols: seq<string>, c: string)
    requires WellFormed(t) && i < |t.rows| && NormsIn(t, cols)
    ensures c in MissingNorms(t, i, cols) <==> c in cols && !RowCompleted(CellAt(t, i, c))
    ensures IsSubsequence(MissingNorms(t, i, cols), cols)
  {
    FilterSubsequence(cols, MissingTest(t, i));
    FilterIn(cols, MissingTest(t, i), c);
  }

  /** A bus has no missing norm exactly when it completed all of them. */
  lemma MissingNormsEmpty(t: Table, i: nat, cols: seq<string>)
    requires WellFormed(t) && i < |t.rows| && NormsIn(t, cols)
    ensures MissingNorms(t, i, cols) == [] <==> CountIf(RowCells(t, i, cols), RowCompleted) == |cols|
  {
    var cells := RowCells(t, i, cols);
    CountIfAll(cells, RowCompleted);
    if MissingNorms(t, i, cols) != [] {
      var c := MissingNorms(t, i, cols)[0];
      var j :| 0 <= j < |cols| && cols[j] == c;
      assert !RowCompleted(cells[j]);
    }
    if exists j :: 0 <= j < |cols| && !RowCompleted(cells[j]) {
      var j :| 0 <= j < |cols| && !RowCompleted(cells[j]);
      FilterIn(cols, MissingTest(t, i), cols[j]);
    }
  }

  /** The inner loop of app.py:296-308. */
  method MissingOf(t: Table, i: nat, cols: seq<string>) returns (allComplete: bool, missing: seq<string>)
    requires WellFormed(t) && i < |t.rows| && NormsIn(t, cols)
    ensures missing == MissingNorms(t, i, cols)
    ensures allComplete <==> missing == []
  {
    allComplete, missing := FilterNoneFlag(cols, MissingTest(t, i));
  }

  // ---------------------------------------------------------------------------
  // The partition of the buses (app.py:271-327).

  /** Each row's bus id and missing list, in row order. */
  function BusRows(t: Table, cols: seq<string>): (r: seq<(string, seq<string>)>)
    requires WellFormed(t)
    ensures |r| == |t.rows|
    ensures forall i :: 0 <= i < |t.rows| ==> r[i] == (BusId(t, i), MissingNorms(t, i, cols))
  {
    seq(|t.rows|, i requires 0 <= i < |t.rows| => (BusId(t, i), MissingNorms(t, i, cols)))
  }

  predicate IsComplete(e: (string, seq<string>)) {
    e.1 == []
  }

  predicate IsIncomplete(e: (string, seq<string>)) {
    e.1 != []
  }

  /** `buses_complete`. */
  function CompleteIds(rs: seq<(string, seq<string>)>): seq<string> {
    Keys(Filter(rs, IsComplete))
  }

  /** `buses_incomplete`. */
  function IncompleteIds(rs: seq<(string, seq<string>)>): seq<string> {
    Keys(Filter(rs, IsIncomplete))
  }

  /** `bus_completion_status`: assigned for incomplete buses only. */
  function StatusMap(rs: seq<(string, seq<string>)>): seq<(string, seq<string>)> {
    PutAll(Filter(rs, IsIncomplete))
  }

  /** Every bus lands in exactly one of the two lists; a list holds the ids of exactly the
      rows with (complete) or without (incomplete) an empty missing list. */
  /** Every bus is counted once, as complete or as incomplete. */
  lemma BusCount(rs: seq<(string, seq<string>)>)
    ensures |CompleteIds(rs)| + |IncompleteIds(rs)| == |rs|
  {
    FilterCount(rs, IsComplete);
    FilterCount(rs, IsIncomplete);
    CountIfComplement(rs, IsComplete, IsIncomplete);
  }

  lemma BusPartition(rs: seq<(string, seq<string>)>, id: string)
    ensures |CompleteIds(rs)| + |IncompleteIds(rs)| == |rs|
    ensures id in CompleteIds(rs) <==> exists j :: 0 <= j < |rs| && rs[j].0 == id && rs[j].1 == []
    ensures id in IncompleteIds(rs) <==> exists j :: 0 <= j < |rs| && rs[j].0 == id && rs[j].1 != []
  {
    BusCount(rs);
    KeysFilterIn(rs, IsComplete, id);
    KeysFilterIn(rs, IsIncomplete, id);
  }

  /** `bus_completion_status` never holds a key twice, its keys are exactly the incomplete
      bus ids, and every stored list is the non-empty missing list of a row with that id. */
  lemma StatusMapSpec(rs: seq<(string, seq<string>)>, id: string)
    ensures Distinct(Keys(StatusMap(rs)))
    ensures id in Keys(StatusMap(rs)) <==> id in IncompleteIds(rs)
    ensures forall j :: 0 <= j < |StatusMap(rs)| ==> StatusMap(rs)[j] in rs && StatusMap(rs)[j].1 != []
  {
    var ic := Filter(rs, IsIncomplete);
    var st := StatusMap(rs);
    PutAllSpec(ic);
    if id in Keys(st) {
      var k :| 0 <= k < |st| && Keys(st)[k] == id;
      var k' :| 0 <= k' < |ic| && ic[k'] == st[k];
      assert Keys(ic)[k'] == id;
    }
    if id in IncompleteIds(rs) {
      var k :| 0 <= k < |ic| && Keys(ic)[k] == id;
      assert ic[k].0 in Keys(st);
    }
    forall j | 0 <= j < |st| ensures st[j] in rs && st[j].1 != [] {
      var k :| 0 <= k < |ic| && ic[k] == st[j];
    }
  }

  // ---------------------------------------------------------------------------
  // Per-norm and per-bus progress (app.py:325-440).

  /** `norm_progress[c]`: completed cells over all buses, never over applicable ones. */
  function NormProgress(t: Table, c: string): real
    requires WellFormed(t) && c in t.columns
  {
    Percent(ColumnCompletedCount(t, c), |t.rows|)
  }

  /** A norm's progress lies in [0, 100] and reaches 100 exactly when every bus completed
      it, column-wise; not-applicable cells count as completed, never off the denominator. */
  lemma NormProgressBounds(t: Table, c: string)
    requires WellFormed(t) && c in t.columns
    ensures 0.0 <= NormProgress(t, c) <= 100.0
    ensures |t.rows| > 0 ==> (NormProgress(t, c) == 100.0 <==> forall i :: 0 <= i < |t.rows| ==> ColumnCompleted(CellAt(t, i, c)))
    ensures (forall i :: 0 <= i < |t.rows| ==> IsNotApplicable(ColumnValue(CellAt(t, i, c)))) ==>
      NormProgress(t, c) == if |t.rows| > 0 then 100.0 else 0.0
  {
    CountIfAll(ColumnCells(t, c), ColumnCompleted);
  }

  function NormProgressPairs(t: Table, cols: seq<string>): (r: seq<(string, real)>)
    requires WellFormed(t) && NormsIn(t, cols)
    ensures |r| == |cols|
    ensures forall j :: 0 <= j < |cols| ==> r[j] == (cols[j], NormProgress(t, cols[j]))
  {
    seq(|cols|, j requires 0 <= j < |cols| => (cols[j], NormProgress(t, cols[j])))
  }

  /** `norm_progress`. */
  function NormProgressMap(t: Table, cols: seq<string>): seq<(string, real)>
    requires WellFormed(t) && NormsIn(t, cols)
  {
    PutAll(NormProgressPairs(t, cols))
  }

  /** Every norm has exactly one entry and each entry is that norm's own progress. */
  lemma NormProgressSpec(t: Table, cols: seq<string>)
    requires WellFormed(t) && NormsIn(t, cols)
    ensures Distinct(Keys(NormProgressMap(t, cols)))
    ensures forall j :: 0 <= j < |cols| ==> cols[j] in Keys(NormProgressMap(t, cols))
    ensures forall j :: 0 <= j < |NormProgressMap(t, cols)| ==>
      var e := NormProgressMap(t, cols)[j];
      e.0 in cols && e.1 == NormProgress(t, e.0)
  {
    var ps := NormProgressPairs(t, cols);
    PutAllSpec(ps);
    forall j | 0 <= j < |cols| ensures cols[j] in Keys(PutAll(ps)) {
      assert ps[j].0 == cols[j];
    }
    forall j | 0 <= j < |PutAll(ps)| ensures PutAll(ps)[j].0 in cols && PutAll(ps)[j].1 == NormProgress(t, PutAll(ps)[j].0) {
      var k :| 0 <= k < |ps| && ps[k] == PutAll(ps)[j];
    }
  }

  predicate RowInstalled(c: Cell) {
    IsInstalled(RowValue(c))
  }

  predicate RowApplicable(c: Cell) {
    !IsNotApplicable(RowValue(c))
  }

  /** `normas_instaladas_contador`: the sheet's own counter when present, else a count. */
  datatype Counter = Given(text: string) | Counted(installed: nat)

  datatype BusInfo = BusInfo(
    progress: real, completed: nat, totalNorms: nat, applicableNorms: nat,
    ppu: string, fechaRenovacion: string, normasInstaladas: Counter,
    terminal: string, subclase: string, completo: bool, normasFaltantes: seq<string>)

  /** `row[c]` when the column exists and the cell is not null, else 'N/A'. */
  function ValueOrNA(t: Table, i: nat, c: string): string
    requires WellFormed(t) && i < |t.rows|
  {
    if c in t.columns && CellAt(t, i, c).Some? then CellAt(t, i, c).value else "N/A"
  }

  predicate NamesTerminal(c: string) {
    Contains(Lower(c), "term")
  }

  predicate NamesSubclass(c: string) {
    Contains(Lower(c), "sub") || Contains(Lower(c), "clas") || Contains(Lower(c), "model")
  }

  /** The value of the first column matching `names`, or 'N/A'. */
  function FirstMatchValue(t: Table, i: nat, names: string -> bool): string
    requires WellFormed(t) && i < |t.rows|
  {
    var m := Filter(t.columns, names);
    if m != [] then ValueOrNA(t, i, m[0]) else "N/A"
  }

  /** `bus_info` of row `i` (app.py:362-440), given the lists built by the first pass. */
  function BusInfoOf(t: Table, cols: seq<string>, i: nat, complete: seq<string>, status: seq<(string, seq<string>)>): BusInfo
    requires WellFormed(t) && i < |t.rows| && NormsIn(t, cols)
  {
    var cells := RowCells(t, i, cols);
    var completed := CountIf(cells, RowCompleted);
    var id := BusId(t, i);
    BusInfo(
      Percent(completed, |cols|), completed, |cols|, CountIf(cells, RowApplicable),
      ValueOrNA(t, i, Ppu), ValueOrNA(t, i, "FECHA DE RENOVACION"),
      if "NORMA INSTALADA" in t.columns && CellAt(t, i, "NORMA INSTALADA").Some?
      then Given(CellAt(t, i, "NORMA INSTALADA").value)
      else Counted(CountIf(cells, RowInstalled)),
      FirstMatchValue(t, i, NamesTerminal), FirstMatchValue(t, i, NamesSubclass),
      id in complete,
      match Get(status, id) case Some(v) => v case None => [])
  }

  /** Per-bus figures: completed and installed are bounded by the norm count; the
      applicable count is the norm count minus the not-applicable cells, so every
      non-applicable norm is among the completed ones; progress lies in [0, 100] with
      the full denominator, and is 100 exactly when the bus misses nothing. */
  lemma BusInfoBounds(t: Table, cols: seq<string>, i: nat, complete: seq<string>, status: seq<(string, seq<string>)>)
    requires WellFormed(t) && i < |t.rows| && NormsIn(t, cols)
    ensures var b := BusInfoOf(t, cols, i, complete, status);
      && b.totalNorms == |cols|
      && b.completed <= b.totalNorms
      && b.applicableNorms + CountIf(RowCells(t, i, cols), (c: Cell) => IsNotApplicable(RowValue(c))) == b.totalNorms
      && b.totalNorms - b.applicableNorms <= b.completed
      && (b.normasInstaladas.Counted? ==> b.normasInstaladas.installed <= b.completed)
      && 0.0 <= b.progress <= 100.0
      && (|cols| > 0 ==> (b.progress == 100.0 <==> MissingNorms(t, i, cols) == []))
  {
    var cells := RowCells(t, i, cols);
    var na := (c: Cell) => IsNotApplicable(RowValue(c));
    CountIfComplement(cells, na, RowApplicable);
    CountIfMono(cells, na, RowCompleted);
    CountIfMono(cells, RowInstalled, RowCompleted);
    MissingNormsEmpty(t, i, cols);
  }

  /** A bus with nothing missing is marked complete. When bus ids are unique the mark is
      exact and the missing list read back for the bus (`normas_faltantes`) is its own, or
      empty for a complete bus. */
  lemma CompletoExact(rs: seq<(string, seq<string>)>, j: nat)
    requires j < |rs|
    ensures rs[j].1 == [] ==> rs[j].0 in CompleteIds(rs)
    ensures Distinct(Keys(rs)) ==>
      && (rs[j].0 in CompleteIds(rs) <==> rs[j].1 == [])
      && Get(StatusMap(rs), rs[j].0) == if rs[j].1 == [] then None else Some(rs[j].1)
  {
    var id := rs[j].0;
    BusPartition(rs, id);
    if Distinct(Keys(rs)) {
      if id in CompleteIds(rs) {
        var j' :| 0 <= j' < |rs| && rs[j'].0 == id && rs[j'].1 == [];
        assert Keys(rs)[j'] == Keys(rs)[j];
      }
      StatusLookup(rs, j);
    }
  }

  lemma StatusLookup(rs: seq<(string, seq<string>)>, j: nat)
    requires j < |rs| && Distinct(Keys(rs))
    ensures Get(StatusMap(rs), rs[j].0) == if rs[j].1 == [] then None else Some(rs[j].1)
  {
    if rs[j].1 == [] {
      StatusLookupComplete(rs, j);
    } else {
      StatusLookupIncomplete(rs, j);
    }
  }

  lemma StatusLookupComplete(rs: seq<(string, seq<string>)>, j: nat)
    requires j < |rs| && Distinct(Keys(rs)) && rs[j].1 == []
    ensures Get(StatusMap(rs), rs[j].0) == None
  {
    var id := rs[j].0;
    StatusMapSpec(rs, id);
    BusPartition(rs, id);
    forall j' | 0 <= j' < |rs| && rs[j'].0 == id ensures rs[j'].1 == [] {
      assert Keys(rs)[j'] == Keys(rs)[j];
    }
  }

  lemma StatusLookupIncomplete(rs: seq<(string, seq<string>)>, j: nat)
    requires j < |rs| && Distinct(Keys(rs)) && rs[j].1 != []
    ensures Get(StatusMap(rs), rs[j].0) == Some(rs[j].1)
  {
    var id := rs[j].0;
    var st := StatusMap(rs);
    StatusMapSpec(rs, id);
    BusPartition(rs, id);
    assert id in Keys(st);
    GetFound(st, id);
    var v := Get(st, id).value;
    var k :| 0 <= k < |st| && st[k] == (id, v);
    assert st[k] in rs;
    var j' :| 0 <= j' < |rs| && rs[j'] == st[k];
    assert Keys(rs)[j'] == Keys(rs)[j];
  }

  function BusProgressPairs(t: Table, cols: seq<string>, complete: seq<string>, status: seq<(string, seq<string>)>): (r: seq<(string, BusInfo)>)
    requires WellFormed(t) && NormsIn(t, cols)
    ensures |r| == |t.rows|
    ensures forall i :: 0 <= i < |t.rows| ==> r[i] == (BusId(t, i), BusInfoOf(t, cols, i, complete, status))
  {
    seq(|t.rows|, i requires 0 <= i < |t.rows| => (BusId(t, i), BusInfoOf(t, cols, i, complete, status)))
  }

  /** `bus_progress`. */
  function BusProgressMap(t: Table, cols: seq<string>, complete: seq<string>, status: seq<(string, seq<string>)>): seq<(string, BusInfo)>
    requires WellFormed(t) && NormsIn(t, cols)
  {
    PutAll(BusProgressPairs(t, cols, complete, status))
  }

  /** `bus_progress` has one entry per bus id, and each entry is the figures of a row
      carrying that id (the last one, when ids repeat). */
  lemma BusProgressSpec(t: Table, cols: seq<string>, complete: seq<string>, status: seq<(string, seq<string>)>)
    requires WellFormed(t) && NormsIn(t, cols)
    ensures Distinct(Keys(BusProgressMap(t, cols, complete, status)))
    ensures forall i :: 0 <= i < |t.rows| ==> BusId(t, i) in Keys(BusProgressMap(t, cols, complete, status))
    ensures forall j :: 0 <= j < |BusProgressMap(t, cols, complete, status)| ==>
      BusProgressMap(t, cols, complete, status)[j] in BusProgressPairs(t, cols, complete, status)
  {
    var ps := BusProgressPairs(t, cols, complete, status);
    PutAllSpec(ps);
  }

  // ---------------------------------------------------------------------------
  // The whole computation.

  datatype Metrics = Metrics(
    efficiency: real, totalBuses: nat, totalNorms: nat,
    completedInstallations: nat, pendingInstallations: nat,
    completeBuses: nat, incompleteBuses: nat,
    busCompletionStatus: seq<(string, seq<string>)>,
    completeBusesList: seq<string>, incompleteBusesList: seq<string>,
    normProgress: seq<(string, real)>, busProgress: seq<(string, BusInfo)>)

  /** The inner loop of app.py:367-384, over the cells `row[c] for c in norm_cols`. */
  method CountBusNorms(cells: seq<Cell>) returns (completed: nat, applicable: nat)
    ensures completed == CountIf(cells, RowCompleted)
    ensures applicable == CountIf(cells, RowApplicable)
  {
    completed, applicable := CountBoth(cells, RowCompleted, RowApplicable);
  }

  /** The inner loop of app.py:408-412, over the same cells. */
  method CountInstalledOnly(cells: seq<Cell>) returns (installed: nat)
    ensures installed == CountIf(cells, RowInstalled)
  {
    installed := CountWhere(cells, RowInstalled);
  }

  lemma CompleteStep(rs: seq<(string, seq<string>)>, i: nat)
    requires i < |rs| && rs[i].1 == []
    ensures Keys(Filter(rs[..i + 1], IsComplete)) == Keys(Filter(rs[..i], IsComplete)) + [rs[i].0]
    ensures Filter(rs[..i + 1], IsIncomplete) == Filter(rs[..i], IsIncomplete)
  {
    FilterSnoc(rs, i, IsComplete);
    FilterSnoc(rs, i, IsIncomplete);
    KeysAppend(Filter(rs[..i], IsComplete), [rs[i]]);
  }

  lemma IncompleteStep(rs: seq<(string, seq<string>)>, i: nat)
    requires i < |rs| && rs[i].1 != []
    ensures Filter(rs[..i + 1], IsComplete) == Filter(rs[..i], IsComplete)
    ensures Keys(Filter(rs[..i + 1], IsIncomplete)) == Keys(Filter(rs[..i], IsIncomplete)) + [rs[i].0]
    ensures PutAll(Filter(rs[..i + 1], IsIncomplete)) == Put(PutAll(Filter(rs[..i], IsIncomplete)), rs[i].0, rs[i].1)
  {
    FilterSnoc(rs, i, IsComplete);
    FilterSnoc(rs, i, IsIncomplete);
    var fi := Filter(rs[..i], IsIncomplete);
    assert Filter(rs[..i + 1], IsIncomplete) == fi + [rs[i]];
    KeysAppend(fi, [rs[i]]);
    PutAllAppend(fi, rs[i]);
  }

  /** The bookkeeping of the first pass: each (id, missing) row goes to the complete or
      the incomplete list, and an incomplete one is recorded in the status dict. */
  method Partition(rs: seq<(string, seq<string>)>)
      returns (complete: seq<string>, incomplete: seq<string>, status: seq<(string, seq<string>)>)
    ensures complete == CompleteIds(rs)
    ensures incomplete == IncompleteIds(rs)
    ensures status == StatusMap(rs)
  {
    complete, incomplete, status := [], [], [];
    for i := 0 to |rs|
      invariant complete == Keys(Filter(rs[..i], IsComplete))
      invariant incomplete == Keys(Filter(rs[..i], IsIncomplete))
      invariant status == PutAll(Filter(rs[..i], IsIncomplete))
    {
      var (busId, missing) := rs[i];
      if missing == [] {
        CompleteStep(rs, i);
        complete := complete + [busId];
      } else {
        IncompleteStep(rs, i);
        incomplete := incomplete + [busId];
        status := Put(status, busId, missing);
      }
    }
    assert rs[..|rs|] == rs;
  }

  /** The id and missing list of every row, as the first pass computes them. */
  method CollectBusRows(t: Table, normCols: seq<string>) returns (rs: seq<(string, seq<string>)>)
    requires WellFormed(t) && NormsIn(t, normCols)
    ensures rs == BusRows(t, normCols)
  {
    rs := [];
    for i := 0 to |t.rows|
      invariant |rs| == i
      invariant forall k :: 0 <= k < i ==> rs[k] == (BusId(t, k), MissingNorms(t, k, normCols))
    {
      var busId := BusId(t, i);
      var _, missing := MissingOf(t, i, normCols);
      rs := rs + [(busId, missing)];
    }
  }

  /** The first pass over the rows (app.py:271-322). */
  method PartitionBuses(t: Table, normCols: seq<string>)
      returns (complete: seq<string>, incomplete: seq<string>, status: seq<(string, seq<string>)>)
    requires WellFormed(t) && NormsIn(t, normCols)
    ensures complete == CompleteIds(BusRows(t, normCols))
    ensures incomplete == IncompleteIds(BusRows(t, normCols))
    ensures status == StatusMap(BusRows(t, normCols))
  {
    var rs := CollectBusRows(t, normCols);
    complete, incomplete, status := Partition(rs);
  }

  /** The figures of one bus (app.py:362-440). */
  method BusInfoAt(t: Table, normCols: seq<string>, i: nat, complete: seq<string>, status: seq<(string, seq<string>)>)
      returns (info: BusInfo)
    requires WellFormed(t) && i < |t.rows| && NormsIn(t, normCols)
    ensures info == BusInfoOf(t, normCols, i, complete, status)
  {
    var busId := BusId(t, i);
    var cells := RowCells(t, i, normCols);
    var completedNorms, applicableNorms := CountBusNorms(cells);
    var counter: Counter;
    if "NORMA INSTALADA" in t.columns && CellAt(t, i, "NORMA INSTALADA").Some? {
      counter := Given(CellAt(t, i, "NORMA INSTALADA").value);
    } else {
      var installedOnly := CountInstalledOnly(cells);
      counter := Counted(installedOnly);
    }
    var faltantes := match Get(status, busId) case Some(v) => v case None => [];
    info := BusInfo(
      Percent(completedNorms, |normCols|), completedNorms, |normCols|, applicableNorms,
      ValueOrNA(t, i, Ppu), ValueOrNA(t, i, "FECHA DE RENOVACION"), counter,
      FirstMatchValue(t, i, NamesTerminal), FirstMatchValue(t, i, NamesSubclass),
      busId in complete, faltantes);
  }

  /** The loop of app.py:243-256. */
  method SumCompleted(t: Table, normCols: seq<string>) returns (completedCells: nat)
    requires WellFormed(t) && NormsIn(t, normCols)
    ensures completedCells == CompletedCells(t, normCols)
  {
    var counts := ColumnCounts(t, normCols);
    completedCells := 0;
    for j := 0 to |normCols|
      invariant completedCells == Sum(counts[..j])
    {
      SumSnoc(counts, j);
      completedCells := completedCells + ColumnCompletedCount(t, normCols[j]);
    }
    assert counts[..|normCols|] == counts;
  }

  /** The loop of app.py:325-340. */
  method BuildNormProgress(t: Table, normCols: seq<string>) returns (normProgress: seq<(string, real)>)
    requires WellFormed(t) && NormsIn(t, normCols)
    ensures normProgress == NormProgressMap(t, normCols)
  {
    var pairs := NormProgressPairs(t, normCols);
    normProgress := [];
    for j := 0 to |normCols|
      invariant normProgress == PutAll(pairs[..j])
    {
      var col := normCols[j];
      PutAllSnoc(pairs, j);
      normProgress := Put(normProgress, col, Percent(ColumnCompletedCount(t, col), |t.rows|));
    }
    assert pairs[..|normCols|] == pairs;
  }

  /** The loop of app.py:343-440. */
  method BuildBusProgress(t: Table, normCols: seq<string>, complete: seq<string>, status: seq<(string, seq<string>)>)
      returns (busProgress: seq<(string, BusInfo)>)
    requires WellFormed(t) && NormsIn(t, normCols)
    ensures busProgress == BusProgressMap(t, normCols, complete, status)
  {
    var infos := BusProgressPairs(t, normCols, complete, status);
    busProgress := [];
    for i := 0 to |t.rows|
      invariant busProgress == PutAll(infos[..i])
    {
      var busId := BusId(t, i);
      var info := BusInfoAt(t, normCols, i, complete, status);
      PutAllSnoc(infos, i);
      busProgress := Put(busProgress, busId, info);
    }
    assert infos[..|t.rows|] == infos;
  }

  /** `calculate_metrics(df, norm_cols)`. */
  method CalculateMetrics(t: Table, normCols: seq<string>) returns (m: Metrics)
    requires WellFormed(t) && NormsIn(t, normCols)
    ensures m.totalBuses == |t.rows| && m.totalNorms == |normCols|
    ensures m.completedInstallations + m.pendingInstallations == |t.rows| * |normCols|
    ensures m.completeBuses + m.incompleteBuses == m.totalBuses
    ensures 0.0 <= m.efficiency <= 100.0
    ensures |t.rows| == 0 ==> m == Metrics(0.0, 0, |normCols|, 0, 0, 0, 0, [], [], [], [], [])
    ensures |t.rows| > 0 ==>
      && m.completedInstallations == CompletedCells(t, normCols)
      && m.efficiency == Percent(CompletedCells(t, normCols), |t.rows| * |normCols|)
      && m.completeBusesList == CompleteIds(BusRows(t, normCols))
      && m.incompleteBusesList == IncompleteIds(BusRows(t, normCols))
      && m.completeBuses == |m.completeBusesList| && m.incompleteBuses == |m.incompleteBusesList|
      && m.busCompletionStatus == StatusMap(BusRows(t, normCols))
      && m.normProgress == NormProgressMap(t, normCols)
      && m.busProgress == BusProgressMap(t, normCols, m.completeBusesList, m.busCompletionStatus)
  {
    var totalBuses := |t.rows|;
    if totalBuses == 0 {
      return Metrics(0.0, 0, |normCols|, 0, 0, 0, 0, [], [], [], [], []);
    }
    var totalCells := totalBuses * |normCols|;
    var completedCells := SumCompleted(t, normCols);
    var efficiency := Percent(completedCells, totalCells);
    var complete, incomplete, status := PartitionBuses(t, normCols);
    BusCount(BusRows(t, normCols));
    var normProgress := BuildNormProgress(t, normCols);
    var busProgress := BuildBusProgress(t, normCols, complete, status);
    m := Metrics(efficiency, totalBuses, |normCols|, completedCells, totalCells - completedCells,
      |complete|, |incomplete|, status, complete, incomplete, normProgress, busProgress);
  }
}
