/** The counting rules of the charts and of `main` in app.py: the global pie
    (app.py:726-742), progress per terminal (app.py:756-796) and per subclass
    (app.py:1008-1029), the missing-norm tally and ranking (app.py:1468-1489), the progress
    ranges (app.py:1311-1330), and the bus-list filters and pages (app.py:1703-1721). */
module Dashboard {
  import opened Text
  import opened Frames
  import opened Classifier
  import opened Sorting
  import opened Metrics

  // ---------------------------------------------------------------------------
  // The two independent column-wise counts (app.py:731-740, 785-792, 1018-1024).

  predicate ColumnInstalled(c: Cell) {
    IsInstalled(ColumnValue(c))
  }

  predicate ColumnNotApplicable(c: Cell) {
    IsNotApplicable(ColumnValue(c))
  }

  /** A cell that both counts see, such as "instalada, no aplica". */
  predicate ColumnBoth(c: Cell) {
    ColumnInstalled(c) && ColumnNotApplicable(c)
  }

  /** Not applicable and not installed: the report's priority order applied column-wise. */
  predicate ColumnOnlyNotApplicable(c: Cell) {
    ColumnNotApplicable(c) && !ColumnInstalled(c)
  }

  /** Per norm column, the number of cells passing `p`. */
  function CountsBy(t: Table, cols: seq<string>, p: Cell -> bool): (r: seq<nat>)
    requires WellFormed(t) && NormsIn(t, cols)
    ensures |r| == |cols|
    ensures forall j :: 0 <= j < |cols| ==> r[j] == CountIf(ColumnCells(t, cols[j]), p)
  {
    seq(|cols|, j requires 0 <= j < |cols| => CountIf(ColumnCells(t, cols[j]), p))
  }

  /** Cells of the norm columns passing `p`, over the whole table. */
  function CellsWhere(t: Table, cols: seq<string>, p: Cell -> bool): (n: nat)
    requires WellFormed(t) && NormsIn(t, cols)
    ensures n <= |t.rows| * |cols|
  {
    var counts := CountsBy(t, cols, p);
    SumBound(counts, |t.rows|);
    Sum(counts)
  }

  lemma {:induction false} SumPointwise(a: seq<nat>, b: seq<nat>, c: seq<nat>, d: seq<nat>)
    requires |a| == |b| == |c| == |d|
    requires forall j :: 0 <= j < |a| ==> a[j] + b[j] == c[j] + d[j]
    ensures Sum(a) + Sum(b) == Sum(c) + Sum(d)
    decreases |a|
  {
    if |a| > 0 {
      var n := |a| - 1;
      assert forall j :: 0 <= j < n ==> a[..n][j] + b[..n][j] == c[..n][j] + d[..n][j];
      SumPointwise(a[..n], b[..n], c[..n], d[..n]);
    }
  }

  /** Installed plus not-applicable cells are the completed cells of the metrics plus the
      cells counted twice. */
  lemma InstalledPlusNotApplicable(t: Table, cols: seq<string>)
    requires WellFormed(t) && NormsIn(t, cols)
    ensures CellsWhere(t, cols, ColumnInstalled) + CellsWhere(t, cols, ColumnNotApplicable) ==
      CompletedCells(t, cols) + CellsWhere(t, cols, ColumnBoth)
  {
    var a, b := CountsBy(t, cols, ColumnInstalled), CountsBy(t, cols, ColumnNotApplicable);
    var c, d := ColumnCounts(t, cols), CountsBy(t, cols, ColumnBoth);
    forall j | 0 <= j < |cols| ensures a[j] + b[j] == c[j] + d[j] {
      CountIfUnion(ColumnCells(t, cols[j]), ColumnInstalled, ColumnNotApplicable, ColumnCompleted, ColumnBoth);
    }
    SumPointwise(a, b, c, d);
  }

  /** Installed plus only-not-applicable cells are exactly the completed cells. */
  lemma InstalledPlusOnlyNotApplicable(t: Table, cols: seq<string>)
    requires WellFormed(t) && NormsIn(t, cols)
    ensures CellsWhere(t, cols, ColumnInstalled) + CellsWhere(t, cols, ColumnOnlyNotApplicable) == CompletedCells(t, cols)
  {
    var a, b := CountsBy(t, cols, ColumnInstalled), CountsBy(t, cols, ColumnOnlyNotApplicable);
    var c := ColumnCounts(t, cols);
    var z := seq(|cols|, j => 0);
    assert Sum(z) == 0 by { SumBound(z, 0); }
    forall j | 0 <= j < |cols| ensures a[j] + b[j] == c[j] + z[j] {
      var none := (x: Cell) => false;
      CountIfUnion(ColumnCells(t, cols[j]), ColumnInstalled, ColumnOnlyNotApplicable, ColumnCompleted, none);
      CountIfNone(ColumnCells(t, cols[j]), none);
    }
    SumPointwise(a, b, c, z);
  }

  // ---------------------------------------------------------------------------
  // The global pie (app.py:726-742).

  datatype Pie = Pie(installed: nat, notApplicable: nat, pending: int)

  /** `instaladas`, `no_aplica` and `pendientes = total - instaladas - no_aplica`. */
  method GlobalPie(t: Table, cols: seq<string>) returns (p: Pie)
    requires WellFormed(t) && NormsIn(t, cols)
    ensures p.installed == CellsWhere(t, cols, ColumnInstalled)
    ensures p.notApplicable == CellsWhere(t, cols, ColumnNotApplicable)
    ensures p.pending == |t.rows| * |cols| - p.installed - p.notApplicable
  {
    var installed, notApplicable := 0, 0;
    ghost var ic, nc := CountsBy(t, cols, ColumnInstalled), CountsBy(t, cols, ColumnNotApplicable);
    for j := 0 to |cols|
      invariant installed == Sum(ic[..j]) && notApplicable == Sum(nc[..j])
    {
      var values := ColumnCells(t, cols[j]);
      SumSnoc(ic, j);
      SumSnoc(nc, j);
      installed := installed + CountIf(values, ColumnInstalled);
      notApplicable := notApplicable + CountIf(values, ColumnNotApplicable);
    }
    assert ic[..|cols|] == ic && nc[..|cols|] == nc;
    p := Pie(installed, notApplicable, |t.rows| * |cols| - installed - notApplicable);
  }

  /** The pie's pending slice is the metrics' pending installations less the cells counted
      twice: it agrees with them when no cell is both, and is negative when more cells are
      both than pending. */
  lemma PieOverlap(t: Table, cols: seq<string>)
    requires WellFormed(t) && NormsIn(t, cols)
    ensures var installed, na := CellsWhere(t, cols, ColumnInstalled), CellsWhere(t, cols, ColumnNotApplicable);
      |t.rows| * |cols| - installed - na == (|t.rows| * |cols| - CompletedCells(t, cols)) - CellsWhere(t, cols, ColumnBoth)
  {
    InstalledPlusNotApplicable(t, cols);
  }

  const Sample: string := "instalada no aplica"

  lemma SampleIsBoth()
    ensures ColumnBoth(Some(Sample)) && RowCompleted(Some(Sample))
  {
    var v := Sample;
    assert Lower(v) == v;
    assert v[0..8] == "instalad";
    OccursContains(v, "instalad", 0);
    assert v[10..19] == "no aplica";
    OccursContains(v, "no aplica", 10);
    assert ColumnValue(Some(v)) == v;
    assert ColumnCompleted(Some(v));
    assert !IsSpace(v[0]) && !IsSpace(v[|v| - 1]);
    assert Trim(v) == v;
    TrimLowerCommute(v);
  }

  /** Example helper for NegativePending: counting over a table of one row and one norm. */
  lemma OneCell(x: Cell, p: Cell -> bool)
    ensures var t := Table(["Norma 1"], [[x]]);
      WellFormed(t) && NormsIn(t, ["Norma 1"]) && CellsWhere(t, ["Norma 1"], p) == if p(x) then 1 else 0
  {
    var t := Table(["Norma 1"], [[x]]);
    assert ColumnCells(t, "Norma 1") == [x];
    assert CountIf([x], p) == if p(x) then 1 else 0 by {
      assert [x][..0] == [];
    }
    assert CountsBy(t, ["Norma 1"], p) == [CountIf([x], p)];
    assert Sum([CountIf([x], p)]) == CountIf([x], p) by {
      assert [CountIf([x], p)][..0] == [];
    }
  }

  /** A single cell "instalada no aplica" makes the pie's pending slice -1. */
  lemma NegativePending()
    ensures var t := Table(["Norma 1"], [[Some(Sample)]]);
      WellFormed(t) && NormsIn(t, ["Norma 1"]) &&
      |t.rows| * 1 - CellsWhere(t, ["Norma 1"], ColumnInstalled) - CellsWhere(t, ["Norma 1"], ColumnNotApplicable) == -1
  {
    SampleIsBoth();
    OneCell(Some(Sample), ColumnInstalled);
    OneCell(Some(Sample), ColumnNotApplicable);
  }

  /** The pie with the not-applicable slice counting only cells that are not installed. */
  function ExclusivePie(t: Table, cols: seq<string>): Pie
    requires WellFormed(t) && NormsIn(t, cols)
  {
    var installed := CellsWhere(t, cols, ColumnInstalled);
    var na := CellsWhere(t, cols, ColumnOnlyNotApplicable);
    Pie(installed, na, |t.rows| * |cols| - installed - na)
  }

  /** The exclusive pie's slices add up to the cell count, the pending slice is never
      negative and is the metrics' pending installations. */
  lemma ExclusivePieSpec(t: Table, cols: seq<string>)
    requires WellFormed(t) && NormsIn(t, cols)
    ensures var p := ExclusivePie(t, cols);
      && p.installed + p.notApplicable + p.pending == |t.rows| * |cols|
      && p.pending >= 0
      && p.pending == |t.rows| * |cols| - CompletedCells(t, cols)
  {
    InstalledPlusOnlyNotApplicable(t, cols);
    CompletedCellsBound(t, cols);
  }

  // ---------------------------------------------------------------------------
  // Progress of a group of buses (app.py:776-796, 1011-1029).

  /** The rows whose cell in column `c` passes `keep`, as a table of their own. */
  function GroupRows(t: Table, c: string, keep: Cell -> bool): (g: Table)
    requires WellFormed(t) && c in t.columns
    ensures WellFormed(g) && g.columns == t.columns && |g.rows| <= |t.rows|
    ensures forall r :: r in g.rows ==> r in t.rows
  {
    var k := IndexOf(t.columns, c).value;
    var rows := Filter(t.rows, (r: seq<Cell>) => k < |r| && keep(r[k]));
    assert forall i :: 0 <= i < |rows| ==> rows[i] in t.rows;
    Table(t.columns, rows)
  }

  /** `len(group) * len(norm_cols) - not_applicable`. */
  function Required(g: Table, cols: seq<string>): nat
    requires WellFormed(g) && NormsIn(g, cols)
  {
    |g.rows| * |cols| - CellsWhere(g, cols, ColumnNotApplicable)
  }

  /** A terminal's progress; none when nothing is required, and the terminal is skipped. */
  function TerminalProgress(g: Table, cols: seq<string>): Option<real>
    requires WellFormed(g) && NormsIn(g, cols)
  {
    var required := Required(g, cols);
    if required > 0 then Some(Percent(CellsWhere(g, cols, ColumnInstalled), required)) else None
  }

  /** A subclass's progress; 0 when nothing is required. */
  function SubclassProgress(g: Table, cols: seq<string>): real
    requires WellFormed(g) && NormsIn(g, cols)
  {
    var required := Required(g, cols);
    if required > 0 then Percent(CellsWhere(g, cols, ColumnInstalled), required) else 0.0
  }

  /** Nothing is required exactly when every norm cell of the group is not applicable. */
  lemma RequiredZeroIff(g: Table, cols: seq<string>)
    requires WellFormed(g) && NormsIn(g, cols)
    ensures Required(g, cols) == 0 <==>
      forall i, j :: 0 <= i < |g.rows| && 0 <= j < |cols| ==> ColumnNotApplicable(CellAt(g, i, cols[j]))
  {
    var counts := CountsBy(g, cols, ColumnNotApplicable);
    SumBound(counts, |g.rows|);
    forall j | 0 <= j < |cols|
      ensures counts[j] == |g.rows| <==> forall i :: 0 <= i < |g.rows| ==> ColumnNotApplicable(CellAt(g, i, cols[j]))
    {
      CountIfAll(ColumnCells(g, cols[j]), ColumnNotApplicable);
    }
  }

  /** The two chart helpers agree whenever something is required; when nothing is, the
      terminal chart drops the group and the subclass chart shows 0. */
  lemma GroupProgressAgree(g: Table, cols: seq<string>)
    requires WellFormed(g) && NormsIn(g, cols)
    ensures TerminalProgress(g, cols).None? <==>
      forall i, j :: 0 <= i < |g.rows| && 0 <= j < |cols| ==> ColumnNotApplicable(CellAt(g, i, cols[j]))
    ensures TerminalProgress(g, cols).Some? ==> TerminalProgress(g, cols).value == SubclassProgress(g, cols)
    ensures TerminalProgress(g, cols).None? ==> SubclassProgress(g, cols) == 0.0
  {
    RequiredZeroIff(g, cols);
  }

  /** Without cells counted twice a group's progress lies in [0, 100], and is 100 exactly
      when every norm cell of the group is installed or not applicable. */
  lemma GroupProgressBounds(g: Table, cols: seq<string>)
    requires WellFormed(g) && NormsIn(g, cols) && CellsWhere(g, cols, ColumnBoth) == 0
    ensures 0.0 <= SubclassProgress(g, cols) <= 100.0
    ensures Required(g, cols) > 0 ==> (SubclassProgress(g, cols) == 100.0 <==>
      forall i, j :: 0 <= i < |g.rows| && 0 <= j < |cols| ==> ColumnCompleted(CellAt(g, i, cols[j])))
  {
    InstalledPlusNotApplicable(g, cols);
    CompletedCellsBound(g, cols);
  }

  /** Example helper for ProgressAbove100: the two norm columns of a one-row table. */
  lemma OneRowColumns(sub: Cell, x: Cell, y: Cell)
    ensures var g := Table(["Subclase", "N1", "N2"], [[sub, x, y]]);
      WellFormed(g) && NormsIn(g, ["N1", "N2"]) && ColumnCells(g, "N1") == [x] && ColumnCells(g, "N2") == [y]
  {
    var g := Table(["Subclase", "N1", "N2"], [[sub, x, y]]);
    IndexOfFirst(g.columns, "N1", 1);
    IndexOfFirst(g.columns, "N2", 2);
    assert ColumnCells(g, "N1") == [x];
    assert ColumnCells(g, "N2") == [y];
  }

  /** Example helper: a count over a single element. */
  lemma CountIfOne<T>(x: T, p: T -> bool)
    ensures CountIf([x], p) == if p(x) then 1 else 0
  {
    assert [x][..0] == [];
  }

  /** Example helper: the sum of a two-element list. */
  lemma SumTwo(a: nat, b: nat)
    ensures Sum([a, b]) == a + b
  {
    assert [a, b][..1] == [a];
    assert [a][..0] == [];
    assert Sum([a]) == a;
  }

  /** Example helper for ProgressAbove100: counting over a table of one row with a subclass
      and two norms. */
  lemma OneRowTwoNorms(sub: Cell, x: Cell, y: Cell, p: Cell -> bool)
    ensures var g := Table(["Subclase", "N1", "N2"], [[sub, x, y]]);
      WellFormed(g) && NormsIn(g, ["N1", "N2"]) &&
      CellsWhere(g, ["N1", "N2"], p) == (if p(x) then 1 else 0) + (if p(y) then 1 else 0)
  {
    var g := Table(["Subclase", "N1", "N2"], [[sub, x, y]]);
    OneRowColumns(sub, x, y);
    CountIfOne(x, p);
    CountIfOne(y, p);
    var counts := CountsBy(g, ["N1", "N2"], p);
    assert counts == [CountIf([x], p), CountIf([y], p)];
    SumTwo(counts[0], counts[1]);
  }

  /** Example helper for ProgressAbove100: "1" is installed and not "no aplica". */
  lemma OneNotApplicable()
    ensures ColumnInstalled(Some("1")) && !ColumnNotApplicable(Some("1"))
  {
    assert ColumnValue(Some("1")) == "1";
    if Contains("1", "no aplica") { ContainsLength("1", "no aplica"); }
  }

  /** One bus with "instalada no aplica" and "1" in its two norms: the subclass chart shows
      200 %. */
  lemma ProgressAbove100()
    ensures var g := Table(["Subclase", "N1", "N2"], [[Some("A"), Some(Sample), Some("1")]]);
      WellFormed(g) && NormsIn(g, ["N1", "N2"]) && SubclassProgress(g, ["N1", "N2"]) == 200.0
  {
    SampleIsBoth();
    OneNotApplicable();
    OneRowTwoNorms(Some("A"), Some(Sample), Some("1"), ColumnInstalled);
    OneRowTwoNorms(Some("A"), Some(Sample), Some("1"), ColumnNotApplicable);
  }

  /** The group progress with the not-applicable count taken after the installed test. */
  function ExclusiveGroupProgress(g: Table, cols: seq<string>): real
    requires WellFormed(g) && NormsIn(g, cols)
  {
    var required := |g.rows| * |cols| - CellsWhere(g, cols, ColumnOnlyNotApplicable);
    if required > 0 then Percent(CellsWhere(g, cols, ColumnInstalled), required) else 0.0
  }

  /** The exclusive group progress always lies in [0, 100], and is 100 exactly when every
      norm cell of the group is installed or not applicable (and something is required). */
  lemma ExclusiveGroupProgressBounds(g: Table, cols: seq<string>)
    requires WellFormed(g) && NormsIn(g, cols)
    ensures 0.0 <= ExclusiveGroupProgress(g, cols) <= 100.0
    ensures |g.rows| * |cols| > CellsWhere(g, cols, ColumnOnlyNotApplicable) ==>
      (ExclusiveGroupProgress(g, cols) == 100.0 <==>
       forall i, j :: 0 <= i < |g.rows| && 0 <= j < |cols| ==> ColumnCompleted(CellAt(g, i, cols[j])))
  {
    InstalledPlusOnlyNotApplicable(g, cols);
    CompletedCellsBound(g, cols);
  }

  // ---------------------------------------------------------------------------
  // The per-terminal and per-subclass dicts (app.py:759-796, 1007-1029).

  /** `df[c].dropna()`, in row order. */
  function PresentValues(cells: seq<Cell>): seq<string> {
    if |cells| == 0 then []
    else PresentValues(cells[..|cells| - 1]) + match cells[|cells| - 1] case Some(v) => [v] case None => []
  }

  lemma {:induction false} PresentValuesIn(cells: seq<Cell>, v: string)
    ensures v in PresentValues(cells) <==> Some(v) in cells
    decreases |cells|
  {
    if |cells| > 0 {
      var q := cells[..|cells| - 1];
      PresentValuesIn(q, v);
      assert cells == q + [cells[|cells| - 1]];
    }
  }

  /** `unique()`: each value once, in order of first appearance. */
  function Unique(s: seq<string>): (r: seq<string>)
    ensures Distinct(r)
  {
    if |s| == 0 then []
    else
      var u := Unique(s[..|s| - 1]);
      var x := s[|s| - 1];
      if x in u then u
      else
        assert forall i :: 0 <= i < |u| ==> (u + [x])[i] == u[i];
        u + [x]
  }

  lemma {:induction false} UniqueIn(s: seq<string>, v: string)
    ensures v in Unique(s) <==> v in s
    decreases |s|
  {
    if |s| > 0 {
      var q := s[..|s| - 1];
      UniqueIn(q, v);
      assert s == q + [s[|s| - 1]];
    }
  }

  /** The dict built by `for v in vals: if f(v) is not None: d[v] = f(v)`. */
  function Entries(vals: seq<string>, f: string -> Option<real>): seq<(string, real)> {
    if |vals| == 0 then []
    else
      var rest := Entries(vals[..|vals| - 1], f);
      var v := vals[|vals| - 1];
      match f(v)
      case Some(p) => Put(rest, v, p)
      case None => rest
  }

  /** Each value with a figure is a key once, holding its figure; nothing else is a key. */
  lemma {:induction false} EntriesSpec(vals: seq<string>, f: string -> Option<real>, v: string)
    ensures Distinct(Keys(Entries(vals, f)))
    ensures Get(Entries(vals, f), v) == if v in vals then f(v) else None
    decreases |vals|
  {
    if |vals| > 0 {
      var q := vals[..|vals| - 1];
      var x := vals[|vals| - 1];
      EntriesSpec(q, f, v);
      assert vals == q + [x];
      if f(x).Some? {
        PutDistinct(Entries(q, f), x, f(x).value);
        GetPut(Entries(q, f), x, f(x).value, v);
      }
    }
  }

  /** The dict-filling loop shared by both chart helpers. */
  method BuildEntries(vals: seq<string>, f: string -> Option<real>) returns (d: seq<(string, real)>)
    ensures d == Entries(vals, f)
  {
    d := [];
    for j := 0 to |vals|
      invariant d == Entries(vals[..j], f)
    {
      assert vals[..j + 1][..j] == vals[..j];
      var v := vals[j];
      match f(v)
      case Some(p) => d := Put(d, v, p);
      case None =>
    }
    assert vals[..|vals|] == vals;
  }

  /** The terminal column: 'Terminal', else the first whose lower-case name contains "term". */
  function TerminalColumn(cols: seq<string>): Option<string> {
    if "Terminal" in cols then Some("Terminal")
    else
      var similar := Filter(cols, NamesTerminal);
      if similar != [] then Some(similar[0]) else None
  }

  /** A terminal column is found exactly when some column is named like one. */
  lemma TerminalColumnSpec(cols: seq<string>)
    ensures TerminalColumn(cols).Some? ==> TerminalColumn(cols).value in cols && NamesTerminal(TerminalColumn(cols).value)
    ensures TerminalColumn(cols).None? <==> forall j :: 0 <= j < |cols| ==> !NamesTerminal(cols[j])
  {
    assert Lower("Terminal")[0..4] == "term";
    OccursContains(Lower("Terminal"), "term", 0);
    if exists j :: 0 <= j < |cols| && NamesTerminal(cols[j]) {
      var j :| 0 <= j < |cols| && NamesTerminal(cols[j]);
      FilterIn(cols, NamesTerminal, cols[j]);
    }
  }

  function TextIs(v: string): Cell -> bool {
    (c: Cell) => CellText(c) == v
  }

  function CellIs(v: string): Cell -> bool {
    (c: Cell) => c == Some(v)
  }

  /** One terminal's figure: none for an empty name or when nothing is required. */
  function TerminalFigure(t: Table, tc: string, cols: seq<string>): string -> Option<real>
    requires WellFormed(t) && tc in t.columns && NormsIn(t, cols)
  {
    (v: string) => if v == "" then None else TerminalProgress(GroupRows(t, tc, TextIs(v)), cols)
  }

  /** One subclass's figure, always present. */
  function SubclassFigure(t: Table, cols: seq<string>): string -> Option<real>
    requires WellFormed(t) && "Subclase" in t.columns && NormsIn(t, cols)
  {
    (v: string) => Some(SubclassProgress(GroupRows(t, "Subclase", CellIs(v)), cols))
  }

  /** `terminal_progress`. */
  method TerminalProgressMap(t: Table, tc: string, cols: seq<string>) returns (d: seq<(string, real)>)
    requires WellFormed(t) && tc in t.columns && NormsIn(t, cols)
    ensures d == Entries(Unique(PresentValues(ColumnCells(t, tc))), TerminalFigure(t, tc, cols))
  {
    var terminals := Unique(PresentValues(ColumnCells(t, tc)));
    d := BuildEntries(terminals, TerminalFigure(t, tc, cols));
  }

  /** `subclass_progress`. */
  method SubclassProgressMap(t: Table, cols: seq<string>) returns (d: seq<(string, real)>)
    requires WellFormed(t) && "Subclase" in t.columns && NormsIn(t, cols)
    ensures d == Entries(Unique(PresentValues(ColumnCells(t, "Subclase"))), SubclassFigure(t, cols))
  {
    var subclasses := Unique(PresentValues(ColumnCells(t, "Subclase")));
    d := BuildEntries(subclasses, SubclassFigure(t, cols));
  }

  /** A terminal is charted once, exactly when it is a non-empty value of the column whose
      buses require something, with the progress of the rows showing that text. */
  lemma TerminalMapSpec(t: Table, tc: string, cols: seq<string>, v: string)
    requires WellFormed(t) && tc in t.columns && NormsIn(t, cols)
    ensures var d := Entries(Unique(PresentValues(ColumnCells(t, tc))), TerminalFigure(t, tc, cols));
      && Distinct(Keys(d))
      && Get(d, v) == if v != "" && Some(v) in ColumnCells(t, tc) then TerminalProgress(GroupRows(t, tc, TextIs(v)), cols) else None
  {
    var vals := Unique(PresentValues(ColumnCells(t, tc)));
    EntriesSpec(vals, TerminalFigure(t, tc, cols), v);
    UniqueIn(PresentValues(ColumnCells(t, tc)), v);
    PresentValuesIn(ColumnCells(t, tc), v);
  }

  /** Every non-null subclass is charted once, with its group's progress. */
  lemma SubclassMapSpec(t: Table, cols: seq<string>, v: string)
    requires WellFormed(t) && "Subclase" in t.columns && NormsIn(t, cols)
    ensures var d := Entries(Unique(PresentValues(ColumnCells(t, "Subclase"))), SubclassFigure(t, cols));
      && Distinct(Keys(d))
      && Get(d, v) == if Some(v) in ColumnCells(t, "Subclase") then Some(SubclassProgress(GroupRows(t, "Subclase", CellIs(v)), cols)) else None
  {
    var vals := Unique(PresentValues(ColumnCells(t, "Subclase")));
    EntriesSpec(vals, SubclassFigure(t, cols), v);
    UniqueIn(PresentValues(ColumnCells(t, "Subclase")), v);
    PresentValuesIn(ColumnCells(t, "Subclase"), v);
  }

  // ---------------------------------------------------------------------------
  // The missing-norm tally and its ranking (app.py:1468-1489).

  function IsName(x: string): string -> bool {
    (y: string) => y == x
  }

  function Occurrences(s: seq<string>, x: string): nat {
    CountIf(s, IsName(x))
  }

  /** One step of the tally: `d[x] += 1` when present, else `d[x] = 1`. */
  function Bump(d: seq<(string, nat)>, x: string): seq<(string, nat)> {
    Put(d, x, NextCount(Get(d, x)))
  }

  /** The count after one more occurrence, given the count so far if any. */
  function NextCount(n: Option<nat>): nat {
    match n
    case Some(n) => n + 1
    case None => 1
  }

  function Tally(s: seq<string>): seq<(string, nat)> {
    if |s| == 0 then [] else Bump(Tally(s[..|s| - 1]), s[|s| - 1])
  }

  /** Every missing list of the status dict, one after the other. */
  function Flatten(status: seq<(string, seq<string>)>): seq<string> {
    if |status| == 0 then [] else Flatten(status[..|status| - 1]) + status[|status| - 1].1
  }

  /** One step keeps the keys distinct and changes only the count of the name bumped. */
  lemma BumpSpec(d: seq<(string, nat)>, y: string, x: string)
    ensures Distinct(Keys(d)) ==> Distinct(Keys(Bump(d, y)))
    ensures Get(Bump(d, y), x) ==
      if x != y then Get(d, x) else match Get(d, y) case Some(n) => Some(n + 1) case None => Some(1)
  {
    var n := NextCount(Get(d, y));
    if Distinct(Keys(d)) {
      PutDistinct(d, y, n);
    }
    GetPut(d, y, n, x);
  }

  lemma {:induction false} TallyDistinct(s: seq<string>)
    ensures Distinct(Keys(Tally(s)))
    decreases |s|
  {
    if |s| > 0 {
      TallyDistinct(s[..|s| - 1]);
      BumpSpec(Tally(s[..|s| - 1]), s[|s| - 1], s[|s| - 1]);
    }
  }

  lemma {:induction false} TallyGet(s: seq<string>, x: string)
    ensures Get(Tally(s), x) == if Occurrences(s, x) == 0 then None else Some(Occurrences(s, x))
    decreases |s|
  {
    if |s| > 0 {
      var q := s[..|s| - 1];
      var y := s[|s| - 1];
      assert Occurrences(s, x) == Occurrences(q, x) + (if y == x then 1 else 0);
      TallyGet(q, x);
      CountStep(Tally(q), y, x, Occurrences(q, x));
    }
  }

  /** A name counted `m` times so far is counted once more exactly when it is the one bumped. */
  lemma CountStep(d: seq<(string, nat)>, y: string, x: string, m: nat)
    requires Get(d, x) == if m == 0 then None else Some(m)
    ensures var m' := m + (if y == x then 1 else 0);
      Get(Bump(d, y), x) == if m' == 0 then None else Some(m')
  {
    BumpSpec(d, y, x);
  }

  /** The tally holds each norm once, with the number of times it occurs. */
  lemma TallySpec(s: seq<string>, x: string)
    ensures Distinct(Keys(Tally(s)))
    ensures Get(Tally(s), x) == if Occurrences(s, x) == 0 then None else Some(Occurrences(s, x))
  {
    TallyDistinct(s);
    TallyGet(s, x);
  }

  /** Tallying one more name is one more step. */
  lemma TallySnoc(a: seq<string>, x: string)
    ensures Tally(a + [x]) == Bump(Tally(a), x)
  {
    assert (a + [x])[..|a|] == a;
  }

  /** The body of the inner loop: `conteo[norma] += 1`, or `= 1` for a new norm. */
  method BumpOne(counts: seq<(string, nat)>, norm: string) returns (r: seq<(string, nat)>)
    ensures r == Bump(counts, norm)
  {
    match Get(counts, norm) {
      case Some(n) => r := Put(counts, norm, n + 1);
      case None => r := Put(counts, norm, 1);
    }
  }

  /** The inner loop of `normas_faltantes_conteo`: counts the norms missing on one bus. */
  method BumpAll(counts: seq<(string, nat)>, ghost before: seq<string>, missing: seq<string>)
    returns (r: seq<(string, nat)>)
    requires counts == Tally(before)
    ensures r == Tally(before + missing)
  {
    r := counts;
    assert before + missing[..0] == before;
    for k := 0 to |missing|
      invariant r == Tally(before + missing[..k])
    {
      TallyStep(before, missing, k);
      r := BumpOne(r, missing[k]);
    }
    assert missing[..|missing|] == missing;
  }

  /** Tallying one more missing norm of a bus. */
  lemma TallyStep(before: seq<string>, missing: seq<string>, k: nat)
    requires k < |missing|
    ensures Tally(before + missing[..k + 1]) == Bump(Tally(before + missing[..k]), missing[k])
  {
    assert before + missing[..k + 1] == (before + missing[..k]) + [missing[k]];
    TallySnoc(before + missing[..k], missing[k]);
  }

  /** Flattening one more bus appends its missing list. */
  lemma FlattenSnoc(status: seq<(string, seq<string>)>, i: nat)
    requires i < |status|
    ensures Flatten(status[..i + 1]) == Flatten(status[..i]) + status[i].1
  {
    assert status[..i + 1][..i] == status[..i];
  }

  /** `normas_faltantes_conteo`. */
  method TallyMissing(status: seq<(string, seq<string>)>) returns (counts: seq<(string, nat)>)
    ensures counts == Tally(Flatten(status))
  {
    counts := [];
    for i := 0 to |status|
      invariant counts == Tally(Flatten(status[..i]))
    {
      FlattenSnoc(status, i);
      counts := BumpAll(counts, Flatten(status[..i]), status[i].1);
    }
    assert status[..|status|] == status;
  }

  lemma {:induction false} CountIfAppend<T>(a: seq<T>, b: seq<T>, p: T -> bool)
    ensures CountIf(a + b, p) == CountIf(a, p) + CountIf(b, p)
    decreases |b|
  {
    if |b| > 0 {
      assert (a + b)[..|a + b| - 1] == a + b[..|b| - 1];
      CountIfAppend(a, b[..|b| - 1], p);
    } else {
      assert a + b == a;
    }
  }

  lemma {:induction false} OccurrencesDistinct(s: seq<string>, x: string)
    requires Distinct(s)
    ensures Occurrences(s, x) == if x in s then 1 else 0
    decreases |s|
  {
    if |s| > 0 {
      var q := s[..|s| - 1];
      assert Distinct(q);
      OccurrencesDistinct(q, x);
      assert s == q + [s[|s| - 1]];
      assert s[|s| - 1] !in q;
    }
  }

  function MissesNorm(x: string): ((string, seq<string>)) -> bool {
    (e: (string, seq<string>)) => x in e.1
  }

  /** When no missing list repeats a norm, a norm's tally is the number of buses missing it. */
  lemma {:induction false} TallyCountsBuses(status: seq<(string, seq<string>)>, x: string)
    requires forall j :: 0 <= j < |status| ==> Distinct(status[j].1)
    ensures Occurrences(Flatten(status), x) == CountIf(status, MissesNorm(x))
    decreases |status|
  {
    if |status| > 0 {
      var q := status[..|status| - 1];
      var e := status[|status| - 1];
      assert forall j :: 0 <= j < |q| ==> q[j] == status[j];
      TallyCountsBuses(q, x);
      CountIfAppend(Flatten(q), e.1, IsName(x));
      OccurrencesDistinct(e.1, x);
    }
  }

  /** `key=lambda x: x[1], reverse=True`. */
  function ByCountDesc(): ((string, nat), (string, nat)) -> bool {
    (a: (string, nat), b: (string, nat)) => a.1 > b.1
  }

  lemma ByCountDescOrder()
    ensures StrictWeakOrder(ByCountDesc())
  {
    var lt := ByCountDesc();
    forall a: (string, nat), b: (string, nat) ensures Asymmetric(lt, a, b) {
    }
    forall a: (string, nat), b: (string, nat), c: (string, nat) ensures NegativelyTransitive(lt, a, b, c) {
    }
  }

  /** `normas_sorted[:10]`. */
  function TopMissing(counts: seq<(string, nat)>): seq<(string, nat)> {
    Take(SortBy(counts, ByCountDesc()), 10)
  }

  /** The ranking keeps every entry of the tally, by non-increasing count, ties in tally
      order; the top ten are its first entries and none of the rest counts more. */
  lemma TopMissingSpec(counts: seq<(string, nat)>, x: (string, nat))
    ensures var sorted := SortBy(counts, ByCountDesc());
      && multiset(sorted) == multiset(counts)
      && (forall i, j :: 0 <= i < j < |sorted| ==> sorted[i].1 >= sorted[j].1)
      && Ties(sorted, x, ByCountDesc()) == Ties(counts, x, ByCountDesc())
      && |TopMissing(counts)| == (if |counts| < 10 then |counts| else 10)
      && TopMissing(counts) == sorted[..|TopMissing(counts)|]
      && (forall i, j :: 0 <= i < |TopMissing(counts)| <= j < |sorted| ==> TopMissing(counts)[i].1 >= sorted[j].1)
  {
    ByCountDescOrder();
    SortBySorted(counts, ByCountDesc());
    SortByStable(counts, x, ByCountDesc());
  }

  // ---------------------------------------------------------------------------
  // Progress ranges (app.py:1311-1330).

  const RangeLabels: seq<string> := ["90-100%", "70-89%", "50-69%", "25-49%", "0-24%"]

  /** The range a progress falls in, as an index into `RangeLabels`. */
  function Bucket(p: real): (k: nat)
    ensures k < |RangeLabels|
  {
    if p >= 90.0 then 0 else if p >= 70.0 then 1 else if p >= 50.0 then 2 else if p >= 25.0 then 3 else 4
  }

  /** The lower bound of each range. */
  const RangeFloor: seq<real> := [90.0, 70.0, 50.0, 25.0, 0.0]

  /** A higher progress never falls in a lower range; a progress in [0, 100] lies between its
      range's floor and the next range's floor. */
  lemma BucketSpec(p: real, q: real)
    ensures p <= q ==> Bucket(q) <= Bucket(p)
    ensures 0.0 <= p ==> RangeFloor[Bucket(p)] <= p
    ensures Bucket(p) > 0 ==> p < RangeFloor[Bucket(p) - 1]
  {
  }

  function InBucket(k: nat): ((string, BusInfo)) -> bool {
    (e: (string, BusInfo)) => Bucket(e.1.progress) == k
  }

  /** `avance_ranges`, in label order. */
  method CountRanges(bp: seq<(string, BusInfo)>) returns (r: seq<nat>)
    ensures |r| == |RangeLabels|
    ensures forall k :: 0 <= k < |RangeLabels| ==> r[k] == CountIf(bp, InBucket(k))
  {
    var r0, r1, r2, r3, r4 := 0, 0, 0, 0, 0;
    for i := 0 to |bp|
      invariant r0 == CountIf(bp[..i], InBucket(0)) && r1 == CountIf(bp[..i], InBucket(1))
      invariant r2 == CountIf(bp[..i], InBucket(2)) && r3 == CountIf(bp[..i], InBucket(3))
      invariant r4 == CountIf(bp[..i], InBucket(4))
    {
      CountIfSnoc(bp, i, InBucket(0));
      CountIfSnoc(bp, i, InBucket(1));
      CountIfSnoc(bp, i, InBucket(2));
      CountIfSnoc(bp, i, InBucket(3));
      CountIfSnoc(bp, i, InBucket(4));
      var progress := bp[i].1.progress;
      if progress >= 90.0 {
        r0 := r0 + 1;
      } else if progress >= 70.0 {
        r1 := r1 + 1;
      } else if progress >= 50.0 {
        r2 := r2 + 1;
      } else if progress >= 25.0 {
        r3 := r3 + 1;
      } else {
        r4 := r4 + 1;
      }
    }
    assert bp[..|bp|] == bp;
    r := [r0, r1, r2, r3, r4];
  }

  /** Every bus is counted in exactly one range. */
  lemma {:induction false} RangesCover(bp: seq<(string, BusInfo)>)
    ensures CountIf(bp, InBucket(0)) + CountIf(bp, InBucket(1)) + CountIf(bp, InBucket(2)) +
      CountIf(bp, InBucket(3)) + CountIf(bp, InBucket(4)) == |bp|
    decreases |bp|
  {
    if |bp| > 0 {
      RangesCover(bp[..|bp| - 1]);
    }
  }

  // ---------------------------------------------------------------------------
  // The bus list: filters, orders and pages (app.py:1703-1721).

  datatype BusFilter = Todos | Completos | Incompletos | Criticos

  function Keeps(f: BusFilter): ((string, BusInfo)) -> bool {
    match f
    case Todos => (e: (string, BusInfo)) => true
    case Completos => (e: (string, BusInfo)) => e.1.progress == 100.0
    case Incompletos => (e: (string, BusInfo)) => e.1.progress < 100.0
    case Criticos => (e: (string, BusInfo)) => e.1.progress < 50.0
  }

  function FilterBuses(list: seq<(string, BusInfo)>, f: BusFilter): seq<(string, BusInfo)> {
    if f == Todos then list else Filter(list, Keeps(f))
  }

  /** 'Todos' keeps everything; each other choice keeps, in order, exactly the buses passing
      its test; with progress at most 100, complete and incomplete buses split the list, and
      every critical bus is incomplete. */
  lemma FilterBusesSpec(list: seq<(string, BusInfo)>, f: BusFilter, e: (string, BusInfo))
    ensures FilterBuses(list, Todos) == list
    ensures IsSubsequence(FilterBuses(list, f), list)
    ensures e in FilterBuses(list, f) <==> e in list && Keeps(f)(e)
    ensures (forall i :: 0 <= i < |list| ==> list[i].1.progress <= 100.0) ==>
      |FilterBuses(list, Completos)| + |FilterBuses(list, Incompletos)| == |list|
    ensures e in FilterBuses(list, Criticos) ==> e in FilterBuses(list, Incompletos)
  {
    if f != Todos {
      FilterSubsequence(list, Keeps(f));
      FilterIn(list, Keeps(f), e);
    } else {
      SubsequenceRefl(list);
    }
    FilterIn(list, Keeps(Criticos), e);
    FilterIn(list, Keeps(Incompletos), e);
    FilterCount(list, Keeps(Completos));
    FilterCount(list, Keeps(Incompletos));
    if forall i :: 0 <= i < |list| ==> list[i].1.progress <= 100.0 {
      CountIfComplement(list, Keeps(Completos), Keeps(Incompletos));
    }
  }

  lemma {:induction false} SubsequenceRefl<T>(s: seq<T>)
    ensures IsSubsequence(s, s)
    decreases |s|
  {
    if |s| > 0 {
      SubsequenceRefl(s[..|s| - 1]);
    }
  }

  /** Python's `<` on strings: code point by code point, a proper prefix first. */
  predicate LexLess(a: string, b: string)
    decreases |a|
  {
    if |a| == 0 then |b| > 0
    else if |b| == 0 then false
    else if a[0] != b[0] then a[0] < b[0]
    else LexLess(a[1..], b[1..])
  }

  lemma {:induction false} LexAsymmetric(a: string, b: string)
    ensures LexLess(a, b) ==> !LexLess(b, a)
    decreases |a|
  {
    if |a| > 0 && |b| > 0 && a[0] == b[0] {
      LexAsymmetric(a[1..], b[1..]);
    }
  }

  lemma {:induction false} LexTotal(a: string, b: string)
    ensures a == b || LexLess(a, b) || LexLess(b, a)
    decreases |a|
  {
    if |a| > 0 && |b| > 0 && a[0] == b[0] {
      LexTotal(a[1..], b[1..]);
      if a[1..] == b[1..] {
        assert a == [a[0]] + a[1..] && b == [b[0]] + b[1..];
      }
    }
  }

  lemma {:induction false} LexTransitive(a: string, b: string, c: string)
    ensures LexLess(a, b) && LexLess(b, c) ==> LexLess(a, c)
    decreases |a|
  {
    if |a| > 0 && |b| > 0 && |c| > 0 && a[0] == b[0] && b[0] == c[0] {
      LexTransitive(a[1..], b[1..], c[1..]);
    }
  }

  datatype SortOption = ByNumeroInterno | ProgressDesc | ProgressAsc

  function Order(o: SortOption): ((string, BusInfo), (string, BusInfo)) -> bool {
    match o
    case ByNumeroInterno => (a: (string, BusInfo), b: (string, BusInfo)) => LexLess(a.0, b.0)
    case ProgressDesc => (a: (string, BusInfo), b: (string, BusInfo)) => a.1.progress > b.1.progress
    case ProgressAsc => (a: (string, BusInfo), b: (string, BusInfo)) => a.1.progress < b.1.progress
  }

  lemma OrderIsStrictWeak(o: SortOption)
    ensures StrictWeakOrder(Order(o))
  {
    var lt := Order(o);
    forall a: (string, BusInfo), b: (string, BusInfo) ensures Asymmetric(lt, a, b) {
      LexAsymmetric(a.0, b.0);
    }
    forall a: (string, BusInfo), b: (string, BusInfo), c: (string, BusInfo) ensures NegativelyTransitive(lt, a, b, c) {
      if o == ByNumeroInterno {
        LexTotal(a.0, b.0);
        LexTotal(b.0, c.0);
        LexTransitive(c.0, b.0, a.0);
        LexAsymmetric(a.0, c.0);
      }
    }
  }

  /** `bus_list.sort(...)`. */
  function SortBuses(list: seq<(string, BusInfo)>, o: SortOption): seq<(string, BusInfo)> {
    SortBy(list, Order(o))
  }

  /** Each order keeps the buses, sorts them and leaves ties in list order. */
  lemma SortBusesSpec(list: seq<(string, BusInfo)>, o: SortOption, k: (string, BusInfo))
    ensures multiset(SortBuses(list, o)) == multiset(list)
    ensures Sorted(SortBuses(list, o), Order(o))
    ensures Ties(SortBuses(list, o), k, Order(o)) == Ties(list, k, Order(o))
  {
    OrderIsStrictWeak(o);
    SortBySorted(list, Order(o));
    SortByStable(list, k, Order(o));
  }

  /** Buses per page of the list. */
  const PageSize: nat := 10

  /** `[s[i:i + 10] for i in range(0, len(s), 10)]`. */
  function Chunks<T>(s: seq<T>): (r: seq<seq<T>>)
    ensures |r| == (|s| + PageSize - 1) / PageSize
  {
    seq((|s| + PageSize - 1) / PageSize, k requires 0 <= k < (|s| + PageSize - 1) / PageSize =>
      s[k * PageSize .. if (k + 1) * PageSize <= |s| then (k + 1) * PageSize else |s|])
  }

  function Concat<T>(ss: seq<seq<T>>): seq<T> {
    if |ss| == 0 then [] else Concat(ss[..|ss| - 1]) + ss[|ss| - 1]
  }

  lemma {:induction false} ConcatChunks<T>(s: seq<T>, m: nat)
    requires m <= (|s| + PageSize - 1) / PageSize
    ensures Concat(Chunks(s)[..m]) == s[..if m * PageSize <= |s| then m * PageSize else |s|]
    decreases m
  {
    var c := Chunks(s);
    if m > 0 {
      ConcatChunks(s, m - 1);
      assert c[..m][..m - 1] == c[..m - 1];
      var hi := if m * PageSize <= |s| then m * PageSize else |s|;
      assert c[m - 1] == s[(m - 1) * PageSize .. hi];
      assert s[..(m - 1) * PageSize] + s[(m - 1) * PageSize .. hi] == s[..hi];
    }
  }

  /** The pages put back together give the list; every page holds 1 to 10 buses, all but
      the last exactly 10; page `k + 1` starts at bus `10 * k`. */
  lemma ChunksSpec<T>(s: seq<T>, k: nat)
    ensures Concat(Chunks(s)) == s
    ensures k < |Chunks(s)| ==> 0 < |Chunks(s)[k]| <= PageSize && Chunks(s)[k] == s[k * PageSize .. k * PageSize + |Chunks(s)[k]|]
    ensures k + 1 < |Chunks(s)| ==> |Chunks(s)[k]| == PageSize
  {
    var c := Chunks(s);
    ConcatChunks(s, |c|);
    assert c[..|c|] == c;
  }
}
