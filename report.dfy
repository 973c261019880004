/** `generate_bus_report` of app.py (app.py:464-568): find one bus's row from its id, read
    its descriptive fields, give each norm a status and compute the share of required norms
    installed; plus the grouping of the statuses for the exported report (app.py:633-635). */
module BusReport {
  import opened Text
  import opened Frames
  import opened Classifier
  import opened Schema
  import opened Metrics

  // ---------------------------------------------------------------------------
  // Finding the bus's row (app.py:466-494).

  /** `df[c].astype(str)`: the text of every cell of a column. */
  function ColumnTexts(t: Table, c: string): (r: seq<string>)
    requires WellFormed(t) && c in t.columns
    ensures |r| == |t.rows|
    ensures forall i :: 0 <= i < |t.rows| ==> r[i] == CellText(CellAt(t, i, c))
  {
    seq(|t.rows|, i requires 0 <= i < |t.rows| => CellText(CellAt(t, i, c)))
  }

  /** `df[df[c].astype(str) == v].iloc[0]`, as a position: the first row whose text in `c`
      is `v`, or none. */
  function MatchRow(t: Table, c: string, v: string): (r: Option<nat>)
    requires WellFormed(t) && c in t.columns
    ensures r.Some? ==> r.value < |t.rows| && CellText(CellAt(t, r.value, c)) == v
    ensures r.Some? ==> forall j :: 0 <= j < r.value ==> CellText(CellAt(t, j, c)) != v
    ensures r.None? <==> forall j :: 0 <= j < |t.rows| ==> CellText(CellAt(t, j, c)) != v
  {
    var texts := ColumnTexts(t, c);
    var r := IndexOf(texts, v);
    if r.None? then
      assert forall j :: 0 <= j < |t.rows| ==> texts[j] != v;
      r
    else r
  }

  /** The outcome of the search: a row position, nothing, or the IndexError `iloc` raises
      for an index below `-len(df)`. */
  datatype Lookup = Found(row: nat) | NotFound | Raised

  /** The search, strategy by strategy: 'N° Interno' text, 'Numero Interno' text, the PPU
      after removing "PPU_", then the position after removing "Bus_" (negative positions
      count from the end, as `iloc` does). */
  function Locate(t: Table, busId: string): (r: Lookup)
    requires WellFormed(t)
    ensures r.Found? ==> r.row < |t.rows|
  {
    var byInterno := if Interno in t.columns then MatchRow(t, Interno, busId) else None;
    var byNumero := if NumeroInterno in t.columns then MatchRow(t, NumeroInterno, busId) else None;
    var byPpu := if Ppu in t.columns && StartsWith(busId, "PPU_") then MatchRow(t, Ppu, RemoveAll(busId, "PPU_")) else None;
    if byInterno.Some? then Found(byInterno.value)
    else if byNumero.Some? then Found(byNumero.value)
    else if byPpu.Some? then Found(byPpu.value)
    else if StartsWith(busId, "Bus_") then
      match ParseInt(RemoveAll(busId, "Bus_"))
      case None => NotFound
      case Some(idx) =>
        if idx >= |t.rows| then NotFound
        else if idx >= 0 then Found(idx)
        else if idx >= -|t.rows| then Found(|t.rows| + idx)
        else Raised
    else NotFound
  }

  /** The search as the source writes it: `bus_row` stays unset until a strategy fills it. */
  method LocateBus(t: Table, busId: string) returns (r: Lookup)
    requires WellFormed(t)
    ensures r == Locate(t, busId)
  {
    var busRow: Option<nat> := None;
    if Interno in t.columns {
      busRow := MatchRow(t, Interno, busId);
    }
    if busRow.None? && NumeroInterno in t.columns {
      busRow := MatchRow(t, NumeroInterno, busId);
    }
    if busRow.None? && Ppu in t.columns && StartsWith(busId, "PPU_") {
      var ppuValue := RemoveAll(busId, "PPU_");
      busRow := MatchRow(t, Ppu, ppuValue);
    }
    if busRow.None? && StartsWith(busId, "Bus_") {
      var idx := ParseInt(RemoveAll(busId, "Bus_"));
      if idx.Some? && idx.value < |t.rows| {
        if idx.value >= 0 {
          busRow := Some(idx.value);
        } else if idx.value >= -|t.rows| {
          busRow := Some(|t.rows| + idx.value);
        } else {
          return Raised;
        }
      }
    }
    r := if busRow.Some? then Found(busRow.value) else NotFound;
  }

  // ---------------------------------------------------------------------------
  // The report of a found row (app.py:505-559).

  /** `info_fields` (app.py:506-517): each field with the columns tried for it, in order. */
  const InfoFields: seq<(string, seq<string>)> := [
    (Ppu, [Ppu, "Patente", "Placa"]),
    ("Unidad", ["Unidad", "Unid"]),
    ("Marca chasis", ["Marca chasis", "Marca", "Marca Bus"]),
    ("Modelo chasis", ["Modelo chasis", "Modelo", "Tipo"]),
    ("Subclase", ["Subclase", "Clase", "Tipo Bus"]),
    ("N\U{B0} plazas", ["N\U{B0} plazas", "Plazas", "Capacidad"]),
    ("Terminal", ["Terminal", "Base", "Ubicacion"]),
    ("Taller", ["Taller", "Servicio"]),
    ("FECHA DE RENOVACION", ["FECHA DE RENOVACION", "Fecha"]),
    ("NORMA INSTALADA", ["NORMA INSTALADA", "Normas Instaladas", "Total Instaladas"])
  ]

  /** One field: the first candidate that is a column gives its value ('N/A' when null);
      no candidate present gives 'N/A'. */
  function InfoValue(t: Table, i: nat, candidates: seq<string>): (r: string)
    requires WellFormed(t) && i < |t.rows|
    ensures (forall j :: 0 <= j < |candidates| ==> candidates[j] !in t.columns) ==> r == "N/A"
    ensures forall j :: 0 <= j < |candidates| && candidates[j] in t.columns ==>
      (forall j' :: 0 <= j' < j ==> candidates[j'] !in t.columns) ==> r == ValueOrNA(t, i, candidates[j])
  {
    InfoFrom(t, i, candidates, 0)
  }

  /** The field value looked up from the `k`-th candidate on. */
  function InfoFrom(t: Table, i: nat, candidates: seq<string>, k: nat): (r: string)
    requires WellFormed(t) && i < |t.rows| && k <= |candidates|
    ensures (forall j :: k <= j < |candidates| ==> candidates[j] !in t.columns) ==> r == "N/A"
    ensures forall j :: k <= j < |candidates| && candidates[j] in t.columns ==>
      (forall j' :: k <= j' < j ==> candidates[j'] !in t.columns) ==> r == ValueOrNA(t, i, candidates[j])
    decreases |candidates| - k
  {
    if k == |candidates| then "N/A"
    else if candidates[k] in t.columns then ValueOrNA(t, i, candidates[k])
    else InfoFrom(t, i, candidates, k + 1)
  }

  /** The field entries of `bus_info`, in `info_fields` order. */
  function InfoPairs(t: Table, i: nat): (r: seq<(string, string)>)
    requires WellFormed(t) && i < |t.rows|
    ensures |r| == |InfoFields|
    ensures forall f :: 0 <= f < |InfoFields| ==> r[f] == (InfoFields[f].0, InfoValue(t, i, InfoFields[f].1))
  {
    seq(|InfoFields|, f requires 0 <= f < |InfoFields| => (InfoFields[f].0, InfoValue(t, i, InfoFields[f].1)))
  }

  /** The status of one norm: read from the row when the column exists, else 'No Disponible'. */
  function StatusFor(t: Table, i: nat, c: string): NormStatus
    requires WellFormed(t) && i < |t.rows|
  {
    if c in t.columns then ReportStatus(CellAt(t, i, c)) else NoDisponible
  }

  function StatusPairs(t: Table, i: nat, cols: seq<string>): (r: seq<(string, NormStatus)>)
    requires WellFormed(t) && i < |t.rows|
    ensures Keys(r) == cols
    ensures forall j :: 0 <= j < |cols| ==> r[j] == (cols[j], StatusFor(t, i, cols[j]))
  {
    seq(|cols|, j requires 0 <= j < |cols| => (cols[j], StatusFor(t, i, cols[j])))
  }

  /** Counted in the denominator: neither 'No Aplica' nor 'No Disponible'. */
  predicate IsRequired(s: NormStatus) {
    s != NoAplica && s != NoDisponible
  }

  predicate IsInstalada(s: NormStatus) {
    s == Instalada
  }

  /** app.py:550-559: installed over required, or 100 when nothing is required. */
  function ReportProgress(st: seq<(string, NormStatus)>): real {
    var required := CountIf(Values(st), IsRequired);
    if required == 0 then 100.0 else Percent(CountIf(Values(st), IsInstalada), required)
  }

  /** The three results of the function: `bus_info`, `norm_status` and the progress. */
  datatype Report = Report(info: seq<(string, string)>, normStatus: seq<(string, NormStatus)>, progress: real)

  function FoundReport(t: Table, busId: string, i: nat, cols: seq<string>): Report
    requires WellFormed(t) && i < |t.rows|
  {
    var st := PutAll(StatusPairs(t, i, cols));
    Report(PutAll([(Interno, busId)] + InfoPairs(t, i)), st, ReportProgress(st))
  }

  /** Every norm with the same placeholder status. */
  function Placeholder(cols: seq<string>, s: NormStatus): (r: seq<(string, NormStatus)>)
    ensures Keys(r) == cols
    ensures forall j :: 0 <= j < |cols| ==> r[j] == (cols[j], s)
  {
    seq(|cols|, j requires 0 <= j < |cols| => (cols[j], s))
  }

  /** app.py:496-501: the bus was not found. */
  function NotFoundReport(busId: string, cols: seq<string>): Report {
    Report([(Interno, busId), (Ppu, "N/A"), ("Error", "No se encontr\U{F3} informaci\U{F3}n para este bus")],
      PutAll(Placeholder(cols, Desconocido)), 0.0)
  }

  /** The text pandas gives the IndexError of `iloc` with a position out of range. */
  const IndexErrorText: string := "single positional indexer is out-of-bounds"

  /** app.py:561-568: an exception was raised while building the report. */
  function ErrorReport(busId: string, cols: seq<string>, message: string): Report {
    Report([(Interno, busId), (Ppu, "N/A"), ("Error", "Error al generar reporte: " + message)],
      PutAll(Placeholder(cols, Failed)), 0.0)
  }

  /** The candidate loop of app.py:522-528. */
  method FieldValue(t: Table, i: nat, candidates: seq<string>) returns (value: string)
    requires WellFormed(t) && i < |t.rows|
    ensures value == InfoValue(t, i, candidates)
  {
    value := "N/A";
    var k := 0;
    while k < |candidates|
      invariant 0 <= k <= |candidates|
      invariant InfoFrom(t, i, candidates, k) == InfoValue(t, i, candidates)
      decreases |candidates| - k
    {
      if candidates[k] in t.columns {
        value := ValueOrNA(t, i, candidates[k]);
        return;
      }
      k := k + 1;
    }
  }

  /** The field loop of app.py:520-529. */
  method BuildInfo(t: Table, busId: string, i: nat) returns (info: seq<(string, string)>)
    requires WellFormed(t) && i < |t.rows|
    ensures info == PutAll([(Interno, busId)] + InfoPairs(t, i))
  {
    ghost var ps := [(Interno, busId)] + InfoPairs(t, i);
    info := [(Interno, busId)];
    assert info == PutAll(ps[..1]);
    for f := 0 to |InfoFields|
      invariant info == PutAll(ps[..f + 1])
    {
      var field := InfoFields[f];
      var value := FieldValue(t, i, field.1);
      assert ps[f + 1] == (field.0, value);
      PutAllSnoc(ps, f + 1);
      info := Put(info, field.0, value);
    }
    assert ps[..|InfoFields| + 1] == ps;
  }

  /** The status loop of app.py:532-548. */
  method BuildStatus(t: Table, i: nat, cols: seq<string>) returns (st: seq<(string, NormStatus)>)
    requires WellFormed(t) && i < |t.rows|
    ensures st == PutAll(StatusPairs(t, i, cols))
  {
    ghost var ps := StatusPairs(t, i, cols);
    st := [];
    for j := 0 to |cols|
      invariant st == PutAll(ps[..j])
    {
      var c := cols[j];
      var status := if c in t.columns then ReportStatus(CellAt(t, i, c)) else NoDisponible;
      PutAllSnoc(ps, j);
      st := Put(st, c, status);
    }
    assert ps[..|cols|] == ps;
  }

  /** `generate_bus_report`. */
  method GenerateBusReport(t: Table, busId: string, cols: seq<string>) returns (rep: Report)
    requires WellFormed(t)
    ensures Locate(t, busId) == NotFound ==> rep == NotFoundReport(busId, cols)
    ensures Locate(t, busId) == Raised ==> rep == ErrorReport(busId, cols, IndexErrorText)
    ensures Locate(t, busId).Found? ==> rep == FoundReport(t, busId, Locate(t, busId).row, cols)
    ensures 0.0 <= rep.progress <= 100.0
  {
    var where := LocateBus(t, busId);
    if where.Raised? {
      return ErrorReport(busId, cols, IndexErrorText);
    }
    if where.NotFound? {
      return NotFoundReport(busId, cols);
    }
    var i := where.row;
    var info := BuildInfo(t, busId, i);
    var st := BuildStatus(t, i, cols);
    ReportProgressBounds(st);
    var required := CountIf(Values(st), IsRequired);
    if required == 0 {
      return Report(info, st, 100.0);
    }
    var completed := CountIf(Values(st), IsInstalada);
    rep := Report(info, st, Percent(completed, required));
  }

  // ---------------------------------------------------------------------------
  // Properties of the report.

  /** Progress lies in [0, 100]; it is 100 exactly when every required norm is installed
      (so also when nothing is required). */
  lemma ReportProgressBounds(st: seq<(string, NormStatus)>)
    ensures 0.0 <= ReportProgress(st) <= 100.0
    ensures ReportProgress(st) == 100.0 <==> forall j :: 0 <= j < |st| ==> IsRequired(st[j].1) ==> IsInstalada(st[j].1)
    ensures ReportProgress(st) == 0.0 <==> CountIf(Values(st), IsRequired) > 0 && forall j :: 0 <= j < |st| ==> !IsInstalada(st[j].1)
  {
    var vs := Values(st);
    CountIfMono(vs, IsInstalada, IsRequired);
    CountIfMonoEq(vs, IsInstalada, IsRequired);
    CountIfNone(vs, IsRequired);
    CountIfNone(vs, IsInstalada);
  }

  /** The found report's status dict holds each requested norm once, with the status of its
      cell; a status other than 'Pendiente' for a present column is exactly the row-wise
      completed test of the metrics. */
  lemma FoundStatusSpec(t: Table, i: nat, cols: seq<string>, c: string)
    requires WellFormed(t) && i < |t.rows|
    ensures var st := PutAll(StatusPairs(t, i, cols));
      && Distinct(Keys(st))
      && (c in Keys(st) <==> c in cols)
      && (c in cols ==> Get(st, c) == Some(StatusFor(t, i, c)))
      && (c !in t.columns ==> StatusFor(t, i, c) == NoDisponible)
      && (c in t.columns ==> (StatusFor(t, i, c) != Pendiente <==> RowCompleted(CellAt(t, i, c))))
  {
    var ps := StatusPairs(t, i, cols);
    var st := PutAll(ps);
    PutAllSpec(ps);
    if c in cols {
      GetPutAll(ps, c);
    }
    if c in Keys(st) {
      var j :| 0 <= j < |st| && Keys(st)[j] == c;
      assert st[j] in ps;
    }
    if c in t.columns {
      ReportAgreesWithRow(CellAt(t, i, c));
    }
  }

  /** A placeholder report gives every requested norm the placeholder status and progress 0. */
  lemma PlaceholderSpec(cols: seq<string>, s: NormStatus, c: string)
    requires c in cols
    ensures Get(PutAll(Placeholder(cols, s)), c) == Some(s)
  {
    GetPutAll(Placeholder(cols, s), c);
  }

  /** The not-found report names the bus, says why, and marks every norm 'Desconocido'. */
  lemma NotFoundReportSpec(busId: string, cols: seq<string>, c: string)
    requires c in cols
    ensures var r := NotFoundReport(busId, cols);
      Get(r.info, Interno) == Some(busId) && Get(r.info, "Error").Some? &&
      Get(r.normStatus, c) == Some(Desconocido) && r.progress == 0.0
  {
    PlaceholderSpec(cols, Desconocido, c);
    var keys := Keys(NotFoundReport(busId, cols).info);
    IndexOfFirst(keys, Interno, 0);
    IndexOfFirst(keys, "Error", 2);
  }

  /** With distinct norm names, the found report's progress is 100 exactly when the metrics
      find nothing missing for that row: the two differing formulas agree on full progress. */
  lemma ReportAgreesWithMetrics(t: Table, i: nat, cols: seq<string>)
    requires WellFormed(t) && i < |t.rows| && NormsIn(t, cols) && Distinct(cols)
    ensures FoundReport(t, "", i, cols).progress == 100.0 <==> MissingNorms(t, i, cols) == []
  {
    var ps := StatusPairs(t, i, cols);
    PutAllDistinct(ps);
    ReportProgressBounds(ps);
    StatusesMatchRow(t, i, cols);
    MissingNormsEmpty(t, i, cols);
    CountIfAll(RowCells(t, i, cols), RowCompleted);
  }

  lemma StatusesMatchRow(t: Table, i: nat, cols: seq<string>)
    requires WellFormed(t) && i < |t.rows| && NormsIn(t, cols)
    ensures var ps := StatusPairs(t, i, cols);
      (forall j :: 0 <= j < |ps| ==> IsRequired(ps[j].1) ==> IsInstalada(ps[j].1)) <==>
      (forall j :: 0 <= j < |cols| ==> RowCompleted(RowCells(t, i, cols)[j]))
  {
    var ps := StatusPairs(t, i, cols);
    forall j | 0 <= j < |cols|
      ensures (IsRequired(ps[j].1) ==> IsInstalada(ps[j].1)) <==> RowCompleted(RowCells(t, i, cols)[j])
    {
      ReportAgreesWithRow(CellAt(t, i, cols[j]));
    }
  }

  // ---------------------------------------------------------------------------
  // Ids round-trip through the search.

  /** With distinct 'N° Interno' texts, the id the metrics give a row with a non-null
      'N° Interno' finds that same row. */
  lemma LocateInternoId(t: Table, i: nat)
    requires WellFormed(t) && i < |t.rows| && Interno in t.columns && CellAt(t, i, Interno).Some?
    requires Distinct(ColumnTexts(t, Interno))
    ensures Locate(t, BusId(t, i)) == Found(i)
  {
    IndexOfDistinct(ColumnTexts(t, Interno), BusId(t, i), i);
  }

  /** `replace` leaves a text that does not contain the pattern unchanged. */
  lemma {:induction false} RemoveAllNone(s: string, p: string)
    requires |p| > 0 && !Contains(s, p)
    ensures RemoveAll(s, p) == s
    decreases |s|
  {
    if |s| >= |p| {
      if s[..|p|] == p {
        assert false;
      }
      if Contains(s[1..], p) {
        ContainsTail(s, p);
      }
      RemoveAllNone(s[1..], p);
    }
  }

  lemma RemovePrefix(p: string, s: string)
    requires |p| > 0 && !Contains(s, p)
    ensures RemoveAll(p + s, p) == s
  {
    assert (p + s)[..|p|] == p;
    assert (p + s)[|p|..] == s;
    RemoveAllNone(s, p);
  }

  /** Without any "INTERNO" column a row with a PPU gets the id "PPU_" + PPU; with distinct
      PPU texts that do not themselves contain "PPU_", the id finds the row again. */
  lemma LocatePpuId(t: Table, i: nat)
    requires WellFormed(t) && i < |t.rows| && InternoColumns(t.columns) == []
    requires Ppu in t.columns && CellAt(t, i, Ppu).Some? && !Contains(CellAt(t, i, Ppu).value, "PPU_")
    requires Distinct(ColumnTexts(t, Ppu))
    ensures Locate(t, BusId(t, i)) == Found(i)
  {
    BusIdFallback(t, i);
    InternoNamed();
    FilterIn(t.columns, NamesInterno, Interno);
    FilterIn(t.columns, NamesInterno, NumeroInterno);
    var v := CellAt(t, i, Ppu).value;
    assert StartsWith("PPU_" + v, "PPU_");
    RemovePrefix("PPU_", v);
    IndexOfDistinct(ColumnTexts(t, Ppu), v, i);
  }

  /** Without "INTERNO" columns and without a PPU, a row's id "Bus_" + index finds it. */
  lemma LocateIndexId(t: Table, i: nat)
    requires WellFormed(t) && i < |t.rows| && InternoColumns(t.columns) == []
    requires Ppu !in t.columns || CellAt(t, i, Ppu).None?
    ensures Locate(t, BusId(t, i)) == Found(i)
  {
    BusIdFallback(t, i);
    InternoNamed();
    FilterIn(t.columns, NamesInterno, Interno);
    FilterIn(t.columns, NamesInterno, NumeroInterno);
    var d := NatToString(i);
    var id := "Bus_" + d;
    assert id[0] == 'B';
    assert !StartsWith(id, "PPU_");
    assert StartsWith(id, "Bus_");
    RemoveAllAbsent(d, "Bus_");
    assert !Contains(d, "Bus_") by {
      if Contains(d, "Bus_") { ContainsFirstChar(d, "Bus_"); }
    }
    RemovePrefix("Bus_", d);
    ParseIntOfNat(i);
  }

  /** "Bus_-1" reaches the last row: `iloc` counts negative positions from the end. */
  lemma LocateNegativeIndex(t: Table)
    requires WellFormed(t) && |t.rows| > 0
    requires Interno !in t.columns && NumeroInterno !in t.columns
    ensures Locate(t, "Bus_-1") == Found(|t.rows| - 1)
  {
    var id := "Bus_-1";
    assert id[..4] == "Bus_";
    assert !StartsWith(id, "PPU_");
    LocateNegativeIndexParse();
  }

  /** "Bus_-n" with `n` beyond the row count makes `iloc` raise. */
  lemma LocateIndexTooNegative()
    ensures Locate(Table([], []), "Bus_-1") == Raised
  {
    LocateNegativeIndexParse();
  }

  lemma LocateNegativeIndexParse()
    ensures RemoveAll("Bus_-1", "Bus_") == "-1" && ParseInt("-1") == Some(-1)
  {
    var id := "Bus_-1";
    assert id[..4] == "Bus_";
    assert id[4..] == "-1";
    RemoveAllAbsent("-1", "Bus_");
    assert TrimLeft("-1") == "-1";
    assert TrimRight("-1") == "-1";
    assert IsDigitGroup("1");
    assert DigitsValue("1") == 1;
  }

  /** Two buses with a null 'N° Interno' (and no other "INTERNO" column) both get the id
      "nan", and the report for that id always shows the first of them. */
  lemma NullInternoCollapse()
    ensures var t := Table([Interno], [[None], [None]]);
      WellFormed(t) && BusId(t, 0) == "nan" && BusId(t, 1) == "nan" && Locate(t, BusId(t, 1)) == Found(0)
  {
    var t := Table([Interno], [[None], [None]]);
    InternoNamed();
    assert InternoColumns(t.columns) == [Interno];
    assert ColumnTexts(t, Interno) == ["nan", "nan"];
  }

  // ---------------------------------------------------------------------------
  // Grouping for the exported report (app.py:633-635).

  function WithStatus(s: NormStatus): ((string, NormStatus)) -> bool {
    (e: (string, NormStatus)) => e.1 == s
  }

  /** The norms of the dict with status `s`, in dict order. */
  function NormsWithStatus(st: seq<(string, NormStatus)>, s: NormStatus): seq<string> {
    Keys(Filter(st, WithStatus(s)))
  }

  /** A found report's statuses are one of four. */
  predicate FoundStatuses(st: seq<(string, NormStatus)>) {
    forall j :: 0 <= j < |st| ==> st[j].1 in {Instalada, NoAplica, Pendiente, NoDisponible}
  }

  lemma {:induction false} StatusCounts(st: seq<(string, NormStatus)>)
    requires FoundStatuses(st)
    ensures CountIf(st, WithStatus(Pendiente)) + CountIf(st, WithStatus(Instalada)) +
      CountIf(st, WithStatus(NoAplica)) + CountIf(st, WithStatus(NoDisponible)) == |st|
    decreases |st|
  {
    if |st| > 0 {
      var q := st[..|st| - 1];
      assert forall j :: 0 <= j < |q| ==> q[j] == st[j];
      StatusCounts(q);
    }
  }

  /** The pending, installed and not-applicable groups, with the unavailable norms, split a
      found report's norms: the sizes add up, and no norm is in two groups. */
  lemma StatusGroups(st: seq<(string, NormStatus)>, s1: NormStatus, s2: NormStatus, c: string)
    requires FoundStatuses(st) && Distinct(Keys(st))
    ensures |NormsWithStatus(st, Pendiente)| + |NormsWithStatus(st, Instalada)| +
      |NormsWithStatus(st, NoAplica)| + |NormsWithStatus(st, NoDisponible)| == |st|
    ensures c in NormsWithStatus(st, s1) <==> Get(st, c) == Some(s1)
    ensures s1 != s2 ==> !(c in NormsWithStatus(st, s1) && c in NormsWithStatus(st, s2))
  {
    StatusCounts(st);
    FilterCount(st, WithStatus(Pendiente));
    FilterCount(st, WithStatus(Instalada));
    FilterCount(st, WithStatus(NoAplica));
    FilterCount(st, WithStatus(NoDisponible));
    InGroup(st, s1, c);
    InGroup(st, s2, c);
  }

  lemma InGroup(st: seq<(string, NormStatus)>, s: NormStatus, c: string)
    requires Distinct(Keys(st))
    ensures c in NormsWithStatus(st, s) <==> Get(st, c) == Some(s)
  {
    var f := Filter(st, WithStatus(s));
    FilterIn(st, WithStatus(s), (c, s));
    if c in Keys(f) {
      var j :| 0 <= j < |f| && Keys(f)[j] == c;
      assert f[j] in st && f[j] == (c, s);
      GetFound(st, c);
      GetUnique(st, c, s);
    }
    if Get(st, c) == Some(s) {
      GetFound(st, c);
      assert (c, s) in f;
      var j :| 0 <= j < |f| && f[j] == (c, s);
      assert Keys(f)[j] == c;
    }
  }

  /** With distinct keys, the value read back is the value paired with the key. */
  lemma GetUnique<V>(st: seq<(string, V)>, c: string, v: V)
    requires Distinct(Keys(st)) && (c, v) in st
    ensures Get(st, c) == Some(v)
  {
    var j :| 0 <= j < |st| && st[j] == (c, v);
    assert Keys(st)[j] == c;
    GetFound(st, c);
    var k :| 0 <= k < |st| && st[k] == (c, Get(st, c).value);
    assert Keys(st)[k] == c;
  }

  /** A found report's statuses are among the four the grouping expects. */
  lemma FoundReportStatuses(t: Table, i: nat, cols: seq<string>)
    requires WellFormed(t) && i < |t.rows|
    ensures FoundStatuses(PutAll(StatusPairs(t, i, cols)))
  {
    var ps := StatusPairs(t, i, cols);
    PutAllSpec(ps);
    forall j | 0 <= j < |PutAll(ps)| ensures PutAll(ps)[j].1 in {Instalada, NoAplica, Pendiente, NoDisponible} {
      var k :| 0 <= k < |ps| && ps[k] == PutAll(ps)[j];
    }
  }
}
