/** The second variant of the engine (normas_graficas_app/app.py): exact-match cell counters,
    progress over the applicable norms only, the shortfall ranking, the per-norm table, the
    status badge, the sidebar filters and the Estado rule of the bus list. */
module Graficas {
  import opened Text
  import opened Frames
  import opened Sorting
  import Classifier
  import Schema
  import Metrics
  import BusReport

  const Plazas: string := "N\U{B0} plazas"
  const Terminal: string := "Terminal"
  const Subclase: string := "Subclase"
  const Todos: string := "Todos"

  /** `columnas_requeridas` (normas_graficas_app/app.py:156). */
  const Requeridas: seq<string> := [Schema.Interno, Schema.Ppu, Terminal]

  /** `columnas_info` (normas_graficas_app/app.py:177-179). */
  const ColumnasInfo: seq<string> := [
    Schema.Interno, Schema.Ppu, "Unidad", "Marca chasis", "Modelo chasis", Subclase,
    Plazas, Terminal, "Taller", "TERMINADOS", "NORMA INSTALADA", "FECHA DE RENOVACION"
  ]

  // ---------------------------------------------------------------------------
  // Loading (normas_graficas_app/app.py:142-169).

  /** One cell after `astype(str)` (every column but 'N° Interno' and 'N° plazas') and
      `replace('nan', '')`: a missing text cell reads as the empty string, and no cell is
      left holding the text 'nan'. The two numeric columns keep their missing cells. */
  function PrepCell(col: string, c: Cell): (r: Cell)
    ensures r != Some("nan")
    ensures r.None? <==> c.None? && (col == Schema.Interno || col == Plazas)
    ensures c.Some? && c != Some("nan") ==> r == c
    ensures c == Some("nan") || (c.None? && col != Schema.Interno && col != Plazas) ==> r == Some("")
  {
    if col == Schema.Interno || col == Plazas then
      (if c == Some("nan") then Some("") else c)
    else if CellText(c) == "nan" then Some("")
    else Some(CellText(c))
  }

  /** The whole table after the two rewrites: same shape, no 'nan' text anywhere. */
  function Preparar(t: Table): (r: Table)
    requires WellFormed(t)
    ensures WellFormed(r) && r.columns == t.columns && |r.rows| == |t.rows|
    ensures forall i, k :: 0 <= i < |t.rows| && 0 <= k < |t.columns| ==>
      r.rows[i][k] == PrepCell(t.columns[k], t.rows[i][k]) && r.rows[i][k] != Some("nan")
  {
    Table(t.columns, seq(|t.rows|, i requires 0 <= i < |t.rows| =>
      seq(|t.columns|, k requires 0 <= k < |t.columns| => PrepCell(t.columns[k], t.rows[i][k]))))
  }

  // ---------------------------------------------------------------------------
  // The cell tests of the counters (normas_graficas_app/app.py:190-197).

  /** `str(val).strip() == '1'`. */
  predicate EsUno(c: Cell) {
    Trim(CellText(c)) == "1"
  }

  /** `str(val).lower().strip() == 'no aplica'`, written with the trim first, which gives
      the same answer (`EsNoAplicaAsWritten`). */
  predicate EsNoAplica(c: Cell) {
    Lower(Trim(CellText(c))) == "no aplica"
  }

  /** `str(val).strip() == ''`. */
  predicate EsVacia(c: Cell) {
    Trim(CellText(c)) == ""
  }

  lemma LowerOne(s: string)
    ensures Lower(s) == "1" <==> s == "1"
  {
    if s == "1" {
      assert Lower(s)[0] == '1';
    }
    if Lower(s) == "1" {
      assert LowerChar(s[0]) == '1';
      assert s == [s[0]];
    }
  }

  lemma LowerEmpty(s: string)
    ensures Lower(s) == "" <==> s == ""
  {
  }

  /** Lowercasing before or after trimming makes no difference to the test. */
  lemma EsNoAplicaAsWritten(c: Cell)
    ensures EsNoAplica(c) <==> Trim(Lower(CellText(c))) == "no aplica"
  {
    TrimLowerCommute(CellText(c));
  }

  /** No cell passes two of the three tests. */
  lemma CellTestsDisjoint(c: Cell)
    ensures !(EsUno(c) && EsNoAplica(c))
    ensures !(EsUno(c) && EsVacia(c))
    ensures !(EsNoAplica(c) && EsVacia(c))
  {
    var v := CellText(c);
    LowerOne(Trim(v));
    LowerEmpty(Trim(v));
  }

  /** Three pairwise exclusive tests count at most every element once. */
  lemma {:induction false} CountIfDisjoint3<T>(s: seq<T>, p: T -> bool, q: T -> bool, u: T -> bool)
    requires forall i :: 0 <= i < |s| ==> !(p(s[i]) && q(s[i])) && !(p(s[i]) && u(s[i])) && !(q(s[i]) && u(s[i]))
    ensures CountIf(s, p) + CountIf(s, q) + CountIf(s, u) <= |s|
    decreases |s|
  {
    if |s| > 0 {
      var r := s[..|s| - 1];
      assert forall i :: 0 <= i < |r| ==> r[i] == s[i];
      CountIfDisjoint3(r, p, q, u);
    }
  }

  // ---------------------------------------------------------------------------
  // calcular_metricas (normas_graficas_app/app.py:172-213).

  /** `columnas_normas`: every column outside the fixed info list, in column order. */
  function ColumnasNormas(cols: seq<string>): seq<string> {
    Filter(cols, c => c !in ColumnasInfo)
  }

  /** A column is a norm exactly when it is present and not on the info list; the norm
      columns keep the table's order and its absence of repetitions. */
  lemma ColumnasNormasSpec(cols: seq<string>, c: string)
    ensures c in ColumnasNormas(cols) <==> c in cols && c !in ColumnasInfo
    ensures IsSubsequence(ColumnasNormas(cols), cols)
    ensures Distinct(cols) ==> Distinct(ColumnasNormas(cols))
  {
    FilterIn(cols, c => c !in ColumnasInfo, c);
    FilterSubsequence(cols, c => c !in ColumnasInfo);
    if Distinct(cols) {
      Schema.FilterDistinct(cols, c => c !in ColumnasInfo);
    }
  }

  /** The info list here is app.py's list less 'CALL CENTER'. */
  lemma ColumnasInfoEnApp()
    ensures forall x :: x in ColumnasInfo ==> x in Schema.InfoCols
    ensures "CALL CENTER" !in ColumnasInfo && "CALL CENTER" in Schema.InfoCols
  {
    assert ColumnasInfo == Schema.InfoCols[..12];
    assert Schema.InfoCols[12] == "CALL CENTER";
  }

  /** The two variants pick the norm columns differently: every norm column of app.py is a
      norm column here, and 'CALL CENTER' is a norm column only here. */
  lemma ColumnasNormasVsApp(cols: seq<string>, c: string)
    ensures c in Schema.NormColumns(cols) ==> c in ColumnasNormas(cols)
    ensures "CALL CENTER" in cols ==>
      "CALL CENTER" in ColumnasNormas(cols) && "CALL CENTER" !in Schema.NormColumns(cols)
  {
    ColumnasInfoEnApp();
    Schema.NormColumnsSpec(cols, c);
    ColumnasNormasSpec(cols, c);
    Schema.NormColumnsSpec(cols, "CALL CENTER");
    ColumnasNormasSpec(cols, "CALL CENTER");
  }

  lemma ColumnasNormasIn(t: Table)
    requires WellFormed(t)
    ensures Metrics.NormsIn(t, ColumnasNormas(t.columns))
  {
  }

  /** The per-bus columns that `calcular_metricas` adds. */
  datatype Figuras = Figuras(totalNormas: nat, instaladas: nat, noAplica: nat, faltantes: nat,
                             aplicables: nat, porcentaje: real)

  /** `normas_instaladas` of bus `i` (normas_graficas_app/app.py:190-191). */
  function InstaladasFila(t: Table, cols: seq<string>, i: nat): nat
    requires WellFormed(t) && i < |t.rows| && Metrics.NormsIn(t, cols)
  {
    CountIf(Metrics.RowCells(t, i, cols), EsUno)
  }

  /** `normas_no_aplica` of bus `i` (normas_graficas_app/app.py:193-194). */
  function NoAplicaFila(t: Table, cols: seq<string>, i: nat): (n: nat)
    requires WellFormed(t) && i < |t.rows| && Metrics.NormsIn(t, cols)
    ensures n <= |cols|
  {
    CountIf(Metrics.RowCells(t, i, cols), EsNoAplica)
  }

  /** `normas_faltantes` of bus `i` (normas_graficas_app/app.py:196-197). */
  function FaltantesFila(t: Table, cols: seq<string>, i: nat): nat
    requires WellFormed(t) && i < |t.rows| && Metrics.NormsIn(t, cols)
  {
    CountIf(Metrics.RowCells(t, i, cols), EsVacia)
  }

  /** A bus's three counts never exceed its number of norms. */
  lemma ConteosFila(t: Table, cols: seq<string>, i: nat)
    requires WellFormed(t) && i < |t.rows| && Metrics.NormsIn(t, cols)
    ensures InstaladasFila(t, cols, i) + NoAplicaFila(t, cols, i) + FaltantesFila(t, cols, i) <= |cols|
  {
    var cells := Metrics.RowCells(t, i, cols);
    forall j | 0 <= j < |cells|
      ensures !(EsUno(cells[j]) && EsNoAplica(cells[j])) && !(EsUno(cells[j]) && EsVacia(cells[j]))
      ensures !(EsNoAplica(cells[j]) && EsVacia(cells[j]))
    {
      CellTestsDisjoint(cells[j]);
    }
    CountIfDisjoint3(cells, EsUno, EsNoAplica, EsVacia);
  }

  /** Installed over applicable, times 100, and 0 when nothing is applicable
      (normas_graficas_app/app.py:201-207 and 707-708). */
  function Avance(instaladas: nat, aplicables: nat): (r: real)
    ensures 0.0 <= r
    ensures instaladas <= aplicables ==> r <= 100.0
    ensures aplicables == 0 ==> r == 0.0
    ensures r == 100.0 <==> aplicables > 0 && instaladas == aplicables
    ensures aplicables > 0 ==> (r == 0.0 <==> instaladas == 0)
  {
    if aplicables == 0 then 0.0 else Metrics.Percent(instaladas, aplicables)
  }

  /** The figures of a bus from the number of norms and its three counts. */
  function Derivadas(total: nat, instaladas: nat, noAplica: nat, faltantes: nat): Figuras
    requires noAplica <= total
  {
    Figuras(total, instaladas, noAplica, faltantes, total - noAplica, Avance(instaladas, total - noAplica))
  }

  /** The figures of bus `i` over the norm columns `cols`. */
  function FigurasDe(t: Table, cols: seq<string>, i: nat): Figuras
    requires WellFormed(t) && i < |t.rows| && Metrics.NormsIn(t, cols)
  {
    Derivadas(|cols|, InstaladasFila(t, cols, i), NoAplicaFila(t, cols, i), FaltantesFila(t, cols, i))
  }

  /** The three counts never exceed the number of norms, and the applicable norms are the
      norms not counted as 'no aplica'. */
  lemma FigurasSpec(t: Table, cols: seq<string>, i: nat)
    requires WellFormed(t) && i < |t.rows| && Metrics.NormsIn(t, cols)
    ensures var f := FigurasDe(t, cols, i);
      && f.totalNormas == |cols|
      && f.instaladas + f.noAplica + f.faltantes <= f.totalNormas
      && f.aplicables == f.totalNormas - f.noAplica
  {
    ConteosFila(t, cols, i);
  }

  /** The progress is the share of the applicable norms that read '1': between 0 and 100, 0
      when nothing is applicable, and 100 exactly when some norm is applicable and every
      applicable one reads '1'. */
  lemma PorcentajeSpec(t: Table, cols: seq<string>, i: nat)
    requires WellFormed(t) && i < |t.rows| && Metrics.NormsIn(t, cols)
    ensures var f := FigurasDe(t, cols, i);
      && 0.0 <= f.porcentaje <= 100.0
      && (f.aplicables == 0 ==> f.porcentaje == 0.0)
      && (f.aplicables > 0 ==> f.porcentaje == Metrics.Percent(f.instaladas, f.aplicables))
      && (f.porcentaje == 100.0 <==> f.aplicables > 0 && f.instaladas == f.aplicables)
  {
    ConteosFila(t, cols, i);
  }

  /** pandas' `x / 0`: `inf`, or `NaN` for `0 / 0`. */
  datatype Ratio = Finite(value: real) | NotFinite

  datatype Metricas = Metricas(normas: seq<string>, figuras: seq<Figuras>)

  /** The derived columns of `calcular_metricas` (normas_graficas_app/app.py:199-207), from
      the number of norms and the three per-bus counts: the division by zero overwritten
      with 0 and the non-finite values replaced. */
  method Derivar(total: nat, instaladas: seq<nat>, noAplica: seq<nat>, faltantes: seq<nat>)
      returns (figuras: seq<Figuras>)
    requires |instaladas| == |noAplica| == |faltantes|
    requires forall i :: 0 <= i < |noAplica| ==> noAplica[i] <= total
    ensures |figuras| == |instaladas|
    ensures forall i :: 0 <= i < |instaladas| ==>
      figuras[i] == Derivadas(total, instaladas[i], noAplica[i], faltantes[i])
  {
    var n := |instaladas|;
    var aplicables: seq<nat> := seq(n, i requires 0 <= i < n => total - noAplica[i]);
    var porcentaje := seq(n, i requires 0 <= i < n =>
      if aplicables[i] == 0 then NotFinite else Finite(Metrics.Percent(instaladas[i], aplicables[i])));
    // df.loc[df['normas_aplicables'] == 0, 'porcentaje_avance'] = 0
    porcentaje := seq(n, i requires 0 <= i < n => if aplicables[i] == 0 then Finite(0.0) else porcentaje[i]);
    // replace([np.inf, -np.inf, np.nan], 0)
    porcentaje := seq(n, i requires 0 <= i < n => if porcentaje[i].NotFinite? then Finite(0.0) else porcentaje[i]);
    figuras := seq(n, i requires 0 <= i < n =>
      Figuras(total, instaladas[i], noAplica[i], faltantes[i], aplicables[i], porcentaje[i].value));
  }

  /** `calcular_metricas`: the norm columns, the three per-bus counts, then the derived
      columns. */
  method CalcularMetricas(df: Table) returns (m: Metricas)
    requires WellFormed(df)
    ensures m.normas == ColumnasNormas(df.columns)
    ensures |m.figuras| == |df.rows|
    ensures forall i :: 0 <= i < |df.rows| ==> m.figuras[i] == FigurasDe(df, m.normas, i)
  {
    var normas := ColumnasNormas(df.columns);
    ColumnasNormasIn(df);
    var n := |df.rows|;
    var instaladas := seq(n, i requires 0 <= i < n => InstaladasFila(df, normas, i));
    var noAplica := seq(n, i requires 0 <= i < n => NoAplicaFila(df, normas, i));
    var faltantes := seq(n, i requires 0 <= i < n => FaltantesFila(df, normas, i));
    var figuras := Derivar(|normas|, instaladas, noAplica, faltantes);
    m := Metricas(normas, figuras);
  }

  /** The loaded sheet: the empty frame when a required column is missing. */
  datatype Procesado = Vacio | Procesado(df: Table, metricas: Metricas)

  /** `procesar_archivo` after `read_excel`: rewrite the cells, check the required columns,
      compute the per-bus figures. */
  method ProcesarArchivo(t: Table) returns (r: Procesado)
    requires WellFormed(t)
    ensures r.Vacio? <==> exists k :: 0 <= k < |Requeridas| && Requeridas[k] !in t.columns
    ensures r.Procesado? ==>
      && r.df == Preparar(t)
      && r.metricas.normas == ColumnasNormas(t.columns)
      && |r.metricas.figuras| == |t.rows|
      && forall i :: 0 <= i < |t.rows| ==> r.metricas.figuras[i] == FigurasDe(r.df, r.metricas.normas, i)
  {
    var df := Preparar(t);
    for k := 0 to |Requeridas|
      invariant forall m :: 0 <= m < k ==> Requeridas[m] in df.columns
    {
      if Requeridas[k] !in df.columns {
        return Vacio;
      }
    }
    var m := CalcularMetricas(df);
    r := Procesado(df, m);
  }

  // ---------------------------------------------------------------------------
  // The counting of generar_graficos (normas_graficas_app/app.py:215-276).

  predicate SinFaltantes(f: Figuras) {
    f.faltantes == 0
  }

  /** `buses_completos`. */
  function Completos(figs: seq<Figuras>): nat {
    CountIf(figs, SinFaltantes)
  }

  /** `porcentaje_flota_completa`. */
  function PorcentajeFlota(figs: seq<Figuras>): real {
    Metrics.Percent(Completos(figs), |figs|)
  }

  /** The fleet share lies in [0, 100]; with at least one bus it is 100 exactly when no bus
      has a blank norm and 0 exactly when every bus has one. */
  lemma PorcentajeFlotaSpec(figs: seq<Figuras>)
    ensures 0.0 <= PorcentajeFlota(figs) <= 100.0
    ensures |figs| == 0 ==> PorcentajeFlota(figs) == 0.0
    ensures |figs| > 0 ==> (PorcentajeFlota(figs) == 100.0 <==> forall i :: 0 <= i < |figs| ==> figs[i].faltantes == 0)
    ensures |figs| > 0 ==> (PorcentajeFlota(figs) == 0.0 <==> forall i :: 0 <= i < |figs| ==> figs[i].faltantes > 0)
  {
    CountIfAll(figs, SinFaltantes);
    CountIfNone(figs, SinFaltantes);
  }

  function ColumnaInstaladas(figs: seq<Figuras>): (r: seq<nat>)
    ensures |r| == |figs| && forall i :: 0 <= i < |figs| ==> r[i] == figs[i].instaladas
  {
    seq(|figs|, i requires 0 <= i < |figs| => figs[i].instaladas)
  }

  function ColumnaNoAplica(figs: seq<Figuras>): (r: seq<nat>)
    ensures |r| == |figs| && forall i :: 0 <= i < |figs| ==> r[i] == figs[i].noAplica
  {
    seq(|figs|, i requires 0 <= i < |figs| => figs[i].noAplica)
  }

  function ColumnaFaltantes(figs: seq<Figuras>): (r: seq<nat>)
    ensures |r| == |figs| && forall i :: 0 <= i < |figs| ==> r[i] == figs[i].faltantes
  {
    seq(|figs|, i requires 0 <= i < |figs| => figs[i].faltantes)
  }

  lemma {:induction false} SumBound3(a: seq<nat>, b: seq<nat>, c: seq<nat>, n: nat)
    requires |a| == |b| == |c|
    requires forall i :: 0 <= i < |a| ==> a[i] + b[i] + c[i] <= n
    ensures Sum(a) + Sum(b) + Sum(c) <= n * |a|
    decreases |a|
  {
    if |a| > 0 {
      var m := |a| - 1;
      SumBound3(a[..m], b[..m], c[..m], n);
      assert n * |a| == n * m + n;
    }
  }

  /** The three slices of the state distribution (`total_instaladas`, `total_no_aplica`,
      `total_faltantes`) never add up to more than `total_normas` over the fleet; the gap is
      the cells no test matches. */
  lemma DistribucionSpec(t: Table, cols: seq<string>)
    requires WellFormed(t) && Metrics.NormsIn(t, cols)
    ensures var figs := seq(|t.rows|, i requires 0 <= i < |t.rows| => FigurasDe(t, cols, i));
      Sum(ColumnaInstaladas(figs)) + Sum(ColumnaNoAplica(figs)) + Sum(ColumnaFaltantes(figs)) <= |cols| * |t.rows|
  {
    var figs := seq(|t.rows|, i requires 0 <= i < |t.rows| => FigurasDe(t, cols, i));
    forall i | 0 <= i < |figs|
      ensures ColumnaInstaladas(figs)[i] + ColumnaNoAplica(figs)[i] + ColumnaFaltantes(figs)[i] <= |cols|
    {
      FigurasSpec(t, cols, i);
    }
    SumBound3(ColumnaInstaladas(figs), ColumnaNoAplica(figs), ColumnaFaltantes(figs), |cols|);
  }

  /** The cells of norm column `c` that read '1', 'no aplica' and blank
      (normas_graficas_app/app.py:262-263 and 704-706). */
  function UnosColumna(t: Table, c: string): nat
    requires WellFormed(t) && c in t.columns
  {
    CountIf(Metrics.ColumnCells(t, c), EsUno)
  }

  function NoAplicaColumna(t: Table, c: string): (n: nat)
    requires WellFormed(t) && c in t.columns
    ensures n <= |t.rows|
  {
    CountIf(Metrics.ColumnCells(t, c), EsNoAplica)
  }

  function VaciasColumna(t: Table, c: string): nat
    requires WellFormed(t) && c in t.columns
  {
    CountIf(Metrics.ColumnCells(t, c), EsVacia)
  }

  /** A column's three counts never exceed the number of buses. */
  lemma ConteosColumna(t: Table, c: string)
    requires WellFormed(t) && c in t.columns
    ensures UnosColumna(t, c) + NoAplicaColumna(t, c) + VaciasColumna(t, c) <= |t.rows|
  {
    var cells := Metrics.ColumnCells(t, c);
    forall j | 0 <= j < |cells|
      ensures !(EsUno(cells[j]) && EsNoAplica(cells[j])) && !(EsUno(cells[j]) && EsVacia(cells[j]))
      ensures !(EsNoAplica(cells[j]) && EsVacia(cells[j]))
    {
      CellTestsDisjoint(cells[j]);
    }
    CountIfDisjoint3(cells, EsUno, EsNoAplica, EsVacia);
  }

  /** One entry of `normas_faltantes`. */
  datatype Faltante = Faltante(cantidad: nat, porcentaje: real, aplicables: nat)

  /** The blank cells of a norm column, over the buses for which it applies. */
  function FaltanteDe(t: Table, c: string): Faltante
    requires WellFormed(t) && c in t.columns
  {
    var aplicables := |t.rows| - NoAplicaColumna(t, c);
    Faltante(VaciasColumna(t, c), Metrics.Percent(VaciasColumna(t, c), aplicables), aplicables)
  }

  /** The blank count never exceeds the applicable count, so the missing share is in
      [0, 100], and 100 exactly when every applicable bus has the norm blank. */
  lemma FaltanteSpec(t: Table, c: string)
    requires WellFormed(t) && c in t.columns
    ensures var f := FaltanteDe(t, c);
      && f.cantidad <= f.aplicables
      && 0.0 <= f.porcentaje <= 100.0
      && (f.aplicables > 0 ==> (f.porcentaje == 100.0 <==> f.cantidad == f.aplicables))
  {
    ConteosColumna(t, c);
  }

  function FaltantePares(t: Table, cols: seq<string>): (r: seq<(string, Faltante)>)
    requires WellFormed(t) && Metrics.NormsIn(t, cols)
    ensures |r| == |cols| && forall j :: 0 <= j < |cols| ==> r[j] == (cols[j], FaltanteDe(t, cols[j]))
  {
    seq(|cols|, j requires 0 <= j < |cols| => (cols[j], FaltanteDe(t, cols[j])))
  }

  predicate ConAplicables(e: (string, Faltante)) {
    e.1.aplicables > 0
  }

  /** The counts of one pass of the shortfall loop (normas_graficas_app/app.py:261-264). */
  method ContarFaltante(df: Table, col: string) returns (countEmpty: nat, countApplicable: nat)
    requires WellFormed(df) && col in df.columns
    ensures countEmpty == FaltanteDe(df, col).cantidad
    ensures countApplicable == FaltanteDe(df, col).aplicables
  {
    countEmpty := VaciasColumna(df, col);
    var countNa := NoAplicaColumna(df, col);
    countApplicable := |df.rows| - countNa;
  }

  /** The entry is made of the two counts and the share they give. */
  lemma FaltanteCampos(t: Table, c: string)
    requires WellFormed(t) && c in t.columns
    ensures FaltanteDe(t, c) ==
      Faltante(FaltanteDe(t, c).cantidad, Metrics.Percent(FaltanteDe(t, c).cantidad, FaltanteDe(t, c).aplicables), FaltanteDe(t, c).aplicables)
  {
  }

  /** The shortfall loop (normas_graficas_app/app.py:258-272): a norm enters the dict only
      when at least one bus has it applicable. */
  method NormasFaltantes(df: Table, cols: seq<string>) returns (d: seq<(string, Faltante)>)
    requires WellFormed(df) && Metrics.NormsIn(df, cols)
    ensures d == PutAll(Filter(FaltantePares(df, cols), ConAplicables))
  {
    ghost var pares := FaltantePares(df, cols);
    d := [];
    for j := 0 to |cols|
      invariant d == PutAll(Filter(pares[..j], ConAplicables))
    {
      var col := cols[j];
      var countEmpty, countApplicable := ContarFaltante(df, col);
      PutAllFilterSnoc(pares, ConAplicables, j);
      if countApplicable > 0 {
        var porcentajeFaltante := Metrics.Percent(countEmpty, countApplicable);
        FaltanteCampos(df, col);
        d := Put(d, col, Faltante(countEmpty, porcentajeFaltante, countApplicable));
      }
    }
    assert pares[..|cols|] == pares;
  }

  /** The dict holds exactly the norms with at least one applicable bus, each once, with its
      blank count, applicable count and missing share. */
  lemma NormasFaltantesSpec(t: Table, cols: seq<string>, c: string)
    requires WellFormed(t) && Metrics.NormsIn(t, cols)
    ensures var d := PutAll(Filter(FaltantePares(t, cols), ConAplicables));
      && Distinct(Keys(d))
      && Get(d, c) == if c in cols && FaltanteDe(t, c).aplicables > 0 then Some(FaltanteDe(t, c)) else None
  {
    var v := if c in t.columns then FaltanteDe(t, c) else Faltante(0, 0.0, 0);
    GetPutAllFilter(cols, FaltantePares(t, cols), ConAplicables, c, v);
  }

  function ByCantidadDesc(): ((string, Faltante), (string, Faltante)) -> bool {
    (a: (string, Faltante), b: (string, Faltante)) => a.1.cantidad > b.1.cantidad
  }

  lemma ByCantidadDescOrder()
    ensures StrictWeakOrder(ByCantidadDesc())
  {
    var lt := ByCantidadDesc();
    forall a: (string, Faltante), b: (string, Faltante) ensures Asymmetric(lt, a, b) {
    }
    forall a: (string, Faltante), b: (string, Faltante), c: (string, Faltante) ensures NegativelyTransitive(lt, a, b, c) {
    }
  }

  /** `sorted(..., key=cantidad, reverse=True)[:10]`. */
  function TopFaltantes(d: seq<(string, Faltante)>): seq<(string, Faltante)> {
    Take(SortBy(d, ByCantidadDesc()), 10)
  }

  /** The ranking keeps every entry, by non-increasing blank count, ties in dict order
      (Python's sort is stable also in reverse); the top ten are its first entries and none
      of the rest has more blanks. */
  lemma TopFaltantesSpec(d: seq<(string, Faltante)>, x: (string, Faltante))
    ensures var sorted := SortBy(d, ByCantidadDesc());
      && multiset(sorted) == multiset(d)
      && (forall i, j :: 0 <= i < j < |sorted| ==> sorted[i].1.cantidad >= sorted[j].1.cantidad)
      && Ties(sorted, x, ByCantidadDesc()) == Ties(d, x, ByCantidadDesc())
      && |TopFaltantes(d)| == (if |d| < 10 then |d| else 10)
      && TopFaltantes(d) == sorted[..|TopFaltantes(d)|]
      && (forall i, j :: 0 <= i < |TopFaltantes(d)| <= j < |sorted| ==> TopFaltantes(d)[i].1.cantidad >= sorted[j].1.cantidad)
  {
    ByCantidadDescOrder();
    SortBySorted(d, ByCantidadDesc());
    SortByStable(d, x, ByCantidadDesc());
  }

  // ---------------------------------------------------------------------------
  // Per-norm table (normas_graficas_app/app.py:698-719).

  datatype AnalisisNorma = AnalisisNorma(norma: string, instaladas: nat, pendientes: nat, noAplica: nat, avance: real)

  function AnalisisDe(t: Table, c: string): AnalisisNorma
    requires WellFormed(t) && c in t.columns
  {
    AnalisisNorma(c, UnosColumna(t, c), VaciasColumna(t, c), NoAplicaColumna(t, c),
      Avance(UnosColumna(t, c), |t.rows| - NoAplicaColumna(t, c)))
  }

  /** The counts of a norm never exceed the number of buses; "% Avance" is the share of the
      applicable buses with the norm at '1', in [0, 100], 0 when no bus has it applicable,
      and 100 exactly when some bus has it applicable and every such bus has it at '1'. */
  lemma AnalisisSpec(t: Table, c: string)
    requires WellFormed(t) && c in t.columns
    ensures var a := AnalisisDe(t, c);
      && a.instaladas + a.pendientes + a.noAplica <= |t.rows|
      && 0.0 <= a.avance <= 100.0
      && (a.noAplica == |t.rows| ==> a.avance == 0.0)
      && (a.avance == 100.0 <==> a.noAplica < |t.rows| && a.instaladas == |t.rows| - a.noAplica)
  {
    ConteosColumna(t, c);
  }

  /** One pass of the loop over `columnas_normas`: the row of `normas_analysis` for `norma`. */
  method AnalizarNorma(t: Table, norma: string) returns (a: AnalisisNorma)
    requires WellFormed(t) && norma in t.columns
    ensures a == AnalisisDe(t, norma)
  {
    var instaladas := UnosColumna(t, norma);
    var noAplica := NoAplicaColumna(t, norma);
    var pendientes := VaciasColumna(t, norma);
    var totalAplicables := |t.rows| - noAplica;
    var porcentaje := if totalAplicables > 0 then Metrics.Percent(instaladas, totalAplicables) else 0.0;
    a := AnalisisNorma(norma, instaladas, pendientes, noAplica, porcentaje);
  }

  function AnalisisFn(t: Table): string --> AnalisisNorma {
    (c: string) requires WellFormed(t) && c in t.columns => AnalisisDe(t, c)
  }

  lemma AnalisisTablaSnoc(t: Table, cols: seq<string>, j: nat)
    requires WellFormed(t) && Metrics.NormsIn(t, cols) && j < |cols|
    ensures Map(cols[..j + 1], AnalisisFn(t)) == Map(cols[..j], AnalisisFn(t)) + [AnalisisDe(t, cols[j])]
  {
    MapSnoc(cols[..j], cols[j], AnalisisFn(t));
    assert cols[..j] + [cols[j]] == cols[..j + 1];
  }

  /** The loop building `normas_analysis`: one row per norm column, in column order. */
  method AnalizarNormas(t: Table, cols: seq<string>) returns (r: seq<AnalisisNorma>)
    requires WellFormed(t) && Metrics.NormsIn(t, cols)
    ensures r == Map(cols, AnalisisFn(t))
  {
    r := [];
    for j := 0 to |cols|
      invariant r == Map(cols[..j], AnalisisFn(t))
    {
      var a := AnalizarNorma(t, cols[j]);
      AnalisisTablaSnoc(t, cols, j);
      r := r + [a];
    }
    assert cols[..|cols|] == cols;
  }

  function ByAvanceAsc(): (AnalisisNorma, AnalisisNorma) -> bool {
    (a: AnalisisNorma, b: AnalisisNorma) => a.avance < b.avance
  }

  /** `sort_values("% Avance")`: the same rows by non-decreasing progress. */
  lemma OrdenPorAvance(rs: seq<AnalisisNorma>)
    ensures var s := SortBy(rs, ByAvanceAsc());
      && multiset(s) == multiset(rs)
      && forall i, j :: 0 <= i < j < |s| ==> s[i].avance <= s[j].avance
  {
    var lt := ByAvanceAsc();
    forall a: AnalisisNorma, b: AnalisisNorma ensures Asymmetric(lt, a, b) {
    }
    forall a: AnalisisNorma, b: AnalisisNorma, c: AnalisisNorma ensures NegativelyTransitive(lt, a, b, c) {
    }
    SortBySorted(rs, lt);
  }

  // ---------------------------------------------------------------------------
  // get_estado_badge (normas_graficas_app/app.py:505-512).

  datatype Badge = BadgeInstalada | BadgeNoAplica | BadgePendiente

  function EstadoBadge(c: Cell): Badge {
    var v := Lower(Trim(CellText(c)));
    if v == "1" then BadgeInstalada
    else if v == "no aplica" then BadgeNoAplica
    else BadgePendiente
  }

  function BadgeText(b: Badge): string {
    match b
    case BadgeInstalada => "\U{2705} INSTALADA"
    case BadgeNoAplica => "\U{26A0}\U{FE0F} NO APLICA"
    case BadgePendiente => "\U{274C} PENDIENTE"
  }

  /** The badge agrees with the counters although it lowercases after trimming: INSTALADA
      exactly for the cells counted installed, NO APLICA exactly for those counted not
      applicable, and every blank cell is PENDIENTE. */
  lemma BadgeAgreesWithCounters(c: Cell)
    ensures EstadoBadge(c) == BadgeInstalada <==> EsUno(c)
    ensures EstadoBadge(c) == BadgeNoAplica <==> EsNoAplica(c)
    ensures EsVacia(c) ==> EstadoBadge(c) == BadgePendiente
  {
    var v := CellText(c);
    LowerOne(Trim(v));
    LowerEmpty(Trim(v));
  }

  // ---------------------------------------------------------------------------
  // Sidebar filters (normas_graficas_app/app.py:582-593).

  datatype Filtros = Filtros(terminal: string, subclase: string, minimo: real, maximo: real)

  function PorTerminal(t: Table, sel: string): nat -> bool
    requires WellFormed(t) && Terminal in t.columns
  {
    (i: nat) => i < |t.rows| && CellAt(t, i, Terminal) == Some(sel)
  }

  function PorSubclase(t: Table, sel: string): nat -> bool
    requires WellFormed(t) && Subclase in t.columns
  {
    (i: nat) => i < |t.rows| && CellAt(t, i, Subclase) == Some(sel)
  }

  function PorRango(figs: seq<Figuras>, lo: real, hi: real): nat -> bool {
    (i: nat) => i < |figs| && lo <= figs[i].porcentaje <= hi
  }

  function Indices(n: nat): (r: seq<nat>)
    ensures |r| == n && forall i :: 0 <= i < n ==> r[i] == i
  {
    seq(n, i requires 0 <= i < n => i)
  }

  /** `df_filtrado`, as the row positions it keeps. */
  function Filtrar(t: Table, figs: seq<Figuras>, f: Filtros): seq<nat>
    requires WellFormed(t) && Terminal in t.columns && |figs| == |t.rows|
  {
    var todas := Indices(|t.rows|);
    var a := if f.terminal != Todos then Filter(todas, PorTerminal(t, f.terminal)) else todas;
    var b := if Subclase in t.columns && f.subclase != Todos then Filter(a, PorSubclase(t, f.subclase)) else a;
    Filter(b, PorRango(figs, f.minimo, f.maximo))
  }

  predicate Creciente(s: seq<nat>) {
    forall a, b :: 0 <= a < b < |s| ==> s[a] < s[b]
  }

  lemma {:induction false} FilterCreciente(s: seq<nat>, p: nat -> bool)
    requires Creciente(s)
    ensures Creciente(Filter(s, p))
    decreases |s|
  {
    if |s| > 0 {
      var q := s[..|s| - 1];
      FilterCreciente(q, p);
      var r := Filter(q, p);
      forall k | 0 <= k < |r| ensures r[k] < s[|s| - 1] {
        assert r[k] in q;
      }
    }
  }

  lemma {:induction false} FilterAllPass<T>(s: seq<T>, p: T -> bool)
    requires forall i :: 0 <= i < |s| ==> p(s[i])
    ensures Filter(s, p) == s
    decreases |s|
  {
    if |s| > 0 {
      FilterAllPass(s[..|s| - 1], p);
    }
  }

  lemma IndicesIn(n: nat, i: nat)
    ensures i in Indices(n) <==> i < n
  {
    if i < n {
      assert Indices(n)[i] == i;
    }
  }

  /** A bus is kept exactly when it passes the terminal test (unless "Todos"), the subclass
      test (unless "Todos" or there is no subclass column) and the inclusive progress range. */
  lemma FiltrarSpec(t: Table, figs: seq<Figuras>, f: Filtros, i: nat)
    requires WellFormed(t) && Terminal in t.columns && |figs| == |t.rows|
    ensures i in Filtrar(t, figs, f) <==>
      && i < |t.rows|
      && (f.terminal == Todos || CellAt(t, i, Terminal) == Some(f.terminal))
      && (Subclase !in t.columns || f.subclase == Todos || CellAt(t, i, Subclase) == Some(f.subclase))
      && f.minimo <= figs[i].porcentaje <= f.maximo
  {
    var todas := Indices(|t.rows|);
    var a := if f.terminal != Todos then Filter(todas, PorTerminal(t, f.terminal)) else todas;
    var b := if Subclase in t.columns && f.subclase != Todos then Filter(a, PorSubclase(t, f.subclase)) else a;
    IndicesIn(|t.rows|, i);
    if f.terminal != Todos {
      FilterIn(todas, PorTerminal(t, f.terminal), i);
    }
    if Subclase in t.columns && f.subclase != Todos {
      FilterIn(a, PorSubclase(t, f.subclase), i);
    }
    FilterIn(b, PorRango(figs, f.minimo, f.maximo), i);
  }

  /** The kept positions come in table order, each once. */
  lemma FiltrarOrden(t: Table, figs: seq<Figuras>, f: Filtros)
    requires WellFormed(t) && Terminal in t.columns && |figs| == |t.rows|
    ensures Creciente(Filtrar(t, figs, f))
  {
    var todas := Indices(|t.rows|);
    var a := if f.terminal != Todos then Filter(todas, PorTerminal(t, f.terminal)) else todas;
    var b := if Subclase in t.columns && f.subclase != Todos then Filter(a, PorSubclase(t, f.subclase)) else a;
    if f.terminal != Todos {
      FilterCreciente(todas, PorTerminal(t, f.terminal));
    }
    if Subclase in t.columns && f.subclase != Todos {
      FilterCreciente(a, PorSubclase(t, f.subclase));
    }
    FilterCreciente(b, PorRango(figs, f.minimo, f.maximo));
  }

  /** The default sidebar ("Todos", "Todos", 0 to 100) keeps every bus whose progress is in
      [0, 100], which every computed progress is. */
  lemma FiltrarTodos(t: Table, figs: seq<Figuras>)
    requires WellFormed(t) && Terminal in t.columns && |figs| == |t.rows|
    requires forall i :: 0 <= i < |figs| ==> 0.0 <= figs[i].porcentaje <= 100.0
    ensures Filtrar(t, figs, Filtros(Todos, Todos, 0.0, 100.0)) == Indices(|t.rows|)
  {
    FilterAllPass(Indices(|t.rows|), PorRango(figs, 0.0, 100.0));
  }

  /** The filtered frame that the charts and tables of the page receive. */
  function Seleccion(t: Table, idx: seq<nat>): (r: Table)
    requires WellFormed(t) && forall k :: 0 <= k < |idx| ==> idx[k] < |t.rows|
    ensures WellFormed(r) && r.columns == t.columns && |r.rows| == |idx|
    ensures forall k :: 0 <= k < |idx| ==> r.rows[k] == t.rows[idx[k]]
  {
    Table(t.columns, seq(|idx|, k requires 0 <= k < |idx| => t.rows[idx[k]]))
  }

  /** Filtering does not change a bus's figures: recomputing them on the filtered frame
      gives the figures of the bus's original row. */
  lemma SeleccionConservaFiguras(t: Table, idx: seq<nat>, cols: seq<string>, k: nat)
    requires WellFormed(t) && forall m :: 0 <= m < |idx| ==> idx[m] < |t.rows|
    requires Metrics.NormsIn(t, cols) && k < |idx|
    ensures FigurasDe(Seleccion(t, idx), cols, k) == FigurasDe(t, cols, idx[k])
  {
    var s := Seleccion(t, idx);
    assert Metrics.RowCells(s, k, cols) == Metrics.RowCells(t, idx[k], cols);
  }

  // ---------------------------------------------------------------------------
  // The Estado column of the bus list (normas_graficas_app/app.py:831-835).

  datatype Estado = Completo | Critico | EnProceso

  /** The mean of the filtered buses' blank counts; the page stops before the list when the
      filter keeps no bus (normas_graficas_app/app.py:596-598). */
  function Media(xs: seq<nat>): real
    requires |xs| > 0
  {
    (Sum(xs) as real) / (|xs| as real)
  }

  function EstadoDe(x: nat, xs: seq<nat>): Estado
    requires |xs| > 0
  {
    if x == 0 then Completo else if (x as real) > Media(xs) then Critico else EnProceso
  }

  lemma {:induction false} SumAbove(xs: seq<nat>, m: real)
    requires |xs| > 0 && forall k :: 0 <= k < |xs| ==> (xs[k] as real) > m
    ensures (Sum(xs) as real) > (|xs| as real) * m
    decreases |xs|
  {
    var q := xs[..|xs| - 1];
    if |q| > 0 {
      SumAbove(q, m);
      assert ((|q| + 1) as real) * m == (|q| as real) * m + m;
    }
  }

  /** "Completo" exactly for the buses without blanks; a bus above the mean is "Crítico",
      and so is every bus with more blanks; and never is every bus "Crítico": some bus is at
      or below the mean. */
  lemma EstadoSpec(xs: seq<nat>, x: nat, y: nat)
    requires |xs| > 0
    ensures EstadoDe(x, xs) == Completo <==> x == 0
    ensures EstadoDe(x, xs) == Critico && x <= y ==> EstadoDe(y, xs) == Critico
    ensures exists k :: 0 <= k < |xs| && EstadoDe(xs[k], xs) != Critico
  {
    var n := |xs| as real;
    assert n * Media(xs) == Sum(xs) as real;
    if forall k :: 0 <= k < |xs| ==> EstadoDe(xs[k], xs) == Critico {
      SumAbove(xs, Media(xs));
      assert false;
    }
  }

  /** The Estado of every listed bus, against the mean of the listed buses. */
  function Estados(figs: seq<Figuras>, idx: seq<nat>): (r: seq<Estado>)
    requires |idx| > 0 && forall k :: 0 <= k < |idx| ==> idx[k] < |figs|
    ensures |r| == |idx|
  {
    var xs := seq(|idx|, k requires 0 <= k < |idx| => figs[idx[k]].faltantes);
    seq(|idx|, k requires 0 <= k < |idx| => EstadoDe(xs[k], xs))
  }

  // ---------------------------------------------------------------------------
  // How the two variants read the same sheet.

  lemma NoAplicaLower()
    ensures Lower("no aplica") == "no aplica"
  {
    var s := "no aplica";
    assert forall k :: 0 <= k < |s| ==> LowerChar(s[k]) == s[k];
  }

  lemma NoAplicaTrim()
    ensures Trim("no aplica") == "no aplica"
  {
    var s := "no aplica";
    assert TrimLeft(s) == s;
    assert TrimRight(s) == s;
  }

  lemma NoAplicaNotInstalled()
    ensures !Contains("no aplica", "instalad")
  {
    var s := "no aplica";
    var t := "instalad";
    assert s[..8] != t by { assert s[0] != t[0]; }
    assert !StartsWith(s, t);
    assert s[1..][..8] != t by { assert s[1] != t[0]; }
    assert !StartsWith(s[1..], t);
    assert s[1..][1..] == s[2..];
    if Contains(s[2..], t) {
      ContainsLength(s[2..], t);
    }
  }

  lemma NoAplicaText()
    ensures EsNoAplica(Some("no aplica"))
    ensures Classifier.ReportStatus(Some("no aplica")) == Classifier.NoAplica
  {
    NoAplicaTrim();
    NoAplicaLower();
    NoAplicaNotInstalled();
    assert StartsWith("no aplica", "no aplica");
  }

  /** A bus whose every norm reads 'no aplica' is at 0 % here: nothing is applicable. */
  lemma AllNotApplicableHere(t: Table, i: nat, cols: seq<string>)
    requires WellFormed(t) && i < |t.rows| && Metrics.NormsIn(t, cols)
    requires forall j :: 0 <= j < |cols| ==> CellAt(t, i, cols[j]) == Some("no aplica")
    ensures FigurasDe(t, cols, i).aplicables == 0
    ensures FigurasDe(t, cols, i).porcentaje == 0.0
  {
    AllNotApplicableCount(t, i, cols);
  }

  lemma AllNotApplicableCount(t: Table, i: nat, cols: seq<string>)
    requires WellFormed(t) && i < |t.rows| && Metrics.NormsIn(t, cols)
    requires forall j :: 0 <= j < |cols| ==> CellAt(t, i, cols[j]) == Some("no aplica")
    ensures NoAplicaFila(t, cols, i) == |cols|
  {
    NoAplicaText();
    CountIfAll(Metrics.RowCells(t, i, cols), EsNoAplica);
  }

  /** The same bus is at 100 % in the report of app.py: nothing is required. */
  lemma AllNotApplicableReport(t: Table, i: nat, cols: seq<string>)
    requires WellFormed(t) && i < |t.rows| && Metrics.NormsIn(t, cols)
    requires forall j :: 0 <= j < |cols| ==> CellAt(t, i, cols[j]) == Some("no aplica")
    ensures BusReport.ReportProgress(PutAll(BusReport.StatusPairs(t, i, cols))) == 100.0
  {
    NoAplicaText();
    var ps := BusReport.StatusPairs(t, i, cols);
    var st := PutAll(ps);
    PutAllSpec(ps);
    forall j | 0 <= j < |st| ensures !BusReport.IsRequired(st[j].1) {
      assert st[j] in ps;
    }
    BusReport.ReportProgressBounds(st);
  }
}
