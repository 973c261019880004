/** `process_data` of app.py (app.py:154-213): make sure the two identity columns exist,
    pick the norm columns with a deny-list, and normalise the norm cells. */
module Schema {
  import opened Text
  import opened Frames

  const Interno: string := "N\U{B0} Interno"
  const Ppu: string := "PPU"
  const NumeroInterno: string := "Numero Interno"

  /** `required_cols` (app.py:156). */
  const RequiredCols: seq<string> := [Interno, Ppu]

  /** `info_cols` (app.py:179-183). */
  const InfoCols: seq<string> := [
    Interno, Ppu, "Unidad", "Marca chasis", "Modelo chasis", "Subclase",
    "N\U{B0} plazas", "Terminal", "Taller", "TERMINADOS", "NORMA INSTALADA", "FECHA DE RENOVACION",
    "CALL CENTER"
  ]

  /** The fuzzy match of app.py:163-166 for a missing identity column. */
  predicate IsSimilar(required: string, c: string) {
    var l := Lower(c);
    if required == Interno then Contains(l, "intern") || Contains(l, "numer")
    else Contains(l, "ppu") || Contains(l, "paten") || Contains(l, "placa")
  }

  /** `similar_cols`: the matching columns, in column order. */
  function Similar(cols: seq<string>, required: string): seq<string> {
    Filter(cols, c => IsSimilar(required, c))
  }

  /** One iteration of the loop at app.py:159-176. A present column is left alone; a
      missing one takes over the first similar column's name in place, or is appended
      with the values `"{col}_{i}"`. */
  function EnsureColumn(t: Table, col: string): (r: Table)
    requires WellFormed(t)
    ensures WellFormed(r) && col in r.columns && |r.rows| == |t.rows|
    ensures col in t.columns ==> r == t
    ensures col !in t.columns && Similar(t.columns, col) != [] ==>
      var k := IndexOf(t.columns, Similar(t.columns, col)[0]).value;
      r.columns == t.columns[k := col] && r.rows == t.rows
    ensures col !in t.columns && Similar(t.columns, col) == [] ==>
      && r.columns == t.columns + [col]
      && forall i :: 0 <= i < |t.rows| ==> r.rows[i] == t.rows[i] + [Some(col + "_" + NatToString(i))]
  {
    if col in t.columns then t
    else
      var sim := Similar(t.columns, col);
      if sim != [] then
        var k := IndexOf(t.columns, sim[0]).value;
        RenameDistinct(t.columns, k, col);
        Table(t.columns[k := col], t.rows)
      else
        AppendDistinct(t.columns, col);
        Table(t.columns + [col],
          seq(|t.rows|, i requires 0 <= i < |t.rows| => t.rows[i] + [Some(col + "_" + NatToString(i))]))
  }

  lemma RenameDistinct(cols: seq<string>, k: nat, col: string)
    requires Distinct(cols) && k < |cols| && col !in cols
    ensures Distinct(cols[k := col]) && col in cols[k := col]
  {
    var r := cols[k := col];
    assert r[k] == col;
    forall i, j | 0 <= i < j < |r| ensures r[i] != r[j] {
      assert i != k ==> r[i] == cols[i];
      assert j != k ==> r[j] == cols[j];
    }
  }

  lemma AppendDistinct(cols: seq<string>, col: string)
    requires Distinct(cols) && col !in cols
    ensures Distinct(cols + [col]) && col in cols + [col]
  {
    var r := cols + [col];
    assert r[|cols|] == col;
    forall i, j | 0 <= i < j < |r| ensures r[i] != r[j] {
      if j == |cols| {
        assert r[i] == cols[i];
      }
    }
  }

  lemma InternoLower()
    ensures Lower(Interno) == "n\U{B0} interno"
  {
  }

  /** The PPU fuzzy match never picks the identity column 'N° Interno'. */
  lemma InternoNotSimilarToPpu()
    ensures !IsSimilar(Ppu, Interno)
  {
    InternoLower();
    var l := Lower(Interno);
    assert 'p' !in l;
    if Contains(l, "ppu") { ContainsFirstChar(l, "ppu"); }
    if Contains(l, "paten") { ContainsFirstChar(l, "paten"); }
    if Contains(l, "placa") { ContainsFirstChar(l, "placa"); }
  }

  /** Both identity passes of app.py:159-176. */
  function ResolveIdentity(t: Table): Table
    requires WellFormed(t)
  {
    EnsureColumn(EnsureColumn(t, Interno), Ppu)
  }

  /** After the identity passes both 'N° Interno' and 'PPU' are columns, each either
      kept, renamed from the first similar column, or synthesised. */
  lemma {:induction false} IdentityColumnsPresent(t: Table)
    requires WellFormed(t)
    ensures var r := ResolveIdentity(t);
      WellFormed(r) && Interno in r.columns && Ppu in r.columns && |r.rows| == |t.rows|
  {
    var t1 := EnsureColumn(t, Interno);
    var r := EnsureColumn(t1, Ppu);
    assert Interno in t1.columns;
    if Ppu !in t1.columns && Similar(t1.columns, Ppu) != [] {
      var s := Similar(t1.columns, Ppu)[0];
      assert IsSimilar(Ppu, s);
      InternoNotSimilarToPpu();
      var k := IndexOf(t1.columns, s).value;
      var ki := IndexOf(t1.columns, Interno).value;
      assert ki != k;
      assert r.columns[ki] == Interno;
    }
  }

  /** `cols_info` (app.py:186): the deny-list entries present, in deny-list order. */
  function PresentInfoCols(cols: seq<string>): seq<string> {
    Filter(InfoCols, c => c in cols)
  }

  /** The name patterns excluded besides the deny-list (app.py:190-191). */
  predicate IsExcludedName(c: string) {
    Contains(Upper(c), "FECHA") || Contains(Upper(c), "NORMA INSTALADA")
  }

  /** `norm_cols` (app.py:190-191). */
  function NormColumns(cols: seq<string>): seq<string> {
    var info := PresentInfoCols(cols);
    Filter(cols, c => c !in info && !IsExcludedName(c))
  }

  /** A column is a norm column exactly when it is present, not on the deny-list and its
      upper-cased name contains neither "FECHA" nor "NORMA INSTALADA"; the norm columns keep
      the table's column order. */
  lemma NormColumnsSpec(cols: seq<string>, c: string)
    ensures c in NormColumns(cols) <==> c in cols && c !in InfoCols && !IsExcludedName(c)
    ensures IsSubsequence(NormColumns(cols), cols)
  {
    var info := PresentInfoCols(cols);
    var p := (x: string) => x !in info && !IsExcludedName(x);
    FilterSubsequence(cols, p);
    if c in info {
      var m :| 0 <= m < |info| && info[m] == c;
      assert c in InfoCols;
    }
    FilterIn(InfoCols, x => x in cols, c);
    FilterIn(cols, p, c);
  }

  /** Rewrites one norm column (app.py:201-203): `astype(str)`, then 'nan'/'None' to ''. */
  function NormalizeColumn(t: Table, c: string): (r: Table)
    requires WellFormed(t) && c in t.columns
    ensures WellFormed(r) && r.columns == t.columns && |r.rows| == |t.rows|
    ensures forall i, k :: 0 <= i < |t.rows| && 0 <= k < |t.columns| ==>
      r.rows[i][k] == if t.columns[k] == c then Some(NormalizeText(CellText(t.rows[i][k]))) else t.rows[i][k]
  {
    var k := IndexOf(t.columns, c).value;
    Table(t.columns, seq(|t.rows|, i requires 0 <= i < |t.rows| =>
      t.rows[i][k := Some(NormalizeText(CellText(t.rows[i][k])))]))
  }

  /** The loop of app.py:199-203 over the norm columns. */
  method NormalizeColumns(base: Table, normCols: seq<string>) returns (df: Table)
    requires WellFormed(base) && Distinct(normCols)
    requires forall j :: 0 <= j < |normCols| ==> normCols[j] in base.columns
    ensures WellFormed(df) && df.columns == base.columns && |df.rows| == |base.rows|
    ensures forall i, k :: 0 <= i < |df.rows| && 0 <= k < |df.columns| ==>
      df.rows[i][k] ==
        if df.columns[k] in normCols
        then Some(NormalizeText(CellText(base.rows[i][k])))
        else base.rows[i][k]
  {
    df := base;
    for j := 0 to |normCols|
      invariant WellFormed(df) && df.columns == base.columns && |df.rows| == |base.rows|
      invariant forall i, k :: 0 <= i < |df.rows| && 0 <= k < |df.columns| ==>
        df.rows[i][k] ==
          if df.columns[k] in normCols[..j]
          then Some(NormalizeText(CellText(base.rows[i][k])))
          else base.rows[i][k]
    {
      var c := normCols[j];
      assert normCols[..j + 1] == normCols[..j] + [c];
      assert c !in normCols[..j];
      df := NormalizeColumn(df, c);
    }
    assert normCols[..|normCols|] == normCols;
  }

  lemma FilterDistinct(s: seq<string>, p: string -> bool)
    requires Distinct(s)
    ensures Distinct(Filter(s, p))
  {
    var r := Filter(s, p);
    forall i, j | 0 <= i < j < |r| ensures r[i] != r[j] {
      FilterKeepsOrder(s, p, i, j);
    }
  }

  datatype Processed = Processed(df: Table, infoCols: seq<string>, normCols: seq<string>)

  /** `process_data`. The table comes back with both identity columns, the deny-list
      columns present, the norm columns, and every norm cell rewritten to its string form
      with 'nan' and 'None' blanked. With no norm columns the cells are left untouched. */
  method ProcessData(t: Table) returns (p: Processed)
    requires WellFormed(t)
    ensures WellFormed(p.df) && |p.df.rows| == |t.rows|
    ensures Interno in p.df.columns && Ppu in p.df.columns
    ensures p.df.columns == ResolveIdentity(t).columns
    ensures p.infoCols == PresentInfoCols(p.df.columns)
    ensures p.normCols == NormColumns(p.df.columns)
    ensures p.normCols == [] ==> p.df == ResolveIdentity(t)
    ensures forall i, k :: 0 <= i < |p.df.rows| && 0 <= k < |p.df.columns| ==>
      p.df.rows[i][k] ==
        if p.df.columns[k] in p.normCols
        then Some(NormalizeText(CellText(ResolveIdentity(t).rows[i][k])))
        else ResolveIdentity(t).rows[i][k]
  {
    var df := t;
    for n := 0 to |RequiredCols|
      invariant WellFormed(df) && |df.rows| == |t.rows|
      invariant df == if n == 0 then t else if n == 1 then EnsureColumn(t, Interno) else ResolveIdentity(t)
    {
      df := EnsureColumn(df, RequiredCols[n]);
    }
    IdentityColumnsPresent(t);
    var infoCols := PresentInfoCols(df.columns);
    var normCols := Filter(df.columns, c => c !in infoCols && !IsExcludedName(c));
    if normCols == [] {
      return Processed(df, infoCols, []);
    }
    FilterDistinct(df.columns, c => c !in infoCols && !IsExcludedName(c));
    df := NormalizeColumns(df, normCols);
    p := Processed(df, infoCols, normCols);
  }
}
