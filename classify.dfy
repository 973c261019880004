/** The cell classifier of app.py. The same two substring tests appear three times with
    different normalisations: column-wise counts lower-case but do not trim
    (app.py:245-253, 330-337, 731-742), row-wise counts lower-case then trim
    (app.py:296-303, 361-368) and the bus report trims then lower-cases (app.py:537-545). */
module Classifier {
  import opened Text
  import opened Frames

  /** The installed test on an already normalised value (app.py:248-251, 298-301). */
  predicate IsInstalled(v: string) {
    v == "1" || v == "instalada" || v == "instalado" || Contains(v, "instalad")
  }

  /** The not-applicable test (app.py:253, 302). */
  predicate IsNotApplicable(v: string) {
    Contains(v, "no aplica")
  }

  /** The two explicit spellings are subsumed by the substring test. */
  lemma InstalledIff(v: string)
    ensures IsInstalled(v) <==> v == "1" || Contains(v, "instalad")
  {
    if v == "instalada" || v == "instalado" {
      OccursContains(v, "instalad", 0);
    }
  }

  /** Column-wise value: `df[col].str.lower()`, untrimmed. */
  function ColumnValue(c: Cell): string {
    Lower(CellText(c))
  }

  /** Row-wise value: `str(row[col]).lower().strip()`. */
  function RowValue(c: Cell): string {
    Trim(Lower(CellText(c)))
  }

  /** Bus-report value: `str(bus_row[col]).strip().lower()`. */
  function ReportValue(c: Cell): string {
    Lower(Trim(CellText(c)))
  }

  /** Completed (installed OR not applicable) as the column-wise sums test it. */
  predicate ColumnCompleted(c: Cell) {
    IsInstalled(ColumnValue(c)) || IsNotApplicable(ColumnValue(c))
  }

  /** Completed as the per-row loops test it. */
  predicate RowCompleted(c: Cell) {
    IsInstalled(RowValue(c)) || IsNotApplicable(RowValue(c))
  }

  /** A row-wise cell is completed exactly when its lower-cased, trimmed text is "1" or
      contains "instalad" or "no aplica". */
  lemma RowCompletedIff(c: Cell)
    ensures RowCompleted(c) <==>
      RowValue(c) == "1" || Contains(RowValue(c), "instalad") || Contains(RowValue(c), "no aplica")
  {
    InstalledIff(RowValue(c));
  }

  /** Status of one norm in the bus report; `Desconocido` and `Failed` are the placeholders
      of the two failure paths. */
  datatype NormStatus = Instalada | NoAplica | Pendiente | NoDisponible | Desconocido | Failed

  /** app.py:537-547: Instalada takes priority over No Aplica; anything else is Pendiente. */
  function ReportStatus(c: Cell): (s: NormStatus)
    ensures s == Instalada || s == NoAplica || s == Pendiente
    ensures s == Instalada <==> IsInstalled(ReportValue(c))
    ensures s == NoAplica <==> !IsInstalled(ReportValue(c)) && IsNotApplicable(ReportValue(c))
  {
    var v := ReportValue(c);
    if IsInstalled(v) then Instalada
    else if IsNotApplicable(v) then NoAplica
    else Pendiente
  }

  /** The report's status and the row-wise completed test agree on every cell, although one
      trims before lower-casing and the other after. */
  lemma ReportAgreesWithRow(c: Cell)
    ensures ReportStatus(c) != Pendiente <==> RowCompleted(c)
    ensures ReportStatus(c) == Instalada <==> IsInstalled(RowValue(c))
  {
    TrimLowerCommute(CellText(c));
  }

  /** The column-wise and row-wise tests disagree on " 1": the global efficiency does not
      count it, the bus's missing list does not list it. */
  lemma TrimDiscrepancy()
    ensures !ColumnCompleted(Some(" 1")) && RowCompleted(Some(" 1"))
  {
    var raw := " 1";
    assert Lower(raw) == raw;
    if Contains(raw, "instalad") { ContainsLength(raw, "instalad"); }
    if Contains(raw, "no aplica") { ContainsLength(raw, "no aplica"); }
    assert TrimLeft(raw) == "1";
    assert Trim(raw) == "1";
    TrimLowerCommute(raw);
  }
}
