/** The asset checks of final_project/assets.py. Each returns a plain
    record of the outcome: whether it passed, which description it gives,
    and the `filas_afectadas` count it reports when it reports one. */
module CovidChecks {
  import opened Wrappers
  import opened CovidTable
  import opened Lists

  /** The descriptions the checks give, with the data they interpolate. */
  datatype Description =
    | DateColumnMissing                        // "Columna 'date' no encontrada"
    | FutureDates(count: nat)                  // "Fechas futuras encontradas: {n} filas"
    | MissingColumns(columns: seq<string>)     // "Columnas faltantes: [...]"
    | EssentialPresent(verified: seq<string>)  // "Todas las columnas esenciales están presentes"
    | EmptyOrMissingColumn                     // "DataFrame vacío o columna faltante"
    | OutOfRange(count: nat)                   // "Valores de incidencia fuera del rango (0-2000): {n} filas"

  datatype CheckResult = CheckResult(passed: bool, description: Description, affectedRows: Option<nat>)

  // ---------------------------------------------------------------------------
  // check_fechas_validas (assets.py:19-39)
  // ---------------------------------------------------------------------------

  /** `leer_datos[leer_datos['date'] > today]`: rows dated after `today`,
      drawn from the input. */
  function FutureRows(rows: seq<Row>, today: Date): (r: seq<Row>)
    ensures forall k :: 0 <= k < |r| ==> r[k].date > today
    ensures multiset(r) <= multiset(rows)
  {
    if |rows| == 0 then []
    else
      assert rows == [rows[0]] + rows[1..];
      (if rows[0].date > today then [rows[0]] else []) + FutureRows(rows[1..], today)
  }

  /** No future row is missed, so none is selected exactly when every row
      is dated at most `today`. */
  lemma {:induction false} FutureRowsComplete(rows: seq<Row>, today: Date)
    ensures forall i :: 0 <= i < |rows| && rows[i].date > today ==> rows[i] in FutureRows(rows, today)
    ensures |FutureRows(rows, today)| == 0 <==> forall k :: 0 <= k < |rows| ==> rows[k].date <= today
    decreases |rows|
  {
    if |rows| > 0 {
      FutureRowsComplete(rows[1..], today);
      assert forall i :: 1 <= i < |rows| ==> rows[i] == rows[1..][i - 1];
    }
  }

  /** Fails without a `date` column; otherwise reports how many rows lie
      after `today` and passes exactly when none does. */
  function CheckFechasValidas(t: Table, today: Date): (r: CheckResult)
    ensures DateCol !in t.columns ==>
              r == CheckResult(false, DateColumnMissing, None)
    ensures DateCol in t.columns ==>
              && r.affectedRows == Some(|FutureRows(t.rows, today)|)
              && r.description == FutureDates(|FutureRows(t.rows, today)|)
              && (r.passed <==> forall k :: 0 <= k < |t.rows| ==> t.rows[k].date <= today)
  {
    if DateCol !in t.columns then CheckResult(false, DateColumnMissing, None)
    else
      FutureRowsComplete(t.rows, today);
      var filasAfectadas := |FutureRows(t.rows, today)|;
      CheckResult(filasAfectadas == 0, FutureDates(filasAfectadas), Some(filasAfectadas))
  }

  /** The count of future rows adds up over a split of the table. */
  lemma {:induction false} FutureRowsAppend(a: seq<Row>, b: seq<Row>, today: Date)
    ensures FutureRows(a + b, today) == FutureRows(a, today) + FutureRows(b, today)
    decreases |a|
  {
    if |a| > 0 {
      assert (a + b)[1..] == a[1..] + b;
      FutureRowsAppend(a[1..], b, today);
    } else {
      assert a + b == b;
    }
  }

  // ---------------------------------------------------------------------------
  // check_columnas_esenciales (assets.py:41-61)
  // ---------------------------------------------------------------------------

  /** `columnas_requeridas` (assets.py:46). */
  const Requeridas: seq<string> := [CountryCol, DateCol, PopulationCol]

  /** Passes exactly when `country`, `date` and `population` are all
      columns; otherwise lists the missing ones, in the order of
      `Requeridas`. */
  function CheckColumnasEsenciales(t: Table): (r: CheckResult)
    ensures r.passed <==> CountryCol in t.columns && DateCol in t.columns && PopulationCol in t.columns
    ensures !r.passed ==> r.description.MissingColumns? && r.affectedRows.None?
    ensures !r.passed ==> Subsequence(r.description.columns, Requeridas)
    ensures !r.passed ==> forall c :: c in r.description.columns <==> c in Requeridas && c !in t.columns
    ensures r.passed ==> r.description == EssentialPresent(Requeridas)
  {
    var faltantes := SelectColumns(Requeridas, t.columns, false);
    assert CountryCol in Requeridas && DateCol in Requeridas && PopulationCol in Requeridas;
    if |faltantes| > 0 then
      assert faltantes[0] in faltantes;
      CheckResult(false, MissingColumns(faltantes), None)
    else CheckResult(true, EssentialPresent(Requeridas), None)
  }

  // ---------------------------------------------------------------------------
  // check_incidencia_rango_valido (assets.py:167-190)
  // ---------------------------------------------------------------------------

  /** The upper bound of the valid incidence range. */
  const MaxIncidencia: real := 2000.0

  predicate InRange(x: IncidenceRow) {
    0.0 <= x.incidencia7d <= MaxIncidencia
  }

  /** The rows with `incidencia_7d < 0` or `incidencia_7d > 2000`, drawn
      from the input. */
  function OutOfRangeRows(rows: seq<IncidenceRow>): (r: seq<IncidenceRow>)
    ensures forall k :: 0 <= k < |r| ==> !InRange(r[k])
    ensures multiset(r) <= multiset(rows)
  {
    if |rows| == 0 then []
    else
      assert rows == [rows[0]] + rows[1..];
      (if !InRange(rows[0]) then [rows[0]] else []) + OutOfRangeRows(rows[1..])
  }

  /** No out-of-range row is missed, so none is selected exactly when every
      row is in range. */
  lemma {:induction false} OutOfRangeRowsComplete(rows: seq<IncidenceRow>)
    ensures forall i :: 0 <= i < |rows| && !InRange(rows[i]) ==> rows[i] in OutOfRangeRows(rows)
    ensures |OutOfRangeRows(rows)| == 0 <==> forall k :: 0 <= k < |rows| ==> InRange(rows[k])
    decreases |rows|
  {
    if |rows| > 0 {
      OutOfRangeRowsComplete(rows[1..]);
      assert forall i :: 1 <= i < |rows| ==> rows[i] == rows[1..][i - 1];
    }
  }

  /** Fails on a frame without rows or without an `incidencia_7d`
      column; otherwise reports how many values fall outside [0, 2000]
      and passes exactly when none does. */
  function CheckIncidenciaRangoValido(t: IncidenceTable): (r: CheckResult)
    ensures |t.rows| == 0 || IncidenciaCol !in t.columns ==>
              r == CheckResult(false, EmptyOrMissingColumn, None)
    ensures |t.rows| > 0 && IncidenciaCol in t.columns ==>
              && r.affectedRows == Some(|OutOfRangeRows(t.rows)|)
              && r.description == OutOfRange(|OutOfRangeRows(t.rows)|)
              && (r.passed <==> forall k :: 0 <= k < |t.rows| ==> InRange(t.rows[k]))
  {
    if |t.rows| == 0 || IncidenciaCol !in t.columns then CheckResult(false, EmptyOrMissingColumn, None)
    else
      OutOfRangeRowsComplete(t.rows);
      var filasAfectadas := |OutOfRangeRows(t.rows)|;
      CheckResult(filasAfectadas == 0, OutOfRange(filasAfectadas), Some(filasAfectadas))
  }
}
