/** labs/lab5/csv_checks.py: the header and row checks of a CSV file of
    people. A row is the map from column name to cell text that the CSV
    reader produces; reading the file is not part of this model. */
module CsvChecks {
  import opened Wrappers
  import Ascii
  import Numerals
  import opened Lists

  /** `REQUIRED_COLUMNS`. */
  const RequiredColumns: seq<string> := ["id", "nombre", "edad", "ingreso"]

  /** The required columns in the order `sorted` puts them. */
  const SortedRequired: seq<string> := ["edad", "id", "ingreso", "nombre"]

  predicate StrictlyAscending(s: seq<string>) {
    forall i, j :: 0 <= i < j < |s| ==> Ascii.StrLt(s[i], s[j])
  }

  /** `SortedRequired` is `RequiredColumns` in ascending order. */
  lemma SortedRequiredSorted()
    ensures StrictlyAscending(SortedRequired)
    ensures |SortedRequired| == |RequiredColumns|
    ensures forall c :: c in SortedRequired <==> c in RequiredColumns
  {
    assert Ascii.StrLt("edad", "id");
    assert Ascii.StrLt("id", "ingreso") by {
      assert "id"[1..] == "d" && "ingreso"[1..] == "ngreso";
    }
    assert Ascii.StrLt("ingreso", "nombre");
    Ascii.StrLtTransitive("edad", "id", "ingreso");
    Ascii.StrLtTransitive("id", "ingreso", "nombre");
    Ascii.StrLtTransitive("edad", "ingreso", "nombre");
  }

  /** A subsequence of an ascending list is ascending. */
  lemma {:induction false} AscendingSubsequence(a: seq<string>, b: seq<string>)
    requires Subsequence(a, b) && StrictlyAscending(b)
    ensures StrictlyAscending(a)
    decreases |b|
  {
    if |a| > 0 {
      if a[0] == b[0] {
        AscendingSubsequence(a[1..], b[1..]);
        SubsequenceMembers(a[1..], b[1..]);
        forall j | 0 < j < |a|
          ensures Ascii.StrLt(a[0], a[j])
        {
          assert a[j] in b[1..];
        }
        forall i, j | 0 <= i < j < |a|
          ensures Ascii.StrLt(a[i], a[j])
        {
          if i > 0 {
            assert a[i] == a[1..][i - 1] && a[j] == a[1..][j - 1];
          }
        }
      } else {
        AscendingSubsequence(a, b[1..]);
      }
    }
  }

  /** The `AssertionError` of `check_required_columns`, with the sorted
      list of missing columns it names. */
  datatype ColumnError = FaltanColumnas(missing: seq<string>)

  /** `check_required_columns`: `True` exactly when every required column
      is a field name (absent field names count as none); otherwise the
      missing required columns, in ascending order. */
  function CheckRequiredColumns(fieldnames: Option<seq<string>>): (r: Result<bool, ColumnError>)
    ensures r.Success? <==> forall c :: c in RequiredColumns ==> c in fieldnames.GetOr([])
    ensures r.Success? ==> r.value
    ensures r.Failure? ==> StrictlyAscending(r.error.missing)
    ensures r.Failure? ==>
              forall c :: c in r.error.missing <==> c in RequiredColumns && c !in fieldnames.GetOr([])
  {
    var fields := fieldnames.GetOr([]);
    var missing := SelectColumns(SortedRequired, fields, false);
    SortedRequiredSorted();
    AscendingSubsequence(missing, SortedRequired);
    if |missing| > 0 then
      assert missing[0] in missing;
      Failure(FaltanColumnas(missing))
    else Success(true)
  }

  // ---------------------------------------------------------------------------
  // validate_rows
  // ---------------------------------------------------------------------------

  type CsvRow = map<string, string>

  /** A row whose cells have the types the checks need. */
  datatype Parsed = Parsed(id: int, edad: int, ingreso: real, nombre: string)

  /** `int(r['id'])`, `int(r['edad'])`, `float(r['ingreso'])` and
      `str(r['nombre'])`; `None` when any of them raises, whether for a
      missing key or for text that does not parse. */
  function ParseRow(r: CsvRow): (p: Option<Parsed>)
    ensures p.Some? <==> && "id" in r && "edad" in r && "ingreso" in r && "nombre" in r
                         && Numerals.IntegerText(Ascii.Strip(r["id"]))
                         && Numerals.IntegerText(Ascii.Strip(r["edad"]))
                         && Numerals.ParseReal(r["ingreso"]).Some?
    ensures p.Some? ==> p.value.nombre == r["nombre"]
  {
    if "id" !in r || "edad" !in r || "ingreso" !in r || "nombre" !in r then None
    else
      match (Numerals.ParseInt(r["id"]), Numerals.ParseInt(r["edad"]), Numerals.ParseReal(r["ingreso"]))
      case (Some(id), Some(edad), Some(ingreso)) => Some(Parsed(id, edad, ingreso, r["nombre"]))
      case _ => None
  }

  /** A row written out from typed values parses back to them. */
  lemma ParseRowRoundTrip(id: int, edad: int, ingreso: int, nombre: string)
    ensures ParseRow(map["id" := Numerals.IntToString(id), "edad" := Numerals.IntToString(edad),
                         "ingreso" := Numerals.IntToString(ingreso), "nombre" := nombre])
            == Some(Parsed(id, edad, ingreso as real, nombre))
  {
    var a, b, c := Numerals.IntToString(id), Numerals.IntToString(edad), Numerals.IntToString(ingreso);
    var r: CsvRow := map["id" := a, "edad" := b, "ingreso" := c, "nombre" := nombre];
    assert r["id"] == a && r["edad"] == b && r["ingreso"] == c && r["nombre"] == nombre;
    assert Numerals.ParseInt(a) == Some(id) by { Numerals.IntRoundTrip(id); }
    assert Numerals.ParseInt(b) == Some(edad) by { Numerals.IntRoundTrip(edad); }
    assert Numerals.ParseReal(c) == Some(ingreso as real) by {
      Numerals.IntRoundTrip(ingreso);
      Numerals.IntParseIsRealParse(c);
    }
  }

  /** `ParseRow` of every row. */
  function ParseRows(rows: seq<CsvRow>): (ps: seq<Option<Parsed>>)
    ensures |ps| == |rows|
    ensures forall i :: 0 <= i < |ps| ==> ps[i] == ParseRow(rows[i])
  {
    seq(|rows|, i requires 0 <= i < |rows| => ParseRow(rows[i]))
  }

  /** The reasons for rejecting a row, in the order they are checked. */
  datatype RowError = TiposInvalidos | IdRepetido(id: int) | EdadNegativa | IngresoNegativo | NombreVacio

  /** The failing row, numbered from 1, and why it fails. */
  datatype RowFailure = RowFailure(fila: nat, error: RowError)

  /** The ids of the rows among `ps` that parse. */
  function IdsOf(ps: seq<Option<Parsed>>): (ids: set<int>)
    ensures forall x :: x in ids <==> exists k :: 0 <= k < |ps| && ps[k].Some? && ps[k].value.id == x
  {
    if |ps| == 0 then {}
    else
      var init := ps[..|ps| - 1];
      var last := ps[|ps| - 1];
      assert forall k :: 0 <= k < |init| ==> init[k] == ps[k];
      IdsOf(init) + (if last.Some? then {last.value.id} else {})
  }

  /** The first check a row fails, given the ids of the rows before it:
      type parse, then duplicate id, then negative age, then negative
      income, then empty name. */
  function RowCheck(p: Option<Parsed>, ids: set<int>): (r: Option<RowError>)
    ensures r.None? <==>
              p.Some? && p.value.id !in ids && p.value.edad >= 0
              && p.value.ingreso >= 0.0 && p.value.nombre != ""
    ensures r == Some(TiposInvalidos) <==> p.None?
    ensures r.Some? && r.value.IdRepetido? ==> p.Some? && p.value.id in ids && r.value.id == p.value.id
    ensures r == Some(EdadNegativa) ==> p.Some? && p.value.id !in ids && p.value.edad < 0
    ensures r == Some(IngresoNegativo) ==>
              p.Some? && p.value.id !in ids && p.value.edad >= 0 && p.value.ingreso < 0.0
    ensures r == Some(NombreVacio) ==>
              p.Some? && p.value.id !in ids && p.value.edad >= 0 && p.value.ingreso >= 0.0
              && p.value.nombre == ""
  {
    if p.None? then Some(TiposInvalidos)
    else if p.value.id in ids then Some(IdRepetido(p.value.id))
    else if p.value.edad < 0 then Some(EdadNegativa)
    else if p.value.ingreso < 0.0 then Some(IngresoNegativo)
    else if p.value.nombre == "" then Some(NombreVacio)
    else None
  }

  /** The verdict on row `i` (0-based) of the parsed rows `ps`. */
  function Check(ps: seq<Option<Parsed>>, i: nat): Option<RowError>
    requires i < |ps|
  {
    RowCheck(ps[i], IdsOf(ps[..i]))
  }

  /** A row is rejected as a duplicate exactly when it parses and its id is
      the id of some earlier row that parses. */
  lemma DuplicateIffEarlier(ps: seq<Option<Parsed>>, i: nat, x: int)
    requires i < |ps|
    ensures Check(ps, i) == Some(IdRepetido(x)) <==>
              ps[i].Some? && ps[i].value.id == x
              && exists k :: 0 <= k < i && ps[k].Some? && ps[k].value.id == x
  {
    var before := ps[..i];
    assert forall k :: 0 <= k < i ==> before[k] == ps[k];
  }

  /** The loop of `validate_rows` over the parsed rows. */
  method ValidateParsed(ps: seq<Option<Parsed>>) returns (r: Result<bool, RowFailure>)
    ensures r.Success? ==> r.value
    ensures r.Success? <==> forall i :: 0 <= i < |ps| ==> Check(ps, i).None?
    ensures r.Failure? ==>
              && 1 <= r.error.fila <= |ps|
              && Check(ps, r.error.fila - 1) == Some(r.error.error)
              && forall i :: 0 <= i < r.error.fila - 1 ==> Check(ps, i).None?
  {
    var ids: set<int> := {};
    var i := 0;
    assert ps[..0] == [];
    while i < |ps|
      invariant 0 <= i <= |ps|
      invariant ids == IdsOf(ps[..i])
      invariant forall k :: 0 <= k < i ==> Check(ps, k).None?
    {
      var p := ps[i];
      assert Check(ps, i) == RowCheck(p, ids);
      if p.None? {
        return Failure(RowFailure(i + 1, TiposInvalidos));
      }
      var fila := p.value;
      if fila.id in ids {
        return Failure(RowFailure(i + 1, IdRepetido(fila.id)));
      }
      assert ps[..i + 1][..i] == ps[..i];
      ids := ids + {fila.id};
      if fila.edad < 0 {
        return Failure(RowFailure(i + 1, EdadNegativa));
      }
      if fila.ingreso < 0.0 {
        return Failure(RowFailure(i + 1, IngresoNegativo));
      }
      if fila.nombre == "" {
        return Failure(RowFailure(i + 1, NombreVacio));
      }
      i := i + 1;
    }
    return Success(true);
  }

  /** `validate_rows`: `True` exactly when every row passes; otherwise the
      1-based number of the first failing row, every row before it having
      passed, and the first check that row fails. */
  method ValidateRows(rows: seq<CsvRow>) returns (r: Result<bool, RowFailure>)
    ensures r.Success? ==> r.value
    ensures r.Success? <==> forall i :: 0 <= i < |rows| ==> Check(ParseRows(rows), i).None?
    ensures r.Failure? ==>
              && 1 <= r.error.fila <= |rows|
              && Check(ParseRows(rows), r.error.fila - 1) == Some(r.error.error)
              && forall i :: 0 <= i < r.error.fila - 1 ==> Check(ParseRows(rows), i).None?
  {
    r := ValidateParsed(ParseRows(rows));
  }
}
