/** `datos_procesados` (final_project/assets.py:67-96): keeps the rows of
    Ecuador and Finland, projects onto the essential columns the raw table
    has, drops the rows whose `new_cases` is empty, removes repeated
    (country, date) rows keeping the first, and sorts by (country, date). */
module CovidCleaning {
  import opened Wrappers
  import opened CovidTable
  import opened Lists

  /** `paises_interes` (assets.py:76). */
  const Paises: seq<string> := ["Ecuador", "Finland"]

  /** `columnas_esenciales` (assets.py:80), in this order. */
  const Esenciales: seq<string> := [CountryCol, DateCol, NewCasesCol, PeopleVaccinatedCol, PopulationCol]

  function Key(x: Row): (string, Date) {
    (x.country, x.date)
  }

  /** Some row of `s` has the given key. */
  predicate HasKey(s: seq<Row>, key: (string, Date)) {
    exists k :: 0 <= k < |s| && Key(s[k]) == key
  }

  lemma HasKeyCons(x: Row, s: seq<Row>, key: (string, Date))
    ensures HasKey([x] + s, key) <==> Key(x) == key || HasKey(s, key)
  {
    if HasKey(s, key) {
      var k :| 0 <= k < |s| && Key(s[k]) == key;
      assert ([x] + s)[k + 1] == s[k];
    }
    if HasKey([x] + s, key) && Key(x) != key {
      var k :| 0 <= k < |s| + 1 && Key(([x] + s)[k]) == key;
      assert ([x] + s)[k] == s[k - 1];
    }
    assert ([x] + s)[0] == x;
  }

  // ---------------------------------------------------------------------------
  // The steps, in the order the source applies them
  // ---------------------------------------------------------------------------

  /** `df[df['country'].isin(paises_interes)]`. */
  function FilterCountries(rows: seq<Row>): (r: seq<Row>)
    ensures forall k :: 0 <= k < |r| ==> r[k].country in Paises
    ensures multiset(r) <= multiset(rows)
    ensures forall i :: 0 <= i < |rows| && rows[i].country in Paises ==> rows[i] in r
  {
    if |rows| == 0 then []
    else
      assert rows == [rows[0]] + rows[1..];
      (if rows[0].country in Paises then [rows[0]] else []) + FilterCountries(rows[1..])
  }

  /** `columnas_disponibles` (assets.py:81): the essential columns that are
      present, in the order of `Esenciales`. */
  function Available(columns: seq<string>): seq<string> {
    SelectColumns(Esenciales, columns, true)
  }

  /** The numeric cell of `x` in column `c`; `None` for a column that is
      not one of the three numeric ones. */
  function Cell(x: Row, c: string): Option<int> {
    if c == NewCasesCol then x.newCases
    else if c == PeopleVaccinatedCol then x.peopleVaccinated
    else if c == PopulationCol then x.population
    else None
  }

  /** One row of `df[columnas_disponibles]`: the key stays, a numeric
      column in `cols` keeps its cell and any other column reads empty. */
  function ProjectRow(x: Row, cols: seq<string>): (p: Row)
    ensures Key(p) == Key(x)
    ensures forall c :: Cell(p, c) == if c in cols then Cell(x, c) else None
  {
    Row(x.country, x.date,
        if NewCasesCol in cols then x.newCases else None,
        if PeopleVaccinatedCol in cols then x.peopleVaccinated else None,
        if PopulationCol in cols then x.population else None)
  }

  function Project(rows: seq<Row>, cols: seq<string>): (r: seq<Row>)
    ensures |r| == |rows|
    ensures forall k :: 0 <= k < |r| ==> r[k] == ProjectRow(rows[k], cols)
  {
    if |rows| == 0 then [] else [ProjectRow(rows[0], cols)] + Project(rows[1..], cols)
  }

  /** Selecting the same columns twice is selecting them once; selecting
      all three numeric columns changes nothing. */
  lemma ProjectIdempotent(rows: seq<Row>, cols: seq<string>)
    ensures Project(Project(rows, cols), cols) == Project(rows, cols)
    ensures NewCasesCol in cols && PeopleVaccinatedCol in cols && PopulationCol in cols ==>
              Project(rows, cols) == rows
  {
    var p := Project(rows, cols);
    forall k | 0 <= k < |rows|
      ensures ProjectRow(p[k], cols) == p[k]
      ensures NewCasesCol in cols && PeopleVaccinatedCol in cols && PopulationCol in cols ==> p[k] == rows[k]
    {
      SameCells(ProjectRow(p[k], cols), p[k]);
      SameCells(p[k], rows[k]);
    }
  }

  /** A row is determined by its key and its three numeric cells. */
  lemma SameCells(a: Row, b: Row)
    ensures a == b <==> Key(a) == Key(b) && forall c :: Cell(a, c) == Cell(b, c)
  {
    if Key(a) == Key(b) && forall c :: Cell(a, c) == Cell(b, c) {
      assert Cell(a, NewCasesCol) == Cell(b, NewCasesCol);
      assert Cell(a, PeopleVaccinatedCol) == Cell(b, PeopleVaccinatedCol);
      assert Cell(a, PopulationCol) == Cell(b, PopulationCol);
    }
  }

  /** `df.dropna(subset=['new_cases'])`. */
  function DropNullNewCases(rows: seq<Row>): (r: seq<Row>)
    ensures forall k :: 0 <= k < |r| ==> r[k].newCases.Some? && r[k] in rows
    ensures multiset(r) <= multiset(rows)
    ensures forall i :: 0 <= i < |rows| && rows[i].newCases.Some? ==> rows[i] in r
  {
    if |rows| == 0 then []
    else
      assert rows == [rows[0]] + rows[1..];
      (if rows[0].newCases.Some? then [rows[0]] else []) + DropNullNewCases(rows[1..])
  }

  /** The first row of `s` with the given key, if any. */
  function FirstWithKey(s: seq<Row>, key: (string, Date)): (r: Option<Row>)
    ensures r.Some? ==> r.value in s && Key(r.value) == key
    ensures r.None? <==> !HasKey(s, key)
  {
    if |s| == 0 then None
    else if Key(s[0]) == key then Some(s[0])
    else
      assert s == [s[0]] + s[1..];
      HasKeyCons(s[0], s[1..], key);
      FirstWithKey(s[1..], key)
  }

  /** `drop_duplicates(subset=['country', 'date'])` on `s` when the keys in
      `seen` have already been met. */
  function DedupFrom(s: seq<Row>, seen: set<(string, Date)>): seq<Row> {
    if |s| == 0 then []
    else if Key(s[0]) in seen then DedupFrom(s[1..], seen)
    else [s[0]] + DedupFrom(s[1..], seen + {Key(s[0])})
  }

  /** No two kept rows share a key, and no kept key was already seen. */
  lemma {:induction false} DedupFromDistinct(s: seq<Row>, seen: set<(string, Date)>)
    ensures KeysDistinct(DedupFrom(s, seen))
    ensures forall k :: 0 <= k < |DedupFrom(s, seen)| ==> Key(DedupFrom(s, seen)[k]) !in seen
    decreases |s|
  {
    if |s| > 0 {
      var x := s[0];
      if Key(x) in seen {
        DedupFromDistinct(s[1..], seen);
      } else {
        var seen' := seen + {Key(x)};
        DedupFromDistinct(s[1..], seen');
        var rest := DedupFrom(s[1..], seen');
        var r := [x] + rest;
        assert r == DedupFrom(s, seen);
        forall i, j | 0 <= i < j < |r|
          ensures !SameKey(r[i], r[j])
        {
          assert r[j] == rest[j - 1];
          if i > 0 {
            assert r[i] == rest[i - 1];
          }
        }
        forall k | 0 <= k < |r|
          ensures Key(r[k]) !in seen
        {
          if k > 0 {
            assert r[k] == rest[k - 1];
          }
        }
      }
    }
  }

  /** Every kept row is the first row of `s` with its key. */
  lemma {:induction false} DedupFromFirst(s: seq<Row>, seen: set<(string, Date)>)
    ensures forall k :: 0 <= k < |DedupFrom(s, seen)| ==>
              FirstWithKey(s, Key(DedupFrom(s, seen)[k])) == Some(DedupFrom(s, seen)[k])
    decreases |s|
  {
    if |s| > 0 {
      var x := s[0];
      if Key(x) in seen {
        DedupFromFirst(s[1..], seen);
        DedupFromDistinct(s[1..], seen);
      } else {
        var seen' := seen + {Key(x)};
        DedupFromFirst(s[1..], seen');
        DedupFromDistinct(s[1..], seen');
        var rest := DedupFrom(s[1..], seen');
        var r := [x] + rest;
        assert r == DedupFrom(s, seen);
        forall k | 0 <= k < |r|
          ensures FirstWithKey(s, Key(r[k])) == Some(r[k])
        {
          if k > 0 {
            assert r[k] == rest[k - 1];
          }
        }
      }
    }
  }

  /** Every key of `s` that was not already seen is kept. */
  lemma {:induction false} DedupFromComplete(s: seq<Row>, seen: set<(string, Date)>)
    ensures forall i :: 0 <= i < |s| && Key(s[i]) !in seen ==> HasKey(DedupFrom(s, seen), Key(s[i]))
    decreases |s|
  {
    if |s| > 0 {
      var x := s[0];
      if Key(x) in seen {
        DedupFromComplete(s[1..], seen);
        forall i | 0 < i < |s| && Key(s[i]) !in seen
          ensures HasKey(DedupFrom(s, seen), Key(s[i]))
        {
          assert s[i] == s[1..][i - 1];
        }
      } else {
        var seen' := seen + {Key(x)};
        DedupFromComplete(s[1..], seen');
        var rest := DedupFrom(s[1..], seen');
        assert [x] + rest == DedupFrom(s, seen);
        forall i | 0 <= i < |s| && Key(s[i]) !in seen
          ensures HasKey([x] + rest, Key(s[i]))
        {
          HasKeyCons(x, rest, Key(s[i]));
          if i > 0 {
            assert s[i] == s[1..][i - 1];
          }
        }
      }
    }
  }

  /** Deduplication only removes rows. */
  lemma {:induction false} DedupFromSubMultiset(s: seq<Row>, seen: set<(string, Date)>)
    ensures multiset(DedupFrom(s, seen)) <= multiset(s)
    decreases |s|
  {
    if |s| > 0 {
      assert s == [s[0]] + s[1..];
      DedupFromSubMultiset(s[1..], seen);
      DedupFromSubMultiset(s[1..], seen + {Key(s[0])});
    }
  }

  /** Every kept row is the first of `s` with its key, no two kept rows
      share a key, every key of `s` not in `seen` is kept, and nothing
      else is. */
  lemma DedupFromSpec(s: seq<Row>, seen: set<(string, Date)>)
    ensures var r := DedupFrom(s, seen);
            && KeysDistinct(r)
            && (forall k :: 0 <= k < |r| ==> Key(r[k]) !in seen)
            && (forall k :: 0 <= k < |r| ==> FirstWithKey(s, Key(r[k])) == Some(r[k]))
            && (forall i :: 0 <= i < |s| && Key(s[i]) !in seen ==> HasKey(r, Key(s[i])))
            && multiset(r) <= multiset(s)
  {
    DedupFromDistinct(s, seen);
    DedupFromFirst(s, seen);
    DedupFromComplete(s, seen);
    DedupFromSubMultiset(s, seen);
  }

  function KeepFirst(s: seq<Row>): seq<Row> {
    DedupFrom(s, {})
  }

  /** A raw row passes the country filter and, when the table has a
      `new_cases` column, the null filter. */
  predicate Eligible(x: Row, cols: seq<string>) {
    x.country in Paises && (NewCasesCol in cols ==> x.newCases.Some?)
  }

  /** The table before deduplication: filtered, projected, and without the
      rows whose `new_cases` is empty when that column exists. */
  function Kept(rows: seq<Row>, cols: seq<string>): (r: seq<Row>)
    ensures forall k :: 0 <= k < |r| ==> Eligible(r[k], cols)
  {
    var df := Project(FilterCountries(rows), cols);
    if NewCasesCol in cols then DropNullNewCases(df) else df
  }

  lemma SubMultisetEligible(a: seq<Row>, b: seq<Row>, cols: seq<string>)
    requires multiset(b) <= multiset(a)
    requires forall k :: 0 <= k < |a| ==> Eligible(a[k], cols)
    ensures forall k :: 0 <= k < |b| ==> Eligible(b[k], cols)
  {
    forall k | 0 <= k < |b|
      ensures Eligible(b[k], cols)
    {
      assert b[k] in multiset(a);
    }
  }

  /** `datos_procesados`. Indexing a missing `date` (assets.py:73) or
      `country` (assets.py:77) column raises; `date` is read first. On
      success the columns are the essential ones the raw table has, every
      row is of Ecuador or Finland with a non-empty `new_cases` when that
      column exists, and the rows are strictly increasing in
      (country, date), so no key repeats. */
  function DatosProcesados(t: Table): (r: Result<Table, KeyError>)
    ensures r.Failure? <==> DateCol !in t.columns || CountryCol !in t.columns
    ensures r.Failure? ==> r.error == KeyError(if DateCol !in t.columns then DateCol else CountryCol)
    ensures r.Success? ==> forall c :: c in r.value.columns <==> c in Esenciales && c in t.columns
    ensures r.Success? ==> forall k :: 0 <= k < |r.value.rows| ==> Eligible(r.value.rows[k], t.columns)
    ensures r.Success? ==> StrictlySorted(r.value.rows)
  {
    if DateCol !in t.columns then Failure(KeyError(DateCol))
    else if CountryCol !in t.columns then Failure(KeyError(CountryCol))
    else
      var cols := Available(t.columns);
      assert NewCasesCol in cols <==> NewCasesCol in t.columns;
      var limpio := Kept(t.rows, cols);
      DedupFromSpec(limpio, {});
      var unique := KeepFirst(limpio);
      var sorted := SortRows(unique);
      SubMultisetEligible(limpio, sorted, cols);
      Success(Table(cols, sorted))
  }

  // ---------------------------------------------------------------------------
  // Which raw rows survive
  // ---------------------------------------------------------------------------

  /** The projection of the first eligible raw row with the given key. */
  function FirstEligible(rows: seq<Row>, cols: seq<string>, key: (string, Date)): Option<Row> {
    if |rows| == 0 then None
    else if Eligible(rows[0], cols) && Key(rows[0]) == key then Some(ProjectRow(rows[0], cols))
    else FirstEligible(rows[1..], cols, key)
  }

  lemma KeptCons(rows: seq<Row>, cols: seq<string>)
    requires |rows| > 0
    ensures Kept(rows, cols) ==
              (if Eligible(rows[0], cols) then [ProjectRow(rows[0], cols)] else []) + Kept(rows[1..], cols)
  {
    var x := rows[0];
    var f := FilterCountries(rows[1..]);
    var pf := Project(f, cols);
    if x.country in Paises {
      assert FilterCountries(rows) == [x] + f;
      var df := [ProjectRow(x, cols)] + pf;
      assert Project([x] + f, cols) == df;
      if NewCasesCol in cols {
        assert df[1..] == pf;
      }
    } else {
      assert FilterCountries(rows) == f;
    }
  }

  /** Deduplicating the kept rows picks, for each key, the first raw row
      that passes both filters. */
  lemma {:induction false} FirstWithKeyKept(rows: seq<Row>, cols: seq<string>, key: (string, Date))
    ensures FirstWithKey(Kept(rows, cols), key) == FirstEligible(rows, cols, key)
    decreases |rows|
  {
    if |rows| > 0 {
      KeptCons(rows, cols);
      FirstWithKeyKept(rows[1..], cols, key);
      var tail := Kept(rows[1..], cols);
      if Eligible(rows[0], cols) {
        assert ([ProjectRow(rows[0], cols)] + tail)[1..] == tail;
      } else {
        assert Kept(rows, cols) == tail;
      }
    }
  }

  /** Every eligible raw row has its key in the kept rows. */
  lemma {:induction false} EligibleInKept(rows: seq<Row>, cols: seq<string>, i: int)
    requires 0 <= i < |rows| && Eligible(rows[i], cols)
    ensures HasKey(Kept(rows, cols), Key(rows[i]))
    decreases |rows|
  {
    KeptCons(rows, cols);
    var tail := Kept(rows[1..], cols);
    var key := Key(rows[i]);
    if i > 0 {
      assert rows[1..][i - 1] == rows[i];
      EligibleInKept(rows[1..], cols, i - 1);
      assert HasKey(tail, key);
    }
    if Eligible(rows[0], cols) {
      HasKeyCons(ProjectRow(rows[0], cols), tail, key);
    } else {
      assert Kept(rows, cols) == tail;
    }
  }

  /** Every row of the processed table is the projection of the first raw
      row with its (country, date) that passes both filters, and every raw
      row that passes them has its (country, date) in the processed table:
      the table holds exactly one row per surviving key, the first one. */
  lemma DatosProcesadosKeepsFirst(t: Table)
    requires DatosProcesados(t).Success?
    ensures var out := DatosProcesados(t).value.rows;
            && (forall k :: 0 <= k < |out| ==>
                  FirstEligible(t.rows, Available(t.columns), Key(out[k])) == Some(out[k]))
            && (forall i :: 0 <= i < |t.rows| && Eligible(t.rows[i], t.columns) ==>
                  HasKey(out, Key(t.rows[i])))
  {
    OutputRowsAreFirst(t);
    EligibleKeysKept(t);
  }

  /** Every output row is the projection of the first eligible raw row with
      its key. */
  lemma OutputRowsAreFirst(t: Table)
    requires DatosProcesados(t).Success?
    ensures var out := DatosProcesados(t).value.rows;
            forall k :: 0 <= k < |out| ==>
              FirstEligible(t.rows, Available(t.columns), Key(out[k])) == Some(out[k])
  {
    var cols := Available(t.columns);
    assert NewCasesCol in cols <==> NewCasesCol in t.columns;
    var limpio := Kept(t.rows, cols);
    DedupFromSpec(limpio, {});
    var unique := KeepFirst(limpio);
    var out := DatosProcesados(t).value.rows;
    assert out == SortRows(unique);
    forall k | 0 <= k < |out|
      ensures FirstEligible(t.rows, cols, Key(out[k])) == Some(out[k])
    {
      assert out[k] in multiset(unique);
      var m :| 0 <= m < |unique| && unique[m] == out[k];
      FirstWithKeyKept(t.rows, cols, Key(out[k]));
    }
  }

  /** The key of every eligible raw row appears in the output. */
  lemma EligibleKeysKept(t: Table)
    requires DatosProcesados(t).Success?
    ensures var out := DatosProcesados(t).value.rows;
            forall i :: 0 <= i < |t.rows| && Eligible(t.rows[i], t.columns) ==>
              HasKey(out, Key(t.rows[i]))
  {
    var cols := Available(t.columns);
    assert NewCasesCol in cols <==> NewCasesCol in t.columns;
    var limpio := Kept(t.rows, cols);
    var out := DatosProcesados(t).value.rows;
    assert out == SortRows(KeepFirst(limpio));
    forall i | 0 <= i < |t.rows| && Eligible(t.rows[i], t.columns)
      ensures HasKey(out, Key(t.rows[i]))
    {
      EligibleInKept(t.rows, cols, i);
      KeyKeptThroughDedup(limpio, Key(t.rows[i]));
    }
  }

  /** A key of the kept rows survives deduplication and sorting. */
  lemma KeyKeptThroughDedup(limpio: seq<Row>, key: (string, Date))
    requires HasKey(limpio, key)
    ensures HasKey(SortRows(KeepFirst(limpio)), key)
  {
    var unique := KeepFirst(limpio);
    var out := SortRows(unique);
    var j :| 0 <= j < |limpio| && Key(limpio[j]) == key;
    assert HasKey(unique, key) by {
      DedupFromComplete(limpio, {});
      assert Key(limpio[j]) !in {};
    }
    var m :| 0 <= m < |unique| && Key(unique[m]) == key;
    assert unique[m] in multiset(out);
    var n :| 0 <= n < |out| && out[n] == unique[m];
  }
}
