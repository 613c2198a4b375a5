/** The COVID-19 table of final_project/assets.py: a sequence of rows with
    named columns. A column the source file lacks is absent from
    `columns`; the corresponding row field is then meaningless and the
    projection of datos_procesados sets it to `None`. A cell that is empty
    in a present column is `None` too. Dates are day numbers, so that a
    later day is a larger number. */
module CovidTable {
  import opened Wrappers
  import Ascii
  import opened Lists

  type Date = int

  datatype Row = Row(
    country: string,
    date: Date,
    newCases: Option<int>,
    peopleVaccinated: Option<int>,
    population: Option<int>)

  datatype Table = Table(columns: seq<string>, rows: seq<Row>)

  const CountryCol := "country"
  const DateCol := "date"
  const NewCasesCol := "new_cases"
  const PeopleVaccinatedCol := "people_vaccinated"
  const PopulationCol := "population"

  /** The error raised when a frame is indexed by a column it lacks. */
  datatype KeyError = KeyError(column: string)

  /** A row of `metrica_incidencia_7d` (assets.py:121-124). */
  datatype IncidenceRow = IncidenceRow(fecha: Date, pais: string, incidencia7d: real)

  /** The incidence frame; the empty `pd.DataFrame()` has no columns. */
  datatype IncidenceTable = IncidenceTable(columns: seq<string>, rows: seq<IncidenceRow>)

  const FechaCol := "fecha"
  const PaisCol := "pais"
  const IncidenciaCol := "incidencia_7d"

  /** The growth factor: `np.inf` when the previous week has no cases
      (assets.py:152). */
  datatype Factor = Infinite | Ratio(value: real)

  /** A row of `metrica_factor_crec_7d` (assets.py:154-159). */
  datatype GrowthRow = GrowthRow(semanaFin: Date, pais: string, casosSemana: int, factor: Factor)

  // ---------------------------------------------------------------------------
  // The (country, date) order used by `sort_values(['country', 'date'])`
  // ---------------------------------------------------------------------------

  predicate SameKey(a: Row, b: Row) {
    a.country == b.country && a.date == b.date
  }

  predicate KeyLt(a: Row, b: Row) {
    Ascii.StrLt(a.country, b.country) || (a.country == b.country && a.date < b.date)
  }

  predicate KeyLe(a: Row, b: Row) {
    KeyLt(a, b) || SameKey(a, b)
  }

  predicate Sorted(s: seq<Row>) {
    forall i, j :: 0 <= i < j < |s| ==> KeyLe(s[i], s[j])
  }

  predicate StrictlySorted(s: seq<Row>) {
    forall i, j :: 0 <= i < j < |s| ==> KeyLt(s[i], s[j])
  }

  predicate KeysDistinct(s: seq<Row>) {
    forall i, j :: 0 <= i < j < |s| ==> !SameKey(s[i], s[j])
  }

  lemma KeyLtIrreflexive(a: Row, b: Row)
    requires SameKey(a, b)
    ensures !KeyLt(a, b)
  {
    Ascii.StrLtIrreflexive(a.country);
  }

  lemma KeyLeTotal(a: Row, b: Row)
    ensures KeyLe(a, b) || KeyLe(b, a)
  {
    if a.country != b.country {
      Ascii.StrLtTotal(a.country, b.country);
    }
  }

  lemma KeyLeTransitive(a: Row, b: Row, c: Row)
    requires KeyLe(a, b) && KeyLe(b, c)
    ensures KeyLe(a, c)
    ensures KeyLt(a, b) || KeyLt(b, c) ==> KeyLt(a, c)
  {
    if Ascii.StrLt(a.country, b.country) && Ascii.StrLt(b.country, c.country) {
      Ascii.StrLtTransitive(a.country, b.country, c.country);
    }
  }

  lemma StrictlySortedKeysDistinct(s: seq<Row>)
    requires StrictlySorted(s)
    ensures KeysDistinct(s)
  {
    forall i, j | 0 <= i < j < |s|
      ensures !SameKey(s[i], s[j])
    {
      if SameKey(s[i], s[j]) {
        KeyLtIrreflexive(s[i], s[j]);
      }
    }
  }

  /** No row of `s` has the key of `x`. */
  predicate KeyAbsent(x: Row, s: seq<Row>) {
    forall k :: 0 <= k < |s| ==> !SameKey(x, s[k])
  }

  lemma ConsSorted(x: Row, s: seq<Row>)
    requires Sorted(s)
    requires forall k :: 0 <= k < |s| ==> KeyLe(x, s[k])
    ensures Sorted([x] + s)
  {
    forall i, j | 0 <= i < j < |s| + 1
      ensures KeyLe(([x] + s)[i], ([x] + s)[j])
    {
      if i > 0 {
        assert ([x] + s)[i] == s[i - 1];
      }
    }
  }

  lemma ConsStrictlySorted(x: Row, s: seq<Row>)
    requires StrictlySorted(s)
    requires forall k :: 0 <= k < |s| ==> KeyLt(x, s[k])
    ensures StrictlySorted([x] + s)
  {
    forall i, j | 0 <= i < j < |s| + 1
      ensures KeyLt(([x] + s)[i], ([x] + s)[j])
    {
      if i > 0 {
        assert ([x] + s)[i] == s[i - 1];
      }
    }
  }

  lemma InsertFront(x: Row, s: seq<Row>)
    requires Sorted(s) && |s| > 0 && KeyLe(x, s[0])
    ensures Sorted([x] + s)
    ensures StrictlySorted(s) && KeyAbsent(x, s) ==> StrictlySorted([x] + s)
  {
    forall k | 0 <= k < |s|
      ensures KeyLe(x, s[k])
    {
      KeyLeTransitive(x, s[0], s[k]);
    }
    ConsSorted(x, s);
    if StrictlySorted(s) && KeyAbsent(x, s) {
      forall k | 0 <= k < |s|
        ensures KeyLt(x, s[k])
      {
        if k > 0 {
          KeyLeTransitive(x, s[0], s[k]);
        }
      }
      ConsStrictlySorted(x, s);
    }
  }

  lemma InsertBehind(x: Row, s: seq<Row>, rest: seq<Row>)
    requires Sorted(s) && |s| > 0 && !KeyLe(x, s[0])
    requires Sorted(rest) && multiset(rest) == multiset(s[1..]) + multiset{x}
    requires StrictlySorted(s[1..]) && KeyAbsent(x, s[1..]) ==> StrictlySorted(rest)
    ensures Sorted([s[0]] + rest)
    ensures StrictlySorted(s) && KeyAbsent(x, s) ==> StrictlySorted([s[0]] + rest)
  {
    KeyLeTotal(x, s[0]);
    forall k | 0 <= k < |rest|
      ensures KeyLt(s[0], rest[k]) || SameKey(s[0], rest[k])
      ensures rest[k] == x || exists m :: 1 <= m < |s| && s[m] == rest[k]
    {
      assert rest[k] in multiset(rest);
      if rest[k] != x {
        assert rest[k] in multiset(s[1..]);
        var m :| 0 <= m < |s[1..]| && s[1..][m] == rest[k];
        assert s[m + 1] == rest[k];
      }
    }
    ConsSorted(s[0], rest);
    if StrictlySorted(s) && KeyAbsent(x, s) {
      forall k | 0 <= k < |rest|
        ensures KeyLt(s[0], rest[k])
      {
        if rest[k] != x {
          var m :| 1 <= m < |s| && s[m] == rest[k];
          assert KeyLt(s[0], s[m]);
        }
      }
      ConsStrictlySorted(s[0], rest);
    }
  }

  /** Inserts `x` before the first row whose key is at least its own. */
  function Insert(x: Row, s: seq<Row>): (r: seq<Row>)
    requires Sorted(s)
    ensures Sorted(r)
    ensures multiset(r) == multiset(s) + multiset{x}
    ensures StrictlySorted(s) && KeyAbsent(x, s) ==> StrictlySorted(r)
  {
    if |s| == 0 then [x]
    else if KeyLe(x, s[0]) then
      InsertFront(x, s);
      [x] + s
    else
      var rest := Insert(x, s[1..]);
      assert s == [s[0]] + s[1..];
      InsertBehind(x, s, rest);
      [s[0]] + rest
  }

  lemma ConsKeysDistinct(s: seq<Row>, rest: seq<Row>)
    requires |s| > 0 && KeysDistinct(s)
    requires multiset(rest) == multiset(s[1..])
    ensures KeyAbsent(s[0], rest)
  {
    forall k | 0 <= k < |rest|
      ensures !SameKey(s[0], rest[k])
    {
      assert rest[k] in multiset(s[1..]);
      var m :| 0 <= m < |s[1..]| && s[1..][m] == rest[k];
      assert s[m + 1] == rest[k];
    }
  }

  /** `sort_values(['country', 'date'])`, as a stable insertion sort: the
      result is a sorted permutation of the input, strictly sorted when no
      two input rows share a key. */
  function SortRows(s: seq<Row>): (r: seq<Row>)
    ensures Sorted(r)
    ensures multiset(r) == multiset(s)
    ensures KeysDistinct(s) ==> StrictlySorted(r)
  {
    if |s| == 0 then []
    else
      var rest := SortRows(s[1..]);
      assert s == [s[0]] + s[1..];
      if KeysDistinct(s) then
        ConsKeysDistinct(s, rest);
        Insert(s[0], rest)
      else
        Insert(s[0], rest)
  }

  /** Sorting an already sorted sequence changes nothing. */
  lemma {:induction false} SortRowsSorted(s: seq<Row>)
    requires Sorted(s)
    ensures SortRows(s) == s
  {
    if |s| > 0 {
      SortRowsSorted(s[1..]);
    }
  }
}
