/** The two metrics of final_project/assets.py, computed on the processed
    table: the 7-row rolling incidence per 100 000 inhabitants
    (`metrica_incidencia_7d`, assets.py:102-126) and the week-over-week
    growth factor (`metrica_factor_crec_7d`, assets.py:128-161). Division
    is exact (`real`); the floating-point NaN and infinity that a zero or
    empty population would produce are excluded by precondition. */
module CovidMetrics {
  import opened Wrappers
  import opened CovidTable
  import CovidChecks

  /** `window=7` (assets.py:117) and the length of a week in the growth
      factor (assets.py:143-149). */
  const Ventana: nat := 7

  /** Cases per `Escala` inhabitants (assets.py:113). */
  const Escala: real := 100000.0

  // ---------------------------------------------------------------------------
  // Incidence
  // ---------------------------------------------------------------------------

  predicate IncidenceDefined(x: Row) {
    x.newCases.Some? && x.population.Some? && x.population.value > 0
  }

  /** `incidencia_diaria` (assets.py:113). */
  function DailyIncidence(x: Row): real
    requires IncidenceDefined(x)
  {
    (x.newCases.value as real / x.population.value as real) * Escala
  }

  /** The daily incidences of the rows of `pais`, in table order: the
      series `groupby('country')` hands to `rolling`. */
  function Series(rows: seq<Row>, pais: string): (s: seq<real>)
    requires forall k :: 0 <= k < |rows| ==> IncidenceDefined(rows[k])
    ensures |rows| > 0 && rows[|rows| - 1].country == pais ==> |s| > 0
    decreases |rows|
  {
    if |rows| == 0 then []
    else
      var last := rows[|rows| - 1];
      Series(rows[..|rows| - 1], pais) + (if last.country == pais then [DailyIncidence(last)] else [])
  }

  /** The last `n` elements of `s`, or all of them when there are fewer. */
  function LastN(s: seq<real>, n: nat): (r: seq<real>)
    ensures |r| == if |s| < n then |s| else n
    ensures forall k :: 0 <= k < |r| ==> r[k] == s[|s| - |r| + k]
  {
    if |s| <= n then s else s[|s| - n..]
  }

  function Sum(s: seq<real>): real {
    if |s| == 0 then 0.0 else s[0] + Sum(s[1..])
  }

  function Mean(s: seq<real>): real
    requires |s| > 0
  {
    Sum(s) / |s| as real
  }

  /** `rolling(window=7, min_periods=1).mean()` at row `j`: if row `j` is
      the k-th row of its country, the mean of that country's daily
      incidences at its rows max(1, k-6)..k. */
  function Rolling7(rows: seq<Row>, j: nat): real
    requires j < |rows|
    requires forall k :: 0 <= k < |rows| ==> IncidenceDefined(rows[k])
  {
    Mean(LastN(Series(rows[..j + 1], rows[j].country), Ventana))
  }

  /** One output row per input row, in table order. */
  function IncidenceRows(rows: seq<Row>): (r: seq<IncidenceRow>)
    requires forall k :: 0 <= k < |rows| ==> IncidenceDefined(rows[k])
  {
    seq(|rows|, j requires 0 <= j < |rows| => IncidenceRow(rows[j].date, rows[j].country, Rolling7(rows, j)))
  }

  /** The columns the incidence computation needs have their values
      (a NaN or infinite incidence is not modelled). */
  predicate IncidenceInputs(t: Table) {
    NewCasesCol in t.columns && PopulationCol in t.columns ==>
      forall k :: 0 <= k < |t.rows| ==> IncidenceDefined(t.rows[k])
  }

  lemma {:induction false} LastNAppend(s: seq<real>, d: real, n: nat)
    requires n > 0
    ensures LastN(LastN(s, n) + [d], n) == LastN(s + [d], n)
  {
    if |s| > n {
      assert (s[|s| - n..] + [d])[1..] == (s + [d])[|s| + 1 - n..];
    }
  }

  lemma SeriesStep(rows: seq<Row>, j: nat, pais: string)
    requires j < |rows|
    requires forall k :: 0 <= k < |rows| ==> IncidenceDefined(rows[k])
    ensures Series(rows[..j + 1], pais) ==
              Series(rows[..j], pais) + (if rows[j].country == pais then [DailyIncidence(rows[j])] else [])
  {
    assert rows[..j + 1][..j] == rows[..j];
  }

  /** The window kept for `pais`: none yet when the country has not
      appeared. */
  function Window(ventanas: map<string, seq<real>>, pais: string): seq<real> {
    if pais in ventanas then ventanas[pais] else []
  }

  /** Every kept window is the last seven daily incidences of its country
      among the first `j` rows. */
  ghost predicate WindowsAgree(rows: seq<Row>, j: nat, ventanas: map<string, seq<real>>)
    requires j <= |rows|
    requires forall k :: 0 <= k < |rows| ==> IncidenceDefined(rows[k])
  {
    forall c :: LastN(Series(rows[..j], c), Ventana) == Window(ventanas, c)
  }

  /** Sliding the window of row `j`'s country keeps the windows in step
      with the reference, and its mean is that row's rolling value. */
  lemma WindowsStep(rows: seq<Row>, j: nat, ventanas: map<string, seq<real>>, ventana: seq<real>)
    requires j < |rows|
    requires forall k :: 0 <= k < |rows| ==> IncidenceDefined(rows[k])
    requires WindowsAgree(rows, j, ventanas)
    requires ventana == LastN(Window(ventanas, rows[j].country) + [DailyIncidence(rows[j])], Ventana)
    ensures WindowsAgree(rows, j + 1, ventanas[rows[j].country := ventana])
    ensures Rolling7(rows, j) == Mean(ventana)
  {
    var next := ventanas[rows[j].country := ventana];
    forall c
      ensures LastN(Series(rows[..j + 1], c), Ventana) == Window(next, c)
    {
      SeriesStep(rows, j, c);
      if c == rows[j].country {
        LastNAppend(Series(rows[..j], c), DailyIncidence(rows[j]), Ventana);
      }
    }
  }

  /** The one pass of `MetricaIncidencia7d`: keeps, per country, only the
      last seven daily incidences, and emits the mean of the window of
      each row's country after adding that row. */
  method IncidenceLoop(rows: seq<Row>) returns (out: seq<IncidenceRow>)
    requires forall k :: 0 <= k < |rows| ==> IncidenceDefined(rows[k])
    ensures out == IncidenceRows(rows)
  {
    var ventanas: map<string, seq<real>> := map[];
    out := [];
    var j := 0;
    assert rows[..0] == [];
    while j < |rows|
      invariant 0 <= j <= |rows|
      invariant out == IncidenceRows(rows)[..j]
      invariant WindowsAgree(rows, j, ventanas)
    {
      var x := rows[j];
      var ventana := LastN(Window(ventanas, x.country) + [DailyIncidence(x)], Ventana);
      WindowsStep(rows, j, ventanas, ventana);
      ventanas := ventanas[x.country := ventana];
      assert IncidenceRows(rows)[..j + 1] == IncidenceRows(rows)[..j] + [IncidenceRows(rows)[j]];
      out := out + [IncidenceRow(x.date, x.country, Mean(ventana))];
      j := j + 1;
    }
    assert IncidenceRows(rows)[..|rows|] == IncidenceRows(rows);
  }

  /** `metrica_incidencia_7d`: an empty frame when `new_cases` or
      `population` is missing; otherwise `groupby('country')` needs a
      `country` column and the final selection a `date` column; otherwise
      one row per input row carrying its country's 7-row rolling mean.
      Computed in one pass that keeps, per country, only the last seven
      daily incidences. */
  method MetricaIncidencia7d(t: Table) returns (r: Result<IncidenceTable, KeyError>)
    requires IncidenceInputs(t)
    ensures NewCasesCol !in t.columns || PopulationCol !in t.columns ==> r == Success(IncidenceTable([], []))
    ensures NewCasesCol in t.columns && PopulationCol in t.columns && CountryCol !in t.columns ==>
              r == Failure(KeyError(CountryCol))
    ensures NewCasesCol in t.columns && PopulationCol in t.columns && CountryCol in t.columns && DateCol !in t.columns ==>
              r == Failure(KeyError(DateCol))
    ensures NewCasesCol in t.columns && PopulationCol in t.columns && CountryCol in t.columns && DateCol in t.columns ==>
              r.Success? && r.value.columns == [FechaCol, PaisCol, IncidenciaCol]
              && r.value.rows == IncidenceRows(t.rows)
  {
    if NewCasesCol !in t.columns || PopulationCol !in t.columns {
      return Success(IncidenceTable([], []));
    }
    if CountryCol !in t.columns {
      return Failure(KeyError(CountryCol));
    }
    var out := IncidenceLoop(t.rows);
    if DateCol !in t.columns {
      return Failure(KeyError(DateCol));
    }
    r := Success(IncidenceTable([FechaCol, PaisCol, IncidenciaCol], out));
  }

  /** The first rows of a country average over the rows seen so far, not
      over a full week. */
  lemma Rolling7MinPeriods(rows: seq<Row>, j: nat)
    requires j < |rows|
    requires forall k :: 0 <= k < |rows| ==> IncidenceDefined(rows[k])
    requires |Series(rows[..j + 1], rows[j].country)| <= Ventana
    ensures Rolling7(rows, j) == Mean(Series(rows[..j + 1], rows[j].country))
  {
  }

  lemma {:induction false} SumBounds(s: seq<real>, lo: real, hi: real)
    requires forall k :: 0 <= k < |s| ==> lo <= s[k] <= hi
    ensures |s| as real * lo <= Sum(s) <= |s| as real * hi
    decreases |s|
  {
    if |s| > 0 {
      SumBounds(s[1..], lo, hi);
    }
  }

  /** A mean lies between the least and greatest bound of its values. */
  lemma MeanBounds(s: seq<real>, lo: real, hi: real)
    requires |s| > 0
    requires forall k :: 0 <= k < |s| ==> lo <= s[k] <= hi
    ensures lo <= Mean(s) <= hi
  {
    SumBounds(s, lo, hi);
    var n := |s| as real;
    assert Sum(s) / n >= lo by {
      assert Sum(s) >= n * lo;
    }
    assert Sum(s) / n <= hi by {
      assert Sum(s) <= n * hi;
    }
  }

  /** Every element of a country's series is the daily incidence of one of
      the rows. */
  lemma {:induction false} SeriesBounds(rows: seq<Row>, pais: string, lo: real, hi: real)
    requires forall k :: 0 <= k < |rows| ==> IncidenceDefined(rows[k])
    requires forall k :: 0 <= k < |rows| ==> lo <= DailyIncidence(rows[k]) <= hi
    ensures forall k :: 0 <= k < |Series(rows, pais)| ==> lo <= Series(rows, pais)[k] <= hi
    decreases |rows|
  {
    if |rows| > 0 {
      SeriesBounds(rows[..|rows| - 1], pais, lo, hi);
    }
  }

  /** When every daily incidence lies in [0, 2000], so does every rolling
      value. */
  lemma IncidenceWithinRange(rows: seq<Row>)
    requires forall k :: 0 <= k < |rows| ==> IncidenceDefined(rows[k])
    requires forall k :: 0 <= k < |rows| ==> 0.0 <= DailyIncidence(rows[k]) <= 2000.0
    ensures forall j :: 0 <= j < |rows| ==> 0.0 <= IncidenceRows(rows)[j].incidencia7d <= 2000.0
  {
    forall j | 0 <= j < |rows|
      ensures 0.0 <= IncidenceRows(rows)[j].incidencia7d <= 2000.0
    {
      RollingBounds(rows, j, 0.0, 2000.0);
    }
  }

  /** A rolling value lies within any bounds of the daily incidences. */
  lemma RollingBounds(rows: seq<Row>, j: nat, lo: real, hi: real)
    requires j < |rows|
    requires forall k :: 0 <= k < |rows| ==> IncidenceDefined(rows[k])
    requires forall k :: 0 <= k < |rows| ==> lo <= DailyIncidence(rows[k]) <= hi
    ensures lo <= Rolling7(rows, j) <= hi
  {
    var pre := rows[..j + 1];
    assert forall k :: 0 <= k < |pre| ==> pre[k] == rows[k];
    var s := Series(pre, rows[j].country);
    SeriesBounds(pre, rows[j].country, lo, hi);
    var w := LastN(s, Ventana);
    assert forall k :: 0 <= k < |w| ==> w[k] == s[|s| - |w| + k];
    MeanBounds(w, lo, hi);
  }

  /** So the output check passes on a non-empty incidence table whose
      daily incidences lie in [0, 2000], with no row out of range. */
  lemma IncidenceCheckPasses(rows: seq<Row>)
    requires |rows| > 0
    requires forall k :: 0 <= k < |rows| ==> IncidenceDefined(rows[k])
    requires forall k :: 0 <= k < |rows| ==> 0.0 <= DailyIncidence(rows[k]) <= 2000.0
    ensures CovidChecks.CheckIncidenciaRangoValido(IncidenceTable([FechaCol, PaisCol, IncidenciaCol], IncidenceRows(rows)))
            == CovidChecks.CheckResult(true, CovidChecks.OutOfRange(0), Some(0))
  {
    var t := IncidenceTable([FechaCol, PaisCol, IncidenciaCol], IncidenceRows(rows));
    IncidenceWithinRange(rows);
    assert forall k :: 0 <= k < |t.rows| ==> CovidChecks.InRange(t.rows[k]);
    assert IncidenciaCol in t.columns;
  }

  /** Two Ecuador rows of 100 and 200 new cases in a population of one
      million: daily incidences 10 and 20, rolling values 10 and 15. */
  lemma {:induction false} IncidenceTwoDays()
    ensures IncidenceRows([Row("Ecuador", 1, Some(100), Some(500), Some(1000000)),
                           Row("Ecuador", 2, Some(200), Some(510), Some(1000000))])
            == [IncidenceRow(1, "Ecuador", 10.0), IncidenceRow(2, "Ecuador", 15.0)]
  {
    var a := Row("Ecuador", 1, Some(100), Some(500), Some(1000000));
    var b := Row("Ecuador", 2, Some(200), Some(510), Some(1000000));
    assert DailyIncidence(a) == 10.0;
    assert DailyIncidence(b) == 20.0;
    RollingTwoRows(a, b);
    var r := IncidenceRows([a, b]);
    assert r[0] == IncidenceRow(1, "Ecuador", 10.0);
    assert r[1] == IncidenceRow(2, "Ecuador", 15.0);
  }

  /** Two rows of one country: the first rolling value is the first daily
      incidence, the second the mean of both. */
  lemma RollingTwoRows(a: Row, b: Row)
    requires IncidenceDefined(a) && IncidenceDefined(b) && a.country == b.country
    ensures Rolling7([a, b], 0) == DailyIncidence(a)
    ensures Rolling7([a, b], 1) == (DailyIncidence(a) + DailyIncidence(b)) / 2.0
  {
    var rows := [a, b];
    var x, y := DailyIncidence(a), DailyIncidence(b);
    assert rows[..1] == [a] && rows[..2] == rows;
    SeriesTwoRows(a, b);
    assert Mean(LastN([x], Ventana)) == x by {
      assert Sum([x]) == x by { assert [x][1..] == []; }
    }
    assert Mean(LastN([x, y], Ventana)) == (x + y) / 2.0 by {
      assert Sum([x, y]) == x + y by {
        assert [x, y][1..] == [y] && [y][1..] == [];
      }
    }
  }

  lemma SeriesTwoRows(a: Row, b: Row)
    requires IncidenceDefined(a) && IncidenceDefined(b) && a.country == b.country
    ensures Series([a], a.country) == [DailyIncidence(a)]
    ensures Series([a, b], a.country) == [DailyIncidence(a), DailyIncidence(b)]
  {
    assert [a][..0] == [] && [a, b][..1] == [a];
  }

  // ---------------------------------------------------------------------------
  // Growth factor
  // ---------------------------------------------------------------------------

  /** `df_pais.iloc[a:b]['new_cases'].sum()`: pandas skips empty cells. */
  function CasesSum(rs: seq<Row>): int {
    if |rs| == 0 then 0 else rs[0].newCases.GetOr(0) + CasesSum(rs[1..])
  }

  lemma {:induction false} CasesSumAppend(a: seq<Row>, b: seq<Row>)
    ensures CasesSum(a + b) == CasesSum(a) + CasesSum(b)
    decreases |a|
  {
    if |a| == 0 {
      assert a + b == b;
    } else {
      assert (a + b)[1..] == a[1..] + b;
      CasesSumAppend(a[1..], b);
    }
  }

  /** The growth factor of assets.py:152: the ratio of the two weekly
      sums when the previous one is positive, infinity otherwise. */
  function GrowthFactor(actual: int, previa: int): (f: Factor)
    ensures f.Infinite? <==> previa <= 0
    ensures f.Ratio? ==> f.value * previa as real == actual as real
  {
    if previa > 0 then Ratio(actual as real / previa as real) else Infinite
  }

  /** The row emitted at index `i` of a country's date-sorted rows: the
      current week is rows i-6..i, the previous week rows i-13..i-7. */
  function GrowthAt(pais: string, rs: seq<Row>, i: nat): GrowthRow
    requires 13 <= i < |rs|
  {
    var actual := CasesSum(rs[i - 6..i + 1]);
    var previa := CasesSum(rs[i - 13..i - 6]);
    GrowthRow(rs[i].date, pais, actual, GrowthFactor(actual, previa))
  }

  /** The two weeks are adjacent and disjoint, seven rows each, and
      together cover the fourteen rows ending at `i`. */
  lemma GrowthWeeksAdjacent(pais: string, rs: seq<Row>, i: nat)
    requires 13 <= i < |rs|
    ensures GrowthAt(pais, rs, i).casosSemana + CasesSum(rs[i - 13..i - 6]) == CasesSum(rs[i - 13..i + 1])
    ensures |rs[i - 13..i - 6]| == Ventana && |rs[i - 6..i + 1]| == Ventana
  {
    assert rs[i - 13..i + 1] == rs[i - 13..i - 6] + rs[i - 6..i + 1];
    CasesSumAppend(rs[i - 13..i - 6], rs[i - 6..i + 1]);
  }

  /** The inner loop of assets.py:143-159 for one country: walks indices
      7..n-1 like the source and emits a row from index 13 on. */
  method CountryGrowth(pais: string, rs: seq<Row>) returns (out: seq<GrowthRow>)
    ensures |out| == if |rs| > 13 then |rs| - 13 else 0
    ensures out == CountryGrowthRows(pais, rs)
  {
    out := [];
    var i := 7;
    while i < |rs|
      invariant 7 <= i <= |rs| || (i == 7 && |rs| < 7)
      invariant out == CountryGrowthRows(pais, rs)[..Emitted(i)]
    {
      var actual := CasesSum(rs[i - 6..i + 1]);
      if i >= 13 {
        var previa := CasesSum(rs[i - 13..i - 6]);
        var factor := if previa > 0 then Ratio(actual as real / previa as real) else Infinite;
        GrowthStep(pais, rs, i);
        out := out + [GrowthRow(rs[i].date, pais, actual, factor)];
      }
      i := i + 1;
    }
    assert Emitted(i) == |CountryGrowthRows(pais, rs)|;
  }

  /** The number of rows the loop has emitted before index `i`. */
  function Emitted(i: nat): nat {
    if i > 13 then i - 13 else 0
  }

  /** The row emitted at index `i` extends the reference prefix by one. */
  lemma GrowthStep(pais: string, rs: seq<Row>, i: nat)
    requires 13 <= i < |rs|
    ensures var g := CountryGrowthRows(pais, rs);
            var actual := CasesSum(rs[i - 6..i + 1]);
            var previa := CasesSum(rs[i - 13..i - 6]);
            g[..Emitted(i + 1)] ==
              g[..Emitted(i)] + [GrowthRow(rs[i].date, pais, actual,
                                           if previa > 0 then Ratio(actual as real / previa as real) else Infinite)]
  {
    var g := CountryGrowthRows(pais, rs);
    assert g[i - 13] == GrowthAt(pais, rs, i);
    assert g[..i - 12] == g[..i - 13] + [g[i - 13]];
  }

  /** The reference value of `CountryGrowth`. */
  function CountryGrowthRows(pais: string, rs: seq<Row>): (r: seq<GrowthRow>)
    ensures forall j :: 0 <= j < |r| ==> r[j].pais == pais
  {
    seq(if |rs| > 13 then |rs| - 13 else 0, j requires 0 <= j < |rs| - 13 => GrowthAt(pais, rs, j + 13))
  }

  /** The rows of `pais`, in table order. */
  function CountryRows(rows: seq<Row>, pais: string): (r: seq<Row>)
    ensures forall k :: 0 <= k < |r| ==> r[k].country == pais
    ensures multiset(r) <= multiset(rows)
  {
    if |rows| == 0 then []
    else
      assert rows == [rows[0]] + rows[1..];
      (if rows[0].country == pais then [rows[0]] else []) + CountryRows(rows[1..], pais)
  }

  /** The selection keeps every row of `pais`, as often as it occurs, and
      nothing else. */
  lemma {:induction false} CountryRowsCount(rows: seq<Row>, pais: string, x: Row)
    ensures multiset(CountryRows(rows, pais))[x] == if x.country == pais then multiset(rows)[x] else 0
    decreases |rows|
  {
    if |rows| > 0 {
      CountryRowsCount(rows[1..], pais, x);
      var head := if rows[0].country == pais then [rows[0]] else [];
      assert CountryRows(rows, pais) == head + CountryRows(rows[1..], pais);
      assert multiset(CountryRows(rows, pais))[x] == multiset(head)[x] + multiset(CountryRows(rows[1..], pais))[x];
      assert rows == [rows[0]] + rows[1..];
      assert multiset(rows)[x] == multiset{rows[0]}[x] + multiset(rows[1..])[x];
    }
  }

  /** `u` lists values in the order they first appear in `s`: whenever a
      value of `u` occurs in `s`, every value listed before it has already
      occurred. */
  ghost predicate FirstAppearanceOrder(s: seq<string>, u: seq<string>) {
    forall i, j, k :: 0 <= i < j < |u| && 0 <= k < |s| && s[k] == u[j] ==> u[i] in s[..k]
  }

  /** `Series.unique()`: each value once, in order of first appearance. */
  function Unique(s: seq<string>): (u: seq<string>)
    ensures forall c :: c in u <==> c in s
    ensures forall i, j :: 0 <= i < j < |u| ==> u[i] != u[j]
    ensures FirstAppearanceOrder(s, u)
  {
    if |s| == 0 then []
    else
      var u := Unique(s[..|s| - 1]);
      assert forall c :: c in s <==> c in s[..|s| - 1] || c == s[|s| - 1];
      FirstAppearanceStep(s, u);
      if s[|s| - 1] in u then u else u + [s[|s| - 1]]
  }

  /** Appending the last value of `s`, when it is new, keeps the order of
      first appearance. */
  lemma FirstAppearanceStep(s: seq<string>, u: seq<string>)
    requires |s| > 0
    requires forall c :: c in u <==> c in s[..|s| - 1]
    requires FirstAppearanceOrder(s[..|s| - 1], u)
    ensures FirstAppearanceOrder(s, if s[|s| - 1] in u then u else u + [s[|s| - 1]])
  {
    var n := |s| - 1;
    var p := s[..n];
    var last := s[n];
    var v := if last in u then u else u + [last];
    forall i, j, k | 0 <= i < j < |v| && 0 <= k < |s| && s[k] == v[j]
      ensures v[i] in s[..k]
    {
      if k < n {
        assert p[k] == s[k];
        if j < |u| {
          assert p[..k] == s[..k];
        } else {
          assert false;
        }
      } else if j < |u| {
        assert u[j] == last && last in p;
        var k' :| 0 <= k' < n && p[k'] == last;
        assert p[k'] == u[j];
        assert u[i] in p[..k'];
        assert p[..k'] == s[..k'];
        assert s[..k'] <= s[..k];
      } else {
        assert v == u + [last] && k == n;
        assert v[i] == u[i] && u[i] in u;
      }
    }
  }

  function Countries(rows: seq<Row>): seq<string> {
    seq(|rows|, k requires 0 <= k < |rows| => rows[k].country)
  }

  /** `df[df['country'] == pais].sort_values('date')`. */
  function SortedCountryRows(rows: seq<Row>, pais: string): seq<Row> {
    SortRows(CountryRows(rows, pais))
  }

  /** The output rows of one country. */
  function Block(rows: seq<Row>, pais: string): (r: seq<GrowthRow>)
    ensures forall k :: 0 <= k < |r| ==> r[k].pais == pais
  {
    CountryGrowthRows(pais, SortedCountryRows(rows, pais))
  }

  /** The output for the countries `cs`, one block after another. */
  function GrowthBlocks(rows: seq<Row>, cs: seq<string>): seq<GrowthRow>
    decreases |cs|
  {
    if |cs| == 0 then []
    else
      var last := cs[|cs| - 1];
      GrowthBlocks(rows, cs[..|cs| - 1]) + Block(rows, last)
  }

  /** The outer loop of assets.py:138-159: the blocks of the countries
      `paises`, one after another. */
  method GrowthLoop(rows: seq<Row>, paises: seq<string>) returns (resultados: seq<GrowthRow>)
    ensures resultados == GrowthBlocks(rows, paises)
  {
    resultados := [];
    var k := 0;
    while k < |paises|
      invariant 0 <= k <= |paises|
      invariant resultados == GrowthBlocks(rows, paises[..k])
    {
      var pais := paises[k];
      var bloque := CountryGrowth(pais, SortedCountryRows(rows, pais));
      assert bloque == Block(rows, pais);
      assert paises[..k + 1][..k] == paises[..k];
      resultados := resultados + bloque;
      k := k + 1;
    }
    assert paises[..|paises|] == paises;
  }

  /** `metrica_factor_crec_7d`: an empty frame without `new_cases`; a
      missing `country` column raises at `unique()`, a missing `date`
      column at the first `sort_values('date')`; otherwise the blocks of
      every country in order of first appearance. */
  method MetricaFactorCrec7d(t: Table) returns (r: Result<seq<GrowthRow>, KeyError>)
    ensures NewCasesCol !in t.columns ==> r == Success([])
    ensures NewCasesCol in t.columns && CountryCol !in t.columns ==> r == Failure(KeyError(CountryCol))
    ensures NewCasesCol in t.columns && CountryCol in t.columns && DateCol !in t.columns ==>
              r == if |t.rows| == 0 then Success([]) else Failure(KeyError(DateCol))
    ensures NewCasesCol in t.columns && CountryCol in t.columns && DateCol in t.columns ==>
              r == Success(GrowthBlocks(t.rows, Unique(Countries(t.rows))))
  {
    if NewCasesCol !in t.columns {
      return Success([]);
    }
    if CountryCol !in t.columns {
      return Failure(KeyError(CountryCol));
    }
    var paises := Unique(Countries(t.rows));
    if DateCol !in t.columns {
      // the loop raises at its first country, if there is one
      if |t.rows| > 0 {
        assert Countries(t.rows)[0] in Countries(t.rows);
      }
      if |paises| == 0 {
        return Success([]);
      }
      return Failure(KeyError(DateCol));
    }
    var resultados := GrowthLoop(t.rows, paises);
    r := Success(resultados);
  }

  /** The rows of `g` labelled `pais`, in order. */
  function RowsOf(g: seq<GrowthRow>, pais: string): (r: seq<GrowthRow>)
    ensures forall k :: 0 <= k < |r| ==> r[k].pais == pais
  {
    if |g| == 0 then []
    else (if g[0].pais == pais then [g[0]] else []) + RowsOf(g[1..], pais)
  }

  lemma {:induction false} RowsOfAppend(a: seq<GrowthRow>, b: seq<GrowthRow>, pais: string)
    ensures RowsOf(a + b, pais) == RowsOf(a, pais) + RowsOf(b, pais)
    decreases |a|
  {
    if |a| == 0 {
      assert a + b == b;
    } else {
      assert (a + b)[1..] == a[1..] + b;
      RowsOfAppend(a[1..], b, pais);
    }
  }

  lemma {:induction false} RowsOfUniform(g: seq<GrowthRow>, d: string, pais: string)
    requires forall k :: 0 <= k < |g| ==> g[k].pais == d
    ensures RowsOf(g, pais) == if d == pais then g else []
    decreases |g|
  {
    if |g| > 0 {
      RowsOfUniform(g[1..], d, pais);
      assert g == [g[0]] + g[1..];
    }
  }

  predicate Distinct(cs: seq<string>) {
    forall i, j :: 0 <= i < j < |cs| ==> cs[i] != cs[j]
  }

  lemma DistinctInit(cs: seq<string>)
    requires |cs| > 0 && Distinct(cs)
    ensures Distinct(cs[..|cs| - 1])
    ensures cs[|cs| - 1] !in cs[..|cs| - 1]
    ensures forall c :: c in cs <==> c in cs[..|cs| - 1] || c == cs[|cs| - 1]
  {
    var init := cs[..|cs| - 1];
    assert forall i :: 0 <= i < |init| ==> init[i] == cs[i];
    assert cs == init + [cs[|cs| - 1]];
  }

  /** Countries do not mix: among the blocks of distinct countries `cs`,
      the rows labelled `pais` are exactly the block of `pais`, or none
      when `pais` is not one of them. */
  lemma {:induction false} GrowthBlocksOfCountry(rows: seq<Row>, cs: seq<string>, pais: string)
    requires Distinct(cs)
    ensures RowsOf(GrowthBlocks(rows, cs), pais) == if pais in cs then Block(rows, pais) else []
    decreases |cs|
  {
    if |cs| > 0 {
      var init, last := cs[..|cs| - 1], cs[|cs| - 1];
      DistinctInit(cs);
      GrowthBlocksOfCountry(rows, init, pais);
      RowsOfAppend(GrowthBlocks(rows, init), Block(rows, last), pais);
      RowsOfUniform(Block(rows, last), last, pais);
    }
  }

  /** For every country of the input, the output rows labelled with it
      are the growth rows of its own date-sorted rows. */
  lemma GrowthPerCountry(rows: seq<Row>, pais: string)
    ensures RowsOf(GrowthBlocks(rows, Unique(Countries(rows))), pais) ==
              if pais in Countries(rows) then CountryGrowthRows(pais, SortedCountryRows(rows, pais)) else []
  {
    assert forall c :: c in Unique(Countries(rows)) <==> c in Countries(rows);
    GrowthBlocksOfCountry(rows, Unique(Countries(rows)), pais);
  }
}
