# COVID-19 pipeline and teaching labs, modelled in Dafny

This project models the data-analysis coursework repository in two parts.

**The COVID-19 pipeline** of `final_project/assets.py`:
- two checks on the raw table: no future dates, and the essential columns are present;
- the cleaning step `datos_procesados`: keep Ecuador and Finland, project onto the essential columns, drop rows without `new_cases`, drop repeated (country, date) rows keeping the first, and sort by (country, date);
- the 7-row rolling incidence per 100 000 inhabitants;
- the week-over-week growth factor, with an explicit infinity;
- the range check on the incidence.

A table is a list of column names plus a sequence of `Row` records. Cells are `Option` values, and dates are day numbers. A missing column is absent from the column list. Where pandas would raise `KeyError`, the model returns a `Result` failure.

**The small lab modules**:
- CSV header and row validation (`labs/lab5/csv_checks.py`);
- string utilities (`labs/lab2`);
- parity and factorial;
- integer-list parsing and a guarded total (`labs/lab1/modulo_b.py`);
- division and addition (`labs/lab3`, `labs/lab5`);
- a decorator that rejects non-positive arguments (`labs/lab1/modulo_c.py`);
- an action dispatch table and a discount closure (`labs/lab1/modulo_a.py`).

Shared modules:
- `Wrappers`: `Option` and `Result`.
- `Ascii`: whitespace, case, `strip` and lexicographic string order.
- `Numerals`: `int()`, `float()` and `str()` on decimal numerals.
- `Lists`: order-preserving selection from a list of names.

Numbers are exact: `int` is unbounded and `float` is `real`.

Where the code and its descriptions differ, the model follows the code:
- The key column is `country`, not `location`.
- Only two input checks exist, `check_fechas_validas` and `check_columnas_esenciales`.
- Only rows with an empty `new_cases` are dropped. An empty `people_vaccinated` stays.
- The steps run in this order: filter, project, drop nulls, deduplicate, sort.
- The countries kept are Ecuador and Finland. The docstring at assets.py:70 says Perú, but the filter does not.
- The incidence of an empty table that has the needed columns is a table with the three output columns and no rows. It is not the column-less empty frame returned when a column is missing.
- The rolling window runs over each country's rows in table order. After `datos_procesados` this is date order.

## Model

| member | source | states |
|---|---|---|
| CovidChecks.FutureRows | final_project/assets.py:30 | the selected rows are all dated after `today` and are drawn from the input |
| CovidChecks.FutureRowsComplete | final_project/assets.py:30 | every row dated after `today` is selected, so none is selected iff every date is at most `today` |
| CovidChecks.FutureRowsAppend | final_project/assets.py:30-31 | selecting the future rows distributes over concatenation, so the count adds up over a split of the table |
| CovidChecks.CheckFechasValidas | final_project/assets.py:19-39 | fails with "column missing" and no count when there is no `date` column; otherwise reports the number of future rows as count and in the description, and passes iff no row is dated after `today` |
| CovidChecks.CheckColumnasEsenciales | final_project/assets.py:41-61 | passes iff `country`, `date` and `population` are all columns; on failure lists exactly the missing ones, in the order of the required list; on success reports the verified list |
| CovidChecks.OutOfRangeRows | final_project/assets.py:175-178 | the selected rows all have incidence below 0 or above 2000 and are drawn from the input |
| CovidChecks.OutOfRangeRowsComplete | final_project/assets.py:175-178 | every row with incidence outside [0, 2000] is selected, so none is selected iff all lie in [0, 2000] |
| CovidChecks.CheckIncidenciaRangoValido | final_project/assets.py:167-190 | fails without a count on an empty table or a missing `incidencia_7d` column; otherwise reports the out-of-range count and passes iff every value lies in [0, 2000] |
| Lists.SelectColumns | final_project/assets.py:47 | keeps exactly the names whose presence among the columns is as asked, as a subsequence of the names (in their order) |
| Lists.SubsequenceMembers | final_project/assets.py:81 | every element of a subsequence is an element of the whole list |
| CovidTable.SortRows | final_project/assets.py:94 | the result is sorted by (country, date) and is a permutation of the input; it is strictly sorted when no two input rows share a key |
| CovidTable.SortRowsSorted | final_project/assets.py:94 | sorting an already sorted sequence changes nothing |
| CovidTable.KeyLeTotal | final_project/assets.py:94 | any two rows are comparable in the (country, date) order |
| Ascii.StrLtIrreflexive | final_project/assets.py:94 | no string sorts before itself |
| CovidCleaning.FilterCountries | final_project/assets.py:75-77 | the kept rows are exactly the Ecuador and Finland rows, drawn from the input |
| CovidCleaning.ProjectRow | final_project/assets.py:79-82 | keeps the key; reading any column of the projected row gives the original cell when the column is selected and an empty cell otherwise |
| CovidCleaning.ProjectIdempotent | final_project/assets.py:79-82 | selecting the same columns twice is selecting them once, and selecting all three numeric columns leaves every row unchanged |
| CovidCleaning.SameCells | final_project/assets.py:79-82 | a row is determined by its key and its three numeric cells |
| CovidCleaning.Project | final_project/assets.py:82 | projects every row, one for one |
| CovidCleaning.DropNullNewCases | final_project/assets.py:84-88 | the kept rows are exactly those with a `new_cases` value, drawn from the input |
| CovidCleaning.FirstWithKey | final_project/assets.py:91 | finds a row with the given key, and finds none iff no row has it |
| CovidCleaning.HasKeyCons | final_project/assets.py:91 | a key occurs in a list with a head row iff it is the head's key or occurs in the rest |
| CovidCleaning.DedupFromDistinct | final_project/assets.py:91 | no two rows kept by deduplication share a key, and none has an already-seen key |
| CovidCleaning.DedupFromFirst | final_project/assets.py:91 | every kept row is the first row of the input with its key |
| CovidCleaning.DedupFromComplete | final_project/assets.py:91 | every key of the input that was not already seen is kept |
| CovidCleaning.DedupFromSubMultiset | final_project/assets.py:91 | deduplication only removes rows |
| CovidCleaning.DedupFromSpec | final_project/assets.py:91 | the four properties above together |
| CovidCleaning.Kept | final_project/assets.py:75-88 | every row left before deduplication is of Ecuador or Finland, with a `new_cases` value when that column exists |
| CovidCleaning.DatosProcesados | final_project/assets.py:67-96 | raises `KeyError('date')` without a `date` column, else `KeyError('country')` without a `country` column; otherwise the columns are the present essential ones, every row is of a kept country with `new_cases` when that column exists, and rows are strictly increasing in (country, date) |
| CovidCleaning.FirstWithKeyKept | final_project/assets.py:75-91 | deduplicating the filtered rows picks, for each key, the projection of the first eligible raw row |
| CovidCleaning.OutputRowsAreFirst | final_project/assets.py:75-94 | every output row is the projection of the first eligible raw row with its key |
| CovidCleaning.EligibleKeysKept | final_project/assets.py:75-94 | the key of every raw row of a kept country with `new_cases` appears in the output |
| CovidCleaning.KeyKeptThroughDedup | final_project/assets.py:91-94 | a key present before deduplication is still present after deduplication and sorting |
| CovidCleaning.DatosProcesadosKeepsFirst | final_project/assets.py:67-96 | every output row is the projection of the first eligible raw row with its key, and every eligible raw row's key appears in the output |
| CovidMetrics.LastN | final_project/assets.py:117 | the window is the last seven values of the series, in order, or the whole series when it is shorter |
| CovidMetrics.LastNAppend | final_project/assets.py:116-118 | sliding a kept window by one value equals taking the window of the extended series |
| CovidMetrics.WindowsStep | final_project/assets.py:116-118 | after each row, the kept window of every country is the last seven of its daily incidences so far, and its mean is that row's rolling value |
| CovidMetrics.IncidenceLoop | final_project/assets.py:110-118 | the one-pass, per-country sliding-window computation equals the reference: each row's value is the mean of its country's daily incidences at its last (up to) seven rows |
| CovidMetrics.MetricaIncidencia7d | final_project/assets.py:102-126 | empty frame when `new_cases` or `population` is missing; `KeyError` for a missing `country`, then for a missing `date`; otherwise columns (fecha, pais, incidencia_7d) and one row per input row with its rolling 7-row incidence |
| CovidMetrics.Rolling7MinPeriods | final_project/assets.py:117 | for a country's first rows the value is the mean over the rows seen so far |
| CovidMetrics.SumBounds | final_project/assets.py:117 | a sum of n values in [lo, hi] lies in [n·lo, n·hi] |
| CovidMetrics.MeanBounds | final_project/assets.py:117 | a mean lies within the bounds of its values |
| CovidMetrics.SeriesBounds | final_project/assets.py:113-116 | bounds on every daily incidence hold for every element of a country's series |
| CovidMetrics.RollingBounds | final_project/assets.py:113-118 | a rolling value lies within any bounds that hold for every daily incidence |
| CovidMetrics.IncidenceWithinRange | final_project/assets.py:113-118 | when every daily incidence is in [0, 2000], so is every rolling value |
| CovidMetrics.IncidenceCheckPasses | final_project/assets.py:167-190 | on a non-empty incidence table whose daily incidences all lie in [0, 2000], the range check passes with zero rows out of range |
| CovidMetrics.IncidenceTwoDays | final_project/assets.py:113-118 | two Ecuador rows of 100 and 200 cases in a population of one million give 10.0 and 15.0 |
| CovidMetrics.RollingTwoRows | final_project/assets.py:116-117 | for two rows of one country, the first rolling value is the first daily incidence and the second is the mean of both |
| CovidMetrics.CasesSumAppend | final_project/assets.py:145-149 | the weekly case sum adds up over adjacent slices; empty cells count as zero |
| CovidMetrics.GrowthFactor | final_project/assets.py:152 | the factor is infinite iff the previous week's sum is not positive; otherwise it times the previous sum gives the current sum |
| CovidMetrics.GrowthWeeksAdjacent | final_project/assets.py:143-149 | the current week (rows i-6..i) and previous week (rows i-13..i-7) are seven rows each, disjoint and adjacent, and together sum to the fourteen rows ending at i |
| CovidMetrics.CountryGrowth | final_project/assets.py:141-159 | the loop from index 7 emits exactly max(0, n-13) rows, one per index 13..n-1, each with that index's weekly sum and factor |
| CovidMetrics.GrowthStep | final_project/assets.py:143-159 | at each index from 13 on, the loop appends one row: that index's date, the current week's sum and the factor against the previous week |
| CovidMetrics.CountryGrowthRows | final_project/assets.py:154-159 | every row of a country's block carries that country's name |
| CovidMetrics.CountryRows | final_project/assets.py:141 | the selected rows all belong to the country and are drawn from the input |
| CovidMetrics.CountryRowsCount | final_project/assets.py:141 | every row of the country is selected exactly as many times as it occurs in the input, and no other row is |
| CovidMetrics.Unique | final_project/assets.py:140 | each country once, exactly the countries of the input, in order of first appearance |
| CovidMetrics.FirstAppearanceStep | final_project/assets.py:140 | appending a value keeps the list of distinct values in order of first appearance |
| CovidMetrics.Block | final_project/assets.py:141-159 | the output block of a country carries only that country's name |
| CovidMetrics.GrowthLoop | final_project/assets.py:138-161 | the outer loop concatenates the blocks of the countries in the order given |
| CovidMetrics.MetricaFactorCrec7d | final_project/assets.py:128-161 | empty without `new_cases`; `KeyError` without `country`; without `date` raises iff there is a row; otherwise the blocks of all countries, in order of first appearance |
| CovidMetrics.RowsOf | final_project/assets.py:154-159 | the selected growth rows all carry the given country |
| CovidMetrics.RowsOfAppend | final_project/assets.py:138-161 | selecting one country's growth rows distributes over concatenation |
| CovidMetrics.GrowthPerCountry | final_project/assets.py:138-161 | the output rows labelled with a country are exactly that country's block, computed from its own date-sorted rows, and none for a country absent from the input |
| CsvChecks.SortedRequiredSorted | labs/lab5/csv_checks.py:12-16 | the required columns in `sorted` order are strictly ascending and are the same four names |
| CsvChecks.CheckRequiredColumns | labs/lab5/csv_checks.py:12-16 | `True` iff every required column is a field name, with `None` meaning no field names; otherwise the missing required names, strictly ascending |
| CsvChecks.ParseRow | labs/lab5/csv_checks.py:22-24 | a row parses iff all four keys are present, `id` and `edad` are integer texts and `ingreso` is a float text; the name is taken as it is |
| CsvChecks.ParseRowRoundTrip | labs/lab5/csv_checks.py:22 | a row written out from an id, an age, a whole income and a name parses back to those values |
| CsvChecks.IdsOf | labs/lab5/csv_checks.py:19-26 | the seen ids are exactly the ids of the earlier rows that parsed |
| CsvChecks.RowCheck | labs/lab5/csv_checks.py:22-29 | a row passes iff it parses, its id is new, its age and income are non-negative and its name is non-empty; each error is reported only when every earlier check in the order parse, duplicate, age, income, name has passed |
| CsvChecks.DuplicateIffEarlier | labs/lab5/csv_checks.py:19-26 | a row is rejected as a duplicate of id x iff it parses with id x and some earlier parsed row has id x |
| CsvChecks.ValidateParsed | labs/lab5/csv_checks.py:18-30 | the loop succeeds iff every row passes; otherwise it reports the first failing row (1-based), all earlier rows having passed, and the first check that row fails |
| CsvChecks.ValidateRows | labs/lab5/csv_checks.py:18-30 | `validate_rows` on text rows: the same verdict on the rows' parse results |
| ModuloUtilidades.Normalizar | labs/lab2/modulo_utilidades.py:6-7 | no surrounding whitespace and no upper case; the same as lowering first and stripping after |
| ModuloUtilidades.NormalizarIdempotent | labs/lab2/modulo_utilidades.py:6-7 | normalizing twice is normalizing once |
| ModuloUtilidades.QuitarEspacios | labs/lab2/modulo_utilidades.py:10 | the result is a subsequence of the text with no space, and holds every other character as many times as the text does |
| ModuloUtilidades.EsPalindromo | labs/lab2/modulo_utilidades.py:9-11 | true iff the normalized text without spaces mirrors around its middle |
| ModuloUtilidades.Cortar | labs/lab2/modulo_utilidades.py:13-16 | fails iff n <= 0; otherwise a prefix of the text of length min(n, length) |
| ModuloUtilidades.Buscar | labs/lab2/modulo_utilidades.py:18-20 | returns an index where `sub` occurs with no earlier occurrence, and `None` iff `sub` occurs nowhere |
| Cadenas.Invertir | labs/lab2/moduloextras/cadenas.py:5-6 | same length, character i is character n-1-i of the input |
| Cadenas.InvertirInvolution | labs/lab2/moduloextras/cadenas.py:5-6 | reversing twice gives the string back |
| Cadenas.InvertirFixed | labs/lab2/modulo_utilidades.py:11 | a string equals its reverse iff it mirrors around its middle |
| Cadenas.InvertirAppend | labs/lab2/moduloextras/cadenas.py:5-6 | the reverse of a concatenation is the concatenation of the reverses, swapped |
| Cadenas.VowelCount | labs/lab2/moduloextras/cadenas.py:9 | at most the length, and zero iff no character is a vowel |
| Cadenas.VowelCountAppend | labs/lab2/moduloextras/cadenas.py:9 | the vowel count adds up over concatenation |
| Cadenas.ContarVocales | labs/lab2/moduloextras/cadenas.py:8-9 | between 0 and the length, and zero iff no character lowers to a vowel |
| Cadenas.ContarVocalesAppend | labs/lab2/moduloextras/cadenas.py:8-9 | additive over concatenation |
| Cadenas.ContarVocalesInvertir | labs/lab2/moduloextras/cadenas.py:5-9 | reversing does not change the count |
| Numeros.EsParPeriodic | labs/lab2/moduloextras/numeros.py:6-7 | parity repeats with period two and alternates between neighbours |
| Numeros.Factorial | labs/lab2/moduloextras/numeros.py:9-14 | fails iff n < 0; otherwise at least 1, and 1 at 0 |
| Numeros.FactorialStep | labs/lab2/moduloextras/numeros.py:14 | for n > 0, n! = n · (n-1)! |
| Numeros.FactorialDivisible | labs/lab2/moduloextras/numeros.py:9-14 | n! is a multiple of every k in 1..n |
| Numeros.UsarContarVocalesEnNumero | labs/lab2/moduloextras/numeros.py:16-18 | is the vowel count of the decimal rendering, and is always 0 |
| Numerals.NatToString | labs/lab2/moduloextras/numeros.py:18 | `str(n)` for n >= 0: non-empty digits, no leading zero, denoting n |
| Numerals.IntToString | labs/lab2/moduloextras/numeros.py:18 | `str(n)` holds only digits and a minus sign and ends in a digit |
| Numerals.ParseSignedDigits | labs/lab1/modulo_b.py:12 | accepts exactly the integer texts: a digit or sign first, digits after, at least one digit; only a leading '-' gives a negative value |
| Numerals.ParseInt | labs/lab1/modulo_b.py:12 | `int(s)` succeeds iff the stripped text is an integer text; a negative result comes from a leading '-' |
| Numerals.ParseIntPadded | labs/lab1/modulo_b.py:12 | whitespace around an integer text does not change what `int` reads |
| Numerals.IntRoundTrip | labs/lab1/modulo_b.py:12 | `int(str(n)) == n` |
| Numerals.UnsignedDecimalAccepts | labs/lab5/csv_checks.py:22 | an unsigned decimal reads iff it is digits with at most one '.' and at least one digit |
| Numerals.ParseSignedDecimal | labs/lab5/csv_checks.py:22 | accepts exactly an optional sign followed by a decimal text; only a leading '-' gives a negative value |
| Numerals.ParseReal | labs/lab5/csv_checks.py:22 | `float(s)` succeeds iff the stripped text is an optional sign followed by a decimal text; a negative result comes from a leading '-' |
| Numerals.IntParseIsRealParse | labs/lab5/csv_checks.py:22 | every text `int` accepts, `float` accepts with the same value |
| ModuloB.SuccessesAndFailures | labs/lab1/modulo_b.py:10-15 | every entry is either a value or an error |
| ModuloB.ParsearEnteros | labs/lab1/modulo_b.py:7-15 | values are the accepted entries in order; |values| + |errors| = |entries|; each error records the position and text of a rejected entry; positions strictly increase; every rejected entry is reported |
| ModuloB.Partition | labs/lab1/modulo_b.py:10-14 | the loop over entries and parse results, with the same guarantees |
| ModuloB.CalcularTotal | labs/lab1/modulo_b.py:21-26 | `CantidadInvalida` iff quantity <= 0, whatever the price; `ValueError` iff quantity > 0 and price < 0; otherwise a non-negative total that divided by the quantity gives the price |
| ModSimple.NormalizeText | labs/lab5/mod_simple.py:4-5 | stripped, no upper case, the same as `normalizar` |
| ModSimple.NormalizeTextExamples | labs/lab5/tests/test_mod_simple.py:4-6 | `'  Hola  '` gives `'hola'` and `'PYTHON '` gives `'python'` |
| ModSimple.TakeWord | labs/lab5/mod_simple.py:8 | the longest whitespace-free prefix |
| ModSimple.Words | labs/lab5/mod_simple.py:8 | `split()` yields only non-empty words |
| ModSimple.RunStartsInWord | labs/lab5/mod_simple.py:8 | the rest of a word starts no new run |
| ModSimple.WordsCountRuns | labs/lab5/mod_simple.py:8 | `split()` yields one word per maximal run of non-whitespace |
| ModSimple.WordCount | labs/lab5/mod_simple.py:7-8 | 0 iff the stripped text is empty; always the number of maximal runs of non-whitespace |
| ModSimple.WordCountExamples | labs/lab5/tests/test_mod_simple.py:8-11 | 0 for `''` and `'   '`, 3 for `'uno dos tres'` |
| ModSimple.Dividir | labs/lab5/mod_simple.py:10-12 | fails iff b = 0; otherwise the quotient times b is a |
| ModSimple.DividirExamples | labs/lab5/tests/test_mod_simple.py:13-19 | 10/2 = 5.0, 7/2 = 3.5, and 1/0 fails |
| Operaciones.Sumar | labs/lab3/src/operaciones.py:20-22 | subtracting b from the sum gives a |
| Operaciones.SumarExamples | labs/lab3/tests/test_operaciones.py:4-6 | `sumar(2,5) == 7` and `sumar(-1,1) == 0` |
| Operaciones.Dividir | labs/lab3/src/operaciones.py:24-28 | fails iff b = 0, and then with the division error rather than a value; otherwise the quotient times b is a |
| Operaciones.DividirExamples | labs/lab3/tests/test_operaciones.py:8-13 | `dividir(9,3) == 3` and `dividir(1,0)` fails |
| ModuloC.EsNumero | labs/lab1/modulo_c.py:7-8 | true exactly for int and float values, never for a bool |
| ModuloC.FirstRejected | labs/lab1/modulo_c.py:14-19 | the first numeric value <= 0, with none before it |
| ModuloC.RequierePositivos | labs/lab1/modulo_c.py:10-19 | rejects iff some numeric positional or keyword argument is <= 0; positional arguments are scanned first; the first offender is reported |
| ModuloC.NonNumbersAccepted | labs/lab1/modulo_c.py:7-18 | bools and non-numbers never cause a rejection |
| ModuloC.CalcularDescuento | labs/lab1/modulo_c.py:23-26 | fails on the first non-positive argument; otherwise `precio * (1 - porcentaje)` |
| ModuloC.CalcularDescuentoBounds | labs/lab1/modulo_c.py:23-26 | an accepted discount of at most 100% gives a price in [0, precio) |
| ModuloC.Escala | labs/lab1/modulo_c.py:28-30 | fails on the first non-positive argument; otherwise the positive product |
| ModuloA.Ejecutar | labs/lab1/modulo_a.py:8-31 | `saludar`, `despedir` and `aplaudir` give "Hola ", "Bye " and "Aplausos para " followed by the name; any other key fails with `AccionDesconocida` |
| ModuloA.CrearDescuentoZero | labs/lab1/modulo_a.py:34-41 | a zero discount is the identity |
| ModuloA.CrearDescuentoBounds | labs/lab1/modulo_a.py:36-40 | for a fraction in [0, 1] and a non-negative price, the result lies in [0, precio] |
| Ascii.Strip | labs/lab2/modulo_utilidades.py:7 | `strip()`: the result neither starts nor ends with whitespace, is obtained by removing only surrounding whitespace, and is empty iff the text is all whitespace |
| Ascii.StripPadded | labs/lab5/mod_simple.py:5 | stripping whitespace padding around a stripped text gives that text |
| Ascii.StripLowerCommute | labs/lab2/modulo_utilidades.py:7 | stripping and lowering commute |
| Ascii.LowerStr | labs/lab2/modulo_utilidades.py:7 | `lower()` keeps the length and leaves no upper-case letter |

## Left out

- `leer_datos` and `reporte_excel_covid` read a CSV file and write an Excel file. The model starts from a table value and ends at the metric tables.
- The Dagster decorators and `AssetCheckResult` metadata. Each check returns a plain record: passed, a description datatype (one variant per message) and the reported count.
- The in-place conversion of the `date` column at assets.py:27 and `pd.to_datetime` parsing. Dates are already ordered day numbers.
- `pd.Timestamp.now()`. The current day is the parameter `today`.
- CovidMetrics.MetricaIncidencia7d: requires every row to have `new_cases` and a positive `population` when both columns exist. The source then divides floats and yields NaN or infinity, which the model does not represent.
- Floating-point rounding everywhere. The model divides and multiplies exactly on `real`. `np.inf` is the `Infinite` variant of `Factor`.
- CovidMetrics.MetricaFactorCrec7d: per-country rows are ordered by the stable insertion sort `SortRows`. The sort in pandas is not stable, so rows with equal (country, date) may come out in another order. After `datos_procesados` there are no such rows.
- An empty frame is an empty column list with no rows. Growth results are a plain sequence of rows.
- `str.strip`, `str.lower` and `str.split` are modelled on ASCII whitespace and letters only.
- `int()` accepts optional surrounding whitespace, a sign and ASCII digits. `float()` also accepts a decimal point. Underscores, exponents, `inf` and `nan` are not modelled.
- CsvChecks.ValidateRows: takes rows as maps from column name to text. The empty-cell value `None` that the CSV reader gives short rows is not modelled, so a missing cell counts as a missing key. `load_rows` is file I/O.
- ModuloB.ParsearEnteros: an error is the pair (position, entry), not the formatted message text. `int()` is unbounded here; from Python 3.11 on it raises `ValueError` for a text of more than 4300 digits, which the model accepts.
- Numeros.Factorial: the recursion is unbounded here; Python raises `RecursionError` for `n` near its default recursion limit of 1000.
- ModuloC.CalcularDescuento and ModuloC.Escala: modelled for positional calls with numeric arguments. Keyword calls and non-number arguments do not fail in Python (`calcular_descuento(precio=100, porcentaje=0.2)` is 80.0 and `calcular_descuento(True, 0.5)` is 0.5, since a bool is not checked), but these two members do not cover them. The general check `RequierePositivos` takes any positional and keyword arguments, bools included.
- ModuloA.Ejecutar: modelled for calls with the single name argument. A wrong number of arguments raises `TypeError` in Python, which is not modelled.
- Demo drivers (`labs/lab1/main.py`, `labs/lab2/usar_*.py`, `labs/lab3/src/main.py`), `final_project/exploracion_inicial.py` and the lab4 scripts. They only print, or call DuckDB, pandas and the filesystem.
