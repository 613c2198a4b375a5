/** labs/lab1/modulo_b.py: parsing a list of integers while collecting the
    failures, and a total that raises on invalid arguments. */
module ModuloB {
  import opened Wrappers
  import Numerals

  /** The message `pos {idx}: '{s}' no es entero`, by its two parts. */
  datatype ParseError = ParseError(pos: nat, entrada: string)

  /** `int(s)` of every entry. */
  function Results(entradas: seq<string>): (rs: seq<Option<int>>)
    ensures |rs| == |entradas|
    ensures forall i :: 0 <= i < |rs| ==> rs[i] == Numerals.ParseInt(entradas[i])
  {
    seq(|entradas|, i requires 0 <= i < |entradas| => Numerals.ParseInt(entradas[i]))
  }

  /** The accepted values among the parse results `rs`, in order. */
  function Successes(rs: seq<Option<int>>): (vs: seq<int>)
    ensures |vs| <= |rs|
  {
    if |rs| == 0 then []
    else
      var init := Successes(rs[..|rs| - 1]);
      match rs[|rs| - 1]
      case Some(v) => init + [v]
      case None => init
  }

  /** The number of rejected entries among the parse results `rs`. */
  function FailureCount(rs: seq<Option<int>>): (n: nat)
    ensures n <= |rs|
  {
    if |rs| == 0 then 0
    else FailureCount(rs[..|rs| - 1]) + (if rs[|rs| - 1].None? then 1 else 0)
  }

  /** Every entry is either a value or an error. */
  lemma {:induction false} SuccessesAndFailures(rs: seq<Option<int>>)
    ensures |Successes(rs)| + FailureCount(rs) == |rs|
    decreases |rs|
  {
    if |rs| > 0 {
      SuccessesAndFailures(rs[..|rs| - 1]);
    }
  }

  /** `parsear_enteros`: the parsed values in input order and one error per
      rejected entry, recording its position, in increasing position
      order. */
  method ParsearEnteros(entradas: seq<string>) returns (valores: seq<int>, errores: seq<ParseError>)
    ensures valores == Successes(Results(entradas))
    ensures |valores| + |errores| == |entradas|
    ensures forall k :: 0 <= k < |errores| ==>
              && errores[k].pos < |entradas|
              && errores[k].entrada == entradas[errores[k].pos]
              && Numerals.ParseInt(entradas[errores[k].pos]).None?
    ensures forall k, m :: 0 <= k < m < |errores| ==> errores[k].pos < errores[m].pos
    ensures forall i :: 0 <= i < |entradas| && Numerals.ParseInt(entradas[i]).None? ==>
              exists k :: 0 <= k < |errores| && errores[k].pos == i
  {
    var rs := Results(entradas);
    valores, errores := Partition(entradas, rs);
  }

  /** `errores` records, in increasing position order, exactly the
      rejected entries among the first `n`. */
  ghost predicate ErrorsUpTo(entradas: seq<string>, rs: seq<Option<int>>, errores: seq<ParseError>, n: nat)
    requires |rs| == |entradas| && n <= |rs|
  {
    && (forall k :: 0 <= k < |errores| ==>
          && errores[k].pos < n
          && errores[k].entrada == entradas[errores[k].pos]
          && rs[errores[k].pos].None?)
    && (forall k, m :: 0 <= k < m < |errores| ==> errores[k].pos < errores[m].pos)
    && (forall i :: 0 <= i < n && rs[i].None? ==> exists k :: 0 <= k < |errores| && errores[k].pos == i)
  }

  /** One step of the loop keeps `ErrorsUpTo`. */
  lemma ErrorsStep(entradas: seq<string>, rs: seq<Option<int>>, errores: seq<ParseError>, n: nat)
    requires |rs| == |entradas| && n < |rs|
    requires ErrorsUpTo(entradas, rs, errores, n)
    ensures ErrorsUpTo(entradas, rs, if rs[n].None? then errores + [ParseError(n, entradas[n])] else errores, n + 1)
  {
    if rs[n].None? {
      var next := errores + [ParseError(n, entradas[n])];
      forall i | 0 <= i <= n && rs[i].None?
        ensures exists k :: 0 <= k < |next| && next[k].pos == i
      {
        if i == n {
          assert next[|errores|].pos == i;
        } else {
          var k :| 0 <= k < |errores| && errores[k].pos == i;
          assert next[k].pos == i;
        }
      }
    }
  }

  /** The loop of `parsear_enteros`, over the entries and their parse
      results. */
  method Partition(entradas: seq<string>, rs: seq<Option<int>>) returns (valores: seq<int>, errores: seq<ParseError>)
    requires |rs| == |entradas|
    ensures valores == Successes(rs)
    ensures |valores| + |errores| == |entradas|
    ensures forall k :: 0 <= k < |errores| ==>
              && errores[k].pos < |entradas|
              && errores[k].entrada == entradas[errores[k].pos]
              && rs[errores[k].pos].None?
    ensures forall k, m :: 0 <= k < m < |errores| ==> errores[k].pos < errores[m].pos
    ensures forall i :: 0 <= i < |rs| && rs[i].None? ==> exists k :: 0 <= k < |errores| && errores[k].pos == i
  {
    valores := [];
    errores := [];
    var idx := 0;
    while idx < |rs|
      invariant 0 <= idx <= |rs|
      invariant valores == Successes(rs[..idx])
      invariant |errores| == FailureCount(rs[..idx])
      invariant ErrorsUpTo(entradas, rs, errores, idx)
    {
      assert rs[..idx + 1][..idx] == rs[..idx];
      ErrorsStep(entradas, rs, errores, idx);
      if rs[idx].Some? {
        valores := valores + [rs[idx].value];
      } else {
        errores := errores + [ParseError(idx, entradas[idx])];
      }
      idx := idx + 1;
    }
    assert rs[..|rs|] == rs;
    SuccessesAndFailures(rs);
  }

  /** The two exceptions `calcular_total` raises. */
  datatype TotalError = CantidadInvalida | PrecioNegativo

  /** `calcular_total`: a non-positive quantity is `CantidadInvalida`,
      whatever the price; otherwise a negative price is a `ValueError`;
      otherwise the total, which is non-negative and divided by the
      quantity gives the unit price back. */
  function CalcularTotal(precioUnitario: real, cantidad: int): (r: Result<real, TotalError>)
    ensures r == Failure(CantidadInvalida) <==> cantidad <= 0
    ensures r == Failure(PrecioNegativo) <==> cantidad > 0 && precioUnitario < 0.0
    ensures r.Success? ==> r.value >= 0.0 && r.value / cantidad as real == precioUnitario
  {
    if cantidad <= 0 then Failure(CantidadInvalida)
    else if precioUnitario < 0.0 then Failure(PrecioNegativo)
    else Success(precioUnitario * cantidad as real)
  }
}
