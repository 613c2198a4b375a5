/** labs/lab3/src/operaciones.py: addition and a division that raises on a
    zero divisor instead of returning nothing. Numbers are exact reals. */
module Operaciones {
  import opened Wrappers

  /** `sumar`: taking `b` back off the sum gives `a`. */
  function Sumar(a: real, b: real): (r: real)
    ensures r - b == a
  {
    a + b
  }

  lemma SumarExamples()
    ensures Sumar(2.0, 5.0) == 7.0
    ensures Sumar(-1.0, 1.0) == 0.0
  {
  }

  /** The `ValueError('division por cero')`. */
  datatype DivisionError = DivisionPorCero

  /** `dividir`: a zero divisor is an error, never a value; otherwise the
      quotient, which multiplied back by `b` gives `a`. */
  function Dividir(a: real, b: real): (r: Result<real, DivisionError>)
    ensures r.Failure? <==> b == 0.0
    ensures r.Failure? ==> r.error == DivisionPorCero
    ensures r.Success? ==> r.value * b == a
  {
    if b == 0.0 then Failure(DivisionPorCero) else Success(a / b)
  }

  lemma DividirExamples()
    ensures Dividir(9.0, 3.0) == Success(3.0)
    ensures Dividir(1.0, 0.0) == Failure(DivisionPorCero)
  {
  }
}
