/** labs/lab2/moduloextras/numeros.py: parity, factorial and the vowel count
    of a number's decimal rendering. */
module Numeros {
  import opened Wrappers
  import Ascii
  import Numerals
  import Cadenas

  /** `n % 2 == 0`. Python's `%` takes the sign of the divisor, so with the
      divisor 2 it agrees with Dafny's non-negative remainder. */
  predicate EsPar(n: int) {
    n % 2 == 0
  }

  /** Parity repeats with period two and alternates between neighbours. */
  lemma EsParPeriodic(n: int)
    ensures EsPar(n) == EsPar(n + 2)
    ensures EsPar(n) != EsPar(n + 1)
  {
  }

  /** The `ValueError` raised for a negative argument. */
  datatype FactorialError = NegativeArgument(n: int)

  /** `factorial`: fails exactly on negative arguments; otherwise at least
      one, and one at zero. */
  function Factorial(n: int): (r: Result<int, FactorialError>)
    ensures r.Failure? <==> n < 0
    ensures r.Failure? ==> r.error == NegativeArgument(n)
    ensures r.Success? ==> r.value >= 1
    ensures n == 0 ==> r == Success(1)
    decreases if n < 0 then 0 else n
  {
    if n < 0 then Failure(NegativeArgument(n))
    else if n == 0 then Success(1)
    else Success(n * Factorial(n - 1).value)
  }

  /** The recurrence of the source, for every positive argument. */
  lemma FactorialStep(n: int)
    requires n > 0
    ensures Factorial(n).value == n * Factorial(n - 1).value
  {
  }

  /** `n!` is a multiple of every `k` in 1..n: `q` is the quotient. */
  lemma {:induction false} FactorialDivisible(n: int, k: int) returns (q: int)
    requires 1 <= k <= n
    ensures Factorial(n).value == k * q
    decreases n
  {
    var p := Factorial(n - 1).value;
    assert Factorial(n).value == n * p;
    if k == n {
      q := p;
    } else {
      var q' := FactorialDivisible(n - 1, k);
      q := n * q';
      calc {
        n * p;
        n * (k * q');
        k * (n * q');
      }
    }
  }

  /** `usar_contar_vocales_en_numero`: the vowels of `str(n)`, of which
      there are none, since a rendering holds only digits and a sign. */
  function UsarContarVocalesEnNumero(n: int): (r: nat)
    ensures r == Cadenas.ContarVocales(Numerals.IntToString(n))
    ensures r == 0
  {
    var s := Numerals.IntToString(n);
    assert forall i :: 0 <= i < |s| ==> Ascii.Lower(s[i]) == s[i] && s[i] !in Cadenas.Vocales;
    Cadenas.ContarVocales(s)
  }
}
