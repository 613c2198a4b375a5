/** labs/lab1/modulo_c.py: a decorator that rejects non-positive numeric
    arguments, applied to a discount and a scaling function. Python values
    are the `Value` datatype; numbers are exact reals. */
module ModuloC {
  import opened Wrappers

  /** A Python argument value. `BoolV` is separate from `IntV` although
      Python's `bool` is a subclass of `int`; `Other` stands for every
      value that is neither a number nor a bool. */
  datatype Value = IntV(i: int) | FloatV(x: real) | BoolV(b: bool) | Other

  /** `isinstance(x, (int, float))`, which holds for bools as well. */
  predicate IsInstanceIntOrFloat(x: Value) {
    x.IntV? || x.FloatV? || x.BoolV?
  }

  /** `_es_numero`: true for int and float values only, never for a bool. */
  function EsNumero(x: Value): (b: bool)
    ensures b <==> x.IntV? || x.FloatV?
  {
    IsInstanceIntOrFloat(x) && !x.BoolV?
  }

  function NumberValue(x: Value): real
    requires EsNumero(x)
  {
    if x.IntV? then x.i as real else x.x
  }

  /** `_es_numero(x) and x <= 0`. */
  predicate Rejects(x: Value) {
    EsNumero(x) && NumberValue(x) <= 0.0
  }

  /** The `ValueError` the wrapper raises: the offending positional
      argument by its index, or the offending keyword argument by its
      name. */
  datatype Rechazo = Posicional(index: nat, value: Value) | PorNombre(name: string, value: Value)

  /** The index of the first rejected value, or `|vs|` when there is none. */
  function FirstRejected(vs: seq<Value>): (k: nat)
    ensures k <= |vs|
    ensures k < |vs| ==> Rejects(vs[k])
    ensures forall j :: 0 <= j < k ==> !Rejects(vs[j])
  {
    if |vs| == 0 then 0
    else if Rejects(vs[0]) then 0
    else 1 + FirstRejected(vs[1..])
  }

  function Values(kwargs: seq<(string, Value)>): (vs: seq<Value>)
    ensures |vs| == |kwargs|
    ensures forall j :: 0 <= j < |vs| ==> vs[j] == kwargs[j].1
  {
    seq(|kwargs|, j requires 0 <= j < |kwargs| => kwargs[j].1)
  }

  /** The check of `requiere_positivos`: no rejection exactly when no
      numeric argument is <= 0; the positional arguments are scanned before
      the keyword arguments, each in order, and the first offender is
      reported. */
  function RequierePositivos(args: seq<Value>, kwargs: seq<(string, Value)>): (r: Option<Rechazo>)
    ensures r.None? <==> (forall i :: 0 <= i < |args| ==> !Rejects(args[i]))
                         && (forall j :: 0 <= j < |kwargs| ==> !Rejects(kwargs[j].1))
    ensures (exists i :: 0 <= i < |args| && Rejects(args[i])) ==> r.Some? && r.value.Posicional?
    ensures r.Some? && r.value.Posicional? ==>
              && r.value.index < |args| && args[r.value.index] == r.value.value && Rejects(r.value.value)
              && forall i :: 0 <= i < r.value.index ==> !Rejects(args[i])
    ensures r.Some? && r.value.PorNombre? ==>
              exists j :: 0 <= j < |kwargs| && kwargs[j] == (r.value.name, r.value.value) && Rejects(r.value.value)
                          && forall m :: 0 <= m < j ==> !Rejects(kwargs[m].1)
  {
    var i := FirstRejected(args);
    if i < |args| then Some(Posicional(i, args[i]))
    else
      var j := FirstRejected(Values(kwargs));
      if j < |kwargs| then Some(PorNombre(kwargs[j].0, kwargs[j].1)) else None
  }

  /** Bools and non-numbers are never rejected, whatever their value. */
  lemma NonNumbersAccepted(args: seq<Value>, kwargs: seq<(string, Value)>)
    requires forall i :: 0 <= i < |args| ==> args[i].BoolV? || args[i].Other?
    requires forall j :: 0 <= j < |kwargs| ==> kwargs[j].1.BoolV? || kwargs[j].1.Other?
    ensures RequierePositivos(args, kwargs).None?
  {
  }

  /** The decorated call: the rejection, or else exactly `resultado`, the
      wrapped function's value on the same arguments. */
  function Decorado<T>(args: seq<Value>, kwargs: seq<(string, Value)>, resultado: T): (r: Result<T, Rechazo>)
    ensures r.Failure? <==> RequierePositivos(args, kwargs).Some?
    ensures r.Failure? ==> r.error == RequierePositivos(args, kwargs).value
    ensures r.Success? ==> r.value == resultado
  {
    match RequierePositivos(args, kwargs)
    case Some(e) => Failure(e)
    case None => Success(resultado)
  }

  /** `calcular_descuento(precio, porcentaje)`, called positionally: fails
      on the first non-positive argument; otherwise the discounted price. */
  function CalcularDescuento(precio: real, porcentaje: real): (r: Result<real, Rechazo>)
    ensures r.Failure? <==> precio <= 0.0 || porcentaje <= 0.0
    ensures precio <= 0.0 ==> r == Failure(Posicional(0, FloatV(precio)))
    ensures precio > 0.0 && porcentaje <= 0.0 ==> r == Failure(Posicional(1, FloatV(porcentaje)))
    ensures r.Success? ==> r.value == precio * (1.0 - porcentaje)
  {
    var args := [FloatV(precio), FloatV(porcentaje)];
    assert args[0] == FloatV(precio) && args[1] == FloatV(porcentaje);
    Decorado(args, [], precio * (1.0 - porcentaje))
  }

  /** An accepted discount of at most 100% gives a price in [0, precio). */
  lemma CalcularDescuentoBounds(precio: real, porcentaje: real)
    requires CalcularDescuento(precio, porcentaje).Success?
    requires porcentaje <= 1.0
    ensures 0.0 <= CalcularDescuento(precio, porcentaje).value < precio
  {
    var d := CalcularDescuento(precio, porcentaje).value;
    assert precio > 0.0 && porcentaje > 0.0;
    assert d == precio * (1.0 - porcentaje);
    assert precio - d == precio * porcentaje;
    assert precio * porcentaje > 0.0 by { PositiveProduct(precio, porcentaje); }
    assert d >= 0.0 by { NonNegativeProduct(precio, 1.0 - porcentaje); }
  }

  lemma NonNegativeProduct(a: real, b: real)
    requires a >= 0.0 && b >= 0.0
    ensures a * b >= 0.0
  {
  }

  lemma PositiveProduct(a: real, b: real)
    requires a > 0.0 && b > 0.0
    ensures a * b > 0.0
  {
  }

  /** `escala(valor, factor)`, called positionally: fails on the first
      non-positive argument; otherwise the product, which is positive. */
  function Escala(valor: real, factor: real): (r: Result<real, Rechazo>)
    ensures r.Failure? <==> valor <= 0.0 || factor <= 0.0
    ensures valor <= 0.0 ==> r == Failure(Posicional(0, FloatV(valor)))
    ensures valor > 0.0 && factor <= 0.0 ==> r == Failure(Posicional(1, FloatV(factor)))
    ensures r.Success? ==> r.value == valor * factor && r.value > 0.0
  {
    var args := [FloatV(valor), FloatV(factor)];
    assert args[0] == FloatV(valor) && args[1] == FloatV(factor);
    Decorado(args, [], valor * factor)
  }
}
