/** labs/lab1/modulo_a.py: a table of named actions on a name, its
    dispatcher, and a discount closure. */
module ModuloA {
  import opened Wrappers

  function Saludar(nombre: string): string {
    "Hola " + nombre
  }

  function Despedir(nombre: string): string {
    "Bye " + nombre
  }

  function Aplaudir(nombre: string): string {
    "Aplausos para " + nombre
  }

  datatype Accion = SaludarA | DespedirA | AplaudirA

  /** The dictionary `acciones`. */
  const Acciones: map<string, Accion> := map["saludar" := SaludarA, "despedir" := DespedirA, "aplaudir" := AplaudirA]

  function Aplicar(a: Accion, nombre: string): string {
    match a
    case SaludarA => Saludar(nombre)
    case DespedirA => Despedir(nombre)
    case AplaudirA => Aplaudir(nombre)
  }

  /** The `KeyError` subclass raised for an unknown action name. */
  datatype AccionDesconocida = AccionDesconocida(accion: string)

  /** `ejecutar(accion, nombre)`: the greeting of a known action, and
      `AccionDesconocida` for every other name. */
  function Ejecutar(accion: string, nombre: string): (r: Result<string, AccionDesconocida>)
    ensures r.Failure? <==> accion != "saludar" && accion != "despedir" && accion != "aplaudir"
    ensures r.Failure? ==> r.error == AccionDesconocida(accion)
    ensures accion == "saludar" ==> r == Success("Hola " + nombre)
    ensures accion == "despedir" ==> r == Success("Bye " + nombre)
    ensures accion == "aplaudir" ==> r == Success("Aplausos para " + nombre)
  {
    if accion in Acciones then Success(Aplicar(Acciones[accion], nombre))
    else Failure(AccionDesconocida(accion))
  }

  /** `crear_descuento(porcentaje)`: the closure that takes `porcentaje`
      off a price. */
  function CrearDescuento(porcentaje: real): (aplicar: real -> real)
    ensures forall precio :: aplicar(precio) == precio * (1.0 - porcentaje)
  {
    precio => precio * (1.0 - porcentaje)
  }

  /** A zero discount leaves every price as it is. */
  lemma CrearDescuentoZero(precio: real)
    ensures CrearDescuento(0.0)(precio) == precio
  {
  }

  /** A discount between 0 and 1 keeps a non-negative price within
      [0, precio]. */
  lemma CrearDescuentoBounds(porcentaje: real, precio: real)
    requires 0.0 <= porcentaje <= 1.0 && precio >= 0.0
    ensures 0.0 <= CrearDescuento(porcentaje)(precio) <= precio
  {
    var d := CrearDescuento(porcentaje)(precio);
    var resto := 1.0 - porcentaje;
    assert d == precio * resto;
    assert precio * resto >= 0.0 by {
      assert resto >= 0.0;
    }
    assert precio - d == precio * porcentaje;
    assert precio * porcentaje >= 0.0;
  }
}
