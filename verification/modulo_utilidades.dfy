/** labs/lab2/modulo_utilidades.py: string utilities. Whitespace and case
    are those of `Ascii`. */
module ModuloUtilidades {
  import opened Wrappers
  import Ascii
  import Cadenas
  import Lists

  /** `texto.strip().lower()`: no surrounding whitespace, no upper case,
      and the same as lowering first and stripping afterwards. */
  function Normalizar(t: string): (r: string)
    ensures Ascii.IsStripped(r)
    ensures forall i :: 0 <= i < |r| ==> !Ascii.IsUpper(r[i])
    ensures r == Ascii.Strip(Ascii.LowerStr(t))
  {
    Ascii.StripLowerCommute(t);
    Ascii.LowerStripped(Ascii.Strip(t));
    Ascii.LowerStr(Ascii.Strip(t))
  }

  /** Normalizing a normalized text changes nothing. */
  lemma NormalizarIdempotent(t: string)
    ensures Normalizar(Normalizar(t)) == Normalizar(t)
  {
    var n := Normalizar(t);
    Ascii.StripOfStripped(n);
    assert Ascii.LowerStr(n) == n;
  }

  /** `s.replace(" ", "")`: every space goes, every other character stays,
      as often as it occurs and in its order; other whitespace stays too. */
  function QuitarEspacios(s: string): (r: string)
    ensures |r| <= |s|
    ensures forall c :: c in r <==> c in s && c != ' '
    ensures Lists.Subsequence(r, s)
    ensures forall c :: multiset(r)[c] == if c == ' ' then 0 else multiset(s)[c]
  {
    if |s| == 0 then []
    else
      var rest := QuitarEspacios(s[1..]);
      assert s == [s[0]] + s[1..];
      assert forall c :: c in s <==> c == s[0] || c in s[1..];
      if s[0] == ' ' then
        Lists.SubsequenceSkip(rest, s);
        rest
      else
        var r := [s[0]] + rest;
        assert r[1..] == rest;
        r
  }

  /** `es_palindromo`: the normalized text without spaces reads the same
      from both ends. */
  function EsPalindromo(t: string): (b: bool)
    ensures b <==> Cadenas.Mirrored(QuitarEspacios(Normalizar(t)))
  {
    var l := QuitarEspacios(Normalizar(t));
    Cadenas.InvertirFixed(l);
    l == Cadenas.Invertir(l)
  }

  /** The `ValueError` of `cortar`. */
  datatype CortarError = NoPositivo(n: int)

  /** `cortar`: fails exactly when `n <= 0`; otherwise the prefix of
      length min(n, |texto|). */
  function Cortar(texto: string, n: int): (r: Result<string, CortarError>)
    ensures r.Failure? <==> n <= 0
    ensures r.Failure? ==> r.error == NoPositivo(n)
    ensures r.Success? ==> |r.value| == (if n < |texto| then n else |texto|)
    ensures r.Success? ==> r.value <= texto
  {
    if n <= 0 then Failure(NoPositivo(n))
    else if n <= |texto| then Success(texto[..n])
    else Success(texto)
  }

  /** `sub` occurs in `texto` starting at index `i`. */
  predicate OccursAt(texto: string, sub: string, i: int) {
    0 <= i && i + |sub| <= |texto| && texto[i..i + |sub|] == sub
  }

  /** `buscar`: `texto.find(sub)`, with `None` for `-1`. Returns the first
      index at which `sub` occurs, and `None` exactly when it occurs
      nowhere. */
  method Buscar(texto: string, sub: string) returns (r: Option<nat>)
    ensures r.Some? ==> OccursAt(texto, sub, r.value)
    ensures r.Some? ==> forall j :: 0 <= j < r.value ==> !OccursAt(texto, sub, j)
    ensures r.None? <==> forall j :: !OccursAt(texto, sub, j)
  {
    if |sub| > |texto| {
      return None;
    }
    var i := 0;
    while i + |sub| <= |texto|
      invariant 0 <= i <= |texto| - |sub| + 1
      invariant forall j :: 0 <= j < i ==> !OccursAt(texto, sub, j)
    {
      if texto[i..i + |sub|] == sub {
        return Some(i);
      }
      i := i + 1;
    }
    return None;
  }
}
