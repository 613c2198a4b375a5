/** labs/lab2/moduloextras/cadenas.py: reversing a string and counting its
    vowels. */
module Cadenas {
  import Ascii

  /** `texto[::-1]`. */
  function Invertir(s: string): (r: string)
    ensures |r| == |s|
    ensures forall i :: 0 <= i < |s| ==> r[i] == s[|s| - 1 - i]
  {
    if |s| == 0 then [] else Invertir(s[1..]) + [s[0]]
  }

  /** Reversing twice gives the string back. */
  lemma InvertirInvolution(s: string)
    ensures Invertir(Invertir(s)) == s
  {
    assert forall i :: 0 <= i < |s| ==> Invertir(Invertir(s))[i] == s[i];
  }

  /** Every character equals its mirror image around the middle. */
  predicate Mirrored(s: string) {
    forall i :: 0 <= i < |s| ==> s[i] == s[|s| - 1 - i]
  }

  /** A string equals its reverse exactly when it is mirrored. */
  lemma InvertirFixed(s: string)
    ensures s == Invertir(s) <==> Mirrored(s)
  {
    if Mirrored(s) {
      assert forall i :: 0 <= i < |s| ==> s[i] == Invertir(s)[i];
    }
  }

  lemma InvertirAppend(a: string, b: string)
    ensures Invertir(a + b) == Invertir(b) + Invertir(a)
  {
    assert forall i :: 0 <= i < |a + b| ==> Invertir(a + b)[i] == (Invertir(b) + Invertir(a))[i];
  }

  const Vocales := "aeiou"

  /** The number of characters of `s` that are in `Vocales`. */
  function VowelCount(s: string): (n: nat)
    ensures n <= |s|
    ensures n == 0 <==> forall i :: 0 <= i < |s| ==> s[i] !in Vocales
  {
    if |s| == 0 then 0
    else
      assert forall i :: 1 <= i < |s| ==> s[i] == s[1..][i - 1];
      (if s[0] in Vocales then 1 else 0) + VowelCount(s[1..])
  }

  lemma {:induction false} VowelCountAppend(a: string, b: string)
    ensures VowelCount(a + b) == VowelCount(a) + VowelCount(b)
    decreases |a|
  {
    if |a| == 0 {
      assert a + b == b;
    } else {
      assert (a + b)[1..] == a[1..] + b;
      VowelCountAppend(a[1..], b);
    }
  }

  /** `contar_vocales`: the characters whose lower-case form is a vowel;
      none exactly when no character lowers to one. */
  function ContarVocales(t: string): (n: nat)
    ensures n <= |t|
    ensures n == 0 <==> forall i :: 0 <= i < |t| ==> Ascii.Lower(t[i]) !in Vocales
  {
    var l := Ascii.LowerStr(t);
    assert forall i :: 0 <= i < |t| ==> l[i] == Ascii.Lower(t[i]);
    VowelCount(l)
  }

  /** The vowel count of a concatenation is the sum of the counts. */
  lemma ContarVocalesAppend(a: string, b: string)
    ensures ContarVocales(a + b) == ContarVocales(a) + ContarVocales(b)
  {
    Ascii.LowerStrAppend(a, b);
    VowelCountAppend(Ascii.LowerStr(a), Ascii.LowerStr(b));
  }

  /** Reversing a string does not change its vowel count. */
  lemma {:induction false} ContarVocalesInvertir(s: string)
    ensures ContarVocales(Invertir(s)) == ContarVocales(s)
    decreases |s|
  {
    if |s| > 0 {
      ContarVocalesInvertir(s[1..]);
      ContarVocalesAppend(Invertir(s[1..]), [s[0]]);
      ContarVocalesAppend([s[0]], s[1..]);
      assert [s[0]] + s[1..] == s;
    }
  }
}
