/** labs/lab5/mod_simple.py: text normalization, word count and division. */
module ModSimple {
  import opened Wrappers
  import Ascii
  import ModuloUtilidades

  /** `s.strip().lower()`, the same operation as `normalizar`. */
  function NormalizeText(s: string): (r: string)
    ensures Ascii.IsStripped(r)
    ensures forall i :: 0 <= i < |r| ==> !Ascii.IsUpper(r[i])
    ensures r == ModuloUtilidades.Normalizar(s)
  {
    var r := Ascii.LowerStr(Ascii.Strip(s));
    assert r == ModuloUtilidades.Normalizar(s);
    r
  }

  lemma StripHola()
    ensures Ascii.Strip("  Hola  ") == "Hola"
  {
    assert "  Hola  " == "  " + "Hola" + "  ";
    Ascii.StripPadded("  ", "Hola", "  ");
  }

  lemma LowerExamples()
    ensures Ascii.LowerStr("Hola") == "hola"
    ensures Ascii.LowerStr("PYTHON") == "python"
  {
    var l := Ascii.LowerStr("Hola");
    assert l[0] == 'h' && l[1] == 'o' && l[2] == 'l' && l[3] == 'a';
    var m := Ascii.LowerStr("PYTHON");
    assert m[0] == 'p' && m[1] == 'y' && m[2] == 't' && m[3] == 'h' && m[4] == 'o' && m[5] == 'n';
  }

  lemma NormalizeTextExamples()
    ensures NormalizeText("  Hola  ") == "hola"
    ensures NormalizeText("PYTHON ") == "python"
  {
    StripHola();
    assert Ascii.Strip("PYTHON ") == "PYTHON" by {
      assert "PYTHON " == "" + "PYTHON" + " ";
      Ascii.StripPadded("", "PYTHON", " ");
    }
    LowerExamples();
  }

  // ---------------------------------------------------------------------------
  // word_count
  // ---------------------------------------------------------------------------

  /** The longest prefix of `s` without whitespace. */
  function TakeWord(s: string): (w: string)
    ensures w <= s
    ensures forall i :: 0 <= i < |w| ==> !Ascii.IsSpace(w[i])
    ensures |w| == |s| || Ascii.IsSpace(s[|w|])
  {
    if |s| == 0 || Ascii.IsSpace(s[0]) then [] else [s[0]] + TakeWord(s[1..])
  }

  /** `s.split()`: the maximal runs of non-whitespace characters. */
  function Words(s: string): (ws: seq<string>)
    ensures forall k :: 0 <= k < |ws| ==> |ws[k]| > 0
    decreases |s|
  {
    if |s| == 0 then []
    else if Ascii.IsSpace(s[0]) then Words(s[1..])
    else
      var w := TakeWord(s);
      [w] + Words(s[|w|..])
  }

  /** The number of indices of `s` where a run of non-whitespace starts;
      `afterSpace` says whether the character before `s` was whitespace
      (or there was none). */
  function RunStarts(s: string, afterSpace: bool): nat
    decreases |s|
  {
    if |s| == 0 then 0
    else (if afterSpace && !Ascii.IsSpace(s[0]) then 1 else 0) + RunStarts(s[1..], Ascii.IsSpace(s[0]))
  }

  /** Inside a word, the rest of the word starts no run. */
  lemma {:induction false} RunStartsInWord(s: string)
    ensures RunStarts(s, false) == RunStarts(s[|TakeWord(s)|..], true)
    decreases |s|
  {
    if |s| > 0 && !Ascii.IsSpace(s[0]) {
      RunStartsInWord(s[1..]);
      assert s[|TakeWord(s)|..] == s[1..][|TakeWord(s[1..])|..];
    }
  }

  /** `split()` yields one word per run of non-whitespace. */
  lemma {:induction false} WordsCountRuns(s: string)
    ensures |Words(s)| == RunStarts(s, true)
    decreases |s|
  {
    if |s| > 0 {
      if Ascii.IsSpace(s[0]) {
        WordsCountRuns(s[1..]);
      } else {
        var w := TakeWord(s);
        WordsCountRuns(s[|w|..]);
        RunStartsInWord(s[1..]);
        assert s[|w|..] == s[1..][|TakeWord(s[1..])|..];
      }
    }
  }

  /** `word_count`: zero on a blank text, otherwise the number of words of
      the stripped text; in both cases the number of runs of
      non-whitespace of the stripped text. */
  function WordCount(s: string): (n: nat)
    ensures n == 0 <==> Ascii.Strip(s) == []
    ensures n == RunStarts(Ascii.Strip(s), true)
  {
    var t := Ascii.Strip(s);
    WordsCountRuns(t);
    if |t| == 0 then 0 else |Words(t)|
  }

  /** A word contributes one run start, and only after whitespace. */
  lemma {:induction false} RunStartsWord(w: string, rest: string, afterSpace: bool)
    requires |w| > 0 && forall i :: 0 <= i < |w| ==> !Ascii.IsSpace(w[i])
    ensures RunStarts(w + rest, afterSpace) == (if afterSpace then 1 else 0) + RunStarts(rest, false)
    decreases |w|
  {
    assert (w + rest)[1..] == w[1..] + rest;
    if |w| > 1 {
      RunStartsWord(w[1..], rest, false);
    }
  }

  /** Whitespace ends a run, so the text after it starts afresh. */
  lemma RunStartsAfterSpace(rest: string)
    ensures RunStarts(" " + rest, false) == RunStarts(rest, true)
  {
    assert (" " + rest)[1..] == rest;
  }

  lemma RunStartsExample()
    ensures RunStarts("uno dos tres", true) == 3
  {
    var tres := " " + "tres";
    RunStartsWord("tres", "", true);
    assert "tres" + "" == "tres";
    RunStartsAfterSpace("tres");
    var dos := " " + ("dos" + tres);
    RunStartsWord("dos", tres, true);
    RunStartsAfterSpace("dos" + tres);
    RunStartsWord("uno", dos, true);
    assert "uno" + dos == "uno dos tres";
  }

  lemma BlankStripExamples()
    ensures Ascii.Strip("") == [] && Ascii.Strip("   ") == []
    ensures Ascii.Strip("uno dos tres") == "uno dos tres"
  {
    Ascii.StripOfStripped("uno dos tres");
  }

  lemma WordCountExamples()
    ensures WordCount("") == 0
    ensures WordCount("   ") == 0
    ensures WordCount("uno dos tres") == 3
  {
    BlankStripExamples();
    RunStartsExample();
  }

  // ---------------------------------------------------------------------------
  // dividir
  // ---------------------------------------------------------------------------

  /** The `ValueError('division por cero')`. */
  datatype DivisionError = DivisionPorCero

  /** `dividir`: fails exactly on a zero divisor; otherwise the quotient,
      which multiplied back by `b` gives `a`. */
  function Dividir(a: real, b: real): (r: Result<real, DivisionError>)
    ensures r.Failure? <==> b == 0.0
    ensures r.Success? ==> r.value * b == a
  {
    if b == 0.0 then Failure(DivisionPorCero) else Success(a / b)
  }

  lemma DividirExamples()
    ensures Dividir(10.0, 2.0) == Success(5.0)
    ensures Dividir(7.0, 2.0) == Success(3.5)
    ensures Dividir(1.0, 0.0).Failure?
  {
  }
}
