/** Decimal numerals: the part of Python's `int(s)`, `float(s)` and `str(n)`
    that the programs use. `int` accepts surrounding whitespace, an optional
    sign and one or more ASCII digits; `float` additionally accepts a
    fractional part. Underscore separators, exponents and the `inf`/`nan`
    spellings are not part of this model. */
module Numerals {
  import opened Wrappers
  import Ascii

  predicate AllDigits(s: string) {
    forall i :: 0 <= i < |s| ==> Ascii.IsDigit(s[i])
  }

  function DigitValue(c: char): nat
    requires Ascii.IsDigit(c)
  {
    c as int - '0' as int
  }

  function DigitChar(d: nat): (c: char)
    requires d < 10
    ensures Ascii.IsDigit(c) && DigitValue(c) == d
  {
    ('0' as int + d) as char
  }

  /** The value of a run of decimal digits, most significant digit first. */
  function DigitsValue(s: string): nat
    requires AllDigits(s)
    decreases |s|
  {
    if |s| == 0 then 0 else DigitsValue(s[..|s| - 1]) * 10 + DigitValue(s[|s| - 1])
  }

  function Pow10(n: nat): (p: nat)
    ensures p > 0
  {
    if n == 0 then 1 else 10 * Pow10(n - 1)
  }

  /** `str(n)` for a non-negative `n`: digits only, no leading zero. */
  function NatToString(n: nat): (r: string)
    ensures |r| > 0 && AllDigits(r)
    ensures DigitsValue(r) == n
    ensures |r| > 1 ==> r[0] != '0'
  {
    if n < 10 then [DigitChar(n)]
    else
      var prefix := NatToString(n / 10);
      var r := prefix + [DigitChar(n % 10)];
      assert r[..|r| - 1] == prefix;
      r
  }

  /** `str(n)`: a minus sign in front of the digits of a negative number. */
  function IntToString(n: int): (r: string)
    ensures |r| > 0 && Ascii.IsDigit(r[|r| - 1])
    ensures forall i :: 0 <= i < |r| ==> Ascii.IsDigit(r[i]) || r[i] == '-'
  {
    if n < 0 then "-" + NatToString(-n) else NatToString(n)
  }

  /** Text `int` accepts once stripped: a digit or a sign first, digits
      after it, and at least one digit in all. */
  predicate IntegerText(t: string) {
    && |t| > 0
    && (Ascii.IsDigit(t[0]) || t[0] == '-' || t[0] == '+')
    && AllDigits(t[1..])
    && exists i :: 0 <= i < |t| && Ascii.IsDigit(t[i])
  }

  /** An optional sign followed by at least one digit; only a leading '-'
      gives a negative value. */
  function ParseSignedDigits(t: string): (r: Option<int>)
    ensures r.Some? <==> IntegerText(t)
    ensures r.Some? && r.value < 0 ==> t[0] == '-'
    ensures r.Some? && t[0] == '-' ==> r.value <= 0
  {
    if |t| > 0 && (t[0] == '-' || t[0] == '+') then
      SignedIntegerText(t);
      if |t| > 1 && AllDigits(t[1..]) then
        var v: int := DigitsValue(t[1..]);
        Some(if t[0] == '-' then -v else v)
      else None
    else if |t| > 0 then
      UnsignedIntegerText(t);
      if AllDigits(t) then Some(DigitsValue(t)) else None
    else None
  }

  lemma SignedIntegerText(t: string)
    requires |t| > 0 && (t[0] == '-' || t[0] == '+')
    ensures IntegerText(t) <==> |t| > 1 && AllDigits(t[1..])
  {
    if IntegerText(t) {
      var i :| 0 <= i < |t| && Ascii.IsDigit(t[i]);
    }
    if |t| > 1 && AllDigits(t[1..]) {
      assert t[1..][0] == t[1];
    }
  }

  lemma UnsignedIntegerText(t: string)
    requires |t| > 0 && t[0] != '-' && t[0] != '+'
    ensures IntegerText(t) <==> AllDigits(t)
  {
    if IntegerText(t) {
      forall i | 1 <= i < |t|
        ensures Ascii.IsDigit(t[i])
      {
        assert t[i] == t[1..][i - 1];
      }
    }
    if AllDigits(t) {
      assert forall i :: 0 <= i < |t[1..]| ==> t[1..][i] == t[i + 1];
      assert Ascii.IsDigit(t[0]);
    }
  }

  /** `int(s)`, returning `None` where Python raises `ValueError`: it
      accepts exactly the integer texts with surrounding whitespace. */
  function ParseInt(s: string): (r: Option<int>)
    ensures r.Some? <==> IntegerText(Ascii.Strip(s))
    ensures r.Some? && r.value < 0 ==> Ascii.Strip(s)[0] == '-'
  {
    ParseSignedDigits(Ascii.Strip(s))
  }

  /** Whitespace around an integer text does not change what `int` reads. */
  lemma ParseIntPadded(a: string, t: string, b: string)
    requires Ascii.AllSpace(a) && Ascii.AllSpace(b) && Ascii.IsStripped(t)
    ensures ParseInt(a + t + b) == ParseInt(t)
  {
    Ascii.StripPadded(a, t, b);
    Ascii.StripOfStripped(t);
  }

  /** Index of the first '.' in `b`, or `|b|` when there is none. */
  function DotIndex(b: string): (k: nat)
    ensures k <= |b|
    ensures k < |b| ==> b[k] == '.'
    ensures forall i :: 0 <= i < k ==> b[i] != '.'
  {
    if |b| == 0 then 0 else if b[0] == '.' then 0 else 1 + DotIndex(b[1..])
  }

  /** Text `float` accepts after its sign: digits and at most one '.',
      with at least one digit. */
  predicate DecimalText(b: string) {
    && (forall i :: 0 <= i < |b| ==> Ascii.IsDigit(b[i]) || b[i] == '.')
    && (forall i, j :: 0 <= i < j < |b| && b[i] == '.' ==> b[j] != '.')
    && exists i :: 0 <= i < |b| && Ascii.IsDigit(b[i])
  }

  /** Digits with an optional fractional part (`12`, `12.5`, `12.`, `.5`). */
  function UnsignedDecimal(b: string): (r: Option<real>)
    ensures r.Some? ==> r.value >= 0.0
  {
    var k := DotIndex(b);
    if k == |b| then
      if |b| > 0 && AllDigits(b) then Some(DigitsValue(b) as real) else None
    else
      var ip, fp := b[..k], b[k + 1..];
      if |ip| + |fp| > 0 && AllDigits(ip) && AllDigits(fp) then
        var frac := DigitsValue(fp) as real / Pow10(|fp|) as real;
        assert frac >= 0.0;
        Some(DigitsValue(ip) as real + frac)
      else None
  }

  /** `UnsignedDecimal` accepts exactly the decimal texts. */
  lemma UnsignedDecimalAccepts(b: string)
    ensures UnsignedDecimal(b).Some? <==> DecimalText(b)
  {
    var k := DotIndex(b);
    if k == |b| {
      if DecimalText(b) {
        var i :| 0 <= i < |b| && Ascii.IsDigit(b[i]);
        assert AllDigits(b);
      }
      if |b| > 0 && AllDigits(b) {
        assert Ascii.IsDigit(b[0]);
      }
    } else {
      var ip, fp := b[..k], b[k + 1..];
      assert forall i :: 0 <= i < k ==> ip[i] == b[i];
      assert forall i :: k < i < |b| ==> fp[i - k - 1] == b[i];
      if DecimalText(b) {
        assert AllDigits(ip);
        assert AllDigits(fp) by {
          forall j | 0 <= j < |fp|
            ensures Ascii.IsDigit(fp[j])
          {
            assert fp[j] == b[k + 1 + j];
          }
        }
        var i :| 0 <= i < |b| && Ascii.IsDigit(b[i]);
        assert i != k;
      }
      if |ip| + |fp| > 0 && AllDigits(ip) && AllDigits(fp) {
        forall i | 0 <= i < |b|
          ensures Ascii.IsDigit(b[i]) || b[i] == '.'
        {
          if i > k { assert b[i] == fp[i - k - 1]; }
        }
        if |ip| > 0 {
          assert Ascii.IsDigit(b[0]);
        } else {
          assert Ascii.IsDigit(b[k + 1]) by { assert b[k + 1] == fp[0]; }
        }
      }
    }
  }

  /** An optional sign followed by a decimal text; only a leading '-'
      gives a negative value. */
  function ParseSignedDecimal(t: string): (r: Option<real>)
    ensures r.Some? <==> if |t| > 0 && (t[0] == '-' || t[0] == '+') then DecimalText(t[1..]) else DecimalText(t)
    ensures r.Some? && r.value < 0.0 ==> t[0] == '-'
  {
    if |t| > 0 && (t[0] == '-' || t[0] == '+') then
      UnsignedDecimalAccepts(t[1..]);
      match UnsignedDecimal(t[1..])
      case Some(v) => Some(if t[0] == '-' then -v else v)
      case None => None
    else
      UnsignedDecimalAccepts(t);
      UnsignedDecimal(t)
  }

  /** `float(s)` on the decimal notation above: it accepts exactly a
      signed decimal text with surrounding whitespace. */
  function ParseReal(s: string): (r: Option<real>)
    ensures var t := Ascii.Strip(s);
            r.Some? <==> if |t| > 0 && (t[0] == '-' || t[0] == '+') then DecimalText(t[1..]) else DecimalText(t)
    ensures r.Some? && r.value < 0.0 ==> Ascii.Strip(s)[0] == '-'
  {
    ParseSignedDecimal(Ascii.Strip(s))
  }

  /** `int(str(n)) == n`. */
  lemma IntRoundTrip(n: int)
    ensures ParseInt(IntToString(n)) == Some(n)
  {
    var r := IntToString(n);
    assert ParseInt(r) == ParseSignedDigits(r) by {
      assert Ascii.IsStripped(r);
      Ascii.StripOfStripped(r);
    }
    if n < 0 {
      var d := NatToString(-n);
      assert r == "-" + d && r[1..] == d;
    } else {
      assert r == NatToString(n) && !(r[0] == '-' || r[0] == '+');
    }
  }

  /** A run of digits has no dot, so it reads as the same whole number. */
  lemma {:induction false} UnsignedDigits(b: string)
    requires |b| > 0 && AllDigits(b)
    ensures UnsignedDecimal(b) == Some(DigitsValue(b) as real)
  {
    DigitsHaveNoDot(b);
  }

  lemma {:induction false} DigitsHaveNoDot(b: string)
    requires AllDigits(b)
    ensures DotIndex(b) == |b|
    decreases |b|
  {
    if |b| > 0 {
      assert b[0] != '.';
      DigitsHaveNoDot(b[1..]);
    }
  }

  /** Every string `int` accepts, `float` accepts with the same value. */
  lemma IntParseIsRealParse(s: string)
    requires ParseInt(s).Some?
    ensures ParseReal(s) == Some(ParseInt(s).value as real)
  {
    SignedDigitsAreDecimal(Ascii.Strip(s));
  }

  lemma SignedDigitsAreDecimal(t: string)
    requires ParseSignedDigits(t).Some?
    ensures ParseSignedDecimal(t) == Some(ParseSignedDigits(t).value as real)
  {
    if t[0] == '-' || t[0] == '+' {
      SignedIntegerText(t);
      UnsignedDigits(t[1..]);
    } else {
      UnsignedIntegerText(t);
      UnsignedDigits(t);
    }
  }
}
