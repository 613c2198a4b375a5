/** The ASCII part of Python's string primitives that the programs rely on:
    `str.isspace`, `str.lower`, `str.strip` and the code-point ordering of
    `<` on strings. Characters outside ASCII are never whitespace and are
    left unchanged by `Lower`. */
module Ascii {

  /** Python's `str.isspace` on ASCII: space, \t, \n, \r, \v, \f and the
      four separators \x1c..\x1f. */
  predicate IsSpace(c: char) {
    c == ' ' || c == '\t' || c == '\n' || c == '\r' || c == '\U{0B}' || c == '\U{0C}'
    || ('\U{1C}' <= c <= '\U{1F}')
  }

  predicate IsUpper(c: char) {
    'A' <= c <= 'Z'
  }

  predicate IsDigit(c: char) {
    '0' <= c <= '9'
  }

  function Lower(c: char): (d: char)
    ensures !IsUpper(d)
    ensures IsSpace(d) <==> IsSpace(c)
    ensures !IsUpper(c) ==> d == c
  {
    if IsUpper(c) then (c as int + 32) as char else c
  }

  /** `s.lower()`, character by character. */
  function LowerStr(s: string): (r: string)
    ensures |r| == |s|
    ensures forall i :: 0 <= i < |r| ==> !IsUpper(r[i])
  {
    seq(|s|, i requires 0 <= i < |s| => Lower(s[i]))
  }

  lemma LowerStrIdempotent(s: string)
    ensures LowerStr(LowerStr(s)) == LowerStr(s)
  {
  }

  lemma LowerStrAppend(a: string, b: string)
    ensures LowerStr(a + b) == LowerStr(a) + LowerStr(b)
  {
  }

  /** The first index from `i` on that does not hold whitespace, or `|s|`. */
  function SkipSpace(s: string, i: nat): (k: nat)
    requires i <= |s|
    ensures i <= k <= |s|
    ensures forall j :: i <= j < k ==> IsSpace(s[j])
    ensures k == |s| || !IsSpace(s[k])
    decreases |s| - i
  {
    if i < |s| && IsSpace(s[i]) then SkipSpace(s, i + 1) else i
  }

  /** The last index up to `j` that does not follow whitespace, or 0. */
  function SkipSpaceBack(s: string, j: nat): (k: nat)
    requires j <= |s|
    ensures k <= j
    ensures forall i :: k <= i < j ==> IsSpace(s[i])
    ensures k == 0 || !IsSpace(s[k - 1])
  {
    if j > 0 && IsSpace(s[j - 1]) then SkipSpaceBack(s, j - 1) else j
  }

  /** The leading whitespace is determined by where the whitespace is. */
  lemma SkipSpaceUnique(s: string, k: nat)
    requires k <= |s|
    requires forall j :: 0 <= j < k ==> IsSpace(s[j])
    requires k == |s| || !IsSpace(s[k])
    ensures SkipSpace(s, 0) == k
  {
  }

  /** The trailing whitespace is determined by where the whitespace is. */
  lemma SkipSpaceBackUnique(s: string, k: nat)
    requires k <= |s|
    requires forall j :: k <= j < |s| ==> IsSpace(s[j])
    requires k == 0 || !IsSpace(s[k - 1])
    ensures SkipSpaceBack(s, |s|) == k
  {
  }

  /** `s.lstrip()`: drops the leading whitespace and nothing else. */
  function StripLeft(s: string): (r: string)
    ensures |r| <= |s| && r == s[|s| - |r|..]
    ensures r == [] || !IsSpace(r[0])
    ensures forall i :: 0 <= i < |s| - |r| ==> IsSpace(s[i])
  {
    s[SkipSpace(s, 0)..]
  }

  /** `s.rstrip()`: drops the trailing whitespace and nothing else. */
  function StripRight(s: string): (r: string)
    ensures |r| <= |s| && r == s[..|r|]
    ensures r == [] || !IsSpace(r[|r| - 1])
    ensures forall i :: |r| <= i < |s| ==> IsSpace(s[i])
  {
    s[..SkipSpaceBack(s, |s|)]
  }

  predicate IsStripped(s: string) {
    s == [] || (!IsSpace(s[0]) && !IsSpace(s[|s| - 1]))
  }

  /** `r` is `s` with `k` whitespace characters removed in front and only
      whitespace removed behind. */
  predicate TrimmedAt(s: string, k: int, r: string) {
    && 0 <= k <= |s| - |r|
    && r == s[k..k + |r|]
    && (forall i :: 0 <= i < k ==> IsSpace(s[i]))
    && (forall i :: k + |r| <= i < |s| ==> IsSpace(s[i]))
  }

  /** `s.strip()`: the longest infix of `s` that neither starts nor ends
      with whitespace, obtained by removing only whitespace. */
  function Strip(s: string): (r: string)
    ensures IsStripped(r)
    ensures exists k :: TrimmedAt(s, k, r)
    ensures r == [] <==> forall i :: 0 <= i < |s| ==> IsSpace(s[i])
  {
    var k := SkipSpace(s, 0);
    var l := StripLeft(s);
    var r := StripRight(l);
    assert r == s[k..k + |r|];
    assert forall i :: k + |r| <= i < |s| ==> s[i] == l[i - k];
    assert TrimmedAt(s, k, r);
    r
  }

  /** Lower-casing a stripped text leaves it stripped. */
  lemma LowerStripped(s: string)
    requires IsStripped(s)
    ensures IsStripped(LowerStr(s))
  {
    if |s| > 0 {
      assert LowerStr(s)[0] == Lower(s[0]);
      assert LowerStr(s)[|s| - 1] == Lower(s[|s| - 1]);
    }
  }

  lemma StripOfStripped(s: string)
    requires IsStripped(s)
    ensures Strip(s) == s
  {
    SkipSpaceUnique(s, 0);
    SkipSpaceBackUnique(s, |s|);
  }

  predicate AllSpace(s: string) {
    forall i :: 0 <= i < |s| ==> IsSpace(s[i])
  }

  lemma StripLeftPadded(a: string, u: string)
    requires AllSpace(a)
    requires u == [] || !IsSpace(u[0])
    ensures StripLeft(a + u) == u
  {
    SkipSpaceUnique(a + u, |a|);
    assert (a + u)[|a|..] == u;
  }

  lemma StripRightPadded(t: string, b: string)
    requires AllSpace(b)
    requires t == [] || !IsSpace(t[|t| - 1])
    ensures StripRight(t + b) == t
  {
    SkipSpaceBackUnique(t + b, |t|);
    assert (t + b)[..|t|] == t;
  }

  /** Stripping removes exactly the whitespace padding around a stripped
      text. */
  lemma StripPadded(a: string, t: string, b: string)
    requires AllSpace(a) && AllSpace(b) && IsStripped(t)
    ensures Strip(a + t + b) == t
  {
    if t == [] {
      assert AllSpace(a + t + b);
    } else {
      assert a + t + b == a + (t + b);
      StripLeftPadded(a, t + b);
      StripRightPadded(t, b);
    }
  }

  /** Lower-casing neither creates nor removes whitespace, so it commutes
      with stripping. */
  lemma StripLowerCommute(s: string)
    ensures Strip(LowerStr(s)) == LowerStr(Strip(s))
  {
    StripLeftLower(s);
    StripRightLower(StripLeft(s));
  }

  lemma StripLeftLower(s: string)
    ensures StripLeft(LowerStr(s)) == LowerStr(StripLeft(s))
  {
    var k := SkipSpace(s, 0);
    SkipSpaceUnique(LowerStr(s), k);
    assert LowerStr(s)[k..] == LowerStr(s[k..]);
  }

  lemma StripRightLower(s: string)
    ensures StripRight(LowerStr(s)) == LowerStr(StripRight(s))
  {
    var k := SkipSpaceBack(s, |s|);
    SkipSpaceBackUnique(LowerStr(s), k);
    assert LowerStr(s)[..k] == LowerStr(s[..k]);
  }

  /** Python's `a < b` on strings: lexicographic by code point, a proper
      prefix sorting first. */
  predicate StrLt(a: string, b: string)
    decreases |a|
  {
    if |a| == 0 then |b| > 0
    else if |b| == 0 then false
    else if a[0] < b[0] then true
    else if a[0] == b[0] then StrLt(a[1..], b[1..])
    else false
  }

  lemma {:induction false} StrLtIrreflexive(a: string)
    ensures !StrLt(a, a)
    decreases |a|
  {
    if |a| > 0 {
      StrLtIrreflexive(a[1..]);
    }
  }

  lemma {:induction false} StrLtTransitive(a: string, b: string, c: string)
    requires StrLt(a, b) && StrLt(b, c)
    ensures StrLt(a, c)
    decreases |a|
  {
    if |a| > 0 && |b| > 0 && |c| > 0 && a[0] == b[0] && b[0] == c[0] {
      StrLtTransitive(a[1..], b[1..], c[1..]);
    }
  }

  lemma {:induction false} StrLtTotal(a: string, b: string)
    requires a != b
    ensures StrLt(a, b) || StrLt(b, a)
    decreases |a|
  {
    if |a| > 0 && |b| > 0 && a[0] == b[0] {
      StrLtTotal(a[1..], b[1..]);
    }
  }

  lemma {:induction false} StrLtAsymmetric(a: string, b: string)
    requires StrLt(a, b)
    ensures !StrLt(b, a)
    decreases |a|
  {
    if |a| > 0 && |b| > 0 && a[0] == b[0] {
      StrLtAsymmetric(a[1..], b[1..]);
    }
  }
}
