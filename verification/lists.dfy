/** Order-preserving selection from a list of names, shared by the column
    checks of the COVID pipeline and of the CSV validator. */
module Lists {
  /** `a` can be obtained from `b` by deleting elements. */
  predicate Subsequence<T(==)>(a: seq<T>, b: seq<T>)
    decreases |b|
  {
    if |a| == 0 then true
    else if |b| == 0 then false
    else if a[0] == b[0] then Subsequence(a[1..], b[1..])
    else Subsequence(a, b[1..])
  }

  /** `[c for c in names if (c in columns) == present]`: the names that are
      (or are not) among `columns`, in the order of `names`. */
  function SelectColumns(names: seq<string>, columns: seq<string>, present: bool): (r: seq<string>)
    ensures forall c :: c in r <==> c in names && (c in columns <==> present)
    ensures Subsequence(r, names)
  {
    if |names| == 0 then []
    else
      var rest := SelectColumns(names[1..], columns, present);
      if (names[0] in columns) == present then [names[0]] + rest
      else
        SubsequenceSkip(rest, names);
        rest
  }

  lemma {:induction false} SubsequenceSkip<T>(a: seq<T>, b: seq<T>)
    requires |b| > 0 && Subsequence(a, b[1..])
    ensures Subsequence(a, b)
    decreases |b|, 0
  {
    if |a| > 0 && a[0] == b[0] {
      SubsequenceTail(a, b[1..]);
    }
  }

  lemma {:induction false} SubsequenceTail<T>(a: seq<T>, b: seq<T>)
    requires |a| > 0 && Subsequence(a, b)
    ensures Subsequence(a[1..], b)
    decreases |b|, 1
  {
    if a[0] != b[0] {
      SubsequenceTail(a, b[1..]);
      SubsequenceSkip(a[1..], b);
    } else if |a| > 1 {
      SubsequenceSkip(a[1..], b);
    }
  }

  /** Every element of a subsequence is an element of the whole. */
  lemma {:induction false} SubsequenceMembers<T>(a: seq<T>, b: seq<T>)
    requires Subsequence(a, b)
    ensures forall x :: x in a ==> x in b
    decreases |b|
  {
    if |a| > 0 {
      if a[0] == b[0] {
        SubsequenceMembers(a[1..], b[1..]);
        assert forall x :: x in a ==> x == a[0] || x in a[1..];
      } else {
        SubsequenceMembers(a, b[1..]);
      }
    }
  }
}
