/** `Array.prototype.filter` on sequences, and what it keeps. */
module Collections {

  /** The elements of xs that satisfy keep, in their original order. */
  function Filter<T>(xs: seq<T>, keep: T -> bool): (r: seq<T>)
    ensures |r| <= |xs|
    ensures forall k :: 0 <= k < |r| ==> keep(r[k])
  {
    if xs == [] then [] else (if keep(xs[0]) then [xs[0]] else []) + Filter(xs[1..], keep)
  }

  /** An element survives the filter exactly when it was there and satisfies the test. */
  lemma {:induction false} FilterMembership<T>(xs: seq<T>, keep: T -> bool)
    ensures forall x :: x in Filter(xs, keep) <==> x in xs && keep(x)
  {
    if xs != [] {
      FilterMembership(xs[1..], keep);
      assert xs == [xs[0]] + xs[1..];
    }
  }

  /** Filtering a concatenation filters each part: the survivors keep their relative order. */
  lemma {:induction false} FilterAppend<T>(a: seq<T>, b: seq<T>, keep: T -> bool)
    ensures Filter(a + b, keep) == Filter(a, keep) + Filter(b, keep)
  {
    if a == [] {
      assert a + b == b;
    } else {
      assert (a + b)[1..] == a[1..] + b;
      FilterAppend(a[1..], b, keep);
    }
  }

  /** Something survives exactly when some element satisfies the test. */
  lemma {:induction false} FilterNonEmpty<T>(xs: seq<T>, keep: T -> bool)
    ensures |Filter(xs, keep)| > 0 <==> exists k :: 0 <= k < |xs| && keep(xs[k])
  {
    if xs != [] {
      FilterNonEmpty(xs[1..], keep);
      if !keep(xs[0]) {
        assert forall k :: 1 <= k < |xs| ==> xs[k] == xs[1..][k - 1];
      }
    }
  }

  /** When every element satisfies the test, the filter keeps them all. */
  lemma {:induction false} FilterKeepsAll<T>(xs: seq<T>, keep: T -> bool)
    requires forall k :: 0 <= k < |xs| ==> keep(xs[k])
    ensures Filter(xs, keep) == xs
  {
    if xs != [] {
      FilterKeepsAll(xs[1..], keep);
      assert [xs[0]] + xs[1..] == xs;
    }
  }

  /** Concatenation is associative. */
  lemma AppendAssociative<T>(a: seq<T>, b: seq<T>, c: seq<T>)
    ensures (a + b) + c == a + (b + c)
  {
  }
}
