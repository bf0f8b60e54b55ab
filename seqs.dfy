/**
 * Filtering a list while transforming what is kept: the shape of every list
 * comprehension `[f(c) for c in xs if p(c)]` in the binding generator.
 */
module Seqs {

  /** `[f(x) for x in xs if p(x)]`, in the order of `xs`. */
  function FilterMap<T, U>(xs: seq<T>, p: T -> bool, f: T -> U): (r: seq<U>)
    ensures |r| <= |xs|
    ensures r == [] <==> forall i :: 0 <= i < |xs| ==> !p(xs[i])
  {
    if xs == [] then []
    else (if p(xs[0]) then [f(xs[0])] else []) + FilterMap(xs[1..], p, f)
  }

  /** Number of elements of `xs` that satisfy `p`. */
  function Count<T>(xs: seq<T>, p: T -> bool): (n: nat)
    ensures n <= |xs|
  {
    if xs == [] then 0
    else (if p(xs[0]) then 1 else 0) + Count(xs[1..], p)
  }

  lemma AppendAssoc<T>(a: seq<T>, b: seq<T>, c: seq<T>)
    ensures a + (b + c) == a + b + c
  {
  }

  /** One step of the filter, taken at index `k`. */
  lemma FilterMapStep<T, U>(xs: seq<T>, k: nat, p: T -> bool, f: T -> U)
    requires k < |xs|
    ensures FilterMap(xs[k..], p, f) == (if p(xs[k]) then [f(xs[k])] else []) + FilterMap(xs[k + 1..], p, f)
  {
    assert xs[k..][1..] == xs[k + 1..];
  }

  /** Filtering a concatenation filters each part: the kept elements stay in order. */
  lemma {:induction false} FilterMapConcat<T, U>(a: seq<T>, b: seq<T>, p: T -> bool, f: T -> U)
    ensures FilterMap(a + b, p, f) == FilterMap(a, p, f) + FilterMap(b, p, f)
  {
    if a == [] {
      assert a + b == b;
    } else {
      var head := if p(a[0]) then [f(a[0])] else [];
      assert (a + b)[0] == a[0];
      assert (a + b)[1..] == a[1..] + b;
      FilterMapConcat(a[1..], b, p, f);
      calc {
        FilterMap(a + b, p, f);
        head + FilterMap(a[1..] + b, p, f);
        head + (FilterMap(a[1..], p, f) + FilterMap(b, p, f));
        (head + FilterMap(a[1..], p, f)) + FilterMap(b, p, f);
        FilterMap(a, p, f) + FilterMap(b, p, f);
      }
    }
  }

  /**
   * The result holds one entry per element satisfying `p`, and the element
   * at index `i` lands at the position given by how many kept elements
   * precede it: exactly the kept elements, in their original order.
   */
  lemma {:induction false} FilterMapExact<T, U>(xs: seq<T>, p: T -> bool, f: T -> U)
    ensures |FilterMap(xs, p, f)| == Count(xs, p)
    ensures forall i :: 0 <= i < |xs| && p(xs[i]) ==>
      Count(xs[..i], p) < |FilterMap(xs, p, f)| && FilterMap(xs, p, f)[Count(xs[..i], p)] == f(xs[i])
  {
    if xs != [] {
      var t := xs[1..];
      FilterMapExact(t, p, f);
      var head := if p(xs[0]) then [f(xs[0])] else [];
      assert FilterMap(xs, p, f) == head + FilterMap(t, p, f);
      forall i | 0 <= i < |xs| && p(xs[i])
        ensures Count(xs[..i], p) < |FilterMap(xs, p, f)| && FilterMap(xs, p, f)[Count(xs[..i], p)] == f(xs[i])
      {
        if i == 0 {
          assert xs[..0] == [];
        } else {
          assert xs[..i][0] == xs[0] && xs[..i][1..] == t[..i - 1];
          var k := Count(t[..i - 1], p);
          assert Count(xs[..i], p) == |head| + k;
          assert t[i - 1] == xs[i];
          assert FilterMap(t, p, f)[k] == f(xs[i]);
        }
      }
    }
  }

  function Id<T>(x: T): T {
    x
  }

  /**
   * Filtering with `f` and filtering without transforming keep the same
   * elements: the `k`-th result of the first is `f` of the `k`-th of the second.
   */
  lemma {:induction false} FilterMapThroughId<T, U>(xs: seq<T>, p: T -> bool, f: T -> U)
    ensures |FilterMap(xs, p, f)| == |FilterMap(xs, p, Id)|
    ensures forall k :: 0 <= k < |FilterMap(xs, p, f)| ==> FilterMap(xs, p, f)[k] == f(FilterMap(xs, p, Id)[k])
  {
    if xs != [] {
      FilterMapThroughId(xs[1..], p, f);
    }
  }

  /** Membership in both directions: a value is in the result iff some kept element maps to it. */
  lemma {:induction false} FilterMapMembership<T, U>(xs: seq<T>, p: T -> bool, f: T -> U, y: U)
    ensures y in FilterMap(xs, p, f) <==> exists i :: 0 <= i < |xs| && p(xs[i]) && f(xs[i]) == y
  {
    if xs != [] {
      var t := xs[1..];
      FilterMapMembership(t, p, f, y);
      if exists j :: 0 <= j < |t| && p(t[j]) && f(t[j]) == y {
        var j :| 0 <= j < |t| && p(t[j]) && f(t[j]) == y;
        assert xs[j + 1] == t[j];
      }
      if exists i :: 0 <= i < |xs| && p(xs[i]) && f(xs[i]) == y {
        var i :| 0 <= i < |xs| && p(xs[i]) && f(xs[i]) == y;
        if i > 0 {
          assert t[i - 1] == xs[i];
        }
      }
    }
  }
}
