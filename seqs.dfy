/** Generic list helpers: the filtered query results and the `sum(...)`
    aggregates the services compute. All of them recurse on the last
    element, the order in which a loop accumulates. */
module Seqs {

  /** The elements of `xs` that satisfy `keep`, in their original order. */
  function Filter<T(!new)>(xs: seq<T>, keep: T -> bool): (r: seq<T>)
    ensures |r| <= |xs|
    ensures forall x :: x in r <==> x in xs && keep(x)
  {
    if xs == [] then []
    else
      var front := Filter(xs[..|xs| - 1], keep);
      assert forall x :: x in xs <==> x in xs[..|xs| - 1] || x == xs[|xs| - 1];
      front + (if keep(xs[|xs| - 1]) then [xs[|xs| - 1]] else [])
  }

  /** Filtering a list extended by one element. */
  lemma FilterSnoc<T(!new)>(xs: seq<T>, x: T, keep: T -> bool)
    ensures Filter(xs + [x], keep) == Filter(xs, keep) + (if keep(x) then [x] else [])
  {
    assert (xs + [x])[..|xs|] == xs;
  }

  /** Extending a prefix by one element adds one to the count of kept
      elements exactly when that element is kept. */
  lemma FilterPrefixCount<T(!new)>(xs: seq<T>, i: nat, keep: T -> bool)
    requires i < |xs|
    ensures |Filter(xs[..i + 1], keep)| == |Filter(xs[..i], keep)| + (if keep(xs[i]) then 1 else 0)
  {
    assert xs[..i + 1] == xs[..i] + [xs[i]];
    FilterSnoc(xs[..i], xs[i], keep);
  }

  /** `sum(f(x) for x in xs)` over integers. */
  function SumInt<T>(xs: seq<T>, f: T -> int): int {
    if xs == [] then 0 else SumInt(xs[..|xs| - 1], f) + f(xs[|xs| - 1])
  }

  /** `sum(f(x) for x in xs)` over money amounts. */
  function SumReal<T>(xs: seq<T>, f: T -> real): real {
    if xs == [] then 0.0 else SumReal(xs[..|xs| - 1], f) + f(xs[|xs| - 1])
  }

  lemma SumIntSnoc<T>(xs: seq<T>, x: T, f: T -> int)
    ensures SumInt(xs + [x], f) == SumInt(xs, f) + f(x)
  {
    assert (xs + [x])[..|xs|] == xs;
  }

  lemma SumRealSnoc<T>(xs: seq<T>, x: T, f: T -> real)
    ensures SumReal(xs + [x], f) == SumReal(xs, f) + f(x)
  {
    assert (xs + [x])[..|xs|] == xs;
  }

  /** A sum of pointwise sums is the sum of the two sums. */
  lemma {:induction false} SumRealAdd<T>(xs: seq<T>, f: T -> real, g: T -> real, h: T -> real)
    requires forall x :: x in xs ==> h(x) == f(x) + g(x)
    ensures SumReal(xs, h) == SumReal(xs, f) + SumReal(xs, g)
  {
    if xs != [] {
      SumRealAdd(xs[..|xs| - 1], f, g, h);
    }
  }

  /** Scaling every term by `c` scales the sum by `c`. */
  lemma {:induction false} SumRealScale<T>(xs: seq<T>, f: T -> real, g: T -> real, c: real)
    requires forall x :: x in xs ==> g(x) == f(x) * c
    ensures SumReal(xs, g) == SumReal(xs, f) * c
  {
    if xs != [] {
      SumRealScale(xs[..|xs| - 1], f, g, c);
    }
  }

  /** Terms that are all zero sum to zero. */
  lemma {:induction false} SumRealZero<T>(xs: seq<T>, f: T -> real)
    requires forall x :: x in xs ==> f(x) == 0.0
    ensures SumReal(xs, f) == 0.0
  {
    if xs != [] {
      SumRealZero(xs[..|xs| - 1], f);
    }
  }

  lemma {:induction false} FilterAll<T(!new)>(xs: seq<T>, keep: T -> bool)
    requires forall x :: x in xs ==> keep(x)
    ensures Filter(xs, keep) == xs
  {
    if xs != [] {
      FilterAll(xs[..|xs| - 1], keep);
      assert xs[..|xs| - 1] + [xs[|xs| - 1]] == xs;
    }
  }

  lemma {:induction false} FilterNone<T(!new)>(xs: seq<T>, keep: T -> bool)
    requires forall x :: x in xs ==> !keep(x)
    ensures Filter(xs, keep) == []
  {
    if xs != [] {
      FilterNone(xs[..|xs| - 1], keep);
    }
  }

  lemma {:induction false} FilterSame<T(!new)>(xs: seq<T>, f: T -> bool, g: T -> bool)
    requires forall x :: x in xs ==> f(x) == g(x)
    ensures Filter(xs, f) == Filter(xs, g)
  {
    if xs != [] {
      FilterSame(xs[..|xs| - 1], f, g);
    }
  }

  /** `[f(x) for x in xs if keep(x)]`: what a loop that appends `f(x)` for
      every kept `x` builds, in input order. */
  function FilterMap<R(!new), N(!new)>(xs: seq<R>, keep: R -> bool, f: R -> N): (r: seq<N>)
    ensures |r| <= |xs|
  {
    if xs == [] then []
    else
      var x := xs[|xs| - 1];
      FilterMap(xs[..|xs| - 1], keep, f) + if keep(x) then [f(x)] else []
  }

  /** Every output is the image of a kept element; `x` is one such
      element. */
  lemma {:induction false} FilterMapSound<R(!new), N(!new)>(xs: seq<R>, keep: R -> bool, f: R -> N, n: N) returns (x: R)
    requires n in FilterMap(xs, keep, f)
    ensures x in xs && keep(x) && n == f(x)
  {
    var front := xs[..|xs| - 1];
    if n in FilterMap(front, keep, f) {
      x := FilterMapSound(front, keep, f, n);
      assert x in xs;
    } else {
      x := xs[|xs| - 1];
    }
  }

  /** Every kept element has its image in the output. */
  lemma {:induction false} FilterMapComplete<R(!new), N(!new)>(xs: seq<R>, keep: R -> bool, f: R -> N, x: R)
    requires x in xs && keep(x)
    ensures f(x) in FilterMap(xs, keep, f)
  {
    var front := xs[..|xs| - 1];
    if x != xs[|xs| - 1] {
      assert x in front;
      FilterMapComplete(front, keep, f, x);
    }
  }

  /** One more element appends at most its own image. */
  lemma FilterMapSnoc<R(!new), N(!new)>(xs: seq<R>, i: int, keep: R -> bool, f: R -> N)
    requires 0 <= i < |xs|
    ensures FilterMap(xs[..i + 1], keep, f) == FilterMap(xs[..i], keep, f) + if keep(xs[i]) then [f(xs[i])] else []
  {
    assert xs[..i + 1][..i] == xs[..i];
  }

  /** Input order is preserved: filter-mapping a concatenation
      filter-maps each part and concatenates the results. */
  lemma {:induction false} FilterMapAppend<R(!new), N(!new)>(a: seq<R>, b: seq<R>, keep: R -> bool, f: R -> N)
    ensures FilterMap(a + b, keep, f) == FilterMap(a, keep, f) + FilterMap(b, keep, f)
  {
    if b == [] {
      assert a + b == a;
    } else {
      var n := |b| - 1;
      var ab := a + b;
      FilterMapAppend(a, b[..n], keep, f);
      assert ab[..|ab| - 1] == a + b[..n] && ab[|ab| - 1] == b[n];
    }
  }

  /** When every element is kept, each element gives exactly the output
      at its own position. */
  lemma {:induction false} FilterMapAllKept<R(!new), N(!new)>(xs: seq<R>, keep: R -> bool, f: R -> N)
    requires forall x :: x in xs ==> keep(x)
    ensures |FilterMap(xs, keep, f)| == |xs|
    ensures forall i :: 0 <= i < |xs| ==> FilterMap(xs, keep, f)[i] == f(xs[i])
  {
    if xs != [] {
      var front := xs[..|xs| - 1];
      assert forall x :: x in front ==> x in xs;
      FilterMapAllKept(front, keep, f);
      assert keep(xs[|xs| - 1]);
    }
  }

  /** One output per kept element: a filter-map is exactly as long as the
      filter. */
  lemma {:induction false} FilterMapLength<R(!new), N(!new)>(xs: seq<R>, keep: R -> bool, f: R -> N)
    ensures |FilterMap(xs, keep, f)| == |Filter(xs, keep)|
  {
    if xs != [] {
      FilterMapLength(xs[..|xs| - 1], keep, f);
    }
  }
}
