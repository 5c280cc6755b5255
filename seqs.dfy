/**
 * List comprehensions with a condition (`[x for x in xs if p(x)]`) and the
 * positions they keep: the kept elements are exactly the elements that
 * satisfy the condition, taken at increasing positions of the input.
 */
module Seqs {
  import opened Wrappers

  /** `[x for x in xs if p(x)]`. */
  function Filter<T>(xs: seq<T>, p: T -> bool): (r: seq<T>)
    ensures |r| <= |xs|
  {
    if xs == [] then []
    else Filter(xs[..|xs| - 1], p) + (if p(xs[|xs| - 1]) then [xs[|xs| - 1]] else [])
  }

  /** The positions of `xs` whose elements `Filter` keeps. */
  function FilterIndices<T>(xs: seq<T>, p: T -> bool): (r: seq<nat>)
  {
    if xs == [] then []
    else FilterIndices(xs[..|xs| - 1], p) + (if p(xs[|xs| - 1]) then [|xs| - 1] else [])
  }

  /**
   * `Filter` keeps the elements at `FilterIndices`, which increase, and a
   * position is kept iff its element satisfies the condition.
   */
  lemma {:induction false} FilterSpec<T>(xs: seq<T>, p: T -> bool)
    ensures |FilterIndices(xs, p)| == |Filter(xs, p)|
    ensures forall k :: 0 <= k < |FilterIndices(xs, p)| ==>
              FilterIndices(xs, p)[k] < |xs| && xs[FilterIndices(xs, p)[k]] == Filter(xs, p)[k]
    ensures forall k, l :: 0 <= k < l < |FilterIndices(xs, p)| ==> FilterIndices(xs, p)[k] < FilterIndices(xs, p)[l]
    ensures forall i :: 0 <= i < |xs| ==> (p(xs[i]) <==> i in FilterIndices(xs, p))
  {
    if xs != [] {
      var init := xs[..|xs| - 1];
      FilterSpec(init, p);
      var ix := FilterIndices(xs, p);
      var ixInit := FilterIndices(init, p);
      var r := Filter(xs, p);
      var rInit := Filter(init, p);
      forall k | 0 <= k < |ix| ensures ix[k] < |xs| && xs[ix[k]] == r[k] {
        if k < |ixInit| {
          assert ix[k] == ixInit[k] && r[k] == rInit[k];
          assert xs[ix[k]] == init[ix[k]];
        }
      }
      forall i | 0 <= i < |xs| ensures p(xs[i]) <==> i in ix {
        if i < |xs| - 1 {
          assert xs[i] == init[i];
          assert i in ix <==> i in ixInit;
        }
      }
    }
  }

  /** Membership: `x` is kept iff it occurs and satisfies the condition. */
  lemma FilterMembers<T>(xs: seq<T>, p: T -> bool, x: T)
    ensures x in Filter(xs, p) <==> x in xs && p(x)
  {
    FilterSpec(xs, p);
    var ix := FilterIndices(xs, p);
    if x in Filter(xs, p) {
      var k :| 0 <= k < |Filter(xs, p)| && Filter(xs, p)[k] == x;
      assert xs[ix[k]] == x;
    }
    if x in xs && p(x) {
      var i :| 0 <= i < |xs| && xs[i] == x;
      assert i in ix;
      var k :| 0 <= k < |ix| && ix[k] == i;
      assert Filter(xs, p)[k] == x;
    }
  }

  /** `[f(x) for x in xs]`. */
  function Map<T, U>(xs: seq<T>, f: T -> U): (r: seq<U>)
    ensures |r| == |xs|
    ensures forall k :: 0 <= k < |xs| ==> r[k] == f(xs[k])
  {
    seq(|xs|, k requires 0 <= k < |xs| => f(xs[k]))
  }

  lemma MapAppend<T, U>(xs: seq<T>, ys: seq<T>, f: T -> U)
    ensures Map(xs + ys, f) == Map(xs, f) + Map(ys, f)
  {
    var l := Map(xs + ys, f);
    var r := Map(xs, f) + Map(ys, f);
    forall k | 0 <= k < |l| ensures l[k] == r[k] {
      if k < |xs| { assert (xs + ys)[k] == xs[k]; } else { assert (xs + ys)[k] == ys[k - |xs|]; }
    }
  }

  /** Filtering then mapping a list with one more element at the end. */
  lemma MapFilterSnoc<T, U>(xs: seq<T>, p: T -> bool, f: T -> U)
    requires xs != []
    ensures Map(Filter(xs, p), f)
            == Map(Filter(xs[..|xs| - 1], p), f) + if p(xs[|xs| - 1]) then [f(xs[|xs| - 1])] else []
  {
    var last := xs[|xs| - 1];
    var tail := if p(last) then [last] else [];
    assert Filter(xs, p) == Filter(xs[..|xs| - 1], p) + tail;
    assert Map(tail, f) == if p(last) then [f(last)] else [];
    MapAppend(Filter(xs[..|xs| - 1], p), tail, f);
  }

  /** `[y for x in xs if (y := f(x)) is not None]`: the present results, in order. */
  function Somes<T, U>(xs: seq<T>, f: T -> Option<U>): (r: seq<U>)
    ensures |r| <= |xs|
  {
    if xs == [] then []
    else Somes(xs[..|xs| - 1], f) + match f(xs[|xs| - 1]) case None => [] case Some(y) => [y]
  }

  /** One more element at position `i` adds its result, if any, at the end. */
  lemma SomesStep<T, U>(xs: seq<T>, f: T -> Option<U>, i: nat)
    requires i < |xs|
    ensures Somes(xs[..i + 1], f) == Somes(xs[..i], f) + match f(xs[i]) case None => [] case Some(y) => [y]
  {
    assert xs[..i + 1][..i] == xs[..i];
  }

  /** A property every present result has is had by every element of the list of results. */
  lemma {:induction false} SomesAll<T, U>(xs: seq<T>, f: T -> Option<U>, p: U -> bool)
    requires forall k :: 0 <= k < |xs| && f(xs[k]).Some? ==> p(f(xs[k]).value)
    ensures forall k :: 0 <= k < |Somes(xs, f)| ==> p(Somes(xs, f)[k])
  {
    if xs != [] {
      var init := xs[..|xs| - 1];
      assert forall k :: 0 <= k < |init| ==> init[k] == xs[k];
      SomesAll(init, f, p);
    }
  }

  lemma AppendAssoc<T>(a: seq<T>, b: seq<T>, c: seq<T>)
    ensures (a + b) + c == a + (b + c)
  {
  }

  lemma AppendAt<T>(a: seq<T>, b: seq<T>, i: nat)
    requires i < |a| + |b|
    ensures (a + b)[i] == if i < |a| then a[i] else b[i - |a|]
  {
  }

  /** `s[k % len(s)]`: walking `k` steps round `s`, counted by whole turns rather than by division. */
  function Cycle<T>(s: seq<T>, k: nat): (r: T)
    requires |s| > 0
    ensures r in s
    decreases k
  {
    if k < |s| then s[k] else Cycle(s, k - |s|)
  }

  /** Walking round `s` lands on the element at `k % |s|`. */
  lemma {:induction false} CycleIsMod<T>(s: seq<T>, k: nat)
    requires |s| > 0
    ensures Cycle(s, k) == s[k % |s|]
    decreases k
  {
    if k >= |s| {
      CycleIsMod(s, k - |s|);
      ModDown(k, |s|);
    }
  }

  /** Taking one whole turn off `k` keeps its remainder. */
  lemma ModDown(k: int, n: int)
    requires 0 < n <= k
    ensures (k - n) % n == k % n
  {
    var q, r := k / n, k % n;
    var q', r' := (k - n) / n, (k - n) % n;
    var d := q - 1 - q';
    assert q * n + r - n == q' * n + r';
    assert d * n == q * n - n - q' * n;
    if d >= 1 {
      MulGe(d, n);
    }
  }

  /** A positive multiple of `n` is at least `n`. */
  lemma {:induction false} MulGe(d: int, n: int)
    requires d >= 1 && n > 0
    ensures d * n >= n
    decreases d
  {
    if d > 1 {
      MulGe(d - 1, n);
      assert d * n == (d - 1) * n + n;
    }
  }
}
