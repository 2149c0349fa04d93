// Finite sums over sequences, and how they behave under gathering by an index
// order. Every "total" the runtime accumulates in a loop is one of these.

module Sums {
  function Sum(s: seq<int>): int {
    if s == [] then 0 else Sum(s[..|s| - 1]) + s[|s| - 1]
  }

  function Gather(f: seq<int>, order: seq<nat>): (g: seq<int>)
    requires InRange(order, |f|)
    ensures |g| == |order|
  {
    seq(|order|, k requires 0 <= k < |order| => f[order[k]])
  }

  /** f with every position outside the order replaced by zero. */
  ghost function Mask(f: seq<int>, order: seq<nat>): (m: seq<int>)
    ensures |m| == |f|
  {
    seq(|f|, i requires 0 <= i < |f| => if i in order then f[i] else 0)
  }

  ghost predicate InRange(order: seq<nat>, n: nat) {
    forall k :: 0 <= k < |order| ==> order[k] < n
  }

  ghost predicate Distinct<T>(s: seq<T>) {
    forall i, j :: 0 <= i < j < |s| ==> s[i] != s[j]
  }

  /** The order lists each index below n exactly once. */
  ghost predicate Permutes(order: seq<nat>, n: nat) {
    InRange(order, n) && Distinct(order) && forall i: nat :: i < n ==> i in order
  }

  lemma {:induction false} SumStep(s: seq<int>, i: nat)
    requires i < |s|
    ensures Sum(s[..i + 1]) == Sum(s[..i]) + s[i]
  {
    assert s[..i + 1][..i] == s[..i];
  }

  lemma {:induction false} SumConcat(a: seq<int>, b: seq<int>)
    ensures Sum(a + b) == Sum(a) + Sum(b)
  {
    if b == [] {
      assert a + b == a;
    } else {
      var c := b[..|b| - 1];
      SumConcat(a, c);
      assert (a + b)[..|a + b| - 1] == a + c;
    }
  }

  lemma {:induction false} SumUpdate(s: seq<int>, i: nat, v: int)
    requires i < |s|
    ensures Sum(s[i := v]) == Sum(s) - s[i] + v
  {
    var t := s[..|s| - 1];
    if i == |s| - 1 {
      assert s[i := v][..|s| - 1] == t;
    } else {
      SumUpdate(t, i, v);
      assert s[i := v][..|s| - 1] == t[i := v];
    }
  }

  lemma {:induction false} SumLe(a: seq<int>, b: seq<int>)
    requires |a| == |b| && forall i :: 0 <= i < |a| ==> a[i] <= b[i]
    ensures Sum(a) <= Sum(b)
  {
    if a != [] {
      SumLe(a[..|a| - 1], b[..|b| - 1]);
    }
  }

  /** Sums are linear: a pointwise combination sums to the same combination. */
  lemma {:induction false} SumLinear(a: seq<int>, k: int, b: seq<int>, c: seq<int>)
    requires |a| == |b| == |c|
    requires forall i :: 0 <= i < |a| ==> a[i] == k * b[i] + c[i]
    ensures Sum(a) == k * Sum(b) + Sum(c)
  {
    if a != [] {
      var n := |a| - 1;
      SumLinear(a[..n], k, b[..n], c[..n]);
      assert a[n] == k * b[n] + c[n];
      assert k * Sum(b) == k * Sum(b[..n]) + k * b[n];
    }
  }

  lemma {:induction false} SumBounds(s: seq<int>, lo: int, hi: int)
    requires forall i :: 0 <= i < |s| ==> lo <= s[i] <= hi
    ensures |s| * lo <= Sum(s) <= |s| * hi
  {
    if s != [] {
      SumBounds(s[..|s| - 1], lo, hi);
      assert |s| * lo == (|s| - 1) * lo + lo && |s| * hi == (|s| - 1) * hi + hi;
    }
  }

  lemma {:induction false} SumOfZeros(s: seq<int>)
    requires forall i :: 0 <= i < |s| ==> s[i] == 0
    ensures Sum(s) == 0
  {
    SumBounds(s, 0, 0);
  }

  lemma {:induction false} SumElement(s: seq<int>, i: nat)
    requires i < |s| && forall j :: 0 <= j < |s| ==> 0 <= s[j]
    ensures s[i] <= Sum(s)
  {
    var zeros := seq(|s|, j => 0);
    SumOfZeros(zeros);
    SumUpdate(zeros, i, s[i]);
    SumLe(zeros[i := s[i]], s);
  }

  lemma {:induction false} SumPrefix(s: seq<int>, k: nat)
    requires k <= |s| && forall j :: 0 <= j < |s| ==> 0 <= s[j]
    ensures 0 <= Sum(s[..k]) <= Sum(s)
  {
    SumConcat(s[..k], s[k..]);
    assert s[..k] + s[k..] == s;
    SumNonNegative(s[..k]);
    SumNonNegative(s[k..]);
  }

  lemma {:induction false} SumNonNegative(s: seq<int>)
    requires forall j :: 0 <= j < |s| ==> 0 <= s[j]
    ensures 0 <= Sum(s)
  {
    if s != [] {
      SumNonNegative(s[..|s| - 1]);
    }
  }

  lemma {:induction false} GatherStep(f: seq<int>, order: seq<nat>, k: nat)
    requires InRange(order, |f|) && k < |order|
    ensures Gather(f, order[..k + 1]) == Gather(f, order[..k]) + [f[order[k]]]
  {
  }

  /** Summing along a duplicate-free order counts each listed position once. */
  lemma {:induction false} SumAlongOrder(f: seq<int>, order: seq<nat>)
    requires InRange(order, |f|) && Distinct(order)
    ensures Sum(Gather(f, order)) == Sum(Mask(f, order))
  {
    if order == [] {
      SumOfZeros(Mask(f, order));
    } else {
      var k := |order| - 1;
      var front, i := order[..k], order[k];
      SumAlongOrder(f, front);
      GatherStep(f, order, k);
      assert order[..k + 1] == order;
      SumConcat(Gather(f, front), [f[i]]);
      assert i !in front;
      SumUpdate(Mask(f, front), i, f[i]);
      assert Mask(f, order) == Mask(f, front)[i := f[i]];
    }
  }

  /** A permutation of a sequence has the same sum. */
  lemma {:induction false} SumPermuted(f: seq<int>, order: seq<nat>)
    requires Permutes(order, |f|)
    ensures Sum(Gather(f, order)) == Sum(f)
  {
    SumAlongOrder(f, order);
    assert Mask(f, order) == f;
  }

  /** A duplicate-free list of indices below n has at most n of them. */
  lemma {:induction false} DistinctBounded(order: seq<nat>, n: nat)
    requires InRange(order, n) && Distinct(order)
    ensures |order| <= n
  {
    var ones := seq(n, i => 1);
    SumAlongOrder(ones, order);
    SumBounds(Gather(ones, order), 1, 1);
    SumBounds(Mask(ones, order), 0, 1);
  }

  /** What is zero outside an order can be summed along it. */
  lemma {:induction false} SumWhereListed(f: seq<int>, order: seq<nat>)
    requires InRange(order, |f|) && Distinct(order)
    requires forall i :: 0 <= i < |f| && f[i] != 0 ==> i in order
    ensures Sum(Gather(f, order)) == Sum(f)
  {
    SumAlongOrder(f, order);
    assert Mask(f, order) == f;
  }
}
