// Sorting index lists. Every comparator in the engine is lexicographic over at
// most four integer fields, so a comparator is a SortKey per index. The sort is
// specified only by what an unstable library sort promises: the same indices,
// in non-descending key order. Indices with equal keys may come out either way.

module Ordering {
  import opened Sums

  datatype SortKey = SortKey(a: int, b: int, c: int, d: int)

  predicate Less(x: SortKey, y: SortKey) {
    if x.a != y.a then x.a < y.a
    else if x.b != y.b then x.b < y.b
    else if x.c != y.c then x.c < y.c
    else x.d < y.d
  }

  ghost predicate SortedBy(keys: seq<SortKey>, order: seq<nat>) {
    && InRange(order, |keys|)
    && Distinct(order)
    && forall p, q :: 0 <= p < q < |order| ==> !Less(keys[order[q]], keys[order[p]])
  }

  ghost predicate SameMembers(o1: seq<nat>, o2: seq<nat>) {
    forall i: nat :: i in o1 <==> i in o2
  }

  /** Distinct listed indices carry distinct keys. */
  ghost predicate DistinctKeys(keys: seq<SortKey>, order: seq<nat>)
    requires InRange(order, |keys|)
  {
    forall i, j :: i in order && j in order && i != j ==> keys[i] != keys[j]
  }

  method Sort(keys: seq<SortKey>, indices: seq<nat>) returns (order: seq<nat>)
    requires InRange(indices, |keys|) && Distinct(indices)
    ensures SortedBy(keys, order)
    ensures SameMembers(order, indices)
  {
    order := [];
    for n := 0 to |indices|
      invariant SortedBy(keys, order)
      invariant SameMembers(order, indices[..n])
      invariant |order| == n
    {
      var x := indices[n];
      var k := n;
      while k > 0 && Less(keys[x], keys[order[k - 1]])
        invariant 0 <= k <= n
        invariant forall q :: k <= q < n ==> Less(keys[x], keys[order[q]])
      {
        k := k - 1;
      }
      assert x !in order by {
        assert x !in indices[..n];
      }
      InsertKeepsSorted(keys, order, k, x);
      InsertMembers(order, k, x);
      assert indices[..n + 1] == indices[..n] + [x];
      order := Insert(order, k, x);
    }
    assert indices[..|indices|] == indices;
  }

  function Insert(order: seq<nat>, k: nat, x: nat): (after: seq<nat>)
    requires k <= |order|
    ensures |after| == |order| + 1
    ensures forall p :: 0 <= p < |after| ==>
      after[p] == if p < k then order[p] else if p == k then x else order[p - 1]
  {
    order[..k] + [x] + order[k..]
  }

  lemma {:induction false} InsertMembers(order: seq<nat>, k: nat, x: nat)
    requires k <= |order|
    ensures forall i: nat :: i in Insert(order, k, x) <==> i in order || i == x
  {
    assert order == order[..k] + order[k..];
  }

  lemma {:induction false} InsertKeepsSorted(keys: seq<SortKey>, order: seq<nat>, k: nat, x: nat)
    requires SortedBy(keys, order) && x < |keys| && x !in order && k <= |order|
    requires forall q :: k <= q < |order| ==> Less(keys[x], keys[order[q]])
    requires k > 0 ==> !Less(keys[x], keys[order[k - 1]])
    ensures SortedBy(keys, Insert(order, k, x))
  {
    var after := Insert(order, k, x);
    forall p, q | 0 <= p < q < |after|
      ensures !Less(keys[after[q]], keys[after[p]])
    {
      if q == k {
        NotLessThanEarlier(keys, order, k, x, p);
      } else if p == k {
        Asymmetric(keys[x], keys[order[q - 1]]);
      }
    }
  }

  lemma {:induction false} Asymmetric(x: SortKey, y: SortKey)
    ensures !(Less(x, y) && Less(y, x))
  {
  }

  lemma {:induction false} NotLessThanEarlier(keys: seq<SortKey>, order: seq<nat>, k: nat, x: nat, p: nat)
    requires SortedBy(keys, order) && x < |keys| && p < k <= |order|
    requires !Less(keys[x], keys[order[k - 1]])
    ensures !Less(keys[x], keys[order[p]])
  {
    if p < k - 1 {
      assert !Less(keys[order[k - 1]], keys[order[p]]);
    }
  }

  /** With distinct keys there is only one sorted order. */
  lemma {:induction false} SortedOrderIsUnique(keys: seq<SortKey>, o1: seq<nat>, o2: seq<nat>)
    requires SortedBy(keys, o1) && SortedBy(keys, o2) && SameMembers(o1, o2)
    requires DistinctKeys(keys, o1)
    ensures o1 == o2
    decreases |o1|
  {
    BothOrNeitherEmpty(o1, o2);
    if o1 != [] {
      LastsAgree(keys, o1, o2);
      DropSameLast(o1, o2);
      FrontStaysSorted(keys, o1);
      FrontStaysSorted(keys, o2);
      SortedOrderIsUnique(keys, o1[..|o1| - 1], o2[..|o2| - 1]);
      assert o1 == o1[..|o1| - 1] + [o1[|o1| - 1]] && o2 == o2[..|o2| - 1] + [o1[|o1| - 1]];
    }
  }

  lemma {:induction false} BothOrNeitherEmpty(o1: seq<nat>, o2: seq<nat>)
    requires SameMembers(o1, o2)
    ensures o1 == [] <==> o2 == []
  {
    assert o1 == [] || o1[0] in o2;
    assert o2 == [] || o2[0] in o1;
  }

  lemma {:induction false} FrontStaysSorted(keys: seq<SortKey>, o: seq<nat>)
    requires SortedBy(keys, o) && o != []
    ensures SortedBy(keys, o[..|o| - 1])
    ensures DistinctKeys(keys, o) ==> DistinctKeys(keys, o[..|o| - 1])
  {
    assert forall i :: i in o[..|o| - 1] ==> i in o;
  }

  lemma {:induction false} DropSameLast(o1: seq<nat>, o2: seq<nat>)
    requires o1 != [] && o2 != [] && o1[|o1| - 1] == o2[|o2| - 1]
    requires Distinct(o1) && Distinct(o2) && SameMembers(o1, o2)
    ensures SameMembers(o1[..|o1| - 1], o2[..|o2| - 1])
  {
    var f1, f2 := o1[..|o1| - 1], o2[..|o2| - 1];
    MembersOfFront(o1);
    MembersOfFront(o2);
    forall i: nat
      ensures i in f1 <==> i in f2
    {
      assert i in o1 <==> i in o2;
    }
  }

  lemma {:induction false} MembersOfFront(o: seq<nat>)
    requires o != [] && Distinct(o)
    ensures forall i: nat :: i in o[..|o| - 1] <==> i in o && i != o[|o| - 1]
  {
    var f := o[..|o| - 1];
    assert o == f + [o[|o| - 1]];
  }

  lemma {:induction false} LastsAgree(keys: seq<SortKey>, o1: seq<nat>, o2: seq<nat>)
    requires SortedBy(keys, o1) && SortedBy(keys, o2) && SameMembers(o1, o2)
    requires DistinctKeys(keys, o1) && o1 != [] && o2 != []
    ensures o1[|o1| - 1] == o2[|o2| - 1]
  {
    var m1, m2 := o1[|o1| - 1], o2[|o2| - 1];
    assert m1 in o2 && m2 in o1;
    var p :| 0 <= p < |o2| && o2[p] == m1;
    var q :| 0 <= q < |o1| && o1[q] == m2;
    assert !Less(keys[m2], keys[m1]) || m1 == m2;
    assert !Less(keys[m1], keys[m2]) || m1 == m2;
  }

  /** A sorted order puts the smaller key first. */
  lemma {:induction false} SmallerComesFirst(keys: seq<SortKey>, order: seq<nat>, p: nat, q: nat)
    requires SortedBy(keys, order) && p < |order| && q < |order|
    requires Less(keys[order[p]], keys[order[q]])
    ensures p < q
  {
  }
}
