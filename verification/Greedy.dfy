// Handing out a budget along a fixed order: each position takes as much of what
// remains as its cap allows. Four loops of the engine do exactly this.

module Greedy {
  import opened Core
  import opened Sums

  /** What each index receives when the budget is spent along the order. */
  ghost function Grants(caps: seq<nat>, order: seq<nat>, budget: nat): (g: seq<nat>)
    requires InRange(order, |caps|)
    ensures |g| == |caps|
  {
    if order == [] then seq(|caps|, i => 0)
    else
      var front := order[..|order| - 1];
      var i := order[|order| - 1];
      Grants(caps, front, budget)[i := Min(caps[i], Monus(budget, Sum(Gather(caps, front))))]
  }

  method GrantAlong(caps: seq<nat>, order: seq<nat>, budget: nat) returns (g: seq<nat>, remaining: nat)
    requires InRange(order, |caps|) && Distinct(order)
    ensures g == Grants(caps, order, budget)
    ensures remaining == budget - Sum(g)
    ensures remaining == Monus(budget, Sum(Gather(caps, order)))
  {
    g := seq(|caps|, i => 0);
    SumOfZeros(g);
    remaining := budget;
    for k := 0 to |order|
      invariant |g| == |caps|
      invariant g == Grants(caps, order[..k], budget)
      invariant remaining == budget - Sum(g)
      invariant remaining == Monus(budget, Sum(Gather(caps, order[..k])))
      invariant forall i :: 0 <= i < |caps| && i !in order[..k] ==> g[i] == 0
    {
      var i := order[k];
      var take := Min(caps[i], remaining);
      GatherStep(caps, order, k);
      SumConcat(Gather(caps, order[..k]), [caps[i]]);
      assert Sum([caps[i]]) == caps[i];
      assert order[..k + 1][..k] == order[..k];
      assert i !in order[..k];
      SumUpdate(g, i, take);
      g := g[i := take];
      remaining := remaining - take;
    }
    assert order[..|order|] == order;
  }

  /** Closed form: the k-th in line gets what its predecessors' caps leave. */
  lemma {:induction false} GrantAt(caps: seq<nat>, order: seq<nat>, budget: nat, k: nat)
    requires InRange(order, |caps|) && Distinct(order) && k < |order|
    ensures Grants(caps, order, budget)[order[k]] == Min(caps[order[k]], Monus(budget, Sum(Gather(caps, order[..k]))))
  {
    if k < |order| - 1 {
      var front := order[..|order| - 1];
      GrantAt(caps, front, budget, k);
      assert front[..k] == order[..k];
      assert order[k] != order[|order| - 1];
    }
  }

  lemma {:induction false} NothingOutsideTheOrder(caps: seq<nat>, order: seq<nat>, budget: nat, i: nat)
    requires InRange(order, |caps|) && i < |caps| && i !in order
    ensures Grants(caps, order, budget)[i] == 0
  {
    if order != [] {
      NothingOutsideTheOrder(caps, order[..|order| - 1], budget, i);
    }
  }

  lemma {:induction false} GrantedMeansListed(caps: seq<nat>, order: seq<nat>, budget: nat, i: nat)
    requires InRange(order, |caps|) && i < |caps| && Grants(caps, order, budget)[i] > 0
    ensures i in order
  {
    if i !in order {
      NothingOutsideTheOrder(caps, order, budget, i);
    }
  }

  /** The grants total the budget, or everything the caps allow. */
  lemma {:induction false} GrantTotal(caps: seq<nat>, order: seq<nat>, budget: nat)
    requires InRange(order, |caps|) && Distinct(order)
    ensures Sum(Grants(caps, order, budget)) == Min(budget, Sum(Gather(caps, order)))
  {
    if order == [] {
      SumOfZeros(Grants(caps, order, budget));
    } else {
      var k := |order| - 1;
      var front, i := order[..k], order[k];
      GrantTotal(caps, front, budget);
      NothingOutsideTheOrder(caps, front, budget, i);
      SumUpdate(Grants(caps, front, budget), i, Min(caps[i], Monus(budget, Sum(Gather(caps, front)))));
      assert Sum(Gather(caps, order)) == Sum(Gather(caps, front)) + caps[i] by {
        GatherStep(caps, order, k);
        assert order[..k + 1] == order;
        SumConcat(Gather(caps, front), [caps[i]]);
      }
    }
  }

  /** An order covering every non-zero cap spends any budget the caps allow. */
  lemma {:induction false} BudgetIsSpent(caps: seq<nat>, order: seq<nat>, budget: nat)
    requires InRange(order, |caps|) && Distinct(order)
    requires forall i :: 0 <= i < |caps| && caps[i] > 0 ==> i in order
    ensures Sum(Gather(caps, order)) == Sum(caps)
    ensures Sum(Grants(caps, order, budget)) == Min(budget, Sum(caps))
  {
    SumAlongOrder(caps, order);
    assert Mask(caps, order) == caps;
    GrantTotal(caps, order, budget);
  }

  lemma {:induction false} GrantsWithinCaps(caps: seq<nat>, order: seq<nat>, budget: nat)
    requires InRange(order, |caps|) && Distinct(order)
    ensures forall i :: 0 <= i < |caps| ==> Grants(caps, order, budget)[i] <= caps[i]
  {
    forall i | 0 <= i < |caps|
      ensures Grants(caps, order, budget)[i] <= caps[i]
    {
      if i in order {
        var k :| 0 <= k < |order| && order[k] == i;
        GrantAt(caps, order, budget, k);
      } else {
        NothingOutsideTheOrder(caps, order, budget, i);
      }
    }
  }

  /** Full, at most one partial, then nothing: whoever receives anything has
      every predecessor filled to its cap. */
  lemma {:induction false} FullBeforeAnything(caps: seq<nat>, order: seq<nat>, budget: nat, p: nat, q: nat)
    requires InRange(order, |caps|) && Distinct(order) && p < q < |order|
    requires Grants(caps, order, budget)[order[q]] > 0
    ensures Grants(caps, order, budget)[order[p]] == caps[order[p]]
  {
    GrantAt(caps, order, budget, p);
    GrantAt(caps, order, budget, q);
    GatherStep(caps, order, p);
    SumConcat(Gather(caps, order[..p]), [caps[order[p]]]);
    assert Gather(caps, order[..q])[..p + 1] == Gather(caps, order[..p + 1]);
    SumPrefix(Gather(caps, order[..q]), p + 1);
  }
}
