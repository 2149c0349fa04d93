// Identical contexts yield identical decisions.

module Determinism {
  import opened Core
  import opened Sums
  import opened Ordering
  import opened Greedy
  import AllocationLaws
  import F = Forest
  import opened Policy
  import opened Distributor
  import opened Distribution
  import opened Decision
  import opened Planner
  import opened Budget
  import opened Engine
  import opened OneAnswer

  lemma {:induction false} LayeredForest(p: FairnessPolicy) returns (depth: seq<nat>)
    requires AllRooted(p.groups)
    ensures Layered(Parents(p.groups), depth)
  {
    depth := seq(|p.groups|, i requires 0 <= i < |p.groups| => DepthOf(p.groups, i, MAX_GROUP_DEPTH));
    DepthsLayer(p.groups, depth);
  }

  lemma {:induction false} OnePass(p: FairnessPolicy, useModifier: bool, a: F.Spread, b: F.Spread, whole: nat)
    requires DistinctGroupIds(p.groups) && DistinctSubjectIds(p.subjects) && AllRooted(p.groups) && SiblingKeys(p)
    requires F.IsDistribution(ForestOf(p, useModifier), a, whole) && F.IsDistribution(ForestOf(p, useModifier), b, whole)
    ensures a == b
  {
    var depth := LayeredForest(p);
    SiblingKeysOwnKeys(p, useModifier);
    OwnKeysIdentify(ForestOf(p, useModifier));
    OneSpread(ForestOf(p, useModifier), depth, a, b, whole);
  }

  lemma {:induction false} OneSharing(p: FairnessPolicy, d: Distributed, d': Distributed, whole: nat)
    requires ValidPolicy(p) && SiblingKeys(p) && IsDistributed(p, d, whole) && IsDistributed(p, d', whole)
    ensures d.base.spread == d'.base.spread && d.effective.spread == d'.effective.spread
  {
    OnePass(p, false, d.base.spread, d'.base.spread, whole);
    OnePass(p, true, d.effective.spread, d'.effective.spread, whole);
  }

  lemma {:induction false} OnePreparation(c: Context, d: Distributed, d': Distributed, plans: seq<Plan>, plans': seq<Plan>)
    requires Sized(c.policy, d) && Sized(c.policy, d') && d.base.spread == d'.base.spread && d.effective.spread == d'.effective.spread
    requires IsPrepared(c, SharesOf(c.policy, d), plans) && IsPrepared(c, SharesOf(c.policy, d'), plans')
    ensures plans == plans'
  {
    assert SharesOf(c.policy, d) == SharesOf(c.policy, d');
    forall i | 0 <= i < |plans|
      ensures plans[i] == plans'[i]
    {
      assert Prepared(c, c.policy.subjects[i], SharesOf(c.policy, d)[i]) == Some(plans[i]);
    }
  }

  lemma {:induction false} SubjectsApart(subjects: seq<Subject>, i: nat, j: nat)
    requires DistinctSubjectIds(subjects) && i < |subjects| && j < |subjects| && i != j
    ensures subjects[i].id != subjects[j].id
  {
    if i < j {
      assert subjects[i].id != subjects[j].id;
    } else {
      assert subjects[j].id != subjects[i].id;
    }
  }

  lemma {:induction false} OneOrderOfBoth(subjects: seq<Subject>, plans: seq<Plan>, o1: seq<nat>, o2: seq<nat>, s1: seq<nat>, s2: seq<nat>)
    requires |subjects| == |plans| && DistinctSubjectIds(subjects)
    requires LegalDemand(subjects, plans, o1) && LegalDemand(subjects, plans, o2)
    requires LegalSupply(subjects, plans, s1) && LegalSupply(subjects, plans, s2)
    ensures o1 == o2 && s1 == s2
  {
    forall i, j | 0 <= i < |plans| && 0 <= j < |plans| && i != j
      ensures DemandKeys(subjects, plans)[i] != DemandKeys(subjects, plans)[j]
      ensures SupplyKeys(subjects, plans)[i] != SupplyKeys(subjects, plans)[j]
    {
      SubjectsApart(subjects, i, j);
    }
    AllocationLaws.OneOrder(DemandKeys(subjects, plans), o1, o2);
    AllocationLaws.OneOrder(SupplyKeys(subjects, plans), s1, s2);
  }

  lemma {:induction false} OneGranting(c: Context, w: Work, w': Work)
    requires Works(c, w) && Works(c, w') && w.plans == w'.plans && DistinctSubjectIds(c.policy.subjects)
    ensures w.demandOrder == w'.demandOrder && w.supplyOrder == w'.supplyOrder
    ensures w.augments == w'.augments && w.reduces == w'.reduces
  {
    OneOrderOfBoth(c.policy.subjects, w.plans, w.demandOrder, w'.demandOrder, w.supplyOrder, w'.supplyOrder);
  }

  /** A context whose divisions have distinct tie-break keys has exactly one decision,
      however the sorts break ties. */
  lemma {:induction false} OneDecision(c: Context, w: Work, content: Content, w': Work, content': Content)
    requires ValidPolicy(c.policy) && SiblingKeys(c.policy)
    requires Decides(c, w, content) && Decides(c, w', content')
    ensures content == content'
  {
    OneSharing(c.policy, w.distributed, w'.distributed, WholeOf(c));
    OnePreparation(c, w.distributed, w'.distributed, w.plans, w'.plans);
    OneGranting(c, w, w');
    SameContent(c, w, w');
  }

  lemma {:induction false} SameContent(c: Context, w: Work, w': Work)
    requires |w.plans| == |w.augments| == |w.reduces| == |c.policy.subjects|
    requires InRange(w.demandOrder, |w.plans|) && InRange(w.supplyOrder, |w.plans|)
    requires w.plans == w'.plans && w.demandOrder == w'.demandOrder && w.supplyOrder == w'.supplyOrder
    requires w.augments == w'.augments && w.reduces == w'.reduces
    ensures ContentOf(c, w) == ContentOf(c, w')
  {
    assert Summary(c, w) == Summary(c, w');
    assert FinalPlans(c, w) == FinalPlans(c, w');
    assert IntentsOf(c, w, FinalPlans(c, w)) == IntentsOf(c, w', FinalPlans(c, w'));
  }
}
