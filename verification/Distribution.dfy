// Both distribution passes over a policy, and what a valid policy guarantees.

module Distribution {
  import opened Core
  import opened Sums
  import opened Allocation
  import opened Allocator
  import opened Forest
  import opened Policy
  import opened Distributor
  import opened Scatter

  /** What one pass returned. */
  datatype PassResult = PassResult(spread: Spread, overcommit: bool, shortfall: nat)

  /** The base pass ignores the subjects' modifiers, the effective pass applies them. */
  datatype Distributed = Distributed(base: PassResult, effective: PassResult)

  // --- A valid policy's forest ------------------------------------------------------

  lemma {:induction false} MembersBounded(owner: seq<Option<nat>>, g: nat, m: nat)
    requires m <= |owner|
    ensures |Members(owner, g, m)| <= m
  {
    if m > 0 {
      MembersBounded(owner, g, m - 1);
    }
  }

  lemma {:induction false} UnownedBounded(owner: seq<Option<nat>>, m: nat)
    requires m <= |owner|
    ensures |Unowned(owner, m)| <= m
  {
    if m > 0 {
      UnownedBounded(owner, m - 1);
    }
  }

  ghost predicate Moderate(c: Input) {
    1 <= c.weight <= MAX_WEIGHT && c.floor <= MAX_SERVICE_UNITS
  }

  lemma {:induction false} GroupInputModerate(g: Group)
    requires GroupStatus(g) == Okay
    ensures Moderate(GroupInput(g))
  {
    WeightBounds(g.shareWeight, 0);
  }

  lemma {:induction false} SubjectInputModerate(p: FairnessPolicy, s: Subject, useModifier: bool)
    requires SubjectStatus(p, s) == Okay
    ensures Moderate(SubjectInput(s, useModifier))
  {
    WeightBounds(s.shareWeight, if useModifier then s.modifierBps else 0);
  }

  lemma {:induction false} ValidWellFormed(p: FairnessPolicy, useModifier: bool)
    requires ValidPolicy(p)
    ensures ForestOf(p, useModifier).WellFormed()
  {
    forall s | 0 <= s < |p.subjects|
      ensures HomeOf(p.groups, p.subjects[s]).Some?
    {
      assert SubjectHolds(p, p.subjects[s]);
    }
  }

  lemma {:induction false} ValidInputs(p: FairnessPolicy, useModifier: bool)
    requires ValidPolicy(p)
    ensures forall g :: 0 <= g < |p.groups| ==> Moderate(ForestOf(p, useModifier).groupInputs[g])
    ensures forall s :: 0 <= s < |p.subjects| ==> Moderate(ForestOf(p, useModifier).subjectInputs[s])
  {
    forall g | 0 <= g < |p.groups|
      ensures Moderate(ForestOf(p, useModifier).groupInputs[g])
    {
      GroupInputModerate(p.groups[g]);
    }
    forall s | 0 <= s < |p.subjects|
      ensures Moderate(ForestOf(p, useModifier).subjectInputs[s])
    {
      assert SubjectHolds(p, p.subjects[s]);
      SubjectInputModerate(p, p.subjects[s], useModifier);
    }
  }

  lemma {:induction false} ModerateForestIsAffordable(f: Forest)
    requires f.WellFormed() && |f.parents| <= MAX_GROUPS && |f.homes| <= MAX_SUBJECTS
    requires forall g :: 0 <= g < |f.groupInputs| ==> Moderate(f.groupInputs[g])
    requires forall s :: 0 <= s < |f.subjectInputs| ==> Moderate(f.subjectInputs[s])
    ensures Affordable(f)
  {
    UnownedBounded(f.parents, |f.parents|);
    forall g | 0 <= g < |f.parents|
      ensures AffordableInputs(InputsFor(f, g))
    {
      MembersBounded(f.parents, g, |f.parents|);
      MembersBounded(f.homes, g, |f.homes|);
    }
  }

  /** Everything a valid policy distributes is within the allocator's domain. */
  lemma {:induction false} ValidIsAffordable(p: FairnessPolicy, useModifier: bool)
    requires ValidPolicy(p)
    ensures Affordable(ForestOf(p, useModifier))
  {
    ValidWellFormed(p, useModifier);
    ValidInputs(p, useModifier);
    ModerateForestIsAffordable(ForestOf(p, useModifier));
  }

  /** No group of a valid policy is empty. */
  lemma {:induction false} ValidHasNoEmptyGroup(p: FairnessPolicy, useModifier: bool, g: nat)
    requires ValidPolicy(p) && g < |p.groups| && ForestOf(p, useModifier).WellFormed()
    ensures InputsFor(ForestOf(p, useModifier), g) != []
  {
    var f := ForestOf(p, useModifier);
    assert GroupHolds(p, p.groups[g]);
    var s :| 0 <= s < |p.subjects| && p.subjects[s].group == p.groups[g].id;
    assert f.homes[s] == HomeOf(p.groups, p.subjects[s]);
    assert f.homes[s].value == g;
    assert s in f.Folk(g);
  }

  /** For a valid policy, every group was divided. */
  lemma {:induction false} TopDownIsDistribution(p: FairnessPolicy, useModifier: bool, a: Spread, whole: nat)
    requires ValidPolicy(p) && IsTopDown(ForestOf(p, useModifier), a, whole)
    ensures IsDistribution(ForestOf(p, useModifier), a, whole)
  {
    var f := ForestOf(p, useModifier);
    forall g | 0 <= g < |f.parents|
      ensures Divided(f, a, g)
    {
      ValidHasNoEmptyGroup(p, useModifier, g);
      assert DividedOrEmpty(f, a, g);
    }
  }

  // --- The passes -----------------------------------------------------------------------

  lemma {:induction false} TreeFits(tree: Tree, useModifier: bool)
    requires IsTree(tree)
    ensures Fits(ForestOf(tree.policy, useModifier), tree)
    ensures ForestOf(tree.policy, useModifier).Roots() == ForestOf(tree.policy, false).Roots()
  {
    var (f, f') := (ForestOf(tree.policy, false), ForestOf(tree.policy, useModifier));
    assert f.parents == f'.parents && f.homes == f'.homes;
  }

  lemma {:induction false} ValidHasRoots(p: FairnessPolicy, useModifier: bool)
    requires ValidPolicy(p)
    ensures ForestOf(p, useModifier).Roots() != []
  {
    ValidMeansGrouped(p);
    RootsExist(p.groups);
  }

  method RunPass(tree: Tree, useModifier: bool, whole: u64) returns (r: Result<PassResult>)
    requires IsTree(tree)
    ensures r.Ok? ==> IsTopDown(ForestOf(tree.policy, useModifier), r.value.spread, whole)
    ensures r.Err? ==> r.status in {InvalidArgument, LimitExceeded, OutOfRange, ArithmeticOverflow}
    ensures ValidPolicy(tree.policy) ==> r.Ok? && IsDistribution(ForestOf(tree.policy, useModifier), r.value.spread, whole)
  {
    TreeFits(tree, useModifier);
    var pass := new Pass(ForestOf(tree.policy, useModifier), tree);
    if ValidPolicy(tree.policy) {
      ValidIsAffordable(tree.policy, useModifier);
      ValidHasRoots(tree.policy, useModifier);
    }
    var status := pass.Run(whole);
    if status != Okay {
      return Err(status);
    }
    r := Ok(PassResult(Spread(pass.groups, pass.subjects, pass.binding), pass.overcommit, pass.shortfall));
    if ValidPolicy(tree.policy) {
      TopDownIsDistribution(tree.policy, useModifier, r.value.spread, whole);
    }
  }

  /** A distribution of the whole over the policy's forest, under both weightings. */
  ghost predicate IsDistributed(p: FairnessPolicy, d: Distributed, whole: nat) {
    && IsDistribution(ForestOf(p, false), d.base.spread, whole)
    && IsDistribution(ForestOf(p, true), d.effective.spread, whole)
  }

  /** Runs the base and the effective pass. A valid policy always distributes. */
  method Distribute(tree: Tree, whole: u64) returns (r: Result<Distributed>)
    requires IsTree(tree)
    ensures r.Err? ==> r.status in {InvalidArgument, LimitExceeded, OutOfRange, ArithmeticOverflow}
    ensures r.Ok? ==>
      && IsTopDown(ForestOf(tree.policy, false), r.value.base.spread, whole)
      && IsTopDown(ForestOf(tree.policy, true), r.value.effective.spread, whole)
    ensures ValidPolicy(tree.policy) ==> r.Ok? && IsDistributed(tree.policy, r.value, whole)
  {
    var base := RunPass(tree, false, whole);
    if base.Err? {
      return Err(base.status);
    }
    var effective := RunPass(tree, true, whole);
    if effective.Err? {
      return Err(effective.status);
    }
    r := Ok(Distributed(base.value, effective.value));
  }

  /** Under both weightings the subjects together receive exactly the whole. */
  lemma {:induction false} EntitlementsSumToWhole(p: FairnessPolicy, d: Distributed, whole: nat)
    requires IsDistributed(p, d, whole)
    ensures |d.base.spread.subjects| == |d.effective.spread.subjects| == |p.subjects|
    ensures Sum(d.base.spread.subjects) == Sum(d.effective.spread.subjects) == whole
    ensures forall s :: 0 <= s < |p.subjects| ==> d.effective.spread.subjects[s] <= whole && d.base.spread.subjects[s] <= whole
  {
    DistributionConserves(ForestOf(p, false), d.base.spread, whole);
    DistributionConserves(ForestOf(p, true), d.effective.spread, whole);
    forall s | 0 <= s < |p.subjects|
      ensures d.effective.spread.subjects[s] <= whole && d.base.spread.subjects[s] <= whole
    {
      SumElement(d.effective.spread.subjects, s);
      SumElement(d.base.spread.subjects, s);
    }
  }
}
