// Every division of a distribution in the policy's own terms: who competes, with
// which weight, floor, obligation and identity, and what that entitles them to.

module Siblings {
  import opened Core
  import opened Sums
  import opened Allocation
  import opened AllocationLaws
  import opened AllocationAnswers
  import opened Forest
  import opened Policy
  import opened Distributor
  import opened Distribution

  datatype Child = ChildGroup(g: nat) | ChildSubject(s: nat)

  /** The direct children of the group with an identity; root groups are those of
      identity zero. */
  ghost predicate IsChild(p: FairnessPolicy, id: u64, c: Child) {
    match c
    case ChildGroup(g) => g < |p.groups| && p.groups[g].parent == id
    case ChildSubject(s) => s < |p.subjects| && p.subjects[s].group == id
  }

  ghost predicate Governed(p: FairnessPolicy, c: Child) {
    match c
    case ChildGroup(g) => g < |p.groups|
    case ChildSubject(s) => s < |p.subjects|
  }

  ghost function FloorOf(p: FairnessPolicy, c: Child): nat
    requires Governed(p, c)
  {
    match c
    case ChildGroup(g) => p.groups[g].floor
    case ChildSubject(s) => p.subjects[s].floor
  }

  ghost function RankOf(p: FairnessPolicy, c: Child): nat
    requires Governed(p, c)
  {
    match c
    case ChildGroup(g) => p.groups[g].rank
    case ChildSubject(s) => p.subjects[s].rank
  }

  /** Weights are in basis points of a share; only the effective pass applies a
      subject's modifier, and no modifier takes a weight below one basis point. */
  ghost function WeightOf(p: FairnessPolicy, useModifier: bool, c: Child): nat
    requires Governed(p, c)
  {
    match c
    case ChildGroup(g) => p.groups[g].shareWeight * 10000
    case ChildSubject(s) => p.subjects[s].shareWeight * if useModifier then Max(1, 10000 + p.subjects[s].modifierBps) else 10000
  }

  /** Ties go to groups before subjects, and to smaller identities. */
  ghost function TieOf(p: FairnessPolicy, c: Child): nat
    requires Governed(p, c)
  {
    match c
    case ChildGroup(g) => p.groups[g].id
    case ChildSubject(s) => if p.subjects[s].id < 0x8000_0000_0000_0000 then p.subjects[s].id + 0x8000_0000_0000_0000 else p.subjects[s].id
  }

  ghost function Got(a: Spread, c: Child): nat
    requires c.ChildGroup? ==> c.g < |a.groups|
    requires c.ChildSubject? ==> c.s < |a.subjects|
  {
    match c
    case ChildGroup(g) => a.groups[g]
    case ChildSubject(s) => a.subjects[s]
  }

  // --- Who divides what --------------------------------------------------------------------

  /** The identity whose children are meant: a group's, or that of the root. */
  ghost function IdOf(p: FairnessPolicy, parent: Option<nat>): u64
    requires parent.Some? ==> parent.value < |p.groups|
  {
    if parent.Some? then p.groups[parent.value].id else 0
  }

  ghost function AmountOf(a: Spread, whole: nat, parent: Option<nat>): nat
    requires parent.Some? ==> parent.value < |a.groups|
  {
    if parent.Some? then a.groups[parent.value] else whole
  }

  /** The competitor is this child, with the policy's numbers. */
  ghost predicate Matches(p: FairnessPolicy, useModifier: bool, c: Child, x: Input) {
    && Governed(p, c)
    && x.key == TieOf(p, c) && x.weight == WeightOf(p, useModifier, c) && x.floor == FloorOf(p, c) && x.rank == RankOf(p, c)
  }

  /** The competitors are these children, with the policy's numbers. */
  ghost predicate Competes(p: FairnessPolicy, useModifier: bool, children: seq<Child>, cs: seq<Input>) {
    && |children| == |cs|
    && forall k :: 0 <= k < |cs| ==> Matches(p, useModifier, children[k], cs[k])
  }

  ghost predicate AllChildren(p: FairnessPolicy, id: u64, children: seq<Child>) {
    Distinct(children) && forall c: Child :: c in children <==> IsChild(p, id, c)
  }

  /** What each child holds is what it was allocated; so is a subject's flag. */
  ghost predicate Receives(p: FairnessPolicy, a: Spread, children: seq<Child>, r: AllocationResult) {
    && |a.groups| == |p.groups| && |a.subjects| == |a.binding| == |p.subjects|
    && |children| == |r.allocations| == |r.floorBinding|
    && forall k :: 0 <= k < |children| ==>
      && Governed(p, children[k]) && r.allocations[k] == Got(a, children[k])
      && (children[k].ChildSubject? ==> r.floorBinding[k] == a.binding[children[k].s])
  }

  ghost function Listed(groups: seq<nat>, subjects: seq<nat>): (s: seq<Child>)
    ensures |s| == |groups| + |subjects|
  {
    seq(|groups|, k requires 0 <= k < |groups| => ChildGroup(groups[k]))
      + seq(|subjects|, k requires 0 <= k < |subjects| => ChildSubject(subjects[k]))
  }

  lemma {:induction false} ListedMembers(groups: seq<nat>, subjects: seq<nat>)
    requires Distinct(groups) && Distinct(subjects)
    ensures Distinct(Listed(groups, subjects))
    ensures forall c: Child :: c in Listed(groups, subjects) <==> if c.ChildGroup? then c.g in groups else c.s in subjects
  {
    var s := Listed(groups, subjects);
    forall c: Child
      ensures c in s <==> if c.ChildGroup? then c.g in groups else c.s in subjects
    {
      if c.ChildGroup? && c.g in groups {
        var k :| 0 <= k < |groups| && groups[k] == c.g;
        assert s[k] == c;
      }
      if c.ChildSubject? && c.s in subjects {
        var k :| 0 <= k < |subjects| && subjects[k] == c.s;
        assert s[|groups| + k] == c;
      }
    }
  }

  // --- A valid policy's forest, read off the policy --------------------------------------------

  /** The forest's edges are the policy's references. */
  ghost predicate Linked(p: FairnessPolicy, f: Forest) {
    && |f.parents| == |p.groups| && |f.homes| == |p.subjects|
    && (forall g, i :: 0 <= g < |p.groups| && 0 <= i < |p.groups| ==> (f.parents[i] == Some(g) <==> p.groups[i].parent == p.groups[g].id))
    && (forall i :: 0 <= i < |p.groups| ==> (f.parents[i] == None <==> p.groups[i].parent == 0))
    && (forall g, s :: 0 <= g < |p.groups| && 0 <= s < |p.subjects| ==> (f.homes[s] == Some(g) <==> p.subjects[s].group == p.groups[g].id))
    && (forall s :: 0 <= s < |p.subjects| ==> p.subjects[s].group != 0)
  }

  /** The forest's competitors carry the policy's numbers. */
  ghost predicate Carries(p: FairnessPolicy, useModifier: bool, f: Forest) {
    && |f.groupInputs| == |p.groups| && |f.subjectInputs| == |p.subjects|
    && (forall g :: 0 <= g < |p.groups| ==> Matches(p, useModifier, ChildGroup(g), f.groupInputs[g]))
    && (forall s :: 0 <= s < |p.subjects| ==> Matches(p, useModifier, ChildSubject(s), f.subjectInputs[s]))
  }

  ghost predicate Identified(groups: seq<Group>) {
    DistinctGroupIds(groups) && forall i :: 0 <= i < |groups| ==> groups[i].id != 0
  }

  ghost predicate AtHome(p: FairnessPolicy) {
    forall s :: 0 <= s < |p.subjects| ==> p.subjects[s].group != 0 && HomeOf(p.groups, p.subjects[s]).Some?
  }

  lemma {:induction false} ValidIsIdentified(p: FairnessPolicy)
    requires ValidPolicy(p)
    ensures Identified(p.groups) && AtHome(p) && p.groups != []
  {
    ValidMeansGrouped(p);
    forall i | 0 <= i < |p.groups|
      ensures p.groups[i].id != 0
    {
      assert GroupStatus(p.groups[i]) == Okay;
    }
    forall s | 0 <= s < |p.subjects|
      ensures p.subjects[s].group != 0 && HomeOf(p.groups, p.subjects[s]).Some?
    {
      assert SubjectHolds(p, p.subjects[s]);
    }
  }

  /** In a valid policy a reference names a group exactly by its identity. */
  lemma {:induction false} ParentsResolve(groups: seq<Group>, i: nat, g: nat)
    requires Identified(groups) && ParentsExist(groups) && i < |groups| && g < |groups|
    ensures ParentOf(groups, i) == Some(g) <==> groups[i].parent == groups[g].id
    ensures ParentOf(groups, i) == None <==> groups[i].parent == 0
  {
  }

  lemma {:induction false} HomesResolve(groups: seq<Group>, s: Subject, g: nat)
    requires Identified(groups) && HomeOf(groups, s).Some? && g < |groups|
    ensures HomeOf(groups, s) == Some(g) <==> s.group == groups[g].id
  {
  }

  lemma {:induction false} ReferencesLink(p: FairnessPolicy, useModifier: bool)
    requires Identified(p.groups) && AtHome(p) && p.groups != [] && ParentsExist(p.groups)
    ensures Linked(p, ForestOf(p, useModifier))
  {
    forall i, g | 0 <= i < |p.groups| && 0 <= g < |p.groups|
      ensures ParentOf(p.groups, i) == Some(g) <==> p.groups[i].parent == p.groups[g].id
      ensures ParentOf(p.groups, i) == None <==> p.groups[i].parent == 0
    {
      ParentsResolve(p.groups, i, g);
    }
    forall s, g | 0 <= s < |p.subjects| && 0 <= g < |p.groups|
      ensures HomeOf(p.groups, p.subjects[s]) == Some(g) <==> p.subjects[s].group == p.groups[g].id
    {
      HomesResolve(p.groups, p.subjects[s], g);
    }
  }

  lemma {:induction false} ValidIsLinked(p: FairnessPolicy, useModifier: bool)
    requires ValidPolicy(p)
    ensures Linked(p, ForestOf(p, useModifier))
  {
    ValidIsIdentified(p);
    ReferencesLink(p, useModifier);
  }

  lemma {:induction false} GroupMatches(p: FairnessPolicy, useModifier: bool, g: nat)
    requires g < |p.groups| && GroupStatus(p.groups[g]) == Okay
    ensures Matches(p, useModifier, ChildGroup(g), GroupInput(p.groups[g]))
  {
    EffectiveShareWeightIs(p.groups[g].shareWeight, 0);
  }

  lemma {:induction false} SubjectMatches(p: FairnessPolicy, useModifier: bool, s: nat)
    requires s < |p.subjects| && SubjectStatus(p, p.subjects[s]) == Okay
    ensures Matches(p, useModifier, ChildSubject(s), SubjectInput(p.subjects[s], useModifier))
  {
    var x := p.subjects[s];
    EffectiveShareWeightIs(x.shareWeight, if useModifier then x.modifierBps else 0);
    assert x.shareWeight * Max(1, 10000 + if useModifier then x.modifierBps else 0) >= 1;
  }

  lemma {:induction false} ValidCarries(p: FairnessPolicy, useModifier: bool)
    requires ValidPolicy(p)
    ensures Carries(p, useModifier, ForestOf(p, useModifier))
  {
    forall g | 0 <= g < |p.groups|
      ensures Matches(p, useModifier, ChildGroup(g), GroupInput(p.groups[g]))
    {
      GroupMatches(p, useModifier, g);
    }
    forall s | 0 <= s < |p.subjects|
      ensures Matches(p, useModifier, ChildSubject(s), SubjectInput(p.subjects[s], useModifier))
    {
      assert SubjectHolds(p, p.subjects[s]);
      SubjectMatches(p, useModifier, s);
    }
  }

  lemma {:induction false} InputsCompete(p: FairnessPolicy, useModifier: bool, f: Forest, groups: seq<nat>, subjects: seq<nat>)
    requires Carries(p, useModifier, f) && InRange(groups, |p.groups|) && InRange(subjects, |p.subjects|)
    ensures Competes(p, useModifier, Listed(groups, subjects), Pick(f.groupInputs, groups) + Pick(f.subjectInputs, subjects))
  {
  }

  lemma {:induction false} KidsAndFolk(p: FairnessPolicy, f: Forest, g: nat)
    requires Linked(p, f) && g < |p.groups|
    ensures AllChildren(p, p.groups[g].id, Listed(f.Kids(g), f.Folk(g)))
  {
    MembersDistinct(f.parents, g, |f.parents|);
    MembersDistinct(f.homes, g, |f.homes|);
    ListedMembers(f.Kids(g), f.Folk(g));
  }

  lemma {:induction false} RootsAreChildren(p: FairnessPolicy, f: Forest)
    requires Linked(p, f)
    ensures AllChildren(p, 0, Listed(f.Roots(), []))
  {
    UnownedDistinct(f.parents, |f.parents|);
    ListedMembers(f.Roots(), []);
  }

  /** The results handed to a group's children are what they hold. */
  lemma {:induction false} HandedIsReceived(p: FairnessPolicy, f: Forest, a: Spread, g: nat, r: AllocationResult)
    requires |f.parents| == |p.groups| && |f.homes| == |p.subjects| && f.WellFormed() && Sized(f, a)
    requires g < |p.groups| && Handed(f, a, g, r)
    ensures Receives(p, a, Listed(f.Kids(g), f.Folk(g)), r)
  {
    var (kids, folk) := (f.Kids(g), f.Folk(g));
    forall k | |kids| <= k < |kids| + |folk|
      ensures r.floorBinding[k] == a.binding[folk[k - |kids|]]
    {
      assert r.floorBinding[|kids|..][k - |kids|] == Pick(a.binding, folk)[k - |kids|];
    }
  }

  lemma {:induction false} GroupDivides(p: FairnessPolicy, useModifier: bool, f: Forest, a: Spread, g: nat)
    returns (children: seq<Child>, cs: seq<Input>, r: AllocationResult)
    requires Linked(p, f) && Carries(p, useModifier, f) && f.WellFormed() && Sized(f, a) && g < |p.groups| && Divided(f, a, g)
    ensures AllChildren(p, p.groups[g].id, children) && Competes(p, useModifier, children, cs)
    ensures IsAllocation(cs, a.groups[g], r) && Receives(p, a, children, r)
  {
    KidsAndFolk(p, f, g);
    InputsCompete(p, useModifier, f, f.Kids(g), f.Folk(g));
    children, cs := Listed(f.Kids(g), f.Folk(g)), InputsFor(f, g);
    r := AnswerHanded(p, f, a, g);
  }

  lemma {:induction false} AnswerHanded(p: FairnessPolicy, f: Forest, a: Spread, g: nat) returns (r: AllocationResult)
    requires |f.parents| == |p.groups| && |f.homes| == |p.subjects| && f.WellFormed() && Sized(f, a)
    requires g < |p.groups| && Divided(f, a, g)
    ensures IsAllocation(InputsFor(f, g), a.groups[g], r) && Receives(p, a, Listed(f.Kids(g), f.Folk(g)), r)
  {
    r :| IsAllocation(InputsFor(f, g), a.groups[g], r) && Handed(f, a, g, r);
    HandedIsReceived(p, f, a, g, r);
  }

  lemma {:induction false} RootDivides(p: FairnessPolicy, useModifier: bool, f: Forest, a: Spread, whole: nat)
    returns (children: seq<Child>, cs: seq<Input>, r: AllocationResult)
    requires Linked(p, f) && Carries(p, useModifier, f) && f.WellFormed() && Sized(f, a) && RootsDivided(f, a, whole)
    ensures AllChildren(p, 0, children) && Competes(p, useModifier, children, cs)
    ensures IsAllocation(cs, whole, r) && Receives(p, a, children, r)
  {
    RootsAreChildren(p, f);
    InputsCompete(p, useModifier, f, f.Roots(), []);
    children, cs := Listed(f.Roots(), []), Pick(f.groupInputs, f.Roots());
    assert cs == Pick(f.groupInputs, f.Roots()) + Pick(f.subjectInputs, []);
    r := RootAnswer(p, f, a, whole);
  }

  lemma {:induction false} RootAnswer(p: FairnessPolicy, f: Forest, a: Spread, whole: nat) returns (r: AllocationResult)
    requires |f.parents| == |p.groups| && |f.homes| == |p.subjects| && f.WellFormed() && Sized(f, a) && RootsDivided(f, a, whole)
    ensures IsAllocation(Pick(f.groupInputs, f.Roots()), whole, r) && Receives(p, a, Listed(f.Roots(), []), r)
  {
    r :| IsAllocation(Pick(f.groupInputs, f.Roots()), whole, r) && r.allocations == Pick(a.groups, f.Roots());
    BindingExactly(Pick(f.groupInputs, f.Roots()), whole, r);
    RootsReceive(p, f, a, r);
  }

  lemma {:induction false} RootsReceive(p: FairnessPolicy, f: Forest, a: Spread, r: AllocationResult)
    requires |f.parents| == |p.groups| && |f.homes| == |p.subjects| && Sized(f, a)
    requires r.allocations == Pick(a.groups, f.Roots()) && |r.floorBinding| == |r.allocations|
    ensures Receives(p, a, Listed(f.Roots(), []), r)
  {
  }

  /** In a distribution of a valid policy, every group's amount, and the whole, is
      divided by the allocator among exactly the direct children, each competing
      with the policy's own weight, floor, obligation and identity. */
  lemma {:induction false} ChildrenCompete(p: FairnessPolicy, useModifier: bool, a: Spread, whole: nat, parent: Option<nat>)
    returns (children: seq<Child>, cs: seq<Input>, r: AllocationResult)
    requires ValidPolicy(p) && IsDistribution(ForestOf(p, useModifier), a, whole)
    requires parent.Some? ==> parent.value < |p.groups|
    ensures AllChildren(p, IdOf(p, parent), children) && Competes(p, useModifier, children, cs)
    ensures |a.groups| == |p.groups| && IsAllocation(cs, AmountOf(a, whole, parent), r) && Receives(p, a, children, r)
  {
    var f := ForestOf(p, useModifier);
    ValidIsLinked(p, useModifier);
    ValidCarries(p, useModifier);
    match parent {
      case Some(g) =>
        assert Divided(f, a, g);
        children, cs, r := GroupDivides(p, useModifier, f, a, g);
      case None =>
        children, cs, r := RootDivides(p, useModifier, f, a, whole);
    }
  }

  // --- Floors ------------------------------------------------------------------------------------

  /** A child's place among the groups and, after them, the subjects. */
  ghost function PlaceOf(p: FairnessPolicy, c: Child): nat {
    match c
    case ChildGroup(g) => g
    case ChildSubject(s) => |p.groups| + s
  }

  ghost function Places(p: FairnessPolicy, children: seq<Child>): (s: seq<nat>)
    ensures |s| == |children|
  {
    seq(|children|, k requires 0 <= k < |children| => PlaceOf(p, children[k]))
  }

  /** Summing what all groups and subjects have for one parent, nothing for another's
      children, is summing over its children. */
  lemma {:induction false} SumOverChildren(p: FairnessPolicy, id: u64, children: seq<Child>, groups: seq<nat>, subjects: seq<nat>, each: seq<nat>)
    requires AllChildren(p, id, children) && |groups| == |p.groups| && |subjects| == |p.subjects| && |each| == |children|
    requires forall g :: 0 <= g < |groups| && groups[g] != 0 ==> p.groups[g].parent == id
    requires forall s :: 0 <= s < |subjects| && subjects[s] != 0 ==> p.subjects[s].group == id
    requires forall k :: 0 <= k < |children| && children[k] in children && IsChild(p, id, children[k]) ==>
      each[k] == (groups + subjects)[PlaceOf(p, children[k])]
    ensures Sum(each) == Sum(groups) + Sum(subjects)
  {
    var (all, places) := (groups + subjects, Places(p, children));
    forall k | 0 <= k < |children|
      ensures places[k] < |all| && each[k] == all[places[k]]
    {
      assert children[k] in children;
    }
    forall i, j | 0 <= i < j < |children|
      ensures places[i] != places[j]
    {
      assert children[i] in children && children[j] in children && children[i] != children[j];
    }
    forall x | 0 <= x < |all| && all[x] != 0
      ensures x in places
    {
      var c := if x < |groups| then ChildGroup(x) else ChildSubject(x - |groups|);
      assert c in children;
      var k :| 0 <= k < |children| && children[k] == c;
      assert places[k] == x;
    }
    SumWhereListed(all, places);
    assert Gather(all, places) == each;
    SumConcat(groups, subjects);
  }

  /** The floors of one parent's children. */
  ghost function FloorTotal(p: FairnessPolicy, id: u64): int {
    Sum(ChildGroupFloors(p, id)) + Sum(ChildSubjectFloors(p, id))
  }

  lemma {:induction false} FloorsOfChildren(p: FairnessPolicy, useModifier: bool, id: u64, children: seq<Child>, cs: seq<Input>)
    requires AllChildren(p, id, children) && Competes(p, useModifier, children, cs)
    ensures Sum(Floors(cs)) == FloorTotal(p, id)
  {
    forall k | 0 <= k < |children|
      ensures Floors(cs)[k] == FloorOf(p, children[k])
    {
      assert Matches(p, useModifier, children[k], cs[k]);
    }
    SumOverChildren(p, id, children, ChildGroupFloors(p, id), ChildSubjectFloors(p, id), Floors(cs));
  }

  ghost predicate Distributes(p: FairnessPolicy, useModifier: bool, a: Spread, whole: nat) {
    ValidPolicy(p) && IsDistribution(ForestOf(p, useModifier), a, whole)
  }

  ghost predicate Placed(p: FairnessPolicy, a: Spread, parent: Option<nat>, c: Child) {
    && |a.groups| == |p.groups| && |a.subjects| == |p.subjects|
    && (parent.Some? ==> parent.value < |p.groups|) && IsChild(p, IdOf(p, parent), c)
  }

  /** Where the floors of a parent's children fit its amount every child holds at
      least its floor, and where they do not none holds more. */
  lemma {:induction false} FloorsHonoured(p: FairnessPolicy, useModifier: bool, a: Spread, whole: nat, parent: Option<nat>, c: Child)
    requires Distributes(p, useModifier, a, whole) && Placed(p, a, parent, c)
    ensures FloorTotal(p, IdOf(p, parent)) <= AmountOf(a, whole, parent) ==> Got(a, c) >= FloorOf(p, c)
    ensures FloorTotal(p, IdOf(p, parent)) > AmountOf(a, whole, parent) ==> Got(a, c) <= FloorOf(p, c)
  {
    var children, cs, r := ChildrenCompete(p, useModifier, a, whole, parent);
    FloorsOfChildren(p, useModifier, IdOf(p, parent), children, cs);
    FloorsAreExact(cs, AmountOf(a, whole, parent), r);
    assert c in children;
    var k :| 0 <= k < |children| && children[k] == c;
    assert Matches(p, useModifier, children[k], cs[k]);
  }

  /** The order in which guarantees are honoured when not all can be: the stronger
      obligation, then the larger floor, then the smaller tie-break identity. */
  ghost predicate Outranks(p: FairnessPolicy, c: Child, d: Child)
    requires Governed(p, c) && Governed(p, d)
  {
    || RankOf(p, c) > RankOf(p, d)
    || (RankOf(p, c) == RankOf(p, d) && FloorOf(p, c) > FloorOf(p, d))
    || (RankOf(p, c) == RankOf(p, d) && FloorOf(p, c) == FloorOf(p, d) && TieOf(p, c) < TieOf(p, d))
  }

  /** Where the floors do not fit, a child holds anything only once every child that
      outranks it holds its full floor. */
  lemma {:induction false} StrongerChildFirst(p: FairnessPolicy, useModifier: bool, a: Spread, whole: nat, parent: Option<nat>,
                                              strong: Child, weak: Child)
    requires Distributes(p, useModifier, a, whole) && Placed(p, a, parent, strong) && Placed(p, a, parent, weak)
    requires FloorTotal(p, IdOf(p, parent)) > AmountOf(a, whole, parent)
    requires Outranks(p, strong, weak) && Got(a, weak) > 0
    ensures Got(a, strong) == FloorOf(p, strong)
  {
    var children, cs, r := ChildrenCompete(p, useModifier, a, whole, parent);
    FloorsOfChildren(p, useModifier, IdOf(p, parent), children, cs);
    assert strong in children && weak in children;
    var i :| 0 <= i < |children| && children[i] == strong;
    var j :| 0 <= j < |children| && children[j] == weak;
    assert Matches(p, useModifier, children[i], cs[i]) && Matches(p, useModifier, children[j], cs[j]);
    ExcessGoesInOrder(cs, AmountOf(a, whole, parent), r, i, j);
  }

  lemma {:induction false} ExcessGoesInOrder(cs: seq<Input>, amount: nat, r: AllocationResult, i: nat, j: nat)
    requires IsAllocation(cs, amount, r) && Sum(Floors(cs)) > amount && i < |cs| && j < |cs| && HonouredBefore(cs, i, j)
    ensures |r.allocations| == |cs| && (r.allocations[j] > 0 ==> r.allocations[i] == cs[i].floor)
  {
    FloorsAreExact(cs, amount, r);
    var granted, extra := FloorsPastShares(cs, amount, r);
    OnlyGuarantees(cs, amount, r.allocations, granted, extra);
  }

  lemma {:induction false} OnlyGuarantees(cs: seq<Input>, amount: nat, a: seq<nat>, granted: seq<nat>, extra: seq<nat>)
    requires Competitors(cs) && Honoured(cs, amount, a, granted, extra) && Sum(Floors(cs)) > amount
    ensures a == granted
  {
    NothingToShare(cs);
    OnlyZeros(extra);
  }

  lemma {:induction false} OnlyZeros(extra: seq<nat>)
    ensures Sum(extra) == 0 ==> forall i :: 0 <= i < |extra| ==> extra[i] == 0
  {
    forall i | 0 <= i < |extra| && Sum(extra) == 0
      ensures extra[i] == 0
    {
      SumElement(extra, i);
    }
  }

  /** Every group declares a floor and the root groups' floors fit the whole. */
  ghost predicate FloorsDeclared(p: FairnessPolicy, whole: nat) {
    (forall g :: 0 <= g < |p.groups| ==> p.groups[g].floor > 0) && FloorTotal(p, 0) <= whole
  }

  /** Then guarantees reach all the way down: every group and every subject holds at
      least its floor. */
  lemma {:induction false} EveryFloorReached(p: FairnessPolicy, useModifier: bool, a: Spread, whole: nat)
    requires Distributes(p, useModifier, a, whole) && FloorsDeclared(p, whole)
    ensures |a.groups| == |p.groups| && |a.subjects| == |p.subjects|
    ensures forall g :: 0 <= g < |p.groups| ==> a.groups[g] >= p.groups[g].floor
    ensures forall s :: 0 <= s < |p.subjects| ==> a.subjects[s] >= p.subjects[s].floor
  {
    ValidIsLinked(p, useModifier);
    forall g | 0 <= g < |p.groups|
      ensures a.groups[g] >= p.groups[g].floor
    {
      assert Rooted(p.groups, g, MAX_GROUP_DEPTH);
      GroupFloorReached(p, useModifier, a, whole, g, MAX_GROUP_DEPTH);
    }
    forall s | 0 <= s < |p.subjects|
      ensures a.subjects[s] >= p.subjects[s].floor
    {
      ValidIsIdentified(p);
      var home := HomeOf(p.groups, p.subjects[s]);
      DeclaredFloorSuffices(p, useModifier, a, whole, home.value, ChildSubject(s));
    }
  }

  lemma {:induction false} GroupFloorReached(p: FairnessPolicy, useModifier: bool, a: Spread, whole: nat, g: nat, steps: nat)
    requires Distributes(p, useModifier, a, whole) && FloorsDeclared(p, whole)
    requires g < |p.groups| && |a.groups| == |p.groups| && |a.subjects| == |p.subjects| && Rooted(p.groups, g, steps)
    ensures a.groups[g] >= p.groups[g].floor
    decreases steps
  {
    match ParentOf(p.groups, g) {
      case Some(parent) =>
        GroupFloorReached(p, useModifier, a, whole, parent, steps - 1);
        DeclaredFloorSuffices(p, useModifier, a, whole, parent, ChildGroup(g));
      case None =>
        ValidIsIdentified(p);
        ParentsResolve(p.groups, g, g);
        FloorsHonoured(p, useModifier, a, whole, None, ChildGroup(g));
    }
  }

  /** A group of a valid policy that holds the floor it declares can honour every
      direct child's. */
  lemma {:induction false} DeclaredFloorSuffices(p: FairnessPolicy, useModifier: bool, a: Spread, whole: nat, g: nat, c: Child)
    requires Distributes(p, useModifier, a, whole) && g < |p.groups| && Placed(p, a, Some(g), c)
    requires a.groups[g] >= p.groups[g].floor > 0
    ensures Got(a, c) >= FloorOf(p, c)
  {
    assert GroupHolds(p, p.groups[g]);
    FloorsHonoured(p, useModifier, a, whole, Some(g), c);
  }

  // --- Weights --------------------------------------------------------------------------------------

  ghost function ChildGroupWeights(p: FairnessPolicy, useModifier: bool, id: u64): (s: seq<nat>)
    ensures |s| == |p.groups|
  {
    seq(|p.groups|, g requires 0 <= g < |p.groups| =>
      if p.groups[g].parent == id then WeightOf(p, useModifier, ChildGroup(g)) else 0)
  }

  ghost function ChildSubjectWeights(p: FairnessPolicy, useModifier: bool, id: u64): (s: seq<nat>)
    ensures |s| == |p.subjects|
  {
    seq(|p.subjects|, s requires 0 <= s < |p.subjects| =>
      if p.subjects[s].group == id then WeightOf(p, useModifier, ChildSubject(s)) else 0)
  }

  ghost function WeightTotal(p: FairnessPolicy, useModifier: bool, id: u64): int {
    Sum(ChildGroupWeights(p, useModifier, id)) + Sum(ChildSubjectWeights(p, useModifier, id))
  }

  lemma {:induction false} WeightsOfChildren(p: FairnessPolicy, useModifier: bool, id: u64, children: seq<Child>, cs: seq<Input>)
    requires AllChildren(p, id, children) && Competes(p, useModifier, children, cs)
    ensures WeightSum(cs) == WeightTotal(p, useModifier, id)
  {
    forall k | 0 <= k < |children|
      ensures Weights(cs)[k] == WeightOf(p, useModifier, children[k])
    {
      assert Matches(p, useModifier, children[k], cs[k]);
    }
    SumOverChildren(p, id, children, ChildGroupWeights(p, useModifier, id), ChildSubjectWeights(p, useModifier, id), Weights(cs));
  }

  /** No child's floor lies above its exact weighted share. */
  ghost predicate FloorsBelowShares(p: FairnessPolicy, useModifier: bool, id: u64, amount: nat) {
    forall c: Child :: IsChild(p, id, c) ==>
      FloorOf(p, c) * WeightTotal(p, useModifier, id) <= amount * WeightOf(p, useModifier, c)
  }

  /** Where no floor lies above its child's weighted share, every child holds that
      share, to within less than one unit. */
  lemma {:induction false} SharesFollowWeights(p: FairnessPolicy, useModifier: bool, a: Spread, whole: nat, parent: Option<nat>, c: Child)
    requires Distributes(p, useModifier, a, whole) && Placed(p, a, parent, c)
    requires FloorsBelowShares(p, useModifier, IdOf(p, parent), AmountOf(a, whole, parent))
    ensures
      var (total, exact) := (WeightTotal(p, useModifier, IdOf(p, parent)), AmountOf(a, whole, parent) * WeightOf(p, useModifier, c));
      -total < Got(a, c) * total - exact < total
  {
    var children, cs, r := ChildrenCompete(p, useModifier, a, whole, parent);
    var amount := AmountOf(a, whole, parent);
    WeightsOfChildren(p, useModifier, IdOf(p, parent), children, cs);
    forall k | 0 <= k < |cs|
      ensures cs[k].floor * WeightSum(cs) <= amount * cs[k].weight
    {
      assert Matches(p, useModifier, children[k], cs[k]) && children[k] in children;
    }
    assert c in children;
    var k :| 0 <= k < |children| && children[k] == c;
    assert Matches(p, useModifier, children[k], cs[k]);
    QuotaHolds(cs, amount, r, k);
  }

  lemma {:induction false} QuotaHolds(cs: seq<Input>, amount: nat, r: AllocationResult, k: nat)
    requires IsAllocation(cs, amount, r) && k < |cs|
    requires forall i :: 0 <= i < |cs| ==> cs[i].floor * WeightSum(cs) <= amount * cs[i].weight
    ensures |r.allocations| == |cs|
    ensures -WeightSum(cs) < r.allocations[k] * WeightSum(cs) - amount * cs[k].weight < WeightSum(cs)
  {
    forall i | 0 <= i < |cs|
      ensures Floors(cs)[i] <= Shares(cs, amount)[i]
    {
      ShareAndResidue(cs, amount, i);
      WithinQuotient(cs[i].floor, Shares(cs, amount)[i], Residues(cs, amount)[i], WeightSum(cs));
    }
    OvercommitCondition(cs, amount);
    Quota(cs, amount, r, k);
    ShareAndResidue(cs, amount, k);
    NearQuotient(r.allocations[k], Shares(cs, amount)[k], Residues(cs, amount)[k], WeightSum(cs));
  }

  lemma {:induction false} WithinQuotient(floor: nat, share: nat, residue: nat, w: nat)
    requires floor * w <= w * share + residue && residue < w
    ensures floor <= share
  {
    assert floor > share ==> floor * w >= (share + 1) * w == share * w + w;
  }

  lemma {:induction false} NearQuotient(got: nat, share: nat, residue: nat, w: nat)
    requires share <= got <= share + 1 && (residue == 0 ==> got == share) && residue < w
    ensures -(w as int) < got * w - (w * share + residue) < w
  {
    assert (share + 1) * w == w * share + w;
  }

  /** A subject's floor lies above its weighted share, and the subject holds it. */
  ghost predicate FloorBinds(p: FairnessPolicy, useModifier: bool, id: u64, amount: nat, s: nat, got: nat)
    requires s < |p.subjects|
  {
    && p.subjects[s].floor * WeightTotal(p, useModifier, id) > amount * WeightOf(p, useModifier, ChildSubject(s))
    && got >= p.subjects[s].floor
  }

  lemma {:induction false} FlagOfChild(p: FairnessPolicy, useModifier: bool, id: u64, children: seq<Child>, cs: seq<Input>,
                                       a: Spread, amount: nat, r: AllocationResult, s: nat)
    requires AllChildren(p, id, children) && Competes(p, useModifier, children, cs)
    requires IsAllocation(cs, amount, r) && Receives(p, a, children, r)
    requires s < |p.subjects| && p.subjects[s].group == id
    ensures a.binding[s] <==> FloorBinds(p, useModifier, id, amount, s, a.subjects[s])
  {
    assert ChildSubject(s) in children;
    var k :| 0 <= k < |children| && children[k] == ChildSubject(s);
    assert Matches(p, useModifier, children[k], cs[k]);
    WeightsOfChildren(p, useModifier, id, children, cs);
    FlagMeans(cs, amount, r, k);
  }

  /** A subject's floor is reported as binding exactly when it lies above the
      subject's weighted share and the subject holds it. */
  lemma {:induction false} BindingMeans(p: FairnessPolicy, useModifier: bool, a: Spread, whole: nat, g: nat, s: nat)
    requires Distributes(p, useModifier, a, whole) && g < |p.groups| && s < |p.subjects| && p.subjects[s].group == p.groups[g].id
    ensures |a.groups| == |p.groups| && |a.subjects| == |a.binding| == |p.subjects|
    ensures a.binding[s] <==> FloorBinds(p, useModifier, p.groups[g].id, a.groups[g], s, a.subjects[s])
  {
    var children, cs, r := ChildrenCompete(p, useModifier, a, whole, Some(g));
    FlagOfChild(p, useModifier, p.groups[g].id, children, cs, a, a.groups[g], r, s);
  }

  lemma {:induction false} FlagMeans(cs: seq<Input>, amount: nat, r: AllocationResult, k: nat)
    requires IsAllocation(cs, amount, r) && k < |cs|
    ensures |r.floorBinding| == |r.allocations| == |cs|
    ensures r.floorBinding[k] <==> cs[k].floor * WeightSum(cs) > amount * cs[k].weight && r.allocations[k] >= cs[k].floor
  {
    BindingExactly(cs, amount, r);
    ShareAndResidue(cs, amount, k);
    AboveQuotient(cs[k].floor, Shares(cs, amount)[k], Residues(cs, amount)[k], WeightSum(cs));
  }

  lemma {:induction false} AboveQuotient(floor: nat, share: nat, residue: nat, w: nat)
    requires residue < w
    ensures floor > share <==> floor * w > w * share + residue
  {
    assert floor > share ==> floor * w >= (share + 1) * w == share * w + w;
    assert floor <= share ==> floor * w <= share * w;
  }
}
