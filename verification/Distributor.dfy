// Top-down distribution of a whole over the group forest of a policy.

module Distributor {
  import opened Core
  import opened Sums
  import opened Allocation
  import opened Allocator
  import opened Forest
  import opened Policy
  import Wide

  const SUBJECT_KEY_BIT: nat := 0x8000_0000_0000_0000

  /** Tie-break identity: groups sort before subjects of the same number. */
  function CompositeKey(isGroup: bool, id: u64): u64 {
    if isGroup || id >= SUBJECT_KEY_BIT then id else id + SUBJECT_KEY_BIT
  }

  /** Which two distinct competitors share a tie-break key: only ones whose
      identities reach the bit that tells subjects from groups. */
  lemma {:induction false} CompositeKeyCollides(a: bool, id: u64, b: bool, id': u64)
    requires (a, id) != (b, id')
    ensures CompositeKey(a, id) == CompositeKey(b, id') <==>
      || (id == id' && id >= SUBJECT_KEY_BIT)
      || (!a && id < SUBJECT_KEY_BIT && id' == id + SUBJECT_KEY_BIT)
      || (!b && id' < SUBJECT_KEY_BIT && id == id' + SUBJECT_KEY_BIT)
  {
  }

  /** Share weight under a basis-point modifier; never zero. */
  function EffectiveShareWeight(weight: u32, modifierBps: i32): u64 {
    var factor := BASIS_POINT_SCALE + modifierBps;
    var scale: u64 := if factor <= 0 then 1 else factor;
    var product := Wide.MulWide(weight, scale);
    if !product.FitsU64() || product.lo == 0 then 1 else product.lo
  }

  /** The modifier scales the weight exactly, and cannot strip it to nothing. */
  lemma {:induction false} EffectiveShareWeightIs(weight: u32, modifierBps: i32)
    ensures EffectiveShareWeight(weight, modifierBps) == Max(1, weight * Max(1, BASIS_POINT_SCALE + modifierBps))
  {
    var scale := Max(1, BASIS_POINT_SCALE + modifierBps);
    Wide.MulWideExact(weight, scale);
    Wide.MulMonotone(weight, scale, U32_END - 1, 0x8000_0000 + BASIS_POINT_SCALE);
  }

  lemma {:induction false} WeightBounds(weight: u32, modifierBps: i32)
    requires 1 <= weight <= MAX_SHARE_WEIGHT && -(MAX_MODIFIER_BPS as int) <= modifierBps <= MAX_MODIFIER_BPS
    ensures 1 <= EffectiveShareWeight(weight, modifierBps) <= MAX_WEIGHT
  {
    EffectiveShareWeightIs(weight, modifierBps);
    Wide.MulMonotone(weight, Max(1, BASIS_POINT_SCALE + modifierBps), MAX_SHARE_WEIGHT, BASIS_POINT_SCALE + MAX_MODIFIER_BPS);
  }

  const MAX_WEIGHT: nat := MAX_SHARE_WEIGHT * (BASIS_POINT_SCALE + MAX_MODIFIER_BPS)

  function GroupInput(g: Group): Input {
    Input(CompositeKey(true, g.id), EffectiveShareWeight(g.shareWeight, 0), g.floor, g.rank)
  }

  function SubjectInput(s: Subject, useModifier: bool): Input {
    Input(CompositeKey(false, s.id), EffectiveShareWeight(s.shareWeight, if useModifier then s.modifierBps else 0), s.floor, s.rank)
  }

  /** The forest a policy describes, for the base or the modified pass. */
  function ForestOf(p: FairnessPolicy, useModifier: bool): Forest {
    Forest(
      Parents(p.groups),
      seq(|p.subjects|, s requires 0 <= s < |p.subjects| => HomeOf(p.groups, p.subjects[s])),
      seq(|p.groups|, i requires 0 <= i < |p.groups| => GroupInput(p.groups[i])),
      seq(|p.subjects|, s requires 0 <= s < |p.subjects| => SubjectInput(p.subjects[s], useModifier)))
  }

  // --- Building the tree --------------------------------------------------------------

  datatype Tree = Tree(
    policy: FairnessPolicy, depth: seq<nat>,
    childGroups: seq<seq<nat>>, childSubjects: seq<seq<nat>>, roots: seq<nat>)

  /** Depths count groups from the root down and stay within the limit. */
  ghost predicate Layered(parents: seq<Option<nat>>, depth: seq<nat>) {
    && |depth| == |parents|
    && forall g :: 0 <= g < |parents| ==>
      && 1 <= depth[g] <= MAX_GROUP_DEPTH
      && (parents[g].Some? ==> parents[g].value < |parents| && depth[g] == depth[parents[g].value] + 1)
  }

  ghost predicate IsTree(t: Tree) {
    var f := ForestOf(t.policy, false);
    && f.WellFormed() && Layered(f.parents, t.depth)
    && |t.childGroups| == |t.childSubjects| == |f.parents|
    && (forall g :: 0 <= g < |f.parents| ==> t.childGroups[g] == f.Kids(g) && t.childSubjects[g] == f.Folk(g))
    && t.roots == f.Roots()
  }

  /** The number of groups from i up to its root. */
  function DepthOf(groups: seq<Group>, i: nat, steps: nat): (d: nat)
    requires i < |groups| && Rooted(groups, i, steps)
    ensures 1 <= d <= steps
    decreases steps
  {
    match ParentOf(groups, i)
    case None => 1
    case Some(parent) => 1 + DepthOf(groups, parent, steps - 1)
  }

  lemma {:induction false} DepthIgnoresSlack(groups: seq<Group>, i: nat, a: nat, b: nat)
    requires i < |groups| && Rooted(groups, i, a) && Rooted(groups, i, b)
    ensures DepthOf(groups, i, a) == DepthOf(groups, i, b)
    decreases a
  {
    if ParentOf(groups, i).Some? {
      DepthIgnoresSlack(groups, ParentOf(groups, i).value, a - 1, b - 1);
    }
  }

  lemma {:induction false} RootedMonotone(groups: seq<Group>, i: nat, a: nat, b: nat)
    requires i < |groups| && Rooted(groups, i, a) && a <= b
    ensures Rooted(groups, i, b)
    decreases a
  {
    if ParentOf(groups, i).Some? {
      RootedMonotone(groups, ParentOf(groups, i).value, a - 1, b - 1);
    }
  }

  function Parents(groups: seq<Group>): (s: seq<Option<nat>>)
    ensures |s| == |groups|
  {
    seq(|groups|, i requires 0 <= i < |groups| => ParentOf(groups, i))
  }

  /** Counts the groups from one up to its root. */
  method MeasureDepth(groups: seq<Group>, i: nat) returns (r: Result<nat>)
    requires i < |groups|
    ensures r.Ok? <==> Rooted(groups, i, MAX_GROUP_DEPTH)
    ensures r.Ok? ==> r.value == DepthOf(groups, i, MAX_GROUP_DEPTH)
    ensures r.Err? ==> r.status == GroupDepthExceeded
  {
    var depth := 1;
    var cursor: nat := i;
    while ParentOf(groups, cursor).Some?
      invariant cursor < |groups| && 1 <= depth <= MAX_GROUP_DEPTH
      invariant Rooted(groups, i, MAX_GROUP_DEPTH) <==> Rooted(groups, cursor, MAX_GROUP_DEPTH - depth + 1)
      invariant Rooted(groups, i, MAX_GROUP_DEPTH) ==>
        DepthOf(groups, i, MAX_GROUP_DEPTH) == depth - 1 + DepthOf(groups, cursor, MAX_GROUP_DEPTH - depth + 1)
      decreases MAX_GROUP_DEPTH - depth
    {
      cursor := ParentOf(groups, cursor).value;
      depth := depth + 1;
      if depth > MAX_GROUP_DEPTH {
        return Err(GroupDepthExceeded);
      }
    }
    r := Ok(depth);
  }

  /** Measures every group's depth, refusing chains that do not end in time. */
  method MeasureDepths(groups: seq<Group>) returns (r: Result<seq<nat>>)
    ensures r.Ok? <==> AllRooted(groups)
    ensures r.Ok? ==> Layered(Parents(groups), r.value) && (groups != [] ==> Unowned(Parents(groups), |groups|) != [])
    ensures r.Err? ==> r.status == GroupDepthExceeded
  {
    var depths := [];
    for i := 0 to |groups|
      invariant |depths| == i
      invariant forall k :: 0 <= k < i ==> Rooted(groups, k, MAX_GROUP_DEPTH) && depths[k] == DepthOf(groups, k, MAX_GROUP_DEPTH)
    {
      var depth := MeasureDepth(groups, i);
      if depth.Err? {
        return Err(depth.status);
      }
      depths := depths + [depth.value];
    }
    DepthsLayer(groups, depths);
    if groups != [] {
      RootsExist(groups);
    }
    r := Ok(depths);
  }

  lemma {:induction false} DepthsLayer(groups: seq<Group>, depths: seq<nat>)
    requires AllRooted(groups) && |depths| == |groups|
    requires forall i :: 0 <= i < |groups| ==> depths[i] == DepthOf(groups, i, MAX_GROUP_DEPTH)
    ensures Layered(Parents(groups), depths)
  {
    forall i | 0 <= i < |groups| && ParentOf(groups, i).Some?
      ensures depths[i] == depths[ParentOf(groups, i).value] + 1
    {
      var parent := ParentOf(groups, i).value;
      assert Rooted(groups, i, MAX_GROUP_DEPTH);
      RootedMonotone(groups, parent, MAX_GROUP_DEPTH - 1, MAX_GROUP_DEPTH);
      DepthIgnoresSlack(groups, parent, MAX_GROUP_DEPTH - 1, MAX_GROUP_DEPTH);
    }
  }

  /** Lists each group's child groups in policy order. */
  method LinkChildren(owner: seq<Option<nat>>, n: nat) returns (children: seq<seq<nat>>)
    requires forall i :: 0 <= i < |owner| && owner[i].Some? ==> owner[i].value < n
    ensures |children| == n && forall g :: 0 <= g < n ==> children[g] == Members(owner, g, |owner|)
  {
    children := seq(n, g => []);
    for i := 0 to |owner|
      invariant |children| == n && forall g :: 0 <= g < n ==> children[g] == Members(owner, g, i)
    {
      if owner[i].Some? {
        var g := owner[i].value;
        children := children[g := children[g] + [i]];
      }
    }
  }

  method ListRoots(owner: seq<Option<nat>>) returns (roots: seq<nat>)
    ensures roots == Unowned(owner, |owner|)
  {
    roots := [];
    for i := 0 to |owner|
      invariant roots == Unowned(owner, i)
    {
      if owner[i] == None {
        roots := roots + [i];
      }
    }
  }

  method CheckIdentities(groups: seq<Group>) returns (status: Status)
    ensures GroupsSound(groups) ==> status == Okay
    ensures status in {Okay, PolicyInvalid, AlreadyExists}
  {
    var seen: set<u64> := {};
    for i := 0 to |groups|
      invariant forall id :: id in seen <==> exists k :: 0 <= k < i && groups[k].id == id
    {
      if groups[i].id == 0 {
        assert GroupStatus(groups[i]) == PolicyInvalid;
        return PolicyInvalid;
      }
      if groups[i].id in seen {
        return AlreadyExists;
      }
      seen := seen + {groups[i].id};
    }
    status := Okay;
  }

  method CheckParentsFound(groups: seq<Group>) returns (status: Status)
    ensures status == if forall i :: 0 <= i < |groups| && groups[i].parent != 0 ==> ParentOf(groups, i).Some? then Okay else NotFound
  {
    for i := 0 to |groups|
      invariant forall k :: 0 <= k < i && groups[k].parent != 0 ==> ParentOf(groups, k).Some?
    {
      if groups[i].parent != 0 && ParentOf(groups, i).None? {
        return NotFound;
      }
    }
    status := Okay;
  }

  method CheckHomesFound(p: FairnessPolicy) returns (status: Status)
    ensures status == if forall s :: 0 <= s < |p.subjects| ==> HomeOf(p.groups, p.subjects[s]).Some? then Okay else NotFound
  {
    for s := 0 to |p.subjects|
      invariant forall k :: 0 <= k < s ==> HomeOf(p.groups, p.subjects[k]).Some?
    {
      if HomeOf(p.groups, p.subjects[s]).None? {
        return NotFound;
      }
    }
    status := Okay;
  }

  /** Indexes the groups and links parents to children; any dangling reference,
      repeated identity or overlong chain is refused. */
  method BuildTree(p: FairnessPolicy) returns (r: Result<Tree>)
    ensures r.Ok? ==> IsTree(r.value) && r.value.policy == p
    ensures ValidPolicy(p) ==> r.Ok?
    ensures r.Err? ==> r.status in {PolicyInvalid, AlreadyExists, NotFound, GroupDepthExceeded}
  {
    var status := CheckIdentities(p.groups);
    if status == Okay {
      status := CheckParentsFound(p.groups);
    }
    if status != Okay {
      return Err(status);
    }
    var depth := MeasureDepths(p.groups);
    if depth.Err? {
      return Err(depth.status);
    }
    ValidMeansGrouped(p);
    if p.groups == [] {
      return Err(PolicyInvalid);
    }
    HomesOfValid(p);
    status := CheckHomesFound(p);
    if status != Okay {
      return Err(status);
    }
    r := Link(p, depth.value);
  }

  lemma {:induction false} HomesOfValid(p: FairnessPolicy)
    ensures ValidPolicy(p) ==> forall s :: 0 <= s < |p.subjects| ==> HomeOf(p.groups, p.subjects[s]).Some?
  {
    if ValidPolicy(p) {
      forall s | 0 <= s < |p.subjects|
        ensures HomeOf(p.groups, p.subjects[s]).Some?
      {
        assert SubjectHolds(p, p.subjects[s]);
      }
    }
  }

  method Link(p: FairnessPolicy, depth: seq<nat>) returns (r: Result<Tree>)
    requires Layered(ForestOf(p, false).parents, depth) && ForestOf(p, false).Roots() != []
    requires forall s :: 0 <= s < |p.subjects| ==> HomeOf(p.groups, p.subjects[s]).Some?
    ensures r.Ok? && IsTree(r.value) && r.value.policy == p
  {
    var f := ForestOf(p, false);
    var childGroups := LinkChildren(f.parents, |p.groups|);
    var childSubjects := LinkChildren(f.homes, |p.groups|);
    var roots := ListRoots(f.parents);
    if roots == [] {
      assert false;
    }
    r := Ok(Tree(p, depth, childGroups, childSubjects, roots));
  }

  lemma {:induction false} RootsExist(groups: seq<Group>)
    requires AllRooted(groups) && groups != []
    ensures Unowned(Parents(groups), |groups|) != []
  {
    var root := SomeRoot(groups, 0);
    var parents := Parents(groups);
    assert parents[root] == None;
    assert root in Unowned(parents, |groups|);
  }

  lemma {:induction false} ValidMeansGrouped(p: FairnessPolicy)
    ensures ValidPolicy(p) ==> p.groups != []
  {
    if ValidPolicy(p) {
      assert SubjectHolds(p, p.subjects[0]);
    }
  }

  /** Walking up ends at a root. */
  lemma {:induction false} SomeRoot(groups: seq<Group>, i: nat) returns (root: nat)
    requires i < |groups| && Rooted(groups, i, MAX_GROUP_DEPTH)
    ensures root < |groups| && ParentOf(groups, root) == None
  {
    root := RootAbove(groups, i, MAX_GROUP_DEPTH);
  }

  lemma {:induction false} RootAbove(groups: seq<Group>, i: nat, steps: nat) returns (root: nat)
    requires i < |groups| && Rooted(groups, i, steps)
    ensures root < |groups| && ParentOf(groups, root) == None
    decreases steps
  {
    if ParentOf(groups, i).None? {
      root := i;
    } else {
      root := RootAbove(groups, ParentOf(groups, i).value, steps - 1);
    }
  }
}
