// What validation asks of a policy and of evidence, number by number, and which
// failure is told when several apply: the first in the order they are asked.

module Validity {
  import opened Core
  import opened Sums
  import opened Policy
  import opened Evidence
  import opened Distributor
  import opened Siblings

  function Magnitude(x: int): nat {
    if x < 0 then -x else x
  }

  lemma {:induction false} HeaderTold(p: FairnessPolicy)
    ensures
      var named := p.id != 0 && p.generation != 0 && p.epoch != 0;
      var few := named && |p.groups| <= 256;
      var some := few && |p.subjects| > 0;
      var counted := some && |p.subjects| <= 4096;
      var scaled := counted && p.fairBand <= 0x100_0000_0000 && p.correctionThreshold <= 0x100_0000_0000;
      var ordered := scaled && p.fairBand <= p.correctionThreshold;
      var capped := ordered && p.maxCorrection <= 0x100_0000_0000 * 4096 && p.maxCorrectionBps <= 100000 && p.maxModifierBps <= 100000;
      var aging := capped && p.maxAgeWindows > 0;
      var bounded := aging && p.maxAgeWindows <= 1000000 && p.maxCarry <= 0x1_0000_0000_0000;
      var sound := bounded && |p.provenance.source| <= 128;
      var status := HeaderStatus(p);
      && (status == Okay <==> sound)
      && (status == PolicyInvalid <==> !named || (few && !some) || (scaled && !ordered) || (capped && !aging))
      && (status == LimitExceeded <==> (named && !few) || (some && !counted) || (bounded && !sound))
      && (status == OutOfRange <==> (counted && !scaled) || (ordered && !capped) || (aging && !bounded))
  {
  }

  lemma {:induction false} GroupTold(g: Group)
    ensures
      var named := g.id != 0 && g.generation != 0;
      var scaled := named && 0 < g.shareWeight <= 0x7FFF_FFFF && g.floor <= 0x100_0000_0000;
      var ranked := scaled && (g.isProtected ==> g.rank > 0);
      var sound := ranked && |g.labelText| <= 128;
      var status := GroupStatus(g);
      && (status == Okay <==> sound) && (status == PolicyInvalid <==> !named || (scaled && !ranked))
      && (status == OutOfRange <==> named && !scaled) && (status == LimitExceeded <==> ranked && !sound)
  {
  }

  lemma {:induction false} SubjectTold(p: FairnessPolicy, s: Subject)
    ensures
      var named := s.id != 0 && s.generation != 0 && s.group != 0;
      var scaled := named && 0 < s.shareWeight <= 0x7FFF_FFFF && s.floor <= 0x100_0000_0000
                    && s.starvationWindows <= 1000000 && s.guaranteeStarvationWindows <= 1000000;
      var referred := scaled && (s.priority.id == 0 <==> s.priority.generation == 0) && (s.qos.id == 0 <==> s.qos.generation == 0);
      var ranked := referred && (s.isProtected ==> s.rank > 0);
      var capped := ranked && Magnitude(s.modifierBps) <= Min(p.maxModifierBps, 100000)
                    && s.maxReduce <= 0x100_0000_0000 && s.maxAugment <= 0x100_0000_0000;
      var sound := capped && |s.labelText| <= 128;
      var status := SubjectStatus(p, s);
      && (status == Okay <==> sound) && (status == PolicyInvalid <==> !named || (scaled && !ranked))
      && (status == OutOfRange <==> (named && !scaled) || (ranked && !capped)) && (status == LimitExceeded <==> capped && !sound)
  {
  }

  lemma {:induction false} SnapshotTold(e: Snapshot)
    ensures
      var named := e.id != 0 && e.generation != 0 && e.window != 0 && e.windowGeneration != 0 && e.epoch != 0;
      var sized := named && |e.observations| <= 4096 && |e.producer.name| <= 128 && |e.provenance.source| <= 128;
      var status := SnapshotStatus(e);
      && (status == Okay <==> sized && e.capturedAt >= 0) && (status == LimitExceeded <==> named && !sized)
      && (status == InvalidArgument <==> !named || (sized && e.capturedAt < 0))
  {
  }

  lemma {:induction false} ObservationTold(o: Observation)
    ensures
      var named := o.id != 0 && o.generation != 0;
      var scaled := named && o.served <= 0x100_0000_0000 && o.unservedStreak <= 1000000 && o.belowFloorStreak <= 1000000;
      var referred := scaled && (o.priority.id == 0 <==> o.priority.generation == 0) && (o.qos.id == 0 <==> o.qos.generation == 0);
      var sound := referred && (o.served > 0 ==> o.unservedStreak == 0);
      var status := ObservationStatus(o);
      && (status == Okay <==> sound) && (status == InvalidArgument <==> !named || (scaled && !referred))
      && (status == OutOfRange <==> named && !scaled) && (status == EvidenceContradictory <==> referred && !sound)
  {
  }

  // --- The structure of a policy -------------------------------------------------------------------

  /** Depths that count groups from the root down, at most eight. */
  ghost predicate Depths(groups: seq<Group>, depth: seq<nat>) {
    && |depth| == |groups|
    && (forall g :: 0 <= g < |groups| ==> 1 <= depth[g] <= 8)
    && (forall g, h :: 0 <= g < |groups| && 0 <= h < |groups| && groups[g].parent != 0 && groups[h].id == groups[g].parent ==>
        depth[g] == depth[h] + 1)
  }

  ghost predicate IsGroup(groups: seq<Group>, id: u64) {
    exists g :: 0 <= g < |groups| && groups[g].id == id
  }

  ghost predicate ParentsNamed(groups: seq<Group>) {
    forall g :: 0 <= g < |groups| && groups[g].parent != 0 ==> IsGroup(groups, groups[g].parent)
  }

  ghost predicate HomesNamed(p: FairnessPolicy) {
    forall s :: 0 <= s < |p.subjects| ==> IsGroup(p.groups, p.subjects[s].group)
  }

  ghost predicate Chained(groups: seq<Group>) {
    exists depth :: Depths(groups, depth)
  }

  ghost predicate Peopled(p: FairnessPolicy) {
    forall g :: g in p.groups ==> exists s :: s in p.subjects && s.group == g.id
  }

  ghost predicate Covered(p: FairnessPolicy) {
    forall g :: 0 <= g < |p.groups| && p.groups[g].floor > 0 ==> FloorTotal(p, p.groups[g].id) <= p.groups[g].floor
  }

  /** Every reference names a group, none up its own chain nor too deep; every group
      governs a subject of its own; and a declared floor covers its children's. */
  ghost predicate WellBuilt(p: FairnessPolicy) {
    ParentsNamed(p.groups) && HomesNamed(p) && Chained(p.groups) && Peopled(p) && Covered(p)
  }

  ghost predicate Unique(p: FairnessPolicy) {
    DistinctGroupIds(p.groups) && DistinctSubjectIds(p.subjects)
  }

  ghost predicate GroupNumbers(groups: seq<Group>) {
    forall g :: 0 <= g < |groups| ==> GroupStatus(groups[g]) == Okay
  }

  ghost predicate SubjectNumbers(p: FairnessPolicy) {
    forall s :: 0 <= s < |p.subjects| ==> SubjectStatus(p, p.subjects[s]) == Okay
  }

  ghost predicate NumbersSound(p: FairnessPolicy) {
    HeaderStatus(p) == Okay && GroupNumbers(p.groups) && SubjectNumbers(p)
  }

  lemma {:induction false} ResolvesAlike(groups: seq<Group>, id: u64)
    ensures id in GroupIndex(groups) <==> IsGroup(groups, id)
  {
    if id in GroupIndex(groups) {
      assert groups[GroupIndex(groups)[id]].id == id;
    }
  }

  lemma {:induction false} RootedHasDepths(groups: seq<Group>) returns (depth: seq<nat>)
    requires AllRooted(groups) && DistinctGroupIds(groups)
    ensures Depths(groups, depth)
  {
    depth := seq(|groups|, g requires 0 <= g < |groups| && Rooted(groups, g, MAX_GROUP_DEPTH) => DepthOf(groups, g, MAX_GROUP_DEPTH));
    DepthsLayer(groups, depth);
    forall g, h | 0 <= g < |groups| && 0 <= h < |groups| && groups[g].parent != 0 && groups[h].id == groups[g].parent
      ensures depth[g] == depth[h] + 1
    {
      assert ParentOf(groups, g) == Some(h);
      assert Parents(groups)[g] == Some(h);
    }
  }

  lemma {:induction false} DepthRoots(groups: seq<Group>, depth: seq<nat>, g: nat)
    requires Depths(groups, depth) && g < |groups|
    ensures Rooted(groups, g, depth[g])
    decreases depth[g]
  {
    if ParentOf(groups, g).Some? {
      DepthRoots(groups, depth, ParentOf(groups, g).value);
    }
  }

  lemma {:induction false} RootedExactly(groups: seq<Group>)
    requires DistinctGroupIds(groups)
    ensures AllRooted(groups) <==> Chained(groups)
  {
    if AllRooted(groups) {
      var depth := RootedHasDepths(groups);
    }
    if depth :| Depths(groups, depth) {
      forall g | 0 <= g < |groups|
        ensures Rooted(groups, g, MAX_GROUP_DEPTH)
      {
        DepthRoots(groups, depth, g);
        RootedMonotone(groups, g, depth[g], MAX_GROUP_DEPTH);
      }
    }
  }

  lemma {:induction false} ParentsExactly(groups: seq<Group>)
    requires DistinctGroupIds(groups) && Chained(groups)
    ensures ParentsExist(groups) <==> ParentsNamed(groups)
  {
    var depth :| Depths(groups, depth);
    forall g | 0 <= g < |groups| && groups[g].parent != 0
      ensures ParentOf(groups, g).Some? <==> IsGroup(groups, groups[g].parent)
      ensures groups[g].parent != groups[g].id
    {
      ResolvesAlike(groups, groups[g].parent);
    }
  }

  lemma {:induction false} SubjectsExactly(p: FairnessPolicy)
    ensures SubjectsSound(p) <==> SubjectNumbers(p) && HomesNamed(p) && DistinctSubjectIds(p.subjects)
  {
    forall s | 0 <= s < |p.subjects|
      ensures SubjectHolds(p, p.subjects[s]) <==>
        SubjectStatus(p, p.subjects[s]) == Okay && IsGroup(p.groups, p.subjects[s].group)
    {
      ResolvesAlike(p.groups, p.subjects[s].group);
    }
  }

  lemma {:induction false} GroupsExactly(p: FairnessPolicy)
    ensures AllGroupsHold(p) <==> Peopled(p) && Covered(p)
  {
    GroupsHoldBoth(p);
    PeopledExactly(p);
    CoveredExactly(p);
  }

  lemma {:induction false} PeopledExactly(p: FairnessPolicy)
    ensures AllGoverned(p, |p.groups|) <==> Peopled(p)
  {
    forall g | g in p.groups
      ensures HasSubject(p, g.id) <==> exists s :: s in p.subjects && s.group == g.id
    {
    }
    if AllGoverned(p, |p.groups|) {
      forall g | g in p.groups
        ensures HasSubject(p, g.id)
      {
        var i :| 0 <= i < |p.groups| && p.groups[i] == g;
      }
    }
  }

  lemma {:induction false} CoveredExactly(p: FairnessPolicy)
    ensures AllFloorsHold(p, |p.groups|) <==> Covered(p)
  {
    forall g | 0 <= g < |p.groups|
      ensures FloorHolds(p, p.groups[g]) <==> (p.groups[g].floor > 0 ==> FloorTotal(p, p.groups[g].id) <= p.groups[g].floor)
    {
    }
  }

  lemma {:induction false} ChainsExactly(groups: seq<Group>)
    ensures GroupsSound(groups) && ParentsExist(groups) && AllRooted(groups) <==>
      GroupNumbers(groups) && DistinctGroupIds(groups) && Chained(groups) && ParentsNamed(groups)
  {
    if DistinctGroupIds(groups) {
      RootedExactly(groups);
      if Chained(groups) {
        ParentsExactly(groups);
      }
    }
  }

  /** Validity, part by part, without the walks and look-ups that check it. */
  lemma {:induction false} ValidExactly(p: FairnessPolicy)
    ensures ValidPolicy(p) <==> NumbersSound(p) && Unique(p) && WellBuilt(p)
  {
    SubjectsExactly(p);
    GroupsExactly(p);
    ChainsExactly(p.groups);
  }
}
