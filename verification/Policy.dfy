// The fairness policy: groups in a forest, governed subjects, and the validation
// every policy passes before it is used.

module Policy {
  import opened Core
  import opened Bytes
  import opened Sums

  const MAX_LABEL_BYTES: nat := 128
  const MAX_AGE_WINDOWS: nat := 1000000
  const MAX_BPS: nat := 100000

  /** A reference to a class owned elsewhere; id zero means none. */
  datatype ClassRef = ClassRef(id: u64, generation: u64) {
    predicate Present() {
      id != 0
    }

    predicate Consistent() {
      id != 0 <==> generation != 0
    }
  }

  datatype Provenance = Provenance(revision: u64, source: seq<byte>, sourceDigest: u64, capturedAt: i64)

  datatype Group = Group(
    id: u64, generation: u64, parent: u64, shareWeight: u32, floor: u64, rank: u32, isProtected: bool, labelText: seq<byte>)

  datatype Subject = Subject(
    id: u64, generation: u64, group: u64, tenant: u64, shareWeight: u32, floor: u64,
    starvationWindows: u32, guaranteeStarvationWindows: u32, priority: ClassRef, qos: ClassRef,
    modifierBps: i32, priorityRank: u32, rank: u32, isProtected: bool,
    maxReduce: u64, maxAugment: u64, labelText: seq<byte>)

  datatype FairnessPolicy = FairnessPolicy(
    id: u64, generation: u64, epoch: u64, windowUnits: u64, fairBand: u64, correctionThreshold: u64,
    cooldownWindows: u32, maxCorrection: u64, maxCorrectionBps: u32, maxModifierBps: u32,
    maxAgeWindows: u32, maxAgeNs: u64, maxCarry: u64, enforceFloors: bool, provenance: Provenance,
    groups: seq<Group>, subjects: seq<Subject>)

  // --- What a valid policy is -------------------------------------------------------

  function HeaderStatus(p: FairnessPolicy): Status {
    if p.id == 0 || p.generation == 0 || p.epoch == 0 then PolicyInvalid
    else if |p.groups| > MAX_GROUPS then LimitExceeded
    else if p.subjects == [] then PolicyInvalid
    else if |p.subjects| > MAX_SUBJECTS then LimitExceeded
    else if p.fairBand > MAX_SERVICE_UNITS || p.correctionThreshold > MAX_SERVICE_UNITS then OutOfRange
    else if p.correctionThreshold < p.fairBand then PolicyInvalid
    else if p.maxCorrection > MAX_SERVICE_UNITS * MAX_SUBJECTS then OutOfRange
    else if p.maxCorrectionBps > MAX_BPS then OutOfRange
    else if p.maxModifierBps > MAX_MODIFIER_BPS then OutOfRange
    else if p.maxAgeWindows == 0 then PolicyInvalid
    else if p.maxAgeWindows > MAX_AGE_WINDOWS then OutOfRange
    else if p.maxCarry > MAX_CARRY_UNITS then OutOfRange
    else if |p.provenance.source| > MAX_LABEL_BYTES then LimitExceeded
    else Okay
  }

  function GroupStatus(g: Group): Status {
    if g.id == 0 || g.generation == 0 then PolicyInvalid
    else if g.shareWeight == 0 || g.shareWeight > MAX_SHARE_WEIGHT then OutOfRange
    else if g.floor > MAX_SERVICE_UNITS then OutOfRange
    else if g.isProtected && g.rank == 0 then PolicyInvalid
    else if |g.labelText| > MAX_LABEL_BYTES then LimitExceeded
    else Okay
  }

  function SubjectStatus(p: FairnessPolicy, s: Subject): Status {
    if s.id == 0 || s.generation == 0 || s.group == 0 then PolicyInvalid
    else if s.shareWeight == 0 || s.shareWeight > MAX_SHARE_WEIGHT then OutOfRange
    else if s.floor > MAX_SERVICE_UNITS then OutOfRange
    else if s.starvationWindows > MAX_AGE_WINDOWS || s.guaranteeStarvationWindows > MAX_AGE_WINDOWS then OutOfRange
    else if !s.priority.Consistent() || !s.qos.Consistent() then PolicyInvalid
    else if s.isProtected && s.rank == 0 then PolicyInvalid
    else if (if s.modifierBps < 0 then -(s.modifierBps as int) else s.modifierBps) > p.maxModifierBps then OutOfRange
    else if (if s.modifierBps < 0 then -(s.modifierBps as int) else s.modifierBps) > MAX_MODIFIER_BPS then OutOfRange
    else if s.maxReduce > MAX_SERVICE_UNITS || s.maxAugment > MAX_SERVICE_UNITS then OutOfRange
    else if |s.labelText| > MAX_LABEL_BYTES then LimitExceeded
    else Okay
  }

  /** Group positions by id; the first of a repeated id wins. */
  function GroupIndex(groups: seq<Group>): (m: map<u64, nat>)
    ensures forall id :: id in m ==> m[id] < |groups| && groups[m[id]].id == id
    ensures forall i :: 0 <= i < |groups| ==> groups[i].id in m
  {
    if groups == [] then map[]
    else
      var front, last := groups[..|groups| - 1], groups[|groups| - 1];
      var m := GroupIndex(front);
      if last.id in m then m else m[last.id := |groups| - 1]
  }

  ghost predicate DistinctGroupIds(groups: seq<Group>) {
    forall i, j :: 0 <= i < j < |groups| ==> groups[i].id != groups[j].id
  }

  ghost predicate DistinctSubjectIds(subjects: seq<Subject>) {
    forall i, j :: 0 <= i < j < |subjects| ==> subjects[i].id != subjects[j].id
  }

  function ParentOf(groups: seq<Group>, i: nat): (r: Option<nat>)
    requires i < |groups|
    ensures r.Some? ==> r.value < |groups| && groups[r.value].id == groups[i].parent
  {
    var index := GroupIndex(groups);
    if groups[i].parent != 0 && groups[i].parent in index then Some(index[groups[i].parent]) else None
  }

  function HomeOf(groups: seq<Group>, s: Subject): (r: Option<nat>)
    ensures r.Some? ==> r.value < |groups| && groups[r.value].id == s.group
  {
    var index := GroupIndex(groups);
    if s.group in index then Some(index[s.group]) else None
  }

  ghost predicate ParentsExist(groups: seq<Group>) {
    forall i :: 0 <= i < |groups| && groups[i].parent != 0 ==> ParentOf(groups, i).Some? && groups[i].parent != groups[i].id
  }

  /** Walking up from i reaches a root within the given number of groups. */
  predicate Rooted(groups: seq<Group>, i: nat, steps: nat)
    requires i < |groups|
    decreases steps
  {
    && steps > 0
    && (ParentOf(groups, i).None? || Rooted(groups, ParentOf(groups, i).value, steps - 1))
  }

  ghost predicate HasSubject(p: FairnessPolicy, id: u64) {
    exists s :: 0 <= s < |p.subjects| && p.subjects[s].group == id
  }

  ghost function ChildGroupFloors(p: FairnessPolicy, id: u64): (s: seq<nat>)
    ensures |s| == |p.groups|
  {
    seq(|p.groups|, i requires 0 <= i < |p.groups| => if p.groups[i].parent == id then p.groups[i].floor else 0)
  }

  ghost function ChildSubjectFloors(p: FairnessPolicy, id: u64): (s: seq<nat>)
    ensures |s| == |p.subjects|
  {
    seq(|p.subjects|, i requires 0 <= i < |p.subjects| => if p.subjects[i].group == id then p.subjects[i].floor else 0)
  }

  /** A group governs a subject of its own, and a declared floor covers the
      floors of its direct children. */
  ghost predicate GroupHolds(p: FairnessPolicy, g: Group) {
    HasSubject(p, g.id) && FloorHolds(p, g)
  }

  ghost predicate FloorHolds(p: FairnessPolicy, g: Group) {
    g.floor > 0 ==> Sum(ChildGroupFloors(p, g.id)) + Sum(ChildSubjectFloors(p, g.id)) <= g.floor
  }

  ghost predicate SubjectHolds(p: FairnessPolicy, s: Subject) {
    SubjectStatus(p, s) == Okay && HomeOf(p.groups, s).Some?
  }

  ghost predicate GroupsSound(groups: seq<Group>) {
    (forall i :: 0 <= i < |groups| ==> GroupStatus(groups[i]) == Okay) && DistinctGroupIds(groups)
  }

  ghost predicate AllRooted(groups: seq<Group>) {
    forall i :: 0 <= i < |groups| ==> Rooted(groups, i, MAX_GROUP_DEPTH)
  }

  ghost predicate SubjectsSound(p: FairnessPolicy) {
    (forall s :: 0 <= s < |p.subjects| ==> SubjectHolds(p, p.subjects[s])) && DistinctSubjectIds(p.subjects)
  }

  ghost predicate AllGroupsHold(p: FairnessPolicy) {
    forall i :: 0 <= i < |p.groups| ==> GroupHolds(p, p.groups[i])
  }

  ghost predicate AllGoverned(p: FairnessPolicy, n: nat)
    requires n <= |p.groups|
  {
    forall i :: 0 <= i < n ==> HasSubject(p, p.groups[i].id)
  }

  ghost predicate AllFloorsHold(p: FairnessPolicy, n: nat)
    requires n <= |p.groups|
  {
    forall i :: 0 <= i < n ==> FloorHolds(p, p.groups[i])
  }

  ghost predicate ValidPolicy(p: FairnessPolicy) {
    && HeaderStatus(p) == Okay
    && GroupsSound(p.groups)
    && ParentsExist(p.groups)
    && AllRooted(p.groups)
    && SubjectsSound(p)
    && AllGroupsHold(p)
  }

  // --- Validation -------------------------------------------------------------------

  /** Group i is the first at fault, and this is its fault. */
  ghost predicate GroupRefused(groups: seq<Group>, i: nat, status: Status)
    requires i < |groups|
  {
    && GroupsSound(groups[..i])
    && status == if groups[i].id == 0 || groups[i].generation == 0 then PolicyInvalid
                 else if exists k :: 0 <= k < i && groups[k].id == groups[i].id then AlreadyExists else GroupStatus(groups[i])
  }

  ghost predicate SubjectRefused(p: FairnessPolicy, i: nat, status: Status)
    requires i < |p.subjects|
  {
    && SubjectsSoundTo(p, i)
    && status == if p.subjects[i].id == 0 || p.subjects[i].generation == 0 then PolicyInvalid
                 else if exists k :: 0 <= k < i && p.subjects[k].id == p.subjects[i].id then AlreadyExists
                 else SubjectFault(p, p.subjects[i])
  }

  ghost predicate SubjectsSoundTo(p: FairnessPolicy, n: nat)
    requires n <= |p.subjects|
  {
    (forall k :: 0 <= k < n ==> SubjectHolds(p, p.subjects[k])) && DistinctSubjectIds(p.subjects[..n])
  }

  /** A subject's home is looked for before its own numbers are looked at. */
  function SubjectFault(p: FairnessPolicy, s: Subject): Status {
    if s.group == 0 then PolicyInvalid else if HomeOf(p.groups, s).None? then NotFound else SubjectStatus(p, s)
  }

  lemma {:induction false} OneMoreSubject(p: FairnessPolicy, n: nat)
    requires n < |p.subjects| && SubjectsSoundTo(p, n) && SubjectFault(p, p.subjects[n]) == Okay
    requires forall k :: 0 <= k < n ==> p.subjects[k].id != p.subjects[n].id
    ensures SubjectsSoundTo(p, n + 1)
  {
  }

  ghost predicate ParentRefused(groups: seq<Group>, i: nat, status: Status)
    requires i < |groups|
  {
    && ParentsExistTo(groups, i) && groups[i].parent != 0
    && status == if ParentOf(groups, i).None? then NotFound else GroupCycle
  }

  ghost predicate ParentsExistTo(groups: seq<Group>, n: nat)
    requires n <= |groups|
  {
    forall k :: 0 <= k < n && groups[k].parent != 0 ==> ParentOf(groups, k).Some? && groups[k].parent != groups[k].id
  }

  /** The stage that refuses a policy, and what it says. */
  ghost predicate PolicyRefused(p: FairnessPolicy, status: Status) {
    if HeaderStatus(p) != Okay then status == HeaderStatus(p)
    else if !GroupsSound(p.groups) then exists i :: 0 <= i < |p.groups| && GroupRefused(p.groups, i, status)
    else if !ParentsExist(p.groups) then exists i :: 0 <= i < |p.groups| && ParentRefused(p.groups, i, status)
    else if !AllRooted(p.groups) then status == GroupDepthExceeded
    else if !SubjectsSound(p) then exists i :: 0 <= i < |p.subjects| && SubjectRefused(p, i, status)
    else status == if AllGoverned(p, |p.groups|) then PolicyOvercommit else PolicyInvalid
  }

  method CheckGroups(p: FairnessPolicy) returns (status: Status)
    ensures status == Okay <==> GroupsSound(p.groups)
    ensures status != Okay ==> exists i :: 0 <= i < |p.groups| && GroupRefused(p.groups, i, status)
  {
    var seen: set<u64> := {};
    for i := 0 to |p.groups|
      invariant forall k :: 0 <= k < i ==> GroupStatus(p.groups[k]) == Okay
      invariant DistinctGroupIds(p.groups[..i])
      invariant forall id :: id in seen <==> exists k :: 0 <= k < i && p.groups[k].id == id
    {
      var g := p.groups[i];
      if g.id == 0 || g.generation == 0 {
        assert GroupRefused(p.groups, i, PolicyInvalid);
        return PolicyInvalid;
      }
      if g.id in seen {
        assert GroupRefused(p.groups, i, AlreadyExists);
        return AlreadyExists;
      }
      status := GroupStatus(g);
      if status != Okay {
        assert GroupRefused(p.groups, i, status);
        return;
      }
      seen := seen + {g.id};
    }
    status := Okay;
  }

  method CheckParents(groups: seq<Group>) returns (status: Status)
    ensures status == Okay <==> ParentsExist(groups)
    ensures status != Okay ==> exists i :: 0 <= i < |groups| && ParentRefused(groups, i, status)
  {
    var index := GroupIndex(groups);
    for i := 0 to |groups|
      invariant ParentsExistTo(groups, i)
    {
      if groups[i].parent != 0 {
        if groups[i].parent !in index {
          assert ParentRefused(groups, i, NotFound);
          return NotFound;
        }
        if groups[i].parent == groups[i].id {
          assert ParentRefused(groups, i, GroupCycle);
          return GroupCycle;
        }
      }
    }
    status := Okay;
  }

  /** Walks from a group to its root, counting groups. */
  method CheckDepth(groups: seq<Group>, i: nat) returns (status: Status)
    requires i < |groups| && ParentsExist(groups)
    ensures status == if Rooted(groups, i, MAX_GROUP_DEPTH) then Okay else GroupDepthExceeded
  {
    var depth := 0;
    var cursor: nat := i;
    while true
      invariant cursor < |groups| && depth <= MAX_GROUP_DEPTH
      invariant Rooted(groups, i, MAX_GROUP_DEPTH) <==> Rooted(groups, cursor, MAX_GROUP_DEPTH - depth)
      decreases MAX_GROUP_DEPTH - depth
    {
      if depth + 1 > MAX_GROUP_DEPTH {
        return GroupDepthExceeded;
      }
      depth := depth + 1;
      var parent := ParentOf(groups, cursor);
      if parent.None? {
        return Okay;
      }
      cursor := parent.value;
    }
  }

  method CheckDepths(groups: seq<Group>) returns (status: Status)
    requires ParentsExist(groups)
    ensures status == if AllRooted(groups) then Okay else GroupDepthExceeded
  {
    for i := 0 to |groups|
      invariant forall k :: 0 <= k < i ==> Rooted(groups, k, MAX_GROUP_DEPTH)
    {
      status := CheckDepth(groups, i);
      if status != Okay {
        return;
      }
    }
    status := Okay;
  }

  method CheckSubject(p: FairnessPolicy, s: Subject) returns (status: Status)
    ensures status == SubjectFault(p, s)
  {
    if s.group == 0 {
      return PolicyInvalid;
    }
    if HomeOf(p.groups, s).None? {
      return NotFound;
    }
    status := SubjectStatus(p, s);
  }

  ghost predicate SeenSubjects(p: FairnessPolicy, n: nat, seen: set<u64>)
    requires n <= |p.subjects|
  {
    forall id :: id in seen <==> exists k :: 0 <= k < n && p.subjects[k].id == id
  }

  method CheckNextSubject(p: FairnessPolicy, i: nat, seen: set<u64>) returns (status: Status)
    requires i < |p.subjects| && SubjectsSoundTo(p, i) && SeenSubjects(p, i, seen)
    ensures if status == Okay then SubjectsSoundTo(p, i + 1) else SubjectRefused(p, i, status) && !SubjectsSound(p)
  {
    if p.subjects[i].id == 0 || p.subjects[i].generation == 0 {
      assert SubjectStatus(p, p.subjects[i]) == PolicyInvalid;
      return PolicyInvalid;
    }
    if p.subjects[i].id in seen {
      return AlreadyExists;
    }
    status := CheckSubject(p, p.subjects[i]);
    if status == Okay {
      OneMoreSubject(p, i);
    }
  }

  method CheckSubjects(p: FairnessPolicy) returns (status: Status)
    ensures status == Okay <==> SubjectsSound(p)
    ensures status != Okay ==> exists i :: 0 <= i < |p.subjects| && SubjectRefused(p, i, status)
  {
    var seen: set<u64> := {};
    for i := 0 to |p.subjects|
      invariant SubjectsSoundTo(p, i) && SeenSubjects(p, i, seen)
    {
      status := CheckNextSubject(p, i, seen);
      if status != Okay {
        return;
      }
      seen := seen + {p.subjects[i].id};
    }
    status := Okay;
    assert p.subjects[..|p.subjects|] == p.subjects;
  }

  /** The group's own governed weight; bounded counts keep it in 64 bits. */
  method SubjectWeight(p: FairnessPolicy, id: u64) returns (weight: u64)
    requires HeaderStatus(p) == Okay && SubjectsSound(p)
    ensures weight > 0 <==> HasSubject(p, id)
  {
    weight := 0;
    for i := 0 to |p.subjects|
      invariant weight > 0 <==> exists s :: 0 <= s < i && p.subjects[s].group == id
      invariant weight <= i * U32_END
    {
      assert SubjectHolds(p, p.subjects[i]);
      if p.subjects[i].group == id {
        if weight + p.subjects[i].shareWeight >= U64_END {
          assert false;
        }
        weight := weight + p.subjects[i].shareWeight;
      }
    }
  }

  /** The child groups' weights; bounded counts keep the sum in 64 bits. */
  method ChildGroupWeight(p: FairnessPolicy, id: u64) returns (weight: u64)
    requires HeaderStatus(p) == Okay
    ensures weight <= MAX_GROUPS * U32_END
  {
    weight := 0;
    for i := 0 to |p.groups|
      invariant weight <= i * U32_END
    {
      if p.groups[i].parent == id {
        if weight + p.groups[i].shareWeight >= U64_END {
          assert false;
        }
        weight := weight + p.groups[i].shareWeight;
      }
    }
  }

  ghost predicate FloorsBounded(p: FairnessPolicy) {
    && |p.groups| <= MAX_GROUPS && |p.subjects| <= MAX_SUBJECTS
    && (forall i :: 0 <= i < |p.groups| ==> p.groups[i].floor <= MAX_SERVICE_UNITS)
    && (forall s :: 0 <= s < |p.subjects| ==> p.subjects[s].floor <= MAX_SERVICE_UNITS)
  }

  lemma {:induction false} SoundFloorsBounded(p: FairnessPolicy)
    requires HeaderStatus(p) == Okay && GroupsSound(p.groups) && SubjectsSound(p)
    ensures FloorsBounded(p)
  {
    forall i | 0 <= i < |p.groups|
      ensures p.groups[i].floor <= MAX_SERVICE_UNITS
    {
      assert GroupStatus(p.groups[i]) == Okay;
    }
    forall s | 0 <= s < |p.subjects|
      ensures p.subjects[s].floor <= MAX_SERVICE_UNITS
    {
      assert SubjectHolds(p, p.subjects[s]);
    }
  }

  /** Direct children's floors; bounded counts keep the sums in 64 bits. */
  method GroupFloorTotal(p: FairnessPolicy, id: u64) returns (total: u64)
    requires FloorsBounded(p)
    ensures total == Sum(ChildGroupFloors(p, id)) <= MAX_GROUPS * MAX_SERVICE_UNITS
  {
    ghost var all := ChildGroupFloors(p, id);
    total := 0;
    for i := 0 to |p.groups|
      invariant total == Sum(all[..i]) && total <= i * MAX_SERVICE_UNITS
    {
      SumStep(all, i);
      if p.groups[i].parent == id {
        total := total + p.groups[i].floor;
      }
    }
    assert all[..|p.groups|] == all;
  }

  method SubjectFloorTotal(p: FairnessPolicy, id: u64) returns (total: u64)
    requires FloorsBounded(p)
    ensures total == Sum(ChildSubjectFloors(p, id)) <= MAX_SUBJECTS * MAX_SERVICE_UNITS
  {
    ghost var all := ChildSubjectFloors(p, id);
    total := 0;
    for i := 0 to |p.subjects|
      invariant total == Sum(all[..i]) && total <= i * MAX_SERVICE_UNITS
    {
      SumStep(all, i);
      if p.subjects[i].group == id {
        total := total + p.subjects[i].floor;
      }
    }
    assert all[..|p.subjects|] == all;
  }

  /** Every group governs weight of its own. */
  method CheckWeights(p: FairnessPolicy) returns (status: Status)
    requires HeaderStatus(p) == Okay && SubjectsSound(p)
    ensures status == if AllGoverned(p, |p.groups|) then Okay else PolicyInvalid
  {
    for i := 0 to |p.groups|
      invariant AllGoverned(p, i)
    {
      var childWeight := ChildGroupWeight(p, p.groups[i].id);
      var weight := SubjectWeight(p, p.groups[i].id);
      if weight == 0 {
        return PolicyInvalid;
      }
    }
    status := Okay;
  }

  method CheckFloor(p: FairnessPolicy, g: Group) returns (status: Status)
    requires FloorsBounded(p)
    ensures status == if FloorHolds(p, g) then Okay else PolicyOvercommit
  {
    if g.floor == 0 {
      return Okay;
    }
    var groupFloors := GroupFloorTotal(p, g.id);
    var subjectFloors := SubjectFloorTotal(p, g.id);
    status := if groupFloors + subjectFloors > g.floor then PolicyOvercommit else Okay;
  }

  /** Every declared group floor covers its direct children's. */
  method CheckFloors(p: FairnessPolicy) returns (status: Status)
    requires FloorsBounded(p)
    ensures status == if AllFloorsHold(p, |p.groups|) then Okay else PolicyOvercommit
  {
    for i := 0 to |p.groups|
      invariant AllFloorsHold(p, i)
    {
      status := CheckFloor(p, p.groups[i]);
      if status != Okay {
        return;
      }
    }
    status := Okay;
  }

  /** Validation accepts exactly the valid policies. */
  method ValidatePolicy(p: FairnessPolicy) returns (status: Status)
    ensures status == Okay <==> ValidPolicy(p)
    ensures status != Okay ==> PolicyRefused(p, status)
  {
    status := HeaderStatus(p);
    if status == Okay {
      status := CheckGroups(p);
    }
    if status == Okay {
      status := CheckParents(p.groups);
    }
    if status == Okay {
      status := CheckDepths(p.groups);
    }
    if status == Okay {
      status := CheckSubjects(p);
    }
    if status == Okay {
      status := CheckWeights(p);
    }
    if status == Okay {
      SoundFloorsBounded(p);
      status := CheckFloors(p);
    }
    GroupsHoldBoth(p);
  }

  lemma {:induction false} GroupsHoldBoth(p: FairnessPolicy)
    ensures AllGroupsHold(p) <==> AllGoverned(p, |p.groups|) && AllFloorsHold(p, |p.groups|)
  {
    if AllGroupsHold(p) {
      assert forall i :: 0 <= i < |p.groups| ==> GroupHolds(p, p.groups[i]);
    }
  }
}
