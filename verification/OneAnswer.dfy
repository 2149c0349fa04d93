// Determinism: although the sorts are unstable, a context has one decision.

module OneAnswer {
  import opened Core
  import opened Sums
  import opened Ordering
  import opened Allocation
  import AllocationLaws
  import opened Forest
  import opened Policy
  import opened Distributor

  // --- One distribution ---------------------------------------------------------------------

  ghost predicate Identified(f: Forest)
    requires f.WellFormed()
  {
    && AllocationLaws.DistinctIdentities(Pick(f.groupInputs, f.Roots()))
    && forall g :: 0 <= g < |f.parents| ==> AllocationLaws.DistinctIdentities(InputsFor(f, g))
  }

  lemma {:induction false} OneResult(cs: seq<Input>, whole: nat, r: AllocationResult, r': AllocationResult)
    requires AllocationLaws.DistinctIdentities(cs) && IsAllocation(cs, whole, r) && IsAllocation(cs, whole, r')
    ensures r == r'
  {
    var o :| LegalOrders(cs, whole, o) && r == Report(cs, whole, AllocationBy(cs, whole, o));
    var o' :| LegalOrders(cs, whole, o') && r' == Report(cs, whole, AllocationBy(cs, whole, o'));
    AllocationLaws.OneAllocation(cs, whole, o, o');
  }

  /** Groups given the same amount hand the same on. */
  lemma {:induction false} SameHanded(f: Forest, a: Spread, b: Spread, g: nat)
    requires f.WellFormed() && Sized(f, a) && Sized(f, b) && g < |f.parents|
    requires AllocationLaws.DistinctIdentities(InputsFor(f, g))
    requires Divided(f, a, g) && Divided(f, b, g) && a.groups[g] == b.groups[g]
    ensures Pick(a.groups, f.Kids(g)) == Pick(b.groups, f.Kids(g))
    ensures Pick(a.subjects, f.Folk(g)) == Pick(b.subjects, f.Folk(g))
    ensures Pick(a.binding, f.Folk(g)) == Pick(b.binding, f.Folk(g))
  {
    var r :| IsAllocation(InputsFor(f, g), a.groups[g], r) && Handed(f, a, g, r);
    var r' :| IsAllocation(InputsFor(f, g), b.groups[g], r') && Handed(f, b, g, r');
    OneResult(InputsFor(f, g), a.groups[g], r, r');
    SplitEqually(Pick(a.groups, f.Kids(g)), Pick(a.subjects, f.Folk(g)), Pick(b.groups, f.Kids(g)), Pick(b.subjects, f.Folk(g)));
  }

  lemma {:induction false} SplitEqually(a: seq<nat>, b: seq<nat>, c: seq<nat>, d: seq<nat>)
    requires |a| == |c| && a + b == c + d
    ensures a == c && b == d
  {
    assert (a + b)[..|a|] == a && (a + b)[|a|..] == b;
    assert (c + d)[..|c|] == c && (c + d)[|c|..] == d;
  }

  lemma {:induction false} PickedAlike<T>(a: seq<T>, b: seq<T>, order: seq<nat>, i: nat)
    requires InRange(order, |a|) && |a| == |b| && Pick(a, order) == Pick(b, order) && i in order
    ensures i < |a| && a[i] == b[i]
  {
    var k :| 0 <= k < |order| && order[k] == i;
    assert Pick(a, order)[k] == Pick(b, order)[k];
  }

  lemma {:induction false} SameRoots(f: Forest, a: Spread, b: Spread, whole: nat, g: nat)
    requires IsDistribution(f, a, whole) && IsDistribution(f, b, whole) && Identified(f)
    requires g < |f.parents| && f.parents[g] == None
    ensures a.groups[g] == b.groups[g]
  {
    var inputs := Pick(f.groupInputs, f.Roots());
    var r :| IsAllocation(inputs, whole, r) && r.allocations == Pick(a.groups, f.Roots());
    var r' :| IsAllocation(inputs, whole, r') && r'.allocations == Pick(b.groups, f.Roots());
    OneResult(inputs, whole, r, r');
    PickedAlike(a.groups, b.groups, f.Roots(), g);
  }

  /** Top down, every group gets the same under both distributions. */
  lemma {:induction false} SameGroup(f: Forest, depth: seq<nat>, a: Spread, b: Spread, whole: nat, g: nat)
    requires IsDistribution(f, a, whole) && IsDistribution(f, b, whole) && Identified(f)
    requires Layered(f.parents, depth) && g < |f.parents|
    ensures a.groups[g] == b.groups[g]
    decreases depth[g]
  {
    match f.parents[g]
    case None => SameRoots(f, a, b, whole, g);
    case Some(parent) =>
      SameGroup(f, depth, a, b, whole, parent);
      SameHanded(f, a, b, parent);
      PickedAlike(a.groups, b.groups, f.Kids(parent), g);
  }

  /** With distinct identities, a whole has one distribution over a forest. */
  lemma {:induction false} OneSpread(f: Forest, depth: seq<nat>, a: Spread, b: Spread, whole: nat)
    requires IsDistribution(f, a, whole) && IsDistribution(f, b, whole) && Identified(f) && Layered(f.parents, depth)
    ensures a == b
  {
    SameGroups(f, depth, a, b, whole);
    SameSubjects(f, depth, a, b, whole);
  }

  lemma {:induction false} SameGroups(f: Forest, depth: seq<nat>, a: Spread, b: Spread, whole: nat)
    requires IsDistribution(f, a, whole) && IsDistribution(f, b, whole) && Identified(f) && Layered(f.parents, depth)
    ensures a.groups == b.groups
  {
    forall g | 0 <= g < |a.groups|
      ensures a.groups[g] == b.groups[g]
    {
      SameGroup(f, depth, a, b, whole, g);
    }
  }

  lemma {:induction false} SameSubjects(f: Forest, depth: seq<nat>, a: Spread, b: Spread, whole: nat)
    requires IsDistribution(f, a, whole) && IsDistribution(f, b, whole) && Identified(f) && Layered(f.parents, depth)
    ensures a.subjects == b.subjects && a.binding == b.binding
  {
    forall s | 0 <= s < |a.subjects|
      ensures a.subjects[s] == b.subjects[s] && a.binding[s] == b.binding[s]
    {
      SameSubject(f, depth, a, b, whole, s);
    }
  }

  lemma {:induction false} SameSubject(f: Forest, depth: seq<nat>, a: Spread, b: Spread, whole: nat, s: nat)
    requires IsDistribution(f, a, whole) && IsDistribution(f, b, whole) && Identified(f)
    requires Layered(f.parents, depth) && s < |f.homes|
    ensures a.subjects[s] == b.subjects[s] && a.binding[s] == b.binding[s]
  {
    var home := f.homes[s].value;
    SameGroup(f, depth, a, b, whole, home);
    SameHanded(f, a, b, home);
    PickedAlike(a.subjects, b.subjects, f.Folk(home), s);
    PickedAlike(a.binding, b.binding, f.Folk(home), s);
  }

  // --- A valid policy's identities ------------------------------------------------------------

  /** No two competitors of one division share a tie-break key. */
  ghost predicate SiblingKeys(p: FairnessPolicy) {
    && (forall s, t :: 0 <= s < t < |p.subjects| && p.subjects[s].group == p.subjects[t].group ==>
        CompositeKey(false, p.subjects[s].id) != CompositeKey(false, p.subjects[t].id))
    && (forall g, s :: 0 <= g < |p.groups| && 0 <= s < |p.subjects| && p.groups[g].parent == p.subjects[s].group ==>
        CompositeKey(true, p.groups[g].id) != CompositeKey(false, p.subjects[s].id))
  }

  /** Identities leave the bit free that tells subjects from groups. */
  ghost predicate SmallIds(p: FairnessPolicy) {
    && (forall i :: 0 <= i < |p.groups| ==> p.groups[i].id < SUBJECT_KEY_BIT)
    && (forall s :: 0 <= s < |p.subjects| ==> p.subjects[s].id < SUBJECT_KEY_BIT)
  }

  /** Then no keys collide at all. */
  lemma {:induction false} SmallIdsKeepKeys(p: FairnessPolicy)
    requires SmallIds(p) && DistinctSubjectIds(p.subjects)
    ensures SiblingKeys(p)
  {
  }

  ghost predicate OwnKeys(f: Forest)
    requires f.WellFormed()
  {
    && (forall i, j :: 0 <= i < j < |f.groupInputs| ==> f.groupInputs[i].key != f.groupInputs[j].key)
    && (forall i, j :: 0 <= i < j < |f.subjectInputs| && f.homes[i] == f.homes[j] ==> f.subjectInputs[i].key != f.subjectInputs[j].key)
    && (forall i, j :: 0 <= i < |f.groupInputs| && 0 <= j < |f.subjectInputs| && f.parents[i] == f.homes[j] ==>
        f.groupInputs[i].key != f.subjectInputs[j].key)
  }

  lemma {:induction false} SiblingKeysOwnKeys(p: FairnessPolicy, useModifier: bool)
    requires SiblingKeys(p) && DistinctGroupIds(p.groups) && ForestOf(p, useModifier).WellFormed()
    ensures OwnKeys(ForestOf(p, useModifier))
  {
    var f := ForestOf(p, useModifier);
    assert forall i :: 0 <= i < |p.groups| ==> f.groupInputs[i].key == CompositeKey(true, p.groups[i].id) == p.groups[i].id;
    assert forall s :: 0 <= s < |p.subjects| ==> f.subjectInputs[s].key == CompositeKey(false, p.subjects[s].id);
    forall i, j | 0 <= i < |f.groupInputs| && 0 <= j < |f.subjectInputs| && f.parents[i] == f.homes[j]
      ensures f.groupInputs[i].key != f.subjectInputs[j].key
    {
      assert f.homes[j] == HomeOf(p.groups, p.subjects[j]) && f.parents[i] == ParentOf(p.groups, i);
    }
    forall i, j | 0 <= i < j < |f.subjectInputs| && f.homes[i] == f.homes[j]
      ensures f.subjectInputs[i].key != f.subjectInputs[j].key
    {
      assert f.homes[i] == HomeOf(p.groups, p.subjects[i]) && f.homes[j] == HomeOf(p.groups, p.subjects[j]);
    }
  }

  lemma {:induction false} PickedKeysDiffer(f: seq<Input>, order: seq<nat>, i: nat, j: nat)
    requires InRange(order, |f|) && Distinct(order) && i < j < |order|
    requires forall a, b :: 0 <= a < b < |f| && a in order && b in order ==> f[a].key != f[b].key
    ensures Pick(f, order)[i].key != Pick(f, order)[j].key
  {
    var (a, b) := (order[i], order[j]);
    assert a != b && a in order && b in order;
    if a < b {
      assert f[a].key != f[b].key;
    } else {
      assert f[b].key != f[a].key;
    }
  }

  lemma {:induction false} GroupInputsDiffer(f: Forest, g: nat)
    requires f.WellFormed() && OwnKeys(f) && g < |f.parents|
    ensures AllocationLaws.DistinctIdentities(InputsFor(f, g))
  {
    var (kids, folk) := (f.Kids(g), f.Folk(g));
    MembersDistinct(f.parents, g, |f.parents|);
    MembersDistinct(f.homes, g, |f.homes|);
    var inputs := InputsFor(f, g);
    forall i, j | 0 <= i < j < |inputs|
      ensures inputs[i].key != inputs[j].key
    {
      if j < |kids| {
        PickedKeysDiffer(f.groupInputs, kids, i, j);
      } else if i >= |kids| {
        PickedKeysDiffer(f.subjectInputs, folk, i - |kids|, j - |kids|);
      } else {
        assert kids[i] in kids && folk[j - |kids|] in folk;
        assert inputs[i] == f.groupInputs[kids[i]] && inputs[j] == f.subjectInputs[folk[j - |kids|]];
      }
    }
  }

  lemma {:induction false} OwnKeysIdentify(f: Forest)
    requires f.WellFormed() && OwnKeys(f)
    ensures Identified(f)
  {
    UnownedDistinct(f.parents, |f.parents|);
    var roots := Pick(f.groupInputs, f.Roots());
    forall i, j | 0 <= i < j < |roots|
      ensures roots[i].key != roots[j].key
    {
      PickedKeysDiffer(f.groupInputs, f.Roots(), i, j);
    }
    forall g | 0 <= g < |f.parents|
      ensures AllocationLaws.DistinctIdentities(InputsFor(f, g))
    {
      GroupInputsDiffer(f, g);
    }
  }

  // --- Where keys collide -----------------------------------------------------------------------

  lemma {:induction false} EqualPair(key: u64, rank: u32) returns (cs: seq<Input>)
    ensures cs == [Input(key, 1, 0, rank), Input(key, 1, 0, rank)] && Competitors(cs)
    ensures Shares(cs, 1) == [0, 0] && Residues(cs, 1) == [1, 1] && Leftover(cs, 1) == 1 && BranchOf(cs, 1) == Plain
  {
    cs := [Input(key, 1, 0, rank), Input(key, 1, 0, rank)];
    AllocationLaws.SumOfTwo(1, 1);
    AllocationLaws.SumOfTwo(0, 0);
    assert Weights(cs) == [1, 1] && Shares(cs, 1) == [0, 0] && Residues(cs, 1) == [1, 1] && Needs(cs, 1) == [0, 0];
  }

  /** A residue order of two equal competitors may start with either. */
  lemma {:induction false} EitherMayBeFirst(key: u64, rank: u32, order: seq<nat>)
    requires order in {[0, 1], [1, 0]}
    ensures IsAllocation([Input(key, 1, 0, rank), Input(key, 1, 0, rank)], 1,
                         AllocationResult(if order == [0, 1] then [1, 0] else [0, 1], [false, false], false, 0))
  {
    var cs := EqualPair(key, rank);
    var o := Orders([], [], order);
    assert ResidueKeys(cs, Residues(cs, 1)) == [SortKey(-1, key, 0, 0), SortKey(-1, key, 0, 0)];
    assert Permutes(order, 2) by {
      assert order[0] in order && order[1] in order;
    }
    assert LegalOrders(cs, 1, o);
    assert order[..1] == [order[0]];
    assert AllocationBy(cs, 1, o) == if order == [0, 1] then [1, 0] else [0, 1];
    assert Report(cs, 1, AllocationBy(cs, 1, o)).floorBinding == [false, false];
  }

  /** Two subjects of one group whose identities differ only in the key bit: one
      unit to divide, and either may get it. Determinism needs distinct keys. */
  lemma {:induction false} CollidingSiblings(id: u64, rank: u32)
    requires id < SUBJECT_KEY_BIT
    ensures
      var cs := [Input(CompositeKey(false, id), 1, 0, rank), Input(CompositeKey(false, id + SUBJECT_KEY_BIT), 1, 0, rank)];
      && IsAllocation(cs, 1, AllocationResult([1, 0], [false, false], false, 0))
      && IsAllocation(cs, 1, AllocationResult([0, 1], [false, false], false, 0))
  {
    EitherMayBeFirst(CompositeKey(false, id), rank, [0, 1]);
    EitherMayBeFirst(CompositeKey(false, id), rank, [1, 0]);
  }
}
