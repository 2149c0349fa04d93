// The group forest: who belongs to whom, how shares flow down it, and why
// nothing is lost on the way.

module Forest {
  import opened Core
  import opened Sums
  import opened Allocation
  import AllocationLaws

  /** Indices below m owned by g, ascending. */
  function Members(owner: seq<Option<nat>>, g: nat, m: nat): (s: seq<nat>)
    requires m <= |owner|
    ensures InRange(s, m)
    ensures forall i :: 0 <= i < m ==> (i in s <==> owner[i] == Some(g))
  {
    if m == 0 then []
    else if owner[m - 1] == Some(g) then Members(owner, g, m - 1) + [m - 1]
    else Members(owner, g, m - 1)
  }

  /** Indices below m that nobody owns, ascending. */
  function Unowned(owner: seq<Option<nat>>, m: nat): (s: seq<nat>)
    requires m <= |owner|
    ensures InRange(s, m)
    ensures forall i :: 0 <= i < m ==> (i in s <==> owner[i] == None)
  {
    if m == 0 then []
    else if owner[m - 1] == None then Unowned(owner, m - 1) + [m - 1]
    else Unowned(owner, m - 1)
  }

  lemma {:induction false} MembersDistinct(owner: seq<Option<nat>>, g: nat, m: nat)
    requires m <= |owner|
    ensures Distinct(Members(owner, g, m))
  {
    if m > 0 {
      MembersDistinct(owner, g, m - 1);
    }
  }

  lemma {:induction false} UnownedDistinct(owner: seq<Option<nat>>, m: nat)
    requires m <= |owner|
    ensures Distinct(Unowned(owner, m))
  {
    if m > 0 {
      UnownedDistinct(owner, m - 1);
    }
  }

  /** A forest of groups with subjects at home in them. */
  datatype Forest = Forest(
    parents: seq<Option<nat>>, homes: seq<Option<nat>>,
    groupInputs: seq<Input>, subjectInputs: seq<Input>)
  {
    predicate WellFormed() {
      && |groupInputs| == |parents| && |subjectInputs| == |homes|
      && (forall g :: 0 <= g < |parents| && parents[g].Some? ==> parents[g].value < |parents|)
      && (forall s :: 0 <= s < |homes| ==> homes[s].Some? && homes[s].value < |parents|)
    }

    function Kids(g: nat): seq<nat> {
      Members(parents, g, |parents|)
    }

    function Folk(g: nat): seq<nat> {
      Members(homes, g, |homes|)
    }

    function Roots(): seq<nat> {
      Unowned(parents, |parents|)
    }
  }

  function Pick<T>(f: seq<T>, order: seq<nat>): (p: seq<T>)
    requires InRange(order, |f|)
    ensures |p| == |order|
  {
    seq(|order|, k requires 0 <= k < |order| => f[order[k]])
  }

  function InputsFor(f: Forest, g: nat): seq<Input>
    requires f.WellFormed()
  {
    Pick(f.groupInputs, f.Kids(g)) + Pick(f.subjectInputs, f.Folk(g))
  }

  /** One pass's results: per group, per subject, and where a floor was binding. */
  datatype Spread = Spread(groups: seq<nat>, subjects: seq<nat>, binding: seq<bool>)

  ghost predicate Sized(f: Forest, a: Spread) {
    |a.groups| == |f.parents| && |a.subjects| == |f.homes| && |a.binding| == |f.homes|
  }

  /** Group g's allocation was divided among its children by the allocator. */
  ghost predicate Divided(f: Forest, a: Spread, g: nat)
    requires f.WellFormed() && Sized(f, a) && g < |f.parents|
  {
    exists r :: IsAllocation(InputsFor(f, g), a.groups[g], r) && Handed(f, a, g, r)
  }

  /** The children of g hold the results of r. */
  ghost predicate Handed(f: Forest, a: Spread, g: nat, r: AllocationResult)
    requires f.WellFormed() && Sized(f, a) && g < |f.parents|
  {
    && r.allocations == Pick(a.groups, f.Kids(g)) + Pick(a.subjects, f.Folk(g))
    && |r.floorBinding| == |r.allocations|
    && r.floorBinding[|f.Kids(g)|..] == Pick(a.binding, f.Folk(g))
  }

  ghost predicate RootsDivided(f: Forest, a: Spread, whole: nat)
    requires f.WellFormed() && Sized(f, a)
  {
    exists r :: IsAllocation(Pick(f.groupInputs, f.Roots()), whole, r) && r.allocations == Pick(a.groups, f.Roots())
  }

  /** A complete top-down distribution of the whole. */
  ghost predicate IsDistribution(f: Forest, a: Spread, whole: nat) {
    && f.WellFormed() && Sized(f, a) && RootsDivided(f, a, whole)
    && forall g :: 0 <= g < |f.parents| ==> Divided(f, a, g)
  }

  // --- Conservation -------------------------------------------------------------------

  ghost function OwnedParts(owner: seq<Option<nat>>, values: seq<nat>, m: nat): (s: seq<nat>)
    requires m <= |owner| == |values|
    ensures |s| == |owner|
  {
    seq(|owner|, i requires 0 <= i < |owner| => if i < m && owner[i].Some? then values[i] else 0)
  }

  ghost function MemberSums(owner: seq<Option<nat>>, values: seq<nat>, n: nat, m: nat): (s: seq<int>)
    requires m <= |owner| == |values|
    ensures |s| == n
  {
    seq(n, g requires 0 <= g < n => Sum(Gather(values, Members(owner, g, m))))
  }

  /** Summing member by member, owner by owner, counts every owned value once. */
  lemma {:induction false} SumByOwner(owner: seq<Option<nat>>, values: seq<nat>, n: nat, m: nat)
    requires m <= |owner| == |values|
    requires forall i :: 0 <= i < |owner| && owner[i].Some? ==> owner[i].value < n
    ensures Sum(MemberSums(owner, values, n, m)) == Sum(OwnedParts(owner, values, m))
  {
    var sums, parts := MemberSums(owner, values, n, m), OwnedParts(owner, values, m);
    if m == 0 {
      SumOfZeros(sums);
      SumOfZeros(parts);
    } else {
      SumByOwner(owner, values, n, m - 1);
      if owner[m - 1] == None {
        assert sums == MemberSums(owner, values, n, m - 1);
        assert parts == OwnedParts(owner, values, m - 1);
      } else {
        OneMoreInSums(owner, values, n, m);
        OneMoreInParts(owner, values, m);
      }
    }
  }

  lemma {:induction false} OneMoreInSums(owner: seq<Option<nat>>, values: seq<nat>, n: nat, m: nat)
    requires 0 < m <= |owner| == |values| && owner[m - 1].Some? && owner[m - 1].value < n
    ensures Sum(MemberSums(owner, values, n, m)) == Sum(MemberSums(owner, values, n, m - 1)) + values[m - 1]
  {
    var (g, before) := (owner[m - 1].value, MemberSums(owner, values, n, m - 1));
    OneMoreMember(owner, values, g, m);
    assert MemberSums(owner, values, n, m) == before[g := before[g] + values[m - 1]];
    SumUpdate(before, g, before[g] + values[m - 1]);
  }

  lemma {:induction false} OneMoreInParts(owner: seq<Option<nat>>, values: seq<nat>, m: nat)
    requires 0 < m <= |owner| == |values| && owner[m - 1].Some?
    ensures Sum(OwnedParts(owner, values, m)) == Sum(OwnedParts(owner, values, m - 1)) + values[m - 1]
  {
    var before := OwnedParts(owner, values, m - 1);
    assert OwnedParts(owner, values, m) == before[m - 1 := values[m - 1]];
    SumUpdate(before, m - 1, values[m - 1]);
  }

  lemma {:induction false} OneMoreMember(owner: seq<Option<nat>>, values: seq<nat>, g: nat, m: nat)
    requires 0 < m <= |owner| == |values| && owner[m - 1] == Some(g)
    ensures Sum(Gather(values, Members(owner, g, m))) == Sum(Gather(values, Members(owner, g, m - 1))) + values[m - 1]
  {
    var before := Members(owner, g, m - 1);
    SumConcat(Gather(values, before), [values[m - 1]]);
    assert Gather(values, Members(owner, g, m)) == Gather(values, before) + [values[m - 1]];
  }

  lemma {:induction false} HandedSum(f: Forest, a: Spread, g: nat, r: AllocationResult)
    requires f.WellFormed() && Sized(f, a) && g < |f.parents| && Handed(f, a, g, r)
    ensures Sum(r.allocations) == Sum(Gather(a.groups, f.Kids(g))) + Sum(Gather(a.subjects, f.Folk(g)))
  {
    var (kids, folk) := (f.Kids(g), f.Folk(g));
    SumConcat(Gather(a.groups, kids), Gather(a.subjects, folk));
    assert r.allocations == Gather(a.groups, kids) + Gather(a.subjects, folk);
  }

  lemma {:induction false} ChildrenSumToGroup(f: Forest, a: Spread, g: nat)
    requires f.WellFormed() && Sized(f, a) && g < |f.parents| && Divided(f, a, g)
    ensures a.groups[g] == Sum(Gather(a.groups, f.Kids(g))) + Sum(Gather(a.subjects, f.Folk(g)))
  {
    var r :| IsAllocation(InputsFor(f, g), a.groups[g], r) && Handed(f, a, g, r);
    HandedSum(f, a, g, r);
    AllocationLaws.Closes(InputsFor(f, g), a.groups[g], r);
  }

  lemma {:induction false} RootsSumToWhole(f: Forest, a: Spread, whole: nat)
    requires f.WellFormed() && Sized(f, a) && RootsDivided(f, a, whole)
    ensures Sum(Gather(a.groups, f.Roots())) == whole
  {
    var r :| IsAllocation(Pick(f.groupInputs, f.Roots()), whole, r) && r.allocations == Pick(a.groups, f.Roots());
    AllocationLaws.Closes(Pick(f.groupInputs, f.Roots()), whole, r);
    assert r.allocations == Gather(a.groups, f.Roots());
  }

  /** Roots and owned groups make up all groups. */
  lemma {:induction false} RootsAndOwned(f: Forest, a: Spread)
    requires f.WellFormed() && Sized(f, a)
    ensures Sum(a.groups) == Sum(Gather(a.groups, f.Roots())) + Sum(OwnedParts(f.parents, a.groups, |f.parents|))
  {
    UnownedDistinct(f.parents, |f.parents|);
    SumAlongOrder(a.groups, f.Roots());
    SumLinear(a.groups, 1, Mask(a.groups, f.Roots()), OwnedParts(f.parents, a.groups, |f.parents|));
  }

  /** Conservation: every group equals the sum of its children, and the subjects
      together receive exactly the whole. */
  lemma {:induction false} DistributionConserves(f: Forest, a: Spread, whole: nat)
    requires IsDistribution(f, a, whole)
    ensures Sum(a.subjects) == whole
    ensures forall g :: 0 <= g < |f.parents| ==>
      a.groups[g] == Sum(Gather(a.groups, f.Kids(g))) + Sum(Gather(a.subjects, f.Folk(g)))
  {
    forall g | 0 <= g < |f.parents|
      ensures a.groups[g] == Sum(Gather(a.groups, f.Kids(g))) + Sum(Gather(a.subjects, f.Folk(g)))
    {
      ChildrenSumToGroup(f, a, g);
    }
    RootsSumToWhole(f, a, whole);
    RootsAndOwned(f, a);
    EveryChildCounted(f, a);
  }

  /** Over all groups, the children are the owned groups and all subjects. */
  lemma {:induction false} EveryChildCounted(f: Forest, a: Spread)
    requires f.WellFormed() && Sized(f, a)
    requires forall g :: 0 <= g < |f.parents| ==>
      a.groups[g] == Sum(Gather(a.groups, f.Kids(g))) + Sum(Gather(a.subjects, f.Folk(g)))
    ensures Sum(a.groups) == Sum(OwnedParts(f.parents, a.groups, |f.parents|)) + Sum(a.subjects)
  {
    var n := |f.parents|;
    var kids := MemberSums(f.parents, a.groups, n, n);
    var folk := MemberSums(f.homes, a.subjects, n, |f.homes|);
    assert forall g :: 0 <= g < n ==> kids[g] == Sum(Gather(a.groups, f.Kids(g))) && folk[g] == Sum(Gather(a.subjects, f.Folk(g)));
    SumLinear(a.groups, 1, kids, folk);
    SumByOwner(f.parents, a.groups, n, n);
    SumByOwner(f.homes, a.subjects, n, |f.homes|);
    assert OwnedParts(f.homes, a.subjects, |f.homes|) == a.subjects;
  }
}
