// What the allocator promises its callers, for every answer it may give.

module AllocationLaws {
  import opened Core
  import opened Sums
  import opened Ordering
  import opened Greedy
  import opened Allocation

  ghost predicate DistinctIdentities(cs: seq<Input>) {
    forall i, j :: 0 <= i < j < |cs| ==> cs[i].key != cs[j].key
  }

  // --- Closure and floors ----------------------------------------------------------

  /** The allocations sum exactly to the whole. */
  lemma {:induction false} Closes(cs: seq<Input>, whole: nat, r: AllocationResult)
    requires IsAllocation(cs, whole, r)
    ensures |r.allocations| == |cs| && Sum(r.allocations) == whole
  {
    var o :| LegalOrders(cs, whole, o) && r == Report(cs, whole, AllocationBy(cs, whole, o));
    AllocationCloses(cs, whole, o);
  }

  lemma {:induction false} WithinReachMeetsFloors(cs: seq<Input>, whole: nat, o: Orders)
    requires Competitors(cs) && LegalOrders(cs, whole, o) && BranchOf(cs, whole) != Overcommit
    ensures forall i :: 0 <= i < |cs| ==> AllocationBy(cs, whole, o)[i] >= cs[i].floor
  {
    OvercommitCondition(cs, whole);
    if BranchOf(cs, whole) == Reallocate {
      SumNonNegative(Needs(cs, whole));
      GrantsWithinCaps(Slacks(cs, whole), o.donors, Sum(Needs(cs, whole)));
      assert forall i :: 0 <= i < |cs| ==> Reallocated(cs, whole, o.donors)[i] >= cs[i].floor;
    } else {
      assert forall i :: 0 <= i < |cs| ==> Shares(cs, whole)[i] >= Floors(cs)[i];
    }
  }

  /** Floors that fit the whole are all met. Floors that do not are never
      exceeded, and the shortfall reported is exactly the excess. */
  lemma {:induction false} FloorsAreExact(cs: seq<Input>, whole: nat, r: AllocationResult)
    requires IsAllocation(cs, whole, r)
    ensures |r.allocations| == |cs|
    ensures Sum(Floors(cs)) <= whole ==> forall i :: 0 <= i < |cs| ==> r.allocations[i] >= cs[i].floor
    ensures Sum(Floors(cs)) > whole ==> r.overcommit && forall i :: 0 <= i < |cs| ==> r.allocations[i] <= cs[i].floor
    ensures r.shortfall == Monus(Sum(Floors(cs)), whole)
    ensures r.overcommit <==> Sum(Floors(cs)) > Sum(Shares(cs, whole))
  {
    var o :| LegalOrders(cs, whole, o) && r == Report(cs, whole, AllocationBy(cs, whole, o));
    OvercommitCondition(cs, whole);
    LeftoverBounds(cs, whole);
    if BranchOf(cs, whole) != Overcommit {
      WithinReachMeetsFloors(cs, whole, o);
    } else if Sum(Floors(cs)) <= whole {
      FittingFloorsAreMet(cs, whole, o);
    } else {
      ExcessFloorsShareTheWhole(cs, whole, o);
    }
  }

  /** When the floors do not fit, a weaker obligation gets units only once every
      stronger one holds its full floor. */
  lemma {:induction false} StrongerObligationsFirst(cs: seq<Input>, whole: nat, r: AllocationResult, strong: nat, weak: nat)
    requires IsAllocation(cs, whole, r) && Sum(Floors(cs)) > whole
    requires strong < |cs| && weak < |cs| && cs[strong].rank > cs[weak].rank
    ensures |r.allocations| == |cs| && (r.allocations[weak] > 0 ==> r.allocations[strong] == cs[strong].floor)
  {
    FloorsAreExact(cs, whole, r);
    var o :| LegalOrders(cs, whole, o) && r == Report(cs, whole, AllocationBy(cs, whole, o));
    ExcessFloorsShareTheWhole(cs, whole, o);
    StrongerGrantedFirst(cs, whole, o.guarantees, strong, weak);
  }

  lemma {:induction false} StrongerGrantedFirst(cs: seq<Input>, whole: nat, guarantees: seq<nat>, strong: nat, weak: nat)
    requires SortedBy(FloorKeys(cs), guarantees) && Permutes(guarantees, |cs|)
    requires strong < |cs| && weak < |cs| && cs[strong].rank > cs[weak].rank
    ensures Grants(Floors(cs), guarantees, whole)[weak] > 0 ==> Grants(Floors(cs), guarantees, whole)[strong] == cs[strong].floor
  {
    assert strong in guarantees && weak in guarantees;
    var p :| 0 <= p < |guarantees| && guarantees[p] == strong;
    var q :| 0 <= q < |guarantees| && guarantees[q] == weak;
    assert Less(FloorKeys(cs)[strong], FloorKeys(cs)[weak]);
    SmallerComesFirst(FloorKeys(cs), guarantees, p, q);
    if Grants(Floors(cs), guarantees, whole)[weak] > 0 {
      FullBeforeAnything(Floors(cs), guarantees, whole, p, q);
    }
  }

  /** Overcommit may be flagged although the floors fit the whole: one unit, two
      equal competitors, and a single floor of one. */
  lemma {:induction false} OvercommitWithoutShortfall() returns (cs: seq<Input>)
    ensures Competitors(cs) && Sum(Floors(cs)) <= 1 && BranchOf(cs, 1) == Overcommit
    ensures forall r :: IsAllocation(cs, 1, r) ==> r.overcommit && r.shortfall == 0
  {
    cs := [Input(1, 1, 1, 0), Input(2, 1, 0, 0)];
    SumOfTwo(1, 1);
    SumOfTwo(1, 0);
    SumOfTwo(0, 0);
    assert Weights(cs) == [1, 1];
    assert Shares(cs, 1) == [0, 0];
    assert Needs(cs, 1) == [1, 0] && Slacks(cs, 1) == [0, 0] && Floors(cs) == [1, 0];
    forall r | IsAllocation(cs, 1, r)
      ensures r.overcommit && r.shortfall == 0
    {
      FloorsAreExact(cs, 1, r);
    }
  }

  lemma {:induction false} SumOfTwo(a: int, b: int)
    ensures Sum([a, b]) == a + b
  {
    SumStep([a, b], 0);
    SumStep([a, b], 1);
    assert [a, b][..2] == [a, b] && [a, b][..0] == [];
  }

  // --- Quota ------------------------------------------------------------------------

  /** With no binding floor an allocation is the weighted share rounded down or
      up, and a share that needed no rounding is given exactly. */
  lemma {:induction false} Quota(cs: seq<Input>, whole: nat, r: AllocationResult, i: nat)
    requires IsAllocation(cs, whole, r) && i < |cs|
    requires BranchOf(cs, whole) == Plain
    ensures |r.allocations| == |cs|
    ensures Shares(cs, whole)[i] <= r.allocations[i] <= Shares(cs, whole)[i] + 1
    ensures Residues(cs, whole)[i] == 0 ==> r.allocations[i] == Shares(cs, whole)[i]
  {
    var o :| LegalOrders(cs, whole, o) && r == Report(cs, whole, AllocationBy(cs, whole, o));
    PlainAllocation(cs, whole, o, i);
    if Residues(cs, whole)[i] == 0 && Leftover(cs, whole) > 0 {
      ExactShareGetsNoUnit(cs, whole, o.residues, i);
    }
  }

  /** With no binding floor: the share, and one unit for those early in line. */
  lemma {:induction false} PlainAllocation(cs: seq<Input>, whole: nat, o: Orders, i: nat)
    requires Competitors(cs) && LegalOrders(cs, whole, o) && BranchOf(cs, whole) == Plain && i < |cs|
    ensures Leftover(cs, whole) <= 0 ==> AllocationBy(cs, whole, o)[i] == Shares(cs, whole)[i]
    ensures Leftover(cs, whole) > 0 ==>
      && LegalResidues(cs, whole, o.residues) && Leftover(cs, whole) <= |o.residues|
      && AllocationBy(cs, whole, o)[i] == Shares(cs, whole)[i] + if i in o.residues[..Leftover(cs, whole)] then 1 else 0
  {
    LeftoverBounds(cs, whole);
    if Leftover(cs, whole) > 0 {
      PermutationLength(o.residues, |cs|);
    }
  }

  /** Leftover units never reach past the competitors with a residue. */
  lemma {:induction false} ExactShareGetsNoUnit(cs: seq<Input>, whole: nat, order: seq<nat>, i: nat)
    requires Competitors(cs) && i < |cs| && Residues(cs, whole)[i] == 0
    requires LegalResidues(cs, whole, order)
    requires 0 < Leftover(cs, whole)
    ensures Leftover(cs, whole) <= |order| ==> i !in order[..Leftover(cs, whole)]
  {
    assert i in order;
    var p :| 0 <= p < |order| && order[p] == i;
    assert Sum(Residues(cs, whole)) <= p * (WeightSum(cs) - 1) by {
      ResiduesBefore(cs, whole, order, p);
    }
    LeftoverIsResidueSum(cs, whole);
    WeightSumCovers(cs);
    PositionPastLeftover(Leftover(cs, whole), p, WeightSum(cs));
  }

  /** Everything from a zero residue on is zero, so the rest bound the sum. */
  lemma {:induction false} ResiduesBefore(cs: seq<Input>, whole: nat, order: seq<nat>, p: nat)
    requires Competitors(cs) && Permutes(order, |cs|) && p < |order|
    requires SortedBy(ResidueKeys(cs, Residues(cs, whole)), order) && Residues(cs, whole)[order[p]] == 0
    ensures Sum(Residues(cs, whole)) <= p * (WeightSum(cs) - 1)
  {
    var (res, w) := (Residues(cs, whole), WeightSum(cs));
    var g := Gather(res, order);
    forall q | p <= q < |order|
      ensures g[q] == 0
    {
      if q > p {
        assert !Less(ResidueKeys(cs, res)[order[q]], ResidueKeys(cs, res)[order[p]]);
      }
    }
    forall q | 0 <= q < p
      ensures 0 <= g[q] <= w - 1
    {
      ShareAndResidue(cs, whole, order[q]);
    }
    SumPermuted(res, order);
    FrontBoundsSum(g, p, w - 1);
  }

  lemma {:induction false} FrontBoundsSum(g: seq<int>, p: nat, most: int)
    requires p <= |g| && (forall q :: 0 <= q < p ==> 0 <= g[q] <= most) && forall q :: p <= q < |g| ==> g[q] == 0
    ensures Sum(g) <= p * most
  {
    SumConcat(g[..p], g[p..]);
    assert g[..p] + g[p..] == g;
    SumOfZeros(g[p..]);
    SumBounds(g[..p], 0, most);
  }

  lemma {:induction false} PositionPastLeftover(k: int, p: nat, w: nat)
    requires w > 0 && k * w <= p * (w - 1)
    ensures k <= p
  {
    assert p * (w - 1) == p * w - p;
    assert k > p ==> k * w >= (p + 1) * w == p * w + w;
  }

  /** Equal weights receive the same share, give or take one unit. */
  lemma {:induction false} EqualWeightsDifferByOne(cs: seq<Input>, whole: nat, r: AllocationResult, i: nat, j: nat)
    requires IsAllocation(cs, whole, r) && i < |cs| && j < |cs| && cs[i].weight == cs[j].weight
    requires BranchOf(cs, whole) == Plain
    ensures |r.allocations| == |cs| && r.allocations[i] <= r.allocations[j] + 1
  {
    Quota(cs, whole, r, i);
    Quota(cs, whole, r, j);
    EqualWeightsEqualShares(cs, whole, i, j);
  }

  lemma {:induction false} EqualWeightsEqualShares(cs: seq<Input>, amount: nat, i: nat, j: nat)
    requires Competitors(cs) && i < |cs| && j < |cs| && cs[i].weight == cs[j].weight
    ensures Shares(cs, amount)[i] == Shares(cs, amount)[j]
  {
    WeightSumCovers(cs);
    var x := amount * cs[i].weight;
    assert Shares(cs, amount)[i] == x / WeightSum(cs);
  }

  // --- Order independence --------------------------------------------------------------

  ghost predicate IsRearrangement(p: seq<nat>, n: nat) {
    |p| == n && Permutes(p, n)
  }

  ghost function Rearranged(cs: seq<Input>, p: seq<nat>): (d: seq<Input>)
    requires InRange(p, |cs|)
    ensures |d| == |p|
  {
    seq(|p|, i requires 0 <= i < |p| => cs[p[i]])
  }

  /** The order over the original competitors behind an order over positions. */
  ghost function Relabel(order: seq<nat>, p: seq<nat>): (o: seq<nat>)
    requires InRange(order, |p|)
    ensures |o| == |order|
  {
    seq(|order|, k requires 0 <= k < |order| => p[order[k]])
  }

  lemma {:induction false} RelabelMembers(order: seq<nat>, p: seq<nat>, n: nat)
    requires InRange(order, |p|) && IsRearrangement(p, n) && Distinct(order)
    ensures InRange(Relabel(order, p), n) && Distinct(Relabel(order, p))
    ensures forall i :: 0 <= i < n ==> (p[i] in Relabel(order, p) <==> i in order)
  {
    forall i | 0 <= i < n
      ensures p[i] in Relabel(order, p) <==> i in order
    {
      if i in order {
        var k :| 0 <= k < |order| && order[k] == i;
        assert Relabel(order, p)[k] == p[i];
      }
      if p[i] in Relabel(order, p) {
        var k :| 0 <= k < |order| && Relabel(order, p)[k] == p[i];
        assert order[k] == i;
      }
    }
  }

  lemma {:induction false} RelabelPermutes(order: seq<nat>, p: seq<nat>, n: nat)
    requires IsRearrangement(p, n) && Permutes(order, n)
    ensures Permutes(Relabel(order, p), n)
  {
    RelabelMembers(order, p, n);
    forall j: nat | j < n
      ensures j in Relabel(order, p)
    {
      assert j in p;
      var i :| 0 <= i < n && p[i] == j;
      assert i in order;
    }
  }

  lemma {:induction false} RelabelSorted(keys: seq<SortKey>, keys': seq<SortKey>, order: seq<nat>, p: seq<nat>)
    requires |keys| == |keys'| && IsRearrangement(p, |keys|)
    requires forall i :: 0 <= i < |keys| ==> keys'[i] == keys[p[i]]
    requires SortedBy(keys', order)
    ensures SortedBy(keys, Relabel(order, p))
  {
    RelabelMembers(order, p, |keys|);
  }

  lemma {:induction false} RelabelGrantAt(caps: seq<nat>, caps': seq<nat>, order: seq<nat>, p: seq<nat>, budget: nat, k: nat)
    requires |caps| == |caps'| && IsRearrangement(p, |caps|) && k < |order|
    requires InRange(order, |caps|) && Distinct(order)
    requires InRange(Relabel(order, p), |caps|) && Distinct(Relabel(order, p))
    requires forall i :: 0 <= i < |caps| ==> caps'[i] == caps[p[i]]
    ensures Grants(caps', order, budget)[order[k]] == Grants(caps, Relabel(order, p), budget)[p[order[k]]]
  {
    var o := Relabel(order, p);
    GrantAt(caps', order, budget, k);
    GrantAt(caps, o, budget, k);
    assert Gather(caps', order[..k]) == Gather(caps, o[..k]);
  }

  lemma {:induction false} RelabelGrants(caps: seq<nat>, caps': seq<nat>, order: seq<nat>, p: seq<nat>, budget: nat, i: nat)
    requires |caps| == |caps'| && IsRearrangement(p, |caps|) && i < |caps|
    requires forall k :: 0 <= k < |caps| ==> caps'[k] == caps[p[k]]
    requires InRange(order, |caps|) && Distinct(order)
    ensures InRange(Relabel(order, p), |caps|)
    ensures Grants(caps', order, budget)[i] == Grants(caps, Relabel(order, p), budget)[p[i]]
  {
    RelabelMembers(order, p, |caps|);
    var o := Relabel(order, p);
    if i in order {
      var k :| 0 <= k < |order| && order[k] == i;
      RelabelGrantAt(caps, caps', order, p, budget, k);
    } else {
      NothingOutsideTheOrder(caps', order, budget, i);
      NothingOutsideTheOrder(caps, o, budget, p[i]);
    }
  }

  /** Everything computed per competitor moves with the competitor. */
  lemma {:induction false} QuantitiesMove(cs: seq<Input>, p: seq<nat>, amount: nat)
    requires Competitors(cs) && IsRearrangement(p, |cs|)
    ensures Competitors(Rearranged(cs, p)) && WeightSum(Rearranged(cs, p)) == WeightSum(cs)
    ensures
      var d := Rearranged(cs, p);
      && (forall i :: 0 <= i < |cs| ==>
          && Shares(d, amount)[i] == Shares(cs, amount)[p[i]]
          && Residues(d, amount)[i] == Residues(cs, amount)[p[i]])
      && Sum(Shares(d, amount)) == Sum(Shares(cs, amount))
  {
    var d := Rearranged(cs, p);
    assert Weights(d) == Gather(Weights(cs), p);
    SumPermuted(Weights(cs), p);
    WeightSumCovers(cs);
    assert Shares(d, amount) == Gather(Shares(cs, amount), p);
    SumPermuted(Shares(cs, amount), p);
  }

  lemma {:induction false} FloorQuantitiesMove(cs: seq<Input>, p: seq<nat>, whole: nat)
    requires Competitors(cs) && IsRearrangement(p, |cs|) && Competitors(Rearranged(cs, p))
    ensures
      var d := Rearranged(cs, p);
      && (forall i :: 0 <= i < |cs| ==>
          && Needs(d, whole)[i] == Needs(cs, whole)[p[i]]
          && Slacks(d, whole)[i] == Slacks(cs, whole)[p[i]])
      && Sum(Needs(d, whole)) == Sum(Needs(cs, whole))
      && Sum(Slacks(d, whole)) == Sum(Slacks(cs, whole))
      && BranchOf(d, whole) == BranchOf(cs, whole)
  {
    var d := Rearranged(cs, p);
    QuantitiesMove(cs, p, whole);
    assert Needs(d, whole) == Gather(Needs(cs, whole), p);
    assert Slacks(d, whole) == Gather(Slacks(cs, whole), p);
    SumPermuted(Needs(cs, whole), p);
    SumPermuted(Slacks(cs, whole), p);
  }

  ghost function RelabelOrders(o: Orders, p: seq<nat>): Orders
    requires InRange(o.donors, |p|) && InRange(o.guarantees, |p|)
  {
    Orders(Relabel(o.donors, p), Relabel(o.guarantees, p), if InRange(o.residues, |p|) then Relabel(o.residues, p) else [])
  }

  lemma {:induction false} GuaranteesMove(cs: seq<Input>, p: seq<nat>, whole: nat, guarantees: seq<nat>)
    requires Competitors(cs) && IsRearrangement(p, |cs|)
    requires InRange(guarantees, |cs|) && Distinct(guarantees)
    ensures InRange(Relabel(guarantees, p), |cs|) && Distinct(Relabel(guarantees, p))
    ensures AfterGuarantees(Rearranged(cs, p), whole, guarantees) == AfterGuarantees(cs, whole, Relabel(guarantees, p))
    ensures forall i :: 0 <= i < |cs| ==>
      Grants(Floors(Rearranged(cs, p)), guarantees, whole)[i] == Grants(Floors(cs), Relabel(guarantees, p), whole)[p[i]]
  {
    var (f, f', o) := (Floors(cs), Floors(Rearranged(cs, p)), Relabel(guarantees, p));
    RelabelMembers(guarantees, p, |cs|);
    forall i | 0 <= i < |cs|
      ensures Grants(f', guarantees, whole)[i] == Grants(f, o, whole)[p[i]]
    {
      RelabelGrants(f, f', guarantees, p, whole, i);
    }
    assert Grants(f', guarantees, whole) == Gather(Grants(f, o, whole), p);
    SumPermuted(Grants(f, o, whole), p);
  }

  lemma {:induction false} DonorsMove(cs: seq<Input>, p: seq<nat>, whole: nat, donors: seq<nat>)
    requires Competitors(cs) && IsRearrangement(p, |cs|) && Competitors(Rearranged(cs, p))
    requires LegalDonors(Rearranged(cs, p), whole, donors)
    ensures LegalDonors(cs, whole, Relabel(donors, p))
  {
    var d := Rearranged(cs, p);
    FloorQuantitiesMove(cs, p, whole);
    RelabelMembers(donors, p, |cs|);
    RelabelSorted(DonorKeys(cs, Slacks(cs, whole)), DonorKeys(d, Slacks(d, whole)), donors, p);
    SelectionMoves(Slacks(cs, whole), Slacks(d, whole), donors, p);
  }

  lemma {:induction false} SelectionMoves(slack: seq<nat>, slack': seq<nat>, donors: seq<nat>, p: seq<nat>)
    requires |slack| == |slack'| && IsRearrangement(p, |slack|) && InRange(donors, |p|) && Distinct(donors)
    requires forall i :: 0 <= i < |slack| ==> slack'[i] == slack[p[i]]
    requires forall i :: 0 <= i < |slack| ==> (i in donors <==> slack'[i] > 0)
    ensures forall j :: 0 <= j < |slack| ==> (j in Relabel(donors, p) <==> slack[j] > 0)
  {
    RelabelMembers(donors, p, |slack|);
    forall j | 0 <= j < |slack|
      ensures j in Relabel(donors, p) <==> slack[j] > 0
    {
      assert j in p;
      var i :| 0 <= i < |slack| && p[i] == j;
    }
  }

  lemma {:induction false} ResiduesMove(cs: seq<Input>, p: seq<nat>, amount: nat, order: seq<nat>)
    requires Competitors(cs) && IsRearrangement(p, |cs|) && Competitors(Rearranged(cs, p))
    requires LegalResidues(Rearranged(cs, p), amount, order)
    ensures LegalResidues(cs, amount, Relabel(order, p))
  {
    var d := Rearranged(cs, p);
    QuantitiesMove(cs, p, amount);
    RelabelSorted(ResidueKeys(cs, Residues(cs, amount)), ResidueKeys(d, Residues(d, amount)), order, p);
    RelabelPermutes(order, p, |cs|);
  }

  lemma {:induction false} GuaranteeOrderMoves(cs: seq<Input>, p: seq<nat>, guarantees: seq<nat>)
    requires IsRearrangement(p, |cs|) && LegalGuarantees(Rearranged(cs, p), guarantees)
    ensures LegalGuarantees(cs, Relabel(guarantees, p))
  {
    RelabelSorted(FloorKeys(cs), FloorKeys(Rearranged(cs, p)), guarantees, p);
    RelabelPermutes(guarantees, p, |cs|);
  }

  /** Legal orders stay legal when read as orders of the original competitors. */
  lemma {:induction false} OrdersMove(cs: seq<Input>, p: seq<nat>, whole: nat, o: Orders)
    requires Competitors(cs) && IsRearrangement(p, |cs|)
    requires Competitors(Rearranged(cs, p)) && LegalOrders(Rearranged(cs, p), whole, o)
    ensures LegalOrders(cs, whole, RelabelOrders(o, p))
    ensures SharedAmount(cs, whole, RelabelOrders(o, p)) == SharedAmount(Rearranged(cs, p), whole, o)
  {
    var d := Rearranged(cs, p);
    assert BranchOf(d, whole) == BranchOf(cs, whole) by {
      FloorQuantitiesMove(cs, p, whole);
    }
    RelabelMembers(o.donors, p, |cs|);
    assert
      && InRange(Relabel(o.guarantees, p), |cs|) && Distinct(Relabel(o.guarantees, p))
      && SharedAmount(cs, whole, RelabelOrders(o, p)) == SharedAmount(d, whole, o) by {
      GuaranteesMove(cs, p, whole, o.guarantees);
    }
    var amount := SharedAmount(d, whole, o);
    if BranchOf(cs, whole) == Reallocate {
      DonorsMove(cs, p, whole, o.donors);
    }
    if BranchOf(cs, whole) == Overcommit {
      GuaranteeOrderMoves(cs, p, o.guarantees);
    }
    assert Leftover(d, amount) == Leftover(cs, amount) by {
      QuantitiesMove(cs, p, amount);
    }
    if Leftover(cs, amount) > 0 {
      ResiduesMove(cs, p, amount, o.residues);
    }
  }

  lemma {:induction false} ReallocationMoves(cs: seq<Input>, p: seq<nat>, whole: nat, donors: seq<nat>, i: nat)
    requires Competitors(cs) && IsRearrangement(p, |cs|) && Competitors(Rearranged(cs, p)) && i < |cs|
    requires InRange(donors, |cs|) && Distinct(donors)
    ensures InRange(Relabel(donors, p), |cs|) && Distinct(Relabel(donors, p))
    ensures Reallocated(Rearranged(cs, p), whole, donors)[i] == Reallocated(cs, whole, Relabel(donors, p))[p[i]]
  {
    var d := Rearranged(cs, p);
    RelabelMembers(donors, p, |cs|);
    FloorQuantitiesMove(cs, p, whole);
    QuantitiesMove(cs, p, whole);
    SumNonNegative(Needs(cs, whole));
    RelabelGrants(Slacks(cs, whole), Slacks(d, whole), donors, p, Sum(Needs(cs, whole)), i);
  }

  lemma {:induction false} GuaranteesFirstMoves(cs: seq<Input>, p: seq<nat>, whole: nat, guarantees: seq<nat>, i: nat)
    requires Competitors(cs) && IsRearrangement(p, |cs|) && Competitors(Rearranged(cs, p)) && i < |cs|
    requires InRange(guarantees, |cs|) && Distinct(guarantees)
    ensures InRange(Relabel(guarantees, p), |cs|) && Distinct(Relabel(guarantees, p))
    ensures GuaranteesFirst(Rearranged(cs, p), whole, guarantees)[i] == GuaranteesFirst(cs, whole, Relabel(guarantees, p))[p[i]]
  {
    GuaranteesMove(cs, p, whole, guarantees);
    QuantitiesMove(cs, p, AfterGuarantees(Rearranged(cs, p), whole, guarantees));
  }

  lemma {:induction false} BumpMoves(a: seq<nat>, a': seq<nat>, order: seq<nat>, p: seq<nat>, k: int, i: nat)
    requires |a| == |a'| && IsRearrangement(p, |a|) && i < |a| && a'[i] == a[p[i]]
    requires Permutes(order, |a|) && 0 <= k <= |order|
    ensures Bump(a', order, k)[i] == Bump(a, Relabel(order, p), k)[p[i]]
  {
    RelabelMembers(order[..k], p, |a|);
    assert Relabel(order[..k], p) == Relabel(order, p)[..k];
  }

  /** The allocation of a rearrangement is the rearranged allocation, once its
      orders are read as orders of the original competitors. */
  lemma {:induction false} AllocationMoves(cs: seq<Input>, p: seq<nat>, whole: nat, o: Orders, i: nat)
    requires Competitors(cs) && IsRearrangement(p, |cs|) && i < |cs|
    requires Competitors(Rearranged(cs, p)) && LegalOrders(Rearranged(cs, p), whole, o)
    ensures LegalOrders(cs, whole, RelabelOrders(o, p))
    ensures AllocationBy(Rearranged(cs, p), whole, o)[i] == AllocationBy(cs, whole, RelabelOrders(o, p))[p[i]]
  {
    var d := Rearranged(cs, p);
    OrdersMove(cs, p, whole, o);
    assert BranchOf(d, whole) == BranchOf(cs, whole) by {
      FloorQuantitiesMove(cs, p, whole);
    }
    var amount := SharedAmount(cs, whole, RelabelOrders(o, p));
    assert Shares(d, whole)[i] == Shares(cs, whole)[p[i]] by {
      QuantitiesMove(cs, p, whole);
    }
    assert Leftover(d, amount) == Leftover(cs, amount) by {
      QuantitiesMove(cs, p, amount);
    }
    ReallocationMoves(cs, p, whole, o.donors, i);
    GuaranteesFirstMoves(cs, p, whole, o.guarantees, i);
    LeftoverBounds(cs, amount);
    if Leftover(cs, amount) > 0 {
      PermutationLength(o.residues, |cs|);
      var base := BaseOf(cs, whole, RelabelOrders(o, p));
      BumpMoves(base, BaseOf(d, whole, o), o.residues, p, Leftover(cs, amount), i);
    }
  }

  // --- Uniqueness -----------------------------------------------------------------------

  lemma {:induction false} IdentitiesMakeKeysDistinct(cs: seq<Input>, slack: seq<nat>)
    requires DistinctIdentities(cs) && |slack| == |cs|
    ensures forall i, j :: 0 <= i < |cs| && 0 <= j < |cs| && i != j ==>
      && DonorKeys(cs, slack)[i] != DonorKeys(cs, slack)[j]
      && FloorKeys(cs)[i] != FloorKeys(cs)[j]
      && ResidueKeys(cs, slack)[i] != ResidueKeys(cs, slack)[j]
  {
    forall i, j | 0 <= i < |cs| && 0 <= j < |cs| && i != j
      ensures cs[i].key != cs[j].key
    {
      var (lo, hi) := if i < j then (i, j) else (j, i);
      assert cs[lo].key != cs[hi].key;
    }
  }

  lemma {:induction false} OneOrder(keys: seq<SortKey>, o1: seq<nat>, o2: seq<nat>)
    requires SortedBy(keys, o1) && SortedBy(keys, o2)
    requires forall i :: 0 <= i < |keys| ==> (i in o1 <==> i in o2)
    requires forall i, j :: 0 <= i < |keys| && 0 <= j < |keys| && i != j ==> keys[i] != keys[j]
    ensures o1 == o2
  {
    assert forall i: nat :: i in o1 ==> i < |keys|;
    assert forall i: nat :: i in o2 ==> i < |keys|;
    SortedOrderIsUnique(keys, o1, o2);
  }

  lemma {:induction false} OneDonorOrder(cs: seq<Input>, whole: nat, d1: seq<nat>, d2: seq<nat>)
    requires Competitors(cs) && DistinctIdentities(cs) && LegalDonors(cs, whole, d1) && LegalDonors(cs, whole, d2)
    ensures d1 == d2
  {
    IdentitiesMakeKeysDistinct(cs, Slacks(cs, whole));
    OneOrder(DonorKeys(cs, Slacks(cs, whole)), d1, d2);
  }

  lemma {:induction false} OneGuaranteeOrder(cs: seq<Input>, g1: seq<nat>, g2: seq<nat>)
    requires DistinctIdentities(cs) && LegalGuarantees(cs, g1) && LegalGuarantees(cs, g2)
    ensures g1 == g2
  {
    IdentitiesMakeKeysDistinct(cs, Floors(cs));
    OneOrder(FloorKeys(cs), g1, g2);
  }

  lemma {:induction false} OneResidueOrder(cs: seq<Input>, amount: nat, r1: seq<nat>, r2: seq<nat>)
    requires Competitors(cs) && DistinctIdentities(cs) && LegalResidues(cs, amount, r1) && LegalResidues(cs, amount, r2)
    ensures r1 == r2
  {
    IdentitiesMakeKeysDistinct(cs, Residues(cs, amount));
    OneOrder(ResidueKeys(cs, Residues(cs, amount)), r1, r2);
  }

  lemma {:induction false} OneBase(cs: seq<Input>, whole: nat, o1: Orders, o2: Orders)
    requires Competitors(cs) && DistinctIdentities(cs) && LegalOrders(cs, whole, o1) && LegalOrders(cs, whole, o2)
    ensures BaseOf(cs, whole, o1) == BaseOf(cs, whole, o2) && SharedAmount(cs, whole, o1) == SharedAmount(cs, whole, o2)
  {
    if BranchOf(cs, whole) == Reallocate {
      OneDonorOrder(cs, whole, o1.donors, o2.donors);
    }
    if BranchOf(cs, whole) == Overcommit {
      OneGuaranteeOrder(cs, o1.guarantees, o2.guarantees);
    }
  }

  /** With distinct identities the sorts leave no choice. */
  lemma {:induction false} OneAllocation(cs: seq<Input>, whole: nat, o1: Orders, o2: Orders)
    requires Competitors(cs) && DistinctIdentities(cs) && LegalOrders(cs, whole, o1) && LegalOrders(cs, whole, o2)
    ensures AllocationBy(cs, whole, o1) == AllocationBy(cs, whole, o2)
  {
    OneBase(cs, whole, o1, o2);
    var amount := SharedAmount(cs, whole, o1);
    LeftoverBounds(cs, amount);
    if Leftover(cs, amount) > 0 {
      OneResidueOrder(cs, amount, o1.residues, o2.residues);
    } else {
      var base := BaseOf(cs, whole, o1);
      assert Bump(base, o1.residues, 0) == base == Bump(base, o2.residues, 0);
    }
  }

  /** Presenting the competitors in another order rearranges the allocations,
      and nothing else, in every branch. */
  lemma {:induction false} OrderIndependence(cs: seq<Input>, p: seq<nat>, whole: nat, r: AllocationResult, r': AllocationResult)
    requires DistinctIdentities(cs) && IsRearrangement(p, |cs|)
    requires IsAllocation(cs, whole, r) && IsAllocation(Rearranged(cs, p), whole, r')
    ensures |r.allocations| == |r'.allocations| == |cs|
    ensures forall i :: 0 <= i < |cs| ==> r'.allocations[i] == r.allocations[p[i]]
    ensures |r.floorBinding| == |r'.floorBinding| == |cs|
    ensures forall i :: 0 <= i < |cs| ==> r'.floorBinding[i] == r.floorBinding[p[i]]
    ensures r'.overcommit == r.overcommit && r'.shortfall == r.shortfall
  {
    var d := Rearranged(cs, p);
    var o :| LegalOrders(cs, whole, o) && r == Report(cs, whole, AllocationBy(cs, whole, o));
    var o' :| LegalOrders(d, whole, o') && r' == Report(d, whole, AllocationBy(d, whole, o'));
    forall i | 0 <= i < |cs|
      ensures r'.allocations[i] == r.allocations[p[i]]
    {
      AllocationMoves(cs, p, whole, o', i);
      OneAllocation(cs, whole, o, RelabelOrders(o', p));
    }
    FlagsMove(cs, p, whole, r, r');
    BindingMoves(cs, p, whole, r, r');
  }

  /** The binding flags move with the competitors, as the allocations do. */
  lemma {:induction false} BindingMoves(cs: seq<Input>, p: seq<nat>, whole: nat, r: AllocationResult, r': AllocationResult)
    requires IsRearrangement(p, |cs|) && Competitors(cs) && Competitors(Rearranged(cs, p))
    requires |r.allocations| == |r'.allocations| == |cs|
    requires r.floorBinding == Binding(cs, whole, r.allocations)
    requires r'.floorBinding == Binding(Rearranged(cs, p), whole, r'.allocations)
    requires forall i :: 0 <= i < |cs| ==> r'.allocations[i] == r.allocations[p[i]]
    ensures |r.floorBinding| == |r'.floorBinding| == |cs|
    ensures forall i :: 0 <= i < |cs| ==> r'.floorBinding[i] == r.floorBinding[p[i]]
  {
    QuantitiesMove(cs, p, whole);
    FloorQuantitiesMove(cs, p, whole);
  }

  lemma {:induction false} FlagsMove(cs: seq<Input>, p: seq<nat>, whole: nat, r: AllocationResult, r': AllocationResult)
    requires IsRearrangement(p, |cs|)
    requires IsAllocation(cs, whole, r) && IsAllocation(Rearranged(cs, p), whole, r')
    ensures r'.overcommit == r.overcommit && r'.shortfall == r.shortfall
  {
    FloorsAreExact(cs, whole, r);
    FloorsAreExact(Rearranged(cs, p), whole, r');
    assert Floors(Rearranged(cs, p)) == Gather(Floors(cs), p);
    SumPermuted(Floors(cs), p);
    QuantitiesMove(cs, p, whole);
  }

  // --- Monotonicity ------------------------------------------------------------------------

  ghost function Raise(cs: seq<Input>, i: nat, weight: u64): (d: seq<Input>)
    requires i < |cs|
  {
    cs[i := cs[i].(weight := weight)]
  }

  lemma {:induction false} RaisedWeightSum(cs: seq<Input>, i: nat, weight: u64)
    requires i < |cs|
    ensures WeightSum(Raise(cs, i, weight)) == WeightSum(cs) + weight - cs[i].weight
  {
    SumUpdate(Weights(cs), i, weight);
    assert Weights(Raise(cs, i, weight)) == Weights(cs)[i := weight];
  }

  lemma {:induction false} DivideBack(x: nat, w: nat) returns (q: nat, r: nat)
    requires w > 0
    ensures q == x / w && r == x % w && x == w * q + r && r < w
  {
    q, r := x / w, x % w;
  }

  /** When the divisor grows, the quotient falls; while it stays the same, so
      does the remainder. */
  lemma {:induction false} LargerDivisor(x: nat, w: nat, d: nat)
    requires w > 0
    ensures x / (w + d) <= x / w
    ensures x / (w + d) == x / w ==> x % (w + d) <= x % w
  {
    var q, r := DivideBack(x, w);
    var q', r' := DivideBack(x, w + d);
    assert (w + d) * q' == w * q' + d * q' && d * q' >= 0;
    QuotientsCompare(w, q', d * q' + r', q, r);
  }

  /** w*a + s == w*b + r with r < w bounds a by b. */
  lemma {:induction false} QuotientsCompare(w: nat, a: nat, s: nat, b: nat, r: nat)
    requires w * a + s == w * b + r && r < w
    ensures a <= b && (a == b ==> s == r)
  {
    assert a > b ==> w * a >= w * (b + 1) == w * b + w;
  }

  /** When numerator and divisor grow together, for a fraction of at most h, the
      quotient rises; while it stays the same, so does the remainder. */
  lemma {:induction false} LargerFraction(h: nat, v: nat, w: nat, d: nat)
    requires 0 < v <= w
    ensures h * v / w <= h * (v + d) / (w + d)
    ensures h * v / w == h * (v + d) / (w + d) ==> h * v % w <= h * (v + d) % (w + d)
  {
    Distribute(h, v, d);
    assert h * v <= h * w;
    QuotientAtMost(h * v, w, h);
    AddToBoth(h * v, h * d, w, d, h);
  }

  lemma {:induction false} PortionFalls(amount: nat, weight: nat, total: nat, delta: nat)
    requires total > 0
    ensures Portion(amount, weight, total + delta) <= Portion(amount, weight, total)
    ensures Portion(amount, weight, total + delta) == Portion(amount, weight, total)
        ==> CutOff(amount, weight, total + delta) <= CutOff(amount, weight, total)
  {
    LargerDivisor(amount * weight, total, delta);
  }

  lemma {:induction false} PortionRises(amount: nat, weight: nat, total: nat, delta: nat)
    requires 0 < weight <= total
    ensures Portion(amount, weight, total) <= Portion(amount, weight + delta, total + delta)
    ensures Portion(amount, weight, total) == Portion(amount, weight + delta, total + delta)
        ==> CutOff(amount, weight, total) <= CutOff(amount, weight + delta, total + delta)
  {
    LargerFraction(amount, weight, total, delta);
  }

  lemma {:induction false} Distribute(h: nat, v: nat, d: nat)
    ensures h * (v + d) == h * v + h * d
  {
  }

  lemma {:induction false} AddToBoth(x: nat, e: nat, w: nat, d: nat, h: nat)
    requires w > 0 && x / w <= h && e == h * d
    ensures x / w <= (x + e) / (w + d)
    ensures x / w == (x + e) / (w + d) ==> x % w <= (x + e) % (w + d)
  {
    var q, r := DivideBack(x, w);
    var q', r' := DivideBack(x + e, w + d);
    assert q * d <= h * d;
    assert (w + d) * q == w * q + q * d;
    QuotientsCompare(w + d, q, r + (e - q * d), q', r');
  }

  /** Raising one weight raises that share and lowers every other; where a
      rounded share does not move, its residue moves the same way. */
  lemma {:induction false} RaiseMovesShares(cs: seq<Input>, i: nat, weight: u64, amount: nat, j: nat)
    requires Competitors(cs) && i < |cs| && weight >= cs[i].weight && j < |cs|
    ensures Competitors(Raise(cs, i, weight))
    ensures
      var (s, s') := (Shares(cs, amount)[j], Shares(Raise(cs, i, weight), amount)[j]);
      var (r, r') := (Residues(cs, amount)[j], Residues(Raise(cs, i, weight), amount)[j]);
      if j == i then s <= s' && (s == s' ==> r <= r') else s' <= s && (s == s' ==> r' <= r)
  {
    WeightSumCovers(cs);
    RaisedWeightSum(cs, i, weight);
    WeightSumCovers(Raise(cs, i, weight));
    var delta := weight - cs[i].weight;
    if j == i {
      PortionRises(amount, cs[i].weight, WeightSum(cs), delta);
    } else {
      PortionFalls(amount, cs[j].weight, WeightSum(cs), delta);
    }
  }

  /** 1 at the positions in the first k places of an order, 0 elsewhere. */
  ghost function InFront(n: nat, order: seq<nat>, k: nat): (s: seq<nat>)
    requires k <= |order|
    ensures |s| == n
  {
    seq(n, j requires 0 <= j < n => if j in order[..k] then 1 else 0)
  }

  lemma {:induction false} InFrontCounts(n: nat, order: seq<nat>, k: nat)
    requires Permutes(order, n) && k <= |order|
    ensures Sum(InFront(n, order, k)) == k
  {
    var zeros: seq<nat> := seq(n, j => 0);
    SumOfZeros(zeros);
    BumpTotal(zeros, order, k);
    assert InFront(n, order, k) == Bump(zeros, order, k);
  }

  lemma {:induction false} AheadInBothOrders(keys: seq<SortKey>, keys': seq<SortKey>, order: seq<nat>, order': seq<nat>,
                                             p: nat, p': nat, k: nat, j: nat)
    requires SortedBy(keys, order) && SortedBy(keys', order') && |keys| == |keys'|
    requires p < |order| && k <= p' < |order'| && order'[p'] == order[p]
    requires j in order && j in order'[..k]
    requires keys'[j] != keys'[order[p]]
    requires Less(keys'[j], keys'[order[p]]) ==> Less(keys[j], keys[order[p]])
    ensures j in order[..p]
  {
    var q' :| 0 <= q' < k && order'[q'] == j;
    assert !Less(keys'[order'[p']], keys'[order'[q']]);
    var q :| 0 <= q < |order| && order[q] == j;
    SmallerComesFirst(keys, order, q, p);
    assert order[..p][q] == j;
  }

  lemma {:induction false} RaiseKeepsPrecedence(cs: seq<Input>, i: nat, weight: u64, amount: nat, j: nat)
    requires Competitors(cs) && DistinctIdentities(cs) && i < |cs| && weight >= cs[i].weight && j < |cs| && j != i
    requires Competitors(Raise(cs, i, weight))
    requires Shares(Raise(cs, i, weight), amount)[i] == Shares(cs, amount)[i]
    requires Shares(Raise(cs, i, weight), amount)[j] == Shares(cs, amount)[j]
    ensures
      var (keys, keys') := (ResidueKeys(cs, Residues(cs, amount)), ResidueKeys(Raise(cs, i, weight), Residues(Raise(cs, i, weight), amount)));
      keys'[j] != keys'[i] && (Less(keys'[j], keys'[i]) ==> Less(keys[j], keys[i]))
  {
    RaiseMovesShares(cs, i, weight, amount, j);
    RaiseMovesShares(cs, i, weight, amount, i);
    IdentitiesMakeKeysDistinct(cs, Residues(cs, amount));
    var (lo, hi) := if i < j then (i, j) else (j, i);
    assert cs[lo].key != cs[hi].key;
  }

  /** Whoever is ahead of i after the raise was ahead before, or lost a unit of
      rounded share. */
  lemma {:induction false} AheadBefore(cs: seq<Input>, i: nat, weight: u64, amount: nat,
                                       order: seq<nat>, order': seq<nat>, p: nat, p': nat, k: nat, j: nat)
    requires Competitors(cs) && DistinctIdentities(cs) && i < |cs| && weight >= cs[i].weight && j < |cs|
    requires Competitors(Raise(cs, i, weight))
    requires LegalResidues(cs, amount, order) && LegalResidues(Raise(cs, i, weight), amount, order')
    requires p < |order| && order[p] == i && k <= p' < |order'| && order'[p'] == i
    requires Shares(Raise(cs, i, weight), amount)[i] == Shares(cs, amount)[i]
    ensures j in order'[..k] && Shares(Raise(cs, i, weight), amount)[j] >= Shares(cs, amount)[j] ==> j in order[..p]
    ensures j == i || Shares(Raise(cs, i, weight), amount)[j] <= Shares(cs, amount)[j]
  {
    var d := Raise(cs, i, weight);
    RaiseMovesShares(cs, i, weight, amount, j);
    if j in order'[..k] && Shares(d, amount)[j] >= Shares(cs, amount)[j] {
      var q' :| 0 <= q' < k && order'[q'] == j;
      assert j != i;
      RaiseKeepsPrecedence(cs, i, weight, amount, j);
      AheadInBothOrders(ResidueKeys(cs, Residues(cs, amount)), ResidueKeys(d, Residues(d, amount)), order, order', p, p', k, j);
    }
  }

  /** A competitor whose rounded share does not move keeps its rounding unit. */
  lemma {:induction false} KeepsItsUnit(cs: seq<Input>, i: nat, weight: u64, amount: nat, order: seq<nat>, order': seq<nat>)
    requires Competitors(cs) && DistinctIdentities(cs) && i < |cs| && weight >= cs[i].weight
    requires Competitors(Raise(cs, i, weight))
    requires LegalResidues(cs, amount, order) && LegalResidues(Raise(cs, i, weight), amount, order')
    requires Shares(Raise(cs, i, weight), amount)[i] == Shares(cs, amount)[i]
    requires 0 <= Leftover(cs, amount) <= |order| && i in order[..Leftover(cs, amount)]
    requires 0 <= Leftover(Raise(cs, i, weight), amount) <= |order'|
    ensures i in order'[..Leftover(Raise(cs, i, weight), amount)]
  {
    var (d, n) := (Raise(cs, i, weight), |cs|);
    var (k, k') := (Leftover(cs, amount), Leftover(d, amount));
    var p :| 0 <= p < k && order[p] == i;
    assert i in order';
    var p' :| 0 <= p' < |order'| && order'[p'] == i;
    if p' >= k' {
      var drop: seq<int> := seq(n, j requires 0 <= j < n => Shares(cs, amount)[j] as int - Shares(d, amount)[j]);
      var bound: seq<int> := seq(n, j requires 0 <= j < n => InFront(n, order, p)[j] + drop[j]);
      forall j | 0 <= j < n
        ensures InFront(n, order', k')[j] <= bound[j]
      {
        AheadBefore(cs, i, weight, amount, order, order', p, p', k', j);
        assert bound[j] == InFront(n, order, p)[j] + drop[j];
        assert drop[j] == Shares(cs, amount)[j] - Shares(d, amount)[j];
      }
      SumLe(InFront(n, order', k'), bound);
      SumLinear(bound, 1, InFront(n, order, p), drop);
      SumLinear(Shares(cs, amount), 1, Shares(d, amount), drop);
      InFrontCounts(n, order, p);
      InFrontCounts(n, order', k');
      assert false;
    }
    assert order'[..k'][p'] == i;
  }

  /** Largest-remainder monotonicity: with no binding floor, raising one
      competitor's weight, all else equal, never lowers its allocation. */
  lemma {:induction false} MonotoneInWeight(cs: seq<Input>, i: nat, weight: u64, whole: nat, r: AllocationResult, r': AllocationResult)
    requires i < |cs| && weight >= cs[i].weight && DistinctIdentities(cs)
    requires IsAllocation(cs, whole, r) && IsAllocation(Raise(cs, i, weight), whole, r')
    requires BranchOf(cs, whole) == Plain && BranchOf(Raise(cs, i, weight), whole) == Plain
    ensures |r.allocations| == |r'.allocations| == |cs|
    ensures r'.allocations[i] >= r.allocations[i]
  {
    var d := Raise(cs, i, weight);
    var o :| LegalOrders(cs, whole, o) && r == Report(cs, whole, AllocationBy(cs, whole, o));
    var o' :| LegalOrders(d, whole, o') && r' == Report(d, whole, AllocationBy(d, whole, o'));
    RaiseNeverLowers(cs, i, weight, whole, o, o');
  }

  lemma {:induction false} RaiseNeverLowers(cs: seq<Input>, i: nat, weight: u64, whole: nat, o: Orders, o': Orders)
    requires Competitors(cs) && DistinctIdentities(cs) && i < |cs| && weight >= cs[i].weight
    requires Competitors(Raise(cs, i, weight))
    requires LegalOrders(cs, whole, o) && LegalOrders(Raise(cs, i, weight), whole, o')
    requires BranchOf(cs, whole) == Plain && BranchOf(Raise(cs, i, weight), whole) == Plain
    ensures AllocationBy(Raise(cs, i, weight), whole, o')[i] >= AllocationBy(cs, whole, o)[i]
  {
    var d := Raise(cs, i, weight);
    RaiseMovesShares(cs, i, weight, whole, i);
    PlainAllocation(cs, whole, o, i);
    PlainAllocation(d, whole, o', i);
    if Shares(cs, whole)[i] == Shares(d, whole)[i] && Leftover(cs, whole) > 0 && i in o.residues[..Leftover(cs, whole)] {
      UnitSurvives(cs, i, weight, whole, o, o');
    }
  }

  lemma {:induction false} UnitSurvives(cs: seq<Input>, i: nat, weight: u64, whole: nat, o: Orders, o': Orders)
    requires Competitors(cs) && DistinctIdentities(cs) && i < |cs| && weight >= cs[i].weight
    requires Competitors(Raise(cs, i, weight))
    requires LegalOrders(cs, whole, o) && LegalOrders(Raise(cs, i, weight), whole, o')
    requires Shares(Raise(cs, i, weight), whole)[i] == Shares(cs, whole)[i]
    requires BranchOf(cs, whole) == Plain && BranchOf(Raise(cs, i, weight), whole) == Plain
    requires 0 < Leftover(cs, whole) <= |o.residues| && i in o.residues[..Leftover(cs, whole)]
    ensures 0 < Leftover(Raise(cs, i, weight), whole) <= |o'.residues|
    ensures i in o'.residues[..Leftover(Raise(cs, i, weight), whole)]
  {
    LeftoverGrows(cs, i, weight, whole);
    PlainAllocation(Raise(cs, i, weight), whole, o', i);
    KeepsItsUnit(cs, i, weight, whole, o.residues, o'.residues);
  }

  lemma {:induction false} LeftoverGrows(cs: seq<Input>, i: nat, weight: u64, amount: nat)
    requires Competitors(cs) && i < |cs| && weight >= cs[i].weight && Competitors(Raise(cs, i, weight))
    requires Shares(Raise(cs, i, weight), amount)[i] == Shares(cs, amount)[i]
    ensures Leftover(Raise(cs, i, weight), amount) >= Leftover(cs, amount)
  {
    forall j | 0 <= j < |cs|
      ensures Shares(Raise(cs, i, weight), amount)[j] <= Shares(cs, amount)[j]
    {
      RaiseMovesShares(cs, i, weight, amount, j);
    }
    SumLe(Shares(Raise(cs, i, weight), amount), Shares(cs, amount));
  }

  /** Without floors no floor binds. */
  lemma {:induction false} NoFloorsIsPlain(cs: seq<Input>, whole: nat)
    requires Competitors(cs) && forall i :: 0 <= i < |cs| ==> cs[i].floor == 0
    ensures BranchOf(cs, whole) == Plain
  {
    SumOfZeros(Needs(cs, whole));
  }
}
