// An answer of the allocator read off its competitors: who is raised to a floor,
// who pays for it, whose guarantee is met, and who is rounded up.

module AllocationAnswers {
  import opened Core
  import opened Sums
  import opened Ordering
  import opened Greedy
  import opened Allocation
  import opened AllocationLaws

  // --- Precedence --------------------------------------------------------------------

  /** i is asked to give before j: it lies further above its floor, or as far with
      a weaker obligation, or alike in both with the smaller identity. */
  ghost predicate GivesBefore(cs: seq<Input>, whole: nat, i: nat, j: nat)
    requires Competitors(cs) && i < |cs| && j < |cs|
  {
    var (above, above') := (Shares(cs, whole)[i] - cs[i].floor, Shares(cs, whole)[j] - cs[j].floor);
    || above > above'
    || (above == above' && cs[i].rank < cs[j].rank)
    || (above == above' && cs[i].rank == cs[j].rank && cs[i].key < cs[j].key)
  }

  /** i's guarantee is honoured before j's: the stronger obligation, then the
      larger floor, then the smaller identity. */
  ghost predicate HonouredBefore(cs: seq<Input>, i: nat, j: nat)
    requires i < |cs| && j < |cs|
  {
    || cs[i].rank > cs[j].rank
    || (cs[i].rank == cs[j].rank && cs[i].floor > cs[j].floor)
    || (cs[i].rank == cs[j].rank && cs[i].floor == cs[j].floor && cs[i].key < cs[j].key)
  }

  /** i is rounded up before j: it lost more to rounding down, or as much with the
      smaller identity. */
  ghost predicate RoundedBefore(cs: seq<Input>, amount: nat, i: nat, j: nat)
    requires Competitors(cs) && i < |cs| && j < |cs|
  {
    || Residues(cs, amount)[i] > Residues(cs, amount)[j]
    || (Residues(cs, amount)[i] == Residues(cs, amount)[j] && cs[i].key < cs[j].key)
  }

  // --- The parts of an answer ----------------------------------------------------------

  /** Donors give exactly what the floors above their shares need, none below its
      own floor, and nobody anything before those ahead of it gave all they had. */
  ghost predicate Paid(cs: seq<Input>, whole: nat, given: seq<nat>)
    requires Competitors(cs)
  {
    && |given| == |cs| && Sum(given) == Sum(Needs(cs, whole))
    && (forall i :: 0 <= i < |cs| ==> given[i] == 0 || given[i] <= Shares(cs, whole)[i] - cs[i].floor)
    && (forall i, j :: 0 <= i < |cs| && 0 <= j < |cs| && given[j] > 0 && GivesBefore(cs, whole, i, j) ==>
        given[i] == Shares(cs, whole)[i] - cs[i].floor)
  }

  /** Guarantees take as much of the whole as they ask, none past its floor, and
      nobody gets any before those ahead of it have their full floor. */
  ghost predicate Guaranteed(cs: seq<Input>, whole: nat, granted: seq<nat>) {
    && |granted| == |cs| && Sum(granted) == Min(whole, Sum(Floors(cs)))
    && (forall i :: 0 <= i < |cs| ==> granted[i] <= cs[i].floor)
    && (forall i, j :: 0 <= i < |cs| && 0 <= j < |cs| && granted[j] > 0 && HonouredBefore(cs, i, j) ==>
        granted[i] == cs[i].floor)
  }

  /** What the rounded-down shares leave of an amount goes out one unit each. */
  ghost predicate RoundedUp(cs: seq<Input>, amount: nat, extra: seq<nat>)
    requires Competitors(cs)
  {
    && |extra| == |cs| && Sum(extra) == amount - Sum(Shares(cs, amount))
    && (forall i :: 0 <= i < |cs| ==> extra[i] <= 1)
    && (forall i, j :: 0 <= i < |cs| && 0 <= j < |cs| && extra[j] == 1 && RoundedBefore(cs, amount, i, j) ==> extra[i] == 1)
  }

  // --- Rounding --------------------------------------------------------------------------

  /** Along a sorted order, whatever is ahead of a listed index in the first k
      places is there too. */
  lemma {:induction false} AheadIsListed(keys: seq<SortKey>, order: seq<nat>, k: nat, i: nat, j: nat)
    requires SortedBy(keys, order) && Permutes(order, |keys|) && k <= |order| && i < |keys| && j < |keys|
    requires j in order[..k] && Less(keys[i], keys[j])
    ensures i in order[..k]
  {
    var q :| 0 <= q < k && order[q] == j;
    assert i in order;
    var p :| 0 <= p < |order| && order[p] == i;
    SmallerComesFirst(keys, order, p, q);
    assert order[..k][p] == i;
  }

  lemma {:induction false} UnitsGoOut(cs: seq<Input>, amount: nat, base: seq<nat>, order: seq<nat>) returns (extra: seq<nat>)
    requires Competitors(cs) && |base| == |cs|
    requires Leftover(cs, amount) > 0 ==> LegalResidues(cs, amount, order)
    ensures RoundedUp(cs, amount, extra)
    ensures forall i :: 0 <= i < |cs| ==> Bump(base, order, Leftover(cs, amount))[i] == base[i] + extra[i]
  {
    LeftoverBounds(cs, amount);
    var k := Leftover(cs, amount);
    if k == 0 {
      extra := seq(|cs|, i => 0);
      SumOfZeros(extra);
    } else {
      PermutationLength(order, |cs|);
      extra := InFront(|cs|, order, k);
      InFrontCounts(|cs|, order, k);
      forall i, j | 0 <= i < |cs| && 0 <= j < |cs| && extra[j] == 1 && RoundedBefore(cs, amount, i, j)
        ensures extra[i] == 1
      {
        AheadIsListed(ResidueKeys(cs, Residues(cs, amount)), order, k, i, j);
      }
    }
  }

  // --- Floors within the shares -------------------------------------------------------------

  lemma {:induction false} DonorsPay(cs: seq<Input>, whole: nat, donors: seq<nat>) returns (given: seq<nat>)
    requires Competitors(cs) && InRange(donors, |cs|) && Distinct(donors)
    requires LegalDonors(cs, whole, donors) && Sum(Needs(cs, whole)) <= Sum(Slacks(cs, whole))
    ensures Paid(cs, whole, given)
    ensures forall i :: 0 <= i < |cs| ==> Reallocated(cs, whole, donors)[i] == Max(Shares(cs, whole)[i], cs[i].floor) - given[i]
  {
    var (slack, need) := (Slacks(cs, whole), Sum(Needs(cs, whole)));
    SumNonNegative(Needs(cs, whole));
    given := Grants(slack, donors, need);
    GrantsWithinCaps(slack, donors, need);
    DonorsCoverNeed(cs, whole, donors);
    forall i, j | 0 <= i < |cs| && 0 <= j < |cs| && given[j] > 0 && GivesBefore(cs, whole, i, j)
      ensures given[i] == Shares(cs, whole)[i] - cs[i].floor
    {
      GrantedMeansListed(slack, donors, need, j);
      assert i in donors;
      var p :| 0 <= p < |donors| && donors[p] == i;
      var q :| 0 <= q < |donors| && donors[q] == j;
      assert Less(DonorKeys(cs, slack)[i], DonorKeys(cs, slack)[j]);
      SmallerComesFirst(DonorKeys(cs, slack), donors, p, q);
      FullBeforeAnything(slack, donors, need, p, q);
    }
  }

  /** Everybody holds its share raised to its floor, less what it gave for others'
      floors, and its rounding unit. */
  ghost predicate Levelled(cs: seq<Input>, whole: nat, a: seq<nat>, given: seq<nat>, extra: seq<nat>)
    requires Competitors(cs)
  {
    && |a| == |cs| && Paid(cs, whole, given) && RoundedUp(cs, whole, extra)
    && forall i :: 0 <= i < |cs| ==> a[i] == Max(Shares(cs, whole)[i], cs[i].floor) - given[i] + extra[i]
  }

  lemma {:induction false} LevelledBy(cs: seq<Input>, whole: nat, o: Orders) returns (given: seq<nat>, extra: seq<nat>)
    requires Competitors(cs) && LegalOrders(cs, whole, o) && BranchOf(cs, whole) != Overcommit
    ensures Levelled(cs, whole, AllocationBy(cs, whole, o), given, extra)
  {
    extra := UnitsGoOut(cs, whole, BaseOf(cs, whole, o), o.residues);
    OvercommitCondition(cs, whole);
    if BranchOf(cs, whole) == Reallocate {
      given := DonorsPay(cs, whole, o.donors);
    } else {
      given := seq(|cs|, i => 0);
      SumOfZeros(given);
      assert forall i :: 0 <= i < |cs| ==> Floors(cs)[i] <= Shares(cs, whole)[i];
    }
  }

  /** Floors within reach of the shares. */
  lemma {:induction false} FloorsWithinReach(cs: seq<Input>, whole: nat, r: AllocationResult) returns (given: seq<nat>, extra: seq<nat>)
    requires IsAllocation(cs, whole, r) && !r.overcommit
    ensures Levelled(cs, whole, r.allocations, given, extra)
  {
    var o :| LegalOrders(cs, whole, o) && r == Report(cs, whole, AllocationBy(cs, whole, o));
    given, extra := LevelledBy(cs, whole, o);
  }

  // --- Floors past the shares -----------------------------------------------------------------

  lemma {:induction false} GuaranteesTaken(cs: seq<Input>, whole: nat, guarantees: seq<nat>)
    requires LegalGuarantees(cs, guarantees)
    ensures Guaranteed(cs, whole, Grants(Floors(cs), guarantees, whole))
  {
    var (floors, keys) := (Floors(cs), FloorKeys(cs));
    var granted := Grants(floors, guarantees, whole);
    BudgetIsSpent(floors, guarantees, whole);
    GrantsWithinCaps(floors, guarantees, whole);
    forall i, j | 0 <= i < |cs| && 0 <= j < |cs| && granted[j] > 0 && HonouredBefore(cs, i, j)
      ensures granted[i] == cs[i].floor
    {
      assert i in guarantees && j in guarantees;
      var p :| 0 <= p < |guarantees| && guarantees[p] == i;
      var q :| 0 <= q < |guarantees| && guarantees[q] == j;
      assert Less(keys[i], keys[j]);
      SmallerComesFirst(keys, guarantees, p, q);
      FullBeforeAnything(floors, guarantees, whole, p, q);
    }
  }

  /** Everybody holds its guarantee as far as the whole goes, its weighted share of
      what the guarantees leave, and its rounding unit. */
  ghost predicate Honoured(cs: seq<Input>, whole: nat, a: seq<nat>, granted: seq<nat>, extra: seq<nat>)
    requires Competitors(cs)
  {
    && |a| == |cs| && Guaranteed(cs, whole, granted) && 0 <= Sum(granted) <= whole && RoundedUp(cs, whole - Sum(granted), extra)
    && forall i :: 0 <= i < |cs| ==> a[i] == granted[i] + Shares(cs, whole - Sum(granted))[i] + extra[i]
  }

  lemma {:induction false} HonouredBy(cs: seq<Input>, whole: nat, o: Orders) returns (granted: seq<nat>, extra: seq<nat>)
    requires Competitors(cs) && LegalOrders(cs, whole, o) && BranchOf(cs, whole) == Overcommit
    ensures Honoured(cs, whole, AllocationBy(cs, whole, o), granted, extra)
  {
    granted := Grants(Floors(cs), o.guarantees, whole);
    SumNonNegative(granted);
    GuaranteesTaken(cs, whole, o.guarantees);
    extra := UnitsGoOut(cs, AfterGuarantees(cs, whole, o.guarantees), BaseOf(cs, whole, o), o.residues);
  }

  /** Floors past the shares. */
  lemma {:induction false} FloorsPastShares(cs: seq<Input>, whole: nat, r: AllocationResult) returns (granted: seq<nat>, extra: seq<nat>)
    requires IsAllocation(cs, whole, r) && r.overcommit
    ensures Honoured(cs, whole, r.allocations, granted, extra)
  {
    var o :| LegalOrders(cs, whole, o) && r == Report(cs, whole, AllocationBy(cs, whole, o));
    granted, extra := HonouredBy(cs, whole, o);
  }

  /** Each flag: the floor lies above the competitor's share and is met. */
  ghost predicate Flagged(cs: seq<Input>, whole: nat, a: seq<nat>, flags: seq<bool>)
    requires Competitors(cs)
  {
    && |flags| == |a| == |cs|
    && forall i :: 0 <= i < |cs| ==> (flags[i] <==> cs[i].floor > Shares(cs, whole)[i] && a[i] >= cs[i].floor)
  }

  lemma {:induction false} BindingBy(cs: seq<Input>, whole: nat, a: seq<nat>)
    requires Competitors(cs) && |a| == |cs|
    requires BranchOf(cs, whole) != Overcommit ==> forall i :: 0 <= i < |cs| ==> a[i] >= cs[i].floor
    ensures Flagged(cs, whole, a, Binding(cs, whole, a))
  {
    OvercommitCondition(cs, whole);
    if BranchOf(cs, whole) == Plain {
      assert forall i :: 0 <= i < |cs| ==> Floors(cs)[i] <= Shares(cs, whole)[i];
    }
  }

  /** A floor is reported as binding exactly when it lies above the competitor's
      share and is met. */
  lemma {:induction false} BindingExactly(cs: seq<Input>, whole: nat, r: AllocationResult)
    requires IsAllocation(cs, whole, r)
    ensures Flagged(cs, whole, r.allocations, r.floorBinding)
  {
    var o :| LegalOrders(cs, whole, o) && r == Report(cs, whole, AllocationBy(cs, whole, o));
    if BranchOf(cs, whole) != Overcommit {
      WithinReachMeetsFloors(cs, whole, o);
    }
    BindingBy(cs, whole, AllocationBy(cs, whole, o));
  }
}
