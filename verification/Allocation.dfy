// Exact division of a whole among weighted competitors with guarantee floors:
// weighted shares, floor reallocation or overcommit, then largest remainder.

module Allocation {
  import opened Core
  import opened Sums
  import opened Ordering
  import opened Greedy
  import Wide

  datatype Input = Input(key: u64, weight: u64, floor: u64, rank: u32)

  datatype AllocationResult = AllocationResult(
    allocations: seq<nat>, floorBinding: seq<bool>, overcommit: bool, shortfall: nat)

  ghost predicate Competitors(cs: seq<Input>) {
    cs != [] && forall i :: 0 <= i < |cs| ==> cs[i].weight >= 1
  }

  // --- Per-competitor quantities ----------------------------------------------

  ghost function Weights(cs: seq<Input>): (s: seq<nat>)
    ensures |s| == |cs|
  {
    seq(|cs|, i requires 0 <= i < |cs| => cs[i].weight)
  }

  function Floors(cs: seq<Input>): (s: seq<nat>)
    ensures |s| == |cs|
  {
    seq(|cs|, i requires 0 <= i < |cs| => cs[i].floor)
  }

  ghost function WeightSum(cs: seq<Input>): int {
    Sum(Weights(cs))
  }

  lemma {:induction false} WeightSumCovers(cs: seq<Input>)
    requires Competitors(cs)
    ensures forall i :: 0 <= i < |cs| ==> 0 < cs[i].weight <= WeightSum(cs)
    ensures WeightSum(cs) > 0
  {
    forall i | 0 <= i < |cs|
      ensures cs[i].weight <= WeightSum(cs)
    {
      SumElement(Weights(cs), i);
    }
    assert cs[0].weight <= WeightSum(cs);
  }

  function Portion(amount: nat, weight: nat, total: nat): nat
    requires total > 0
  {
    var product := amount * weight;
    product / total
  }

  function CutOff(amount: nat, weight: nat, total: nat): nat
    requires total > 0
  {
    var product := amount * weight;
    product % total
  }

  /** Rounded-down weighted shares of an amount. */
  ghost function Shares(cs: seq<Input>, amount: nat): (s: seq<nat>)
    requires Competitors(cs)
    ensures |s| == |cs|
  {
    WeightSumCovers(cs);
    seq(|cs|, i requires 0 <= i < |cs| => Portion(amount, cs[i].weight, WeightSum(cs)))
  }

  /** What rounding each share down cut off, in units of 1 / WeightSum. */
  ghost function Residues(cs: seq<Input>, amount: nat): (s: seq<nat>)
    requires Competitors(cs)
    ensures |s| == |cs|
  {
    WeightSumCovers(cs);
    seq(|cs|, i requires 0 <= i < |cs| => CutOff(amount, cs[i].weight, WeightSum(cs)))
  }

  ghost function Leftover(cs: seq<Input>, amount: nat): int
    requires Competitors(cs)
  {
    amount - Sum(Shares(cs, amount))
  }

  /** How far each floor lies above (need) or below (slack) its share. */
  ghost function Needs(cs: seq<Input>, whole: nat): (s: seq<nat>)
    requires Competitors(cs)
    ensures |s| == |cs|
  {
    seq(|cs|, i requires 0 <= i < |cs| => Monus(cs[i].floor, Shares(cs, whole)[i]))
  }

  ghost function Slacks(cs: seq<Input>, whole: nat): (s: seq<nat>)
    requires Competitors(cs)
    ensures |s| == |cs|
  {
    seq(|cs|, i requires 0 <= i < |cs| => Monus(Shares(cs, whole)[i], cs[i].floor))
  }

  // --- Sort keys ---------------------------------------------------------------

  /** Donors: largest slack, then weakest obligation, then identity. */
  function DonorKeys(cs: seq<Input>, slack: seq<nat>): (k: seq<SortKey>)
    requires |slack| == |cs|
    ensures |k| == |cs|
  {
    seq(|cs|, i requires 0 <= i < |cs| => SortKey(-(slack[i] as int), cs[i].rank, cs[i].key, 0))
  }

  /** Guarantees: strongest obligation, then largest floor, then identity. */
  function FloorKeys(cs: seq<Input>): (k: seq<SortKey>)
    ensures |k| == |cs|
  {
    seq(|cs|, i requires 0 <= i < |cs| => SortKey(-(cs[i].rank as int), -(cs[i].floor as int), cs[i].key, 0))
  }

  /** Rounding units: largest residue, then identity. */
  function ResidueKeys(cs: seq<Input>, residue: seq<nat>): (k: seq<SortKey>)
    requires |residue| == |cs|
    ensures |k| == |cs|
  {
    seq(|cs|, i requires 0 <= i < |cs| => SortKey(-(residue[i] as int), cs[i].key, 0, 0))
  }

  // --- What the allocator computes, given the orders its sorts returned ---------

  datatype Orders = Orders(donors: seq<nat>, guarantees: seq<nat>, residues: seq<nat>)

  datatype Branch = Plain | Reallocate | Overcommit

  ghost function BranchOf(cs: seq<Input>, whole: nat): Branch
    requires Competitors(cs)
  {
    if Sum(Needs(cs, whole)) == 0 then Plain
    else if Sum(Needs(cs, whole)) <= Sum(Slacks(cs, whole)) then Reallocate
    else Overcommit
  }

  /** The first k of an order each gain one unit. */
  ghost function Bump(a: seq<nat>, order: seq<nat>, k: int): (b: seq<nat>)
    ensures |b| == |a|
  {
    seq(|a|, i requires 0 <= i < |a| => if 0 <= k <= |order| && i in order[..k] then a[i] + 1 else a[i])
  }

  /** Unmet floors are raised to the floor, paid for by the donors in turn. */
  ghost function Reallocated(cs: seq<Input>, whole: nat, donors: seq<nat>): (a: seq<nat>)
    requires Competitors(cs) && InRange(donors, |cs|) && Distinct(donors)
    ensures |a| == |cs|
  {
    SumNonNegative(Needs(cs, whole));
    var given := Grants(Slacks(cs, whole), donors, Sum(Needs(cs, whole)));
    GrantsWithinCaps(Slacks(cs, whole), donors, Sum(Needs(cs, whole)));
    seq(|cs|, i requires 0 <= i < |cs| =>
      if cs[i].floor > Shares(cs, whole)[i] then cs[i].floor else Shares(cs, whole)[i] - given[i])
  }

  /** What is left for weighted sharing once floors were granted in turn. */
  ghost function AfterGuarantees(cs: seq<Input>, whole: nat, guarantees: seq<nat>): (available: nat)
    requires InRange(guarantees, |cs|) && Distinct(guarantees)
  {
    GrantTotal(Floors(cs), guarantees, whole);
    whole - Sum(Grants(Floors(cs), guarantees, whole))
  }

  ghost function GuaranteesFirst(cs: seq<Input>, whole: nat, guarantees: seq<nat>): (a: seq<nat>)
    requires Competitors(cs) && InRange(guarantees, |cs|) && Distinct(guarantees)
    ensures |a| == |cs|
  {
    var available := AfterGuarantees(cs, whole, guarantees);
    seq(|cs|, i requires 0 <= i < |cs| => Grants(Floors(cs), guarantees, whole)[i] + Shares(cs, available)[i])
  }

  /** The amount whose rounding units are handed out by residue. */
  ghost function SharedAmount(cs: seq<Input>, whole: nat, o: Orders): nat
    requires Competitors(cs) && InRange(o.guarantees, |cs|) && Distinct(o.guarantees)
  {
    if BranchOf(cs, whole) == Overcommit then AfterGuarantees(cs, whole, o.guarantees) else whole
  }

  ghost predicate LegalDonors(cs: seq<Input>, whole: nat, donors: seq<nat>)
    requires Competitors(cs)
  {
    && SortedBy(DonorKeys(cs, Slacks(cs, whole)), donors)
    && forall i :: 0 <= i < |cs| ==> (i in donors <==> Slacks(cs, whole)[i] > 0)
  }

  ghost predicate LegalGuarantees(cs: seq<Input>, guarantees: seq<nat>) {
    SortedBy(FloorKeys(cs), guarantees) && Permutes(guarantees, |cs|)
  }

  ghost predicate LegalResidues(cs: seq<Input>, amount: nat, residues: seq<nat>)
    requires Competitors(cs)
  {
    SortedBy(ResidueKeys(cs, Residues(cs, amount)), residues) && Permutes(residues, |cs|)
  }

  /** The orders are ones the sorts of the taken branch may return. */
  ghost predicate LegalOrders(cs: seq<Input>, whole: nat, o: Orders)
    requires Competitors(cs)
  {
    && InRange(o.donors, |cs|) && Distinct(o.donors)
    && InRange(o.guarantees, |cs|) && Distinct(o.guarantees)
    && (BranchOf(cs, whole) == Reallocate ==> LegalDonors(cs, whole, o.donors))
    && (BranchOf(cs, whole) == Overcommit ==> LegalGuarantees(cs, o.guarantees))
    && (Leftover(cs, SharedAmount(cs, whole, o)) > 0 ==> LegalResidues(cs, SharedAmount(cs, whole, o), o.residues))
  }

  /** The allocation before the rounding units are handed out. */
  ghost function BaseOf(cs: seq<Input>, whole: nat, o: Orders): (a: seq<nat>)
    requires Competitors(cs) && LegalOrders(cs, whole, o)
    ensures |a| == |cs|
  {
    match BranchOf(cs, whole)
    case Plain => Shares(cs, whole)
    case Reallocate => Reallocated(cs, whole, o.donors)
    case Overcommit => GuaranteesFirst(cs, whole, o.guarantees)
  }

  ghost function AllocationBy(cs: seq<Input>, whole: nat, o: Orders): (a: seq<nat>)
    requires Competitors(cs) && LegalOrders(cs, whole, o)
    ensures |a| == |cs|
  {
    Bump(BaseOf(cs, whole, o), o.residues, Leftover(cs, SharedAmount(cs, whole, o)))
  }

  ghost function Shortfalls(cs: seq<Input>, a: seq<nat>): (s: seq<nat>)
    requires |a| == |cs|
    ensures |s| == |cs|
  {
    seq(|cs|, i requires 0 <= i < |cs| => Monus(cs[i].floor, a[i]))
  }

  ghost function Binding(cs: seq<Input>, whole: nat, a: seq<nat>): seq<bool>
    requires Competitors(cs) && |a| == |cs|
  {
    var branch := BranchOf(cs, whole);
    seq(|cs|, i requires 0 <= i < |cs| =>
      cs[i].floor > Shares(cs, whole)[i] && (branch == Reallocate || (branch == Overcommit && cs[i].floor <= a[i])))
  }

  /** The flags and the shortfall reported with an allocation. */
  ghost function Report(cs: seq<Input>, whole: nat, a: seq<nat>): AllocationResult
    requires Competitors(cs) && |a| == |cs|
  {
    var over := BranchOf(cs, whole) == Overcommit;
    SumNonNegative(Shortfalls(cs, a));
    AllocationResult(a, Binding(cs, whole, a), over, if over then Sum(Shortfalls(cs, a)) else 0)
  }

  /** r is an answer the allocator may give: unique when the keys are distinct. */
  ghost predicate IsAllocation(cs: seq<Input>, whole: nat, r: AllocationResult) {
    Competitors(cs) && exists o :: LegalOrders(cs, whole, o) && r == Report(cs, whole, AllocationBy(cs, whole, o))
  }

  // --- Rounding ------------------------------------------------------------------

  lemma {:induction false} ShareAndResidue(cs: seq<Input>, amount: nat, i: nat)
    requires Competitors(cs) && i < |cs|
    ensures amount * cs[i].weight == WeightSum(cs) * Shares(cs, amount)[i] + Residues(cs, amount)[i]
    ensures Residues(cs, amount)[i] < WeightSum(cs)
    ensures Shares(cs, amount)[i] <= amount
  {
    WeightSumCovers(cs);
    var (w, x) := (WeightSum(cs), amount * cs[i].weight);
    assert x == w * (x / w) + x % w;
    assert x <= amount * w;
    QuotientAtMost(x, w, amount);
  }

  lemma {:induction false} QuotientAtMost(x: nat, w: nat, q: nat)
    requires w > 0 && x <= q * w
    ensures x / w <= q
  {
    var y := x / w;
    assert y > q ==> y * w >= (q + 1) * w == q * w + w;
  }

  /** The units lost to rounding, weighed, are exactly the residues. */
  lemma {:induction false} LeftoverIsResidueSum(cs: seq<Input>, amount: nat)
    requires Competitors(cs)
    ensures Leftover(cs, amount) * WeightSum(cs) == Sum(Residues(cs, amount))
  {
    var w := WeightSum(cs);
    var products := seq(|cs|, i requires 0 <= i < |cs| => amount * cs[i].weight);
    var zeros := seq(|cs|, i => 0);
    SumOfZeros(zeros);
    SumLinear(products, amount, Weights(cs), zeros);
    forall i | 0 <= i < |cs|
      ensures products[i] == w * Shares(cs, amount)[i] + Residues(cs, amount)[i]
    {
      ShareAndResidue(cs, amount, i);
    }
    SumLinear(products, w, Shares(cs, amount), Residues(cs, amount));
    assert (amount - Sum(Shares(cs, amount))) * w == amount * w - Sum(Shares(cs, amount)) * w;
  }

  lemma {:induction false} LeftoverBounds(cs: seq<Input>, amount: nat)
    requires Competitors(cs)
    ensures 0 <= Leftover(cs, amount) < |cs|
    ensures 0 <= Sum(Shares(cs, amount)) <= amount
  {
    WeightSumCovers(cs);
    LeftoverIsResidueSum(cs, amount);
    var (w, n, k) := (WeightSum(cs), |cs|, Leftover(cs, amount));
    forall i | 0 <= i < n
      ensures 0 <= Residues(cs, amount)[i] <= w - 1
    {
      ShareAndResidue(cs, amount, i);
    }
    SumBounds(Residues(cs, amount), 0, w - 1);
    FactorBounds(k, w, n, Sum(Residues(cs, amount)));
    SumNonNegative(Shares(cs, amount));
  }

  lemma {:induction false} FactorBounds(k: int, w: nat, n: nat, total: int)
    requires w > 0 && n > 0 && k * w == total && n * 0 <= total <= n * (w - 1)
    ensures 0 <= k < n
  {
    assert n * (w - 1) == n * w - n;
    assert k < 0 ==> k * w <= -(w as int);
    assert k >= n ==> k * w >= n * w;
  }

  lemma {:induction false} BumpTotal(a: seq<nat>, order: seq<nat>, k: nat)
    requires Permutes(order, |a|) && k <= |order|
    ensures Sum(Bump(a, order, k)) == Sum(a) + k
  {
    if k == 0 {
      assert Bump(a, order, 0) == a;
    } else {
      BumpTotal(a, order, k - 1);
      BumpOneMore(a, order, k);
    }
  }

  lemma {:induction false} BumpOneMore(a: seq<nat>, order: seq<nat>, k: nat)
    requires InRange(order, |a|) && Distinct(order) && 0 < k <= |order|
    ensures Sum(Bump(a, order, k)) == Sum(Bump(a, order, k - 1)) + 1
  {
    var (i, was) := (order[k - 1], Bump(a, order, k - 1));
    assert Bump(a, order, k) == was[i := was[i] + 1] by {
      assert i !in order[..k - 1];
      assert order[..k] == order[..k - 1] + [i];
    }
    SumUpdate(was, i, was[i] + 1);
  }

  lemma {:induction false} PermutationLength(order: seq<nat>, n: nat)
    requires Permutes(order, n)
    ensures |order| == n
  {
    var ones := seq(n, i => 1);
    SumPermuted(ones, order);
    SumBounds(ones, 1, 1);
    SumBounds(Gather(ones, order), 1, 1);
  }

  // --- Floors against shares --------------------------------------------------------

  lemma {:induction false} FloorBalance(cs: seq<Input>, whole: nat)
    requires Competitors(cs)
    ensures Sum(Floors(cs)) - Sum(Shares(cs, whole)) == Sum(Needs(cs, whole)) - Sum(Slacks(cs, whole))
    ensures 0 <= Sum(Slacks(cs, whole)) <= whole && 0 <= Sum(Needs(cs, whole)) <= Sum(Floors(cs))
  {
    var (f, s, n, k) := (Floors(cs), Shares(cs, whole), Needs(cs, whole), Slacks(cs, whole));
    var gap: seq<int> := seq(|cs|, i requires 0 <= i < |cs| => (n[i] as int) - k[i]);
    SumLinear(f, 1, s, gap);
    SumLinear(n, 1, k, gap);
    SumNonNegative(k);
    SumNonNegative(n);
    SumLe(k, s);
    SumLe(n, f);
    LeftoverBounds(cs, whole);
  }

  /** The donors' slack is all the slack there is, so it covers the need. */
  lemma {:induction false} DonorsCoverNeed(cs: seq<Input>, whole: nat, donors: seq<nat>)
    requires Competitors(cs) && InRange(donors, |cs|) && Distinct(donors)
    requires forall i :: 0 <= i < |cs| ==> (i in donors <==> Slacks(cs, whole)[i] > 0)
    requires Sum(Needs(cs, whole)) <= Sum(Slacks(cs, whole))
    ensures Sum(Gather(Slacks(cs, whole), donors)) == Sum(Slacks(cs, whole))
    ensures 0 <= Sum(Needs(cs, whole)) == Sum(Grants(Slacks(cs, whole), donors, Sum(Needs(cs, whole))))
  {
    SumNonNegative(Needs(cs, whole));
    BudgetIsSpent(Slacks(cs, whole), donors, Sum(Needs(cs, whole)));
  }

  lemma {:induction false} ReallocatedTotal(cs: seq<Input>, whole: nat, donors: seq<nat>)
    requires Competitors(cs) && InRange(donors, |cs|) && Distinct(donors)
    requires forall i :: 0 <= i < |cs| ==> (i in donors <==> Slacks(cs, whole)[i] > 0)
    requires Sum(Needs(cs, whole)) <= Sum(Slacks(cs, whole))
    ensures Sum(Reallocated(cs, whole, donors)) == Sum(Shares(cs, whole))
  {
    DonorsCoverNeed(cs, whole, donors);
    var n := Needs(cs, whole);
    var given := Grants(Slacks(cs, whole), donors, Sum(n));
    GrantsWithinCaps(Slacks(cs, whole), donors, Sum(n));
    var change: seq<int> := seq(|cs|, i requires 0 <= i < |cs| => (n[i] as int) - given[i]);
    SumLinear(n, 1, given, change);
    SumLinear(Reallocated(cs, whole, donors), 1, Shares(cs, whole), change);
  }

  lemma {:induction false} GuaranteesFirstTotal(cs: seq<Input>, whole: nat, guarantees: seq<nat>)
    requires Competitors(cs) && InRange(guarantees, |cs|) && Distinct(guarantees)
    ensures Sum(GuaranteesFirst(cs, whole, guarantees)) + Leftover(cs, AfterGuarantees(cs, whole, guarantees)) == whole
  {
    SumLinear(GuaranteesFirst(cs, whole, guarantees), 1,
      Grants(Floors(cs), guarantees, whole), Shares(cs, AfterGuarantees(cs, whole, guarantees)));
  }

  /** Every branch hands out exactly the whole. */
  lemma {:induction false} AllocationCloses(cs: seq<Input>, whole: nat, o: Orders)
    requires Competitors(cs) && LegalOrders(cs, whole, o)
    ensures Sum(AllocationBy(cs, whole, o)) == whole
  {
    var amount := SharedAmount(cs, whole, o);
    LeftoverBounds(cs, amount);
    var base := BaseOf(cs, whole, o);
    if BranchOf(cs, whole) == Reallocate {
      ReallocatedTotal(cs, whole, o.donors);
    } else if BranchOf(cs, whole) == Overcommit {
      GuaranteesFirstTotal(cs, whole, o.guarantees);
    }
    assert Sum(base) + Leftover(cs, amount) == whole;
    if Leftover(cs, amount) == 0 {
      assert Bump(base, o.residues, 0) == base;
    } else {
      PermutationLength(o.residues, |cs|);
      BumpTotal(base, o.residues, Leftover(cs, amount));
    }
  }

  // --- Overcommit ---------------------------------------------------------------------

  /** Overcommit is flagged exactly when the floors exceed the rounded-down
      shares, which can happen although they still fit the whole. */
  lemma {:induction false} OvercommitCondition(cs: seq<Input>, whole: nat)
    requires Competitors(cs)
    ensures BranchOf(cs, whole) == Overcommit <==> Sum(Floors(cs)) > Sum(Shares(cs, whole))
    ensures BranchOf(cs, whole) == Plain <==> forall i :: 0 <= i < |cs| ==> Floors(cs)[i] <= Shares(cs, whole)[i]
  {
    FloorBalance(cs, whole);
    if BranchOf(cs, whole) == Plain {
      forall i | 0 <= i < |cs|
        ensures Floors(cs)[i] <= Shares(cs, whole)[i]
      {
        SumElement(Needs(cs, whole), i);
      }
    }
    if forall i :: 0 <= i < |cs| ==> Floors(cs)[i] <= Shares(cs, whole)[i] {
      SumOfZeros(Needs(cs, whole));
    }
  }

  /** Once the whole ran out on guarantees, nothing is left to share. */
  lemma {:induction false} NothingToShare(cs: seq<Input>)
    requires Competitors(cs)
    ensures forall i :: 0 <= i < |cs| ==> Shares(cs, 0)[i] == 0
    ensures Leftover(cs, 0) == 0
  {
    WeightSumCovers(cs);
    LeftoverBounds(cs, 0);
  }

  lemma {:induction false} GuaranteesSpend(cs: seq<Input>, whole: nat, guarantees: seq<nat>)
    requires Permutes(guarantees, |cs|)
    ensures AfterGuarantees(cs, whole, guarantees) == Monus(whole, Sum(Floors(cs)))
    ensures forall i :: 0 <= i < |cs| ==> Grants(Floors(cs), guarantees, whole)[i] <= cs[i].floor
    ensures Sum(Floors(cs)) <= whole ==> Grants(Floors(cs), guarantees, whole) == Floors(cs)
  {
    BudgetIsSpent(Floors(cs), guarantees, whole);
    GrantsWithinCaps(Floors(cs), guarantees, whole);
    var (g, f) := (Grants(Floors(cs), guarantees, whole), Floors(cs));
    if Sum(f) <= whole {
      EqualSumsEqual(g, f);
    }
  }

  lemma {:induction false} EqualSumsEqual(a: seq<nat>, b: seq<nat>)
    requires |a| == |b| && Sum(a) == Sum(b) && forall i :: 0 <= i < |a| ==> a[i] <= b[i]
    ensures a == b
  {
    var gap: seq<int> := seq(|a|, i requires 0 <= i < |a| => (b[i] as int) - a[i]);
    SumLinear(b, 1, a, gap);
    forall i | 0 <= i < |a|
      ensures a[i] == b[i]
    {
      SumElement(gap, i);
    }
  }

  /** An overcommitted allocation, when the floors still fit the whole: every
      floor is met and nothing is short. */
  lemma {:induction false} FittingFloorsAreMet(cs: seq<Input>, whole: nat, o: Orders)
    requires Competitors(cs) && LegalOrders(cs, whole, o) && BranchOf(cs, whole) == Overcommit
    requires Sum(Floors(cs)) <= whole
    ensures forall i :: 0 <= i < |cs| ==> AllocationBy(cs, whole, o)[i] >= cs[i].floor
    ensures Sum(Shortfalls(cs, AllocationBy(cs, whole, o))) == 0
  {
    GuaranteesSpend(cs, whole, o.guarantees);
    assert forall i :: 0 <= i < |cs| ==> GuaranteesFirst(cs, whole, o.guarantees)[i] >= cs[i].floor;
    NoShortfalls(cs, AllocationBy(cs, whole, o));
  }

  lemma {:induction false} NoShortfalls(cs: seq<Input>, a: seq<nat>)
    requires |a| == |cs| && forall i :: 0 <= i < |cs| ==> a[i] >= cs[i].floor
    ensures Sum(Shortfalls(cs, a)) == 0
  {
    SumOfZeros(Shortfalls(cs, a));
  }

  /** When the floors exceed the whole, it all goes to guarantees in turn, no
      competitor passes its floor, and the excess is what is short. */
  lemma {:induction false} ExcessFloorsShareTheWhole(cs: seq<Input>, whole: nat, o: Orders)
    requires Competitors(cs) && LegalOrders(cs, whole, o) && BranchOf(cs, whole) == Overcommit
    requires Sum(Floors(cs)) > whole
    ensures AllocationBy(cs, whole, o) == Grants(Floors(cs), o.guarantees, whole)
    ensures forall i :: 0 <= i < |cs| ==> AllocationBy(cs, whole, o)[i] <= cs[i].floor
    ensures Sum(Shortfalls(cs, AllocationBy(cs, whole, o))) == Sum(Floors(cs)) - whole
  {
    var a := Grants(Floors(cs), o.guarantees, whole);
    GuaranteesSpend(cs, whole, o.guarantees);
    assert AllocationBy(cs, whole, o) == a by {
      NothingToShare(cs);
      assert GuaranteesFirst(cs, whole, o.guarantees) == a;
    }
    BudgetIsSpent(Floors(cs), o.guarantees, whole);
    ShortfallsWithinFloors(cs, a);
  }

  lemma {:induction false} ShortfallsWithinFloors(cs: seq<Input>, a: seq<nat>)
    requires |a| == |cs| && forall i :: 0 <= i < |cs| ==> a[i] <= cs[i].floor
    ensures Sum(Shortfalls(cs, a)) == Sum(Floors(cs)) - Sum(a)
  {
    SumLinear(Floors(cs), 1, a, Shortfalls(cs, a));
  }
}
