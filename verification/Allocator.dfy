// The allocator itself, loop by loop. Every exit the source marks as an internal
// error appears as `assert false`: it is proved unreachable.

module Allocator {
  import opened Core
  import opened Sums
  import opened Ordering
  import opened Greedy
  import opened Allocation
  import Wide

  const MAX_COMPETITORS: nat := MAX_SUBJECTS + MAX_GROUPS

  /** The inputs the allocator accepts; everything else is an error. */
  ghost predicate Accepts(cs: seq<Input>, whole: nat) {
    && Competitors(cs)
    && |cs| <= MAX_COMPETITORS
    && WeightSum(cs) < U64_END
    && Sum(Needs(cs, whole)) < U64_END
    && (BranchOf(cs, whole) == Overcommit ==> Sum(Floors(cs)) - whole < U64_END)
  }

  /** The first competitor without weight, found before the sum overflows. */
  ghost predicate WeightlessFirst(cs: seq<Input>) {
    exists i :: 0 <= i < |cs| && cs[i].weight == 0 && Sum(Weights(cs)[..i]) < U64_END
  }

  lemma {:induction false} OverflowStays(s: seq<int>, j: nat, i: nat)
    requires j <= i <= |s| && forall k :: 0 <= k < |s| ==> 0 <= s[k]
    ensures Sum(s[..j]) <= Sum(s[..i])
  {
    SumPrefix(s[..i], j);
    assert s[..i][..j] == s[..j];
  }

  method SumWeights(cs: seq<Input>) returns (r: Result<u64>)
    ensures r.Ok? <==> (forall i :: 0 <= i < |cs| ==> cs[i].weight >= 1) && WeightSum(cs) < U64_END
    ensures r.Ok? ==> r.value == WeightSum(cs)
    ensures r.Err? ==> r.status in {OutOfRange, ArithmeticOverflow} && (r.status == OutOfRange <==> WeightlessFirst(cs))
  {
    var total: u64 := 0;
    for i := 0 to |cs|
      invariant total == Sum(Weights(cs)[..i])
      invariant forall k :: 0 <= k < i ==> cs[k].weight >= 1
    {
      if cs[i].weight == 0 {
        return Err(OutOfRange);
      }
      SumStep(Weights(cs), i);
      SumPrefix(Weights(cs), i + 1);
      if total + cs[i].weight >= U64_END {
        forall k | i < k < |cs|
          ensures Sum(Weights(cs)[..k]) >= U64_END
        {
          OverflowStays(Weights(cs), i + 1, k);
        }
        return Err(ArithmeticOverflow);
      }
      total := total + cs[i].weight;
    }
    assert Weights(cs)[..|cs|] == Weights(cs);
    r := Ok(total);
  }

  /** One weighted division of an amount: shares, residues and their total. */
  method ShareOut(cs: seq<Input>, amount: u64, weightSum: u64)
    returns (share: seq<nat>, residue: seq<nat>, total: u64)
    requires Competitors(cs) && weightSum == WeightSum(cs)
    ensures share == Shares(cs, amount) && residue == Residues(cs, amount)
    ensures total == Sum(share) <= amount
  {
    WeightSumCovers(cs);
    share, residue, total := [], [], 0;
    for i := 0 to |cs|
      invariant share == Shares(cs, amount)[..i] && residue == Residues(cs, amount)[..i]
      invariant total == Sum(share)
    {
      var computed := Wide.MulDiv(amount, cs[i].weight, weightSum);
      ShareAndResidue(cs, amount, i);
      SumStep(Shares(cs, amount), i);
      SumPrefix(Shares(cs, amount), i + 1);
      LeftoverBounds(cs, amount);
      if computed.overflow || computed.divideByZero || total + computed.value >= U64_END {
        assert false;
      }
      share := share + [computed.value];
      residue := residue + [computed.remainder];
      total := total + computed.value;
    }
    LeftoverBounds(cs, amount);
    assert Shares(cs, amount)[..|cs|] == Shares(cs, amount);
    assert Residues(cs, amount)[..|cs|] == Residues(cs, amount);
  }

  /** Total need and total slack of the floors against the shares. */
  method WeighFloors(cs: seq<Input>, whole: u64, share: seq<nat>) returns (r: Result<(nat, nat)>)
    requires Competitors(cs) && share == Shares(cs, whole)
    ensures r.Ok? <==> Sum(Needs(cs, whole)) < U64_END
    ensures r.Ok? ==> r.value == (Sum(Needs(cs, whole)), Sum(Slacks(cs, whole)))
    ensures r.Err? ==> r.status == ArithmeticOverflow
  {
    var need: u64, slack: u64 := 0, 0;
    for i := 0 to |cs|
      invariant need == Sum(Needs(cs, whole)[..i]) && slack == Sum(Slacks(cs, whole)[..i])
    {
      SumStep(Needs(cs, whole), i);
      SumStep(Slacks(cs, whole), i);
      SumPrefix(Needs(cs, whole), i + 1);
      SumPrefix(Slacks(cs, whole), i + 1);
      FloorBalance(cs, whole);
      if cs[i].floor > share[i] {
        if need + (cs[i].floor - share[i]) >= U64_END {
          return Err(ArithmeticOverflow);
        }
        need := need + (cs[i].floor - share[i]);
      } else {
        if slack + (share[i] - cs[i].floor) >= U64_END {
          assert false;
        }
        slack := slack + (share[i] - cs[i].floor);
      }
    }
    assert Needs(cs, whole)[..|cs|] == Needs(cs, whole);
    assert Slacks(cs, whole)[..|cs|] == Slacks(cs, whole);
    r := Ok((need, slack));
  }

  function Upto(n: nat): (s: seq<nat>)
    ensures |s| == n && forall i :: 0 <= i < n ==> s[i] == i
  {
    seq(n, i requires 0 <= i < n => i)
  }

  lemma {:induction false} SortedPermutation(order: seq<nat>, n: nat)
    requires InRange(order, n) && Distinct(order) && SameMembers(order, Upto(n))
    ensures Permutes(order, n)
  {
    forall i: nat | i < n
      ensures i in order
    {
      assert Upto(n)[i] == i;
    }
  }

  /** Largest remainder: one unit each to the first `leftover` competitors. */
  method HandOutRounding(cs: seq<Input>, base: seq<nat>, residue: seq<nat>, leftover: nat)
    returns (a: seq<nat>, order: seq<nat>)
    requires |base| == |residue| == |cs| && leftover <= |cs|
    ensures SortedBy(ResidueKeys(cs, residue), order) && Permutes(order, |cs|)
    ensures a == Bump(base, order, leftover)
  {
    var sorted := Sort(ResidueKeys(cs, residue), Upto(|cs|));
    SortedPermutation(sorted, |cs|);
    PermutationLength(sorted, |cs|);
    a := base;
    for k := 0 to leftover
      invariant a == Bump(base, sorted, k)
    {
      var i := sorted[k];
      assert sorted[..k + 1] == sorted[..k] + [i];
      assert i !in sorted[..k];
      a := a[i := a[i] + 1];
    }
    order := sorted;
  }

  /** The competitors above their floor, in index order. */
  method ListDonors(slack: seq<nat>) returns (donors: seq<nat>)
    ensures InRange(donors, |slack|) && Distinct(donors)
    ensures forall i :: 0 <= i < |slack| ==> (i in donors <==> slack[i] > 0)
  {
    donors := [];
    for i := 0 to |slack|
      invariant InRange(donors, i) && Distinct(donors)
      invariant forall k :: 0 <= k < i ==> (k in donors <==> slack[k] > 0)
    {
      if slack[i] > 0 {
        donors := donors + [i];
      }
    }
  }

  method ReallocateFloors(cs: seq<Input>, whole: u64, share: seq<nat>, need: nat)
    returns (a: seq<nat>, donors: seq<nat>)
    requires Competitors(cs) && share == Shares(cs, whole)
    requires need == Sum(Needs(cs, whole)) <= Sum(Slacks(cs, whole))
    ensures InRange(donors, |cs|) && Distinct(donors)
    ensures LegalDonors(cs, whole, donors)
    ensures a == Reallocated(cs, whole, donors)
  {
    var slack: seq<nat> := seq(|cs|, i requires 0 <= i < |cs| => Monus(share[i], cs[i].floor));
    assert slack == Slacks(cs, whole);
    var listed := ListDonors(slack);
    var order := Sort(DonorKeys(cs, slack), listed);
    var given, remaining := GrantAlong(slack, order, need);
    DonorsCoverNeed(cs, whole, order);
    if remaining != 0 {
      assert false;
    }
    a := RaiseToFloors(cs, whole, share, given, order);
    donors := order;
  }

  method RaiseToFloors(cs: seq<Input>, whole: nat, share: seq<nat>, given: seq<nat>, ghost donors: seq<nat>)
    returns (a: seq<nat>)
    requires Competitors(cs) && share == Shares(cs, whole)
    requires InRange(donors, |cs|) && Distinct(donors) && Sum(Needs(cs, whole)) >= 0
    requires given == Grants(Slacks(cs, whole), donors, Sum(Needs(cs, whole)))
    ensures a == Reallocated(cs, whole, donors)
  {
    GrantsWithinCaps(Slacks(cs, whole), donors, Sum(Needs(cs, whole)));
    a := [];
    for i := 0 to |cs|
      invariant a == Reallocated(cs, whole, donors)[..i]
    {
      a := a + [if cs[i].floor > share[i] then cs[i].floor else share[i] - given[i]];
    }
  }

  method GrantGuarantees(cs: seq<Input>, whole: u64)
    returns (granted: seq<nat>, available: u64, guarantees: seq<nat>)
    ensures LegalGuarantees(cs, guarantees)
    ensures granted == Grants(Floors(cs), guarantees, whole)
    ensures available == AfterGuarantees(cs, whole, guarantees)
  {
    var order := Sort(FloorKeys(cs), Upto(|cs|));
    SortedPermutation(order, |cs|);
    var remaining;
    granted, remaining := GrantAlong(Floors(cs), order, whole);
    GrantTotal(Floors(cs), order, whole);
    SumNonNegative(granted);
    available := remaining;
    guarantees := order;
  }

  method TotalShortfall(cs: seq<Input>, a: seq<nat>) returns (r: Result<nat>)
    requires |a| == |cs|
    ensures r.Ok? <==> Sum(Shortfalls(cs, a)) < U64_END
    ensures r.Ok? ==> r.value == Sum(Shortfalls(cs, a))
    ensures r.Err? ==> r.status == ArithmeticOverflow
  {
    var total: u64 := 0;
    for i := 0 to |cs|
      invariant total == Sum(Shortfalls(cs, a)[..i])
    {
      SumStep(Shortfalls(cs, a), i);
      SumPrefix(Shortfalls(cs, a), i + 1);
      if cs[i].floor > a[i] {
        if total + (cs[i].floor - a[i]) >= U64_END {
          return Err(ArithmeticOverflow);
        }
        total := total + (cs[i].floor - a[i]);
      }
    }
    assert Shortfalls(cs, a)[..|cs|] == Shortfalls(cs, a);
    r := Ok(total);
  }

  /** Adds the allocations up again; neither exit can be taken. */
  method ConfirmTotal(a: seq<nat>, whole: u64) returns (total: u64)
    requires Sum(a) == whole
    ensures total == Sum(a)
  {
    total := 0;
    for i := 0 to |a|
      invariant total == Sum(a[..i])
    {
      SumStep(a, i);
      SumPrefix(a, i + 1);
      if total + a[i] >= U64_END {
        assert false;
      }
      total := total + a[i];
    }
    assert a[..|a|] == a;
    if total != whole {
      assert false;
    }
  }

  /** Floors all within reach: shares or reallocated shares, then rounding. */
  method AllocateWithinReach(cs: seq<Input>, whole: u64, share: seq<nat>, residue: seq<nat>, need: nat, leftover: nat)
    returns (a: seq<nat>, o: Orders)
    requires Competitors(cs) && share == Shares(cs, whole) && residue == Residues(cs, whole)
    requires need == Sum(Needs(cs, whole)) && leftover == Leftover(cs, whole)
    requires BranchOf(cs, whole) != Overcommit
    ensures LegalOrders(cs, whole, o) && a == AllocationBy(cs, whole, o)
  {
    a, o := share, Orders([], [], []);
    if need > 0 {
      var donors;
      a, donors := ReallocateFloors(cs, whole, share, need);
      o := o.(donors := donors);
    }
    LeftoverBounds(cs, whole);
    if leftover > 0 {
      if leftover >= |cs| + 1 {
        assert false;
      }
      var residues;
      a, residues := HandOutRounding(cs, a, residue, leftover);
      o := o.(residues := residues);
    }
  }

  /** Floors in order of obligation, then weighted shares of the rest. */
  method AllocateOvercommitted(cs: seq<Input>, whole: u64, weightSum: u64)
    returns (a: seq<nat>, o: Orders)
    requires Competitors(cs) && weightSum == WeightSum(cs)
    requires BranchOf(cs, whole) == Overcommit
    ensures LegalOrders(cs, whole, o) && a == AllocationBy(cs, whole, o)
  {
    var granted, available, guarantees := GrantGuarantees(cs, whole);
    var extra, extraResidue, extraTotal := ShareOut(cs, available, weightSum);
    LeftoverBounds(cs, available);
    if available - extraTotal >= |cs| + 1 {
      assert false;
    }
    var base := AddUp(granted, extra);
    var residues;
    a, residues := HandOutRounding(cs, base, extraResidue, available - extraTotal);
    o := Orders([], guarantees, residues);
    OvercommittedAllocation(cs, whole, o, base, a);
  }

  lemma {:induction false} OvercommittedAllocation(cs: seq<Input>, whole: nat, o: Orders, base: seq<nat>, a: seq<nat>)
    requires Competitors(cs) && BranchOf(cs, whole) == Overcommit && o.donors == []
    requires LegalGuarantees(cs, o.guarantees)
    requires LegalResidues(cs, AfterGuarantees(cs, whole, o.guarantees), o.residues)
    requires |base| == |cs| && forall i :: 0 <= i < |cs| ==>
      base[i] == Grants(Floors(cs), o.guarantees, whole)[i] + Shares(cs, AfterGuarantees(cs, whole, o.guarantees))[i]
    requires a == Bump(base, o.residues, Leftover(cs, AfterGuarantees(cs, whole, o.guarantees)))
    ensures LegalOrders(cs, whole, o) && a == AllocationBy(cs, whole, o)
  {
    assert base == GuaranteesFirst(cs, whole, o.guarantees);
  }

  lemma {:induction false} ShortfallOf(cs: seq<Input>, whole: nat, o: Orders)
    requires Competitors(cs) && LegalOrders(cs, whole, o) && BranchOf(cs, whole) == Overcommit
    ensures Sum(Shortfalls(cs, AllocationBy(cs, whole, o))) == Monus(Sum(Floors(cs)), whole)
  {
    if Sum(Floors(cs)) <= whole {
      FittingFloorsAreMet(cs, whole, o);
    } else {
      ExcessFloorsShareTheWhole(cs, whole, o);
    }
  }

  /** Checks the total and the shortfall, and marks the binding floors. */
  method Conclude(cs: seq<Input>, whole: u64, share: seq<nat>, a: seq<nat>, overcommit: bool, need: nat, ghost o: Orders)
    returns (r: Result<AllocationResult>)
    requires Competitors(cs) && share == Shares(cs, whole) && need == Sum(Needs(cs, whole))
    requires LegalOrders(cs, whole, o) && a == AllocationBy(cs, whole, o)
    requires overcommit <==> BranchOf(cs, whole) == Overcommit
    ensures r.Ok? <==> (overcommit ==> Sum(Floors(cs)) - whole < U64_END)
    ensures r.Ok? ==> r.value == Report(cs, whole, a)
    ensures r.Err? ==> r.status == ArithmeticOverflow
  {
    var shortfall := 0;
    if overcommit {
      ShortfallOf(cs, whole, o);
      var missing := TotalShortfall(cs, a);
      if missing.Err? {
        return Err(missing.status);
      }
      shortfall := missing.value;
    }
    AllocationCloses(cs, whole, o);
    var total := ConfirmTotal(a, whole);
    var binding := MarkBinding(cs, whole, share, a, overcommit, need);
    r := Ok(AllocationResult(a, binding, overcommit, shortfall));
  }

  /** Picks the branch and hands the whole out along it. */
  method Divide(cs: seq<Input>, whole: u64, weightSum: u64, share: seq<nat>, residue: seq<nat>, total: u64, need: nat, slack: nat)
    returns (r: Result<AllocationResult>)
    requires Competitors(cs) && weightSum == WeightSum(cs)
    requires share == Shares(cs, whole) && residue == Residues(cs, whole) && total == Sum(share) <= whole
    requires need == Sum(Needs(cs, whole)) && slack == Sum(Slacks(cs, whole))
    ensures r.Ok? <==> (BranchOf(cs, whole) == Overcommit ==> Sum(Floors(cs)) - whole < U64_END)
    ensures r.Ok? ==> IsAllocation(cs, whole, r.value)
    ensures r.Err? ==> r.status == ArithmeticOverflow
  {
    var overcommit := need > 0 && need > slack;
    var a;
    ghost var o;
    if overcommit {
      a, o := AllocateOvercommitted(cs, whole, weightSum);
    } else {
      a, o := AllocateWithinReach(cs, whole, share, residue, need, whole - total);
    }
    r := Conclude(cs, whole, share, a, overcommit, need, o);
  }

  /** The allocation primitive: it accepts exactly the inputs above, and answers
      as the definitions of Allocation say for the orders its sorts returned. */
  method AllocateWhole(cs: seq<Input>, whole: u64) returns (r: Result<AllocationResult>)
    ensures r.Ok? <==> Accepts(cs, whole)
    ensures r.Ok? ==> IsAllocation(cs, whole, r.value)
    ensures r.Err? ==> r.status in {InvalidArgument, LimitExceeded, OutOfRange, ArithmeticOverflow}
  {
    if cs == [] {
      return Err(InvalidArgument);
    }
    if |cs| > MAX_COMPETITORS {
      return Err(LimitExceeded);
    }
    var weights := SumWeights(cs);
    if weights.Err? {
      return Err(weights.status);
    }
    var share, residue, total := ShareOut(cs, whole, weights.value);
    if total > whole {
      assert false;
    }
    var floors := WeighFloors(cs, whole, share);
    if floors.Err? {
      return Err(floors.status);
    }
    var (need, slack) := floors.value;
    r := Divide(cs, whole, weights.value, share, residue, total, need, slack);
  }

  method AddUp(a: seq<nat>, b: seq<nat>) returns (c: seq<nat>)
    requires |a| == |b|
    ensures |c| == |a| && forall i :: 0 <= i < |a| ==> c[i] == a[i] + b[i]
  {
    c := [];
    for i := 0 to |a|
      invariant |c| == i && forall k :: 0 <= k < i ==> c[k] == a[k] + b[k]
    {
      c := c + [a[i] + b[i]];
    }
  }

  /** Marks where the floor raised the allocation above the plain share. */
  method MarkBinding(cs: seq<Input>, whole: nat, share: seq<nat>, a: seq<nat>, overcommit: bool, need: nat)
    returns (binding: seq<bool>)
    requires Competitors(cs) && share == Shares(cs, whole) && |a| == |cs| && need == Sum(Needs(cs, whole))
    requires overcommit <==> BranchOf(cs, whole) == Overcommit
    ensures binding == Binding(cs, whole, a)
  {
    binding := [];
    for i := 0 to |cs|
      invariant binding == Binding(cs, whole, a)[..i]
    {
      binding := binding +
        [cs[i].floor > share[i] && (if overcommit then cs[i].floor <= a[i] else need > 0)];
    }
  }
}
