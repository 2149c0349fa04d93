// The correction plan: how much may move, who is granted it first, who gives it
// up first, and why the two sides always balance.

module Budget {
  import opened Core
  import opened Sums
  import opened Ordering
  import opened Greedy
  import opened Policy
  import opened Decision
  import opened Planner
  import Wide

  // --- Totals --------------------------------------------------------------------------------

  function Demands(plans: seq<Plan>): (s: seq<nat>)
    ensures |s| == |plans|
  {
    seq(|plans|, i requires 0 <= i < |plans| => plans[i].demand)
  }

  function Supplies(plans: seq<Plan>): (s: seq<nat>)
    ensures |s| == |plans|
  {
    seq(|plans|, i requires 0 <= i < |plans| => plans[i].reducible)
  }

  function Withholdings(plans: seq<Plan>): (s: seq<nat>)
    ensures |s| == |plans|
  {
    seq(|plans|, i requires 0 <= i < |plans| => plans[i].withheld)
  }

  /** The largest correction the basis-point limit allows. */
  function BpsCap(p: FairnessPolicy, whole: nat): nat {
    if p.maxCorrectionBps < MAX_BPS then whole * p.maxCorrectionBps / BASIS_POINT_SCALE
    else MAX_SERVICE_UNITS * MAX_SUBJECTS
  }

  function Authorized(p: FairnessPolicy, whole: nat, pool: int, demand: int): int {
    Min(Min(pool, demand), Min(p.maxCorrection, BpsCap(p, whole)))
  }

  /** The basis-point limit lets this many units move; without one, only the bounded
      domain's limit does. */
  ghost predicate WithinBps(p: FairnessPolicy, whole: nat, units: nat) {
    if p.maxCorrectionBps < 100000 then units * 10000 <= whole * p.maxCorrectionBps
    else units <= MAX_SERVICE_UNITS * MAX_SUBJECTS
  }

  lemma {:induction false} BpsCapExactly(p: FairnessPolicy, whole: nat, units: nat)
    ensures units <= BpsCap(p, whole) <==> WithinBps(p, whole, units)
  {
    if p.maxCorrectionBps < MAX_BPS {
      var x := whole * p.maxCorrectionBps;
      var (q, r) := (x / 10000, x % 10000);
      assert x == 10000 * q + r && r < 10000;
    }
  }

  /** The budget is as large as it may be: a unit is authorized exactly when it is in
      the pool, demanded, and within both limits of the policy. */
  lemma {:induction false} AuthorizedExactly(p: FairnessPolicy, whole: nat, pool: nat, demand: nat, units: nat)
    ensures units <= Authorized(p, whole, pool, demand) <==>
      units <= pool && units <= demand && units <= p.maxCorrection && WithinBps(p, whole, units)
  {
    BpsCapExactly(p, whole, units);
  }

  // --- Orders ----------------------------------------------------------------------------------

  /** Starvation, then the largest demand, then the strongest obligation. */
  function DemandKeys(subjects: seq<Subject>, plans: seq<Plan>): (k: seq<SortKey>)
    requires |subjects| == |plans|
    ensures |k| == |plans|
  {
    seq(|plans|, i requires 0 <= i < |plans| =>
      SortKey(if plans[i].starving then 0 else 1, -(plans[i].demand as int), -(subjects[i].rank as int), subjects[i].id))
  }

  /** The largest reducible surplus, then the weakest obligation. */
  function SupplyKeys(subjects: seq<Subject>, plans: seq<Plan>): (k: seq<SortKey>)
    requires |subjects| == |plans|
    ensures |k| == |plans|
  {
    seq(|plans|, i requires 0 <= i < |plans| =>
      SortKey(-(plans[i].reducible as int), subjects[i].rank, subjects[i].id, 0))
  }

  /** The order lists the authoritative subjects with a non-zero amount. */
  ghost predicate ListsWilling(plans: seq<Plan>, amounts: seq<nat>, order: seq<nat>) {
    |amounts| == |plans| && forall i: nat :: i in order <==> i < |plans| && plans[i].authority && amounts[i] > 0
  }

  ghost predicate LegalDemand(subjects: seq<Subject>, plans: seq<Plan>, order: seq<nat>)
    requires |subjects| == |plans|
  {
    SortedBy(DemandKeys(subjects, plans), order) && ListsWilling(plans, Demands(plans), order)
  }

  ghost predicate LegalSupply(subjects: seq<Subject>, plans: seq<Plan>, order: seq<nat>)
    requires |subjects| == |plans|
  {
    SortedBy(SupplyKeys(subjects, plans), order) && ListsWilling(plans, Supplies(plans), order)
  }

  method OrderWilling(plans: seq<Plan>, amounts: seq<nat>, keys: seq<SortKey>) returns (order: seq<nat>)
    requires |amounts| == |keys| == |plans|
    ensures SortedBy(keys, order) && ListsWilling(plans, amounts, order)
  {
    var willing: seq<nat> := [];
    for i := 0 to |plans|
      invariant InRange(willing, i) && Distinct(willing)
      invariant forall k: nat :: k in willing <==> k < i && plans[k].authority && amounts[k] > 0
    {
      if plans[i].authority && amounts[i] > 0 {
        willing := willing + [i];
      }
    }
    order := Sort(keys, willing);
  }

  // --- The subjects' ranges ------------------------------------------------------------------------

  /** What the bounded domain gives every plan. */
  ghost predicate Contained(plans: seq<Plan>) {
    |plans| <= MAX_SUBJECTS && forall i :: 0 <= i < |plans| ==> PlanContained(plans[i])
  }

  ghost predicate PlanContained(p: Plan) {
    && p.demand <= MAX_SERVICE_UNITS && p.demand <= p.effectiveDeficit
    && p.reducible + p.withheld <= MAX_SERVICE_UNITS
    && p.effectiveDeficit <= p.share.entitlement + MAX_CARRY_UNITS
    && (!p.authority ==> p.demand == p.reducible == p.withheld == 0)
  }

  lemma {:induction false} TotalsFit(plans: seq<Plan>, k: nat)
    requires Contained(plans) && k <= |plans|
    ensures 0 <= Sum(Supplies(plans)[..k]) <= MAX_WHOLE && 0 <= Sum(Demands(plans)[..k]) <= MAX_WHOLE
    ensures 0 <= Sum(Withholdings(plans)[..k]) <= MAX_WHOLE
  {
    SumBounds(Supplies(plans)[..k], 0, MAX_SERVICE_UNITS);
    SumBounds(Demands(plans)[..k], 0, MAX_SERVICE_UNITS);
    SumBounds(Withholdings(plans)[..k], 0, MAX_SERVICE_UNITS);
  }

  /** Adds the three totals up; in the bounded domain none overflows. */
  method AddTotals(plans: seq<Plan>) returns (pool: nat, demand: nat, withheld: nat)
    requires Contained(plans)
    ensures pool == Sum(Supplies(plans)) <= MAX_WHOLE && demand == Sum(Demands(plans)) <= MAX_WHOLE
    ensures withheld == Sum(Withholdings(plans)) <= MAX_WHOLE
  {
    pool, demand, withheld := 0, 0, 0;
    for i := 0 to |plans|
      invariant pool == Sum(Supplies(plans)[..i]) && demand == Sum(Demands(plans)[..i])
      invariant withheld == Sum(Withholdings(plans)[..i])
    {
      SumStep(Supplies(plans), i);
      SumStep(Demands(plans), i);
      SumStep(Withholdings(plans), i);
      TotalsFit(plans, i + 1);
      if pool + plans[i].reducible >= U64_END || demand + plans[i].demand >= U64_END || withheld + plans[i].withheld >= U64_END {
        assert false;
      }
      pool, demand, withheld := pool + plans[i].reducible, demand + plans[i].demand, withheld + plans[i].withheld;
    }
    TotalsFit(plans, |plans|);
    assert Supplies(plans)[..|plans|] == Supplies(plans) && Demands(plans)[..|plans|] == Demands(plans);
    assert Withholdings(plans)[..|plans|] == Withholdings(plans);
  }

  lemma {:induction false} BpsProductFits(whole: nat, bps: nat)
    requires whole <= MAX_WHOLE && bps < MAX_BPS
    ensures whole * bps / BASIS_POINT_SCALE < U64_END
  {
    Wide.MulMonotone(whole, bps, MAX_WHOLE, MAX_BPS);
    assert MAX_WHOLE * MAX_BPS == 450359962737049600000;
  }

  method AuthorizeBudget(p: FairnessPolicy, whole: u64, pool: nat, demand: nat) returns (authorized: nat, bpsCap: nat)
    requires whole <= MAX_WHOLE
    ensures bpsCap == BpsCap(p, whole) && authorized == Authorized(p, whole, pool, demand)
  {
    bpsCap := MAX_SERVICE_UNITS * MAX_SUBJECTS;
    if p.maxCorrectionBps < MAX_BPS {
      BpsProductFits(whole, p.maxCorrectionBps);
      var computed := Wide.MulDiv(whole, p.maxCorrectionBps, BASIS_POINT_SCALE);
      if computed.overflow || computed.divideByZero {
        assert false;
      }
      bpsCap := computed.value;
    }
    authorized := Min(Min(pool, demand), Min(p.maxCorrection, bpsCap));
  }

  // --- The two greedy passes ---------------------------------------------------------------------

  /** Each demanding subject in turn takes what it may of the budget, and each
      reducible one gives what it may: both sides use it up exactly. */
  method GrantBoth(subjects: seq<Subject>, plans: seq<Plan>, authorized: nat)
    returns (augments: seq<nat>, reduces: seq<nat>, demandOrder: seq<nat>, supplyOrder: seq<nat>)
    requires |subjects| == |plans| && Contained(plans)
    requires authorized <= Sum(Demands(plans)) && authorized <= Sum(Supplies(plans))
    ensures LegalDemand(subjects, plans, demandOrder) && LegalSupply(subjects, plans, supplyOrder)
    ensures augments == Grants(Demands(plans), demandOrder, authorized)
    ensures reduces == Grants(Supplies(plans), supplyOrder, authorized)
  {
    demandOrder := OrderWilling(plans, Demands(plans), DemandKeys(subjects, plans));
    var remaining;
    augments, remaining := GrantAlong(Demands(plans), demandOrder, authorized);
    BudgetIsSpent(Demands(plans), demandOrder, authorized);
    if authorized - remaining != authorized {
      assert false;
    }
    supplyOrder := OrderWilling(plans, Supplies(plans), SupplyKeys(subjects, plans));
    reduces, remaining := GrantAlong(Supplies(plans), supplyOrder, authorized);
    BudgetIsSpent(Supplies(plans), supplyOrder, authorized);
    if remaining != 0 {
      assert false;
    }
  }

  // --- Unmet demand ---------------------------------------------------------------------------------

  /** What a subject not cooling down is still short of. */
  function Unmet(band: nat, p: Plan, augment: nat): nat {
    if !p.authority || p.cooling || p.effectiveDeficit <= band then 0 else Monus(p.effectiveDeficit, augment)
  }

  function Unmets(band: nat, plans: seq<Plan>, augments: seq<nat>): (s: seq<nat>)
    requires |augments| == |plans|
    ensures |s| == |plans|
  {
    seq(|plans|, i requires 0 <= i < |plans| => Unmet(band, plans[i], augments[i]))
  }

  ghost function Entitlements(plans: seq<Plan>): (s: seq<nat>)
    ensures |s| == |plans|
  {
    seq(|plans|, i requires 0 <= i < |plans| => plans[i].share.entitlement)
  }

  /** Entitlements share one whole, so all effective deficits together fit. */
  lemma {:induction false} UnmetsFit(band: nat, plans: seq<Plan>, augments: seq<nat>, k: nat)
    requires Contained(plans) && |augments| == |plans| && k <= |plans|
    requires Sum(Entitlements(plans)) <= MAX_WHOLE
    ensures 0 <= Sum(Unmets(band, plans, augments)[..k]) < U64_END
  {
    var unmets := Unmets(band, plans, augments);
    var carried: seq<nat> := seq(|plans|, i => MAX_CARRY_UNITS);
    var room: seq<nat> := seq(|plans|, i requires 0 <= i < |plans| => Entitlements(plans)[i] + MAX_CARRY_UNITS);
    SumLe(unmets, room);
    SumLinear(room, 1, Entitlements(plans), carried);
    SumBounds(carried, MAX_CARRY_UNITS, MAX_CARRY_UNITS);
    SumPrefix(unmets, k);
    Wide.MulMonotone(|plans|, MAX_CARRY_UNITS, MAX_SUBJECTS, MAX_CARRY_UNITS);
  }

  method AddUnmet(band: nat, plans: seq<Plan>, augments: seq<nat>) returns (unsatisfied: nat)
    requires Contained(plans) && |augments| == |plans|
    requires Sum(Entitlements(plans)) <= MAX_WHOLE
    requires forall i :: 0 <= i < |plans| ==> augments[i] <= plans[i].effectiveDeficit
    ensures unsatisfied == Sum(Unmets(band, plans, augments)) < U64_END
  {
    unsatisfied := 0;
    for i := 0 to |plans|
      invariant unsatisfied == Sum(Unmets(band, plans, augments)[..i])
    {
      SumStep(Unmets(band, plans, augments), i);
      UnmetsFit(band, plans, augments, i + 1);
      if plans[i].authority && !plans[i].cooling && plans[i].effectiveDeficit > band {
        var unmet := plans[i].effectiveDeficit - augments[i];
        if unsatisfied + unmet >= U64_END {
          assert false;
        }
        unsatisfied := unsatisfied + unmet;
      }
    }
    UnmetsFit(band, plans, augments, |plans|);
    assert Unmets(band, plans, augments)[..|plans|] == Unmets(band, plans, augments);
  }

  // --- The laws of the plan ---------------------------------------------------------------------------

  /** A plan's grants: both greedy passes over one authorized budget. */
  ghost predicate Granted(p: FairnessPolicy, whole: nat, plans: seq<Plan>, demandOrder: seq<nat>, supplyOrder: seq<nat>,
                          augments: seq<nat>, reduces: seq<nat>)
    requires |p.subjects| == |plans|
  {
    && LegalDemand(p.subjects, plans, demandOrder) && LegalSupply(p.subjects, plans, supplyOrder)
    && var authorized := Authorized(p, whole, Sum(Supplies(plans)), Sum(Demands(plans)));
       && 0 <= authorized
       && augments == Grants(Demands(plans), demandOrder, authorized)
       && reduces == Grants(Supplies(plans), supplyOrder, authorized)
  }

  /** Augmentation and reduction both use exactly the authorized budget, which
      stays within every cap; and so does each subject's part. */
  lemma {:induction false} BalancedBoundedPlan(p: FairnessPolicy, whole: nat, plans: seq<Plan>,
                                               demandOrder: seq<nat>, supplyOrder: seq<nat>, augments: seq<nat>, reduces: seq<nat>)
    requires |p.subjects| == |plans| && Contained(plans)
    requires Granted(p, whole, plans, demandOrder, supplyOrder, augments, reduces)
    ensures Sum(augments) == Sum(reduces) == Authorized(p, whole, Sum(Supplies(plans)), Sum(Demands(plans)))
    ensures Sum(augments) <= p.maxCorrection && Sum(augments) <= Sum(Supplies(plans)) && Sum(augments) <= Sum(Demands(plans))
    ensures p.maxCorrectionBps < MAX_BPS ==> Sum(augments) * BASIS_POINT_SCALE <= whole * p.maxCorrectionBps
    ensures |augments| == |reduces| == |plans|
    ensures forall i :: 0 <= i < |plans| ==> augments[i] <= plans[i].demand && reduces[i] <= plans[i].reducible
  {
    var authorized := Authorized(p, whole, Sum(Supplies(plans)), Sum(Demands(plans)));
    BudgetIsSpent(Demands(plans), demandOrder, authorized);
    BudgetIsSpent(Supplies(plans), supplyOrder, authorized);
    GrantsWithinCaps(Demands(plans), demandOrder, authorized);
    GrantsWithinCaps(Supplies(plans), supplyOrder, authorized);
    if p.maxCorrectionBps < MAX_BPS {
      QuotientTimes(whole * p.maxCorrectionBps, BASIS_POINT_SCALE, authorized);
    }
  }

  lemma {:induction false} QuotientTimes(x: nat, d: nat, q: nat)
    requires d > 0 && q <= x / d
    ensures q * d <= x
  {
    assert q * d <= x / d * d <= x;
  }

  /** i is granted before j: it starves and j does not, or else the larger demand,
      then the stronger obligation, then the smaller identity decides. */
  ghost predicate AsksBefore(subjects: seq<Subject>, plans: seq<Plan>, i: nat, j: nat)
    requires |subjects| == |plans| && i < |plans| && j < |plans|
  {
    var (x, y) := (plans[i], plans[j]);
    || (x.starving && !y.starving)
    || (x.starving == y.starving && x.demand > y.demand)
    || (x.starving == y.starving && x.demand == y.demand && subjects[i].rank > subjects[j].rank)
    || (x.starving == y.starving && x.demand == y.demand && subjects[i].rank == subjects[j].rank && subjects[i].id < subjects[j].id)
  }

  /** i gives before j: the larger reducible surplus, then the weaker obligation,
      then the smaller identity decides. */
  ghost predicate GivesBefore(subjects: seq<Subject>, plans: seq<Plan>, i: nat, j: nat)
    requires |subjects| == |plans| && i < |plans| && j < |plans|
  {
    var (x, y) := (plans[i].reducible, plans[j].reducible);
    || x > y
    || (x == y && subjects[i].rank < subjects[j].rank)
    || (x == y && subjects[i].rank == subjects[j].rank && subjects[i].id < subjects[j].id)
  }

  /** If any subject that does not starve gains, every starving one with demand
      has been granted all of it. */
  lemma {:induction false} StarvingServedFirst(p: FairnessPolicy, whole: nat, plans: seq<Plan>,
                                               demandOrder: seq<nat>, supplyOrder: seq<nat>, augments: seq<nat>, reduces: seq<nat>,
                                               starving: nat, other: nat)
    requires |p.subjects| == |plans| && Contained(plans)
    requires Granted(p, whole, plans, demandOrder, supplyOrder, augments, reduces)
    requires starving < |plans| && other < |plans| && plans[starving].starving && !plans[other].starving
    requires augments[other] > 0
    ensures augments[starving] == plans[starving].demand
  {
    StrongerDemandFirst(p, whole, plans, demandOrder, supplyOrder, augments, reduces, starving, other);
  }

  /** The same for any two subjects the order tells apart: the later one gains only
      after the earlier one's demand was granted in full. */
  lemma {:induction false} StrongerDemandFirst(p: FairnessPolicy, whole: nat, plans: seq<Plan>,
                                               demandOrder: seq<nat>, supplyOrder: seq<nat>, augments: seq<nat>, reduces: seq<nat>,
                                               first: nat, later: nat)
    requires |p.subjects| == |plans| && Contained(plans)
    requires Granted(p, whole, plans, demandOrder, supplyOrder, augments, reduces)
    requires first < |plans| && later < |plans| && augments[later] > 0
    requires AsksBefore(p.subjects, plans, first, later)
    ensures augments[first] == plans[first].demand
  {
    var authorized := Authorized(p, whole, Sum(Supplies(plans)), Sum(Demands(plans)));
    var (caps, keys) := (Demands(plans), DemandKeys(p.subjects, plans));
    GrantsWithinCaps(caps, demandOrder, authorized);
    if plans[first].demand > 0 {
      GrantedMeansListed(caps, demandOrder, authorized, later);
      assert first in demandOrder && later in demandOrder;
      var a :| 0 <= a < |demandOrder| && demandOrder[a] == first;
      var b :| 0 <= b < |demandOrder| && demandOrder[b] == later;
      SmallerComesFirst(keys, demandOrder, a, b);
      FullBeforeAnything(caps, demandOrder, authorized, a, b);
    }
  }

  /** And the later one gives only after the earlier one gave all it may. */
  lemma {:induction false} LargerSurplusFirst(p: FairnessPolicy, whole: nat, plans: seq<Plan>,
                                              demandOrder: seq<nat>, supplyOrder: seq<nat>, augments: seq<nat>, reduces: seq<nat>,
                                              first: nat, later: nat)
    requires |p.subjects| == |plans| && Contained(plans)
    requires Granted(p, whole, plans, demandOrder, supplyOrder, augments, reduces)
    requires first < |plans| && later < |plans| && reduces[later] > 0
    requires GivesBefore(p.subjects, plans, first, later)
    ensures reduces[first] == plans[first].reducible
  {
    var authorized := Authorized(p, whole, Sum(Supplies(plans)), Sum(Demands(plans)));
    var (caps, keys) := (Supplies(plans), SupplyKeys(p.subjects, plans));
    GrantsWithinCaps(caps, supplyOrder, authorized);
    if plans[first].reducible > 0 {
      GrantedMeansListed(caps, supplyOrder, authorized, later);
      assert first in supplyOrder && later in supplyOrder;
      var a :| 0 <= a < |supplyOrder| && supplyOrder[a] == first;
      var b :| 0 <= b < |supplyOrder| && supplyOrder[b] == later;
      SmallerComesFirst(keys, supplyOrder, a, b);
      FullBeforeAnything(caps, supplyOrder, authorized, a, b);
    }
  }
}
