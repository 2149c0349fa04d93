// The evaluation: a pure computation of the decision a context justifies.

module Engine {
  import opened Core
  import opened Sums
  import opened Greedy
  import opened Ordering
  import opened Policy
  import opened Accounting
  import opened Evidence
  import opened Decision
  import opened Eligibility
  import opened Planner
  import opened Budget
  import opened Verdicts
  import opened Distributor
  import opened Distribution

  /** Everything an evaluation settles on the way to its decision. */
  datatype Work = Work(distributed: Distributed, plans: seq<Plan>,
                       demandOrder: seq<nat>, supplyOrder: seq<nat>, augments: seq<nat>, reduces: seq<nat>)

  // --- What is distributed, and to whom ---------------------------------------------------------

  function ServedEach(c: Context): (s: seq<nat>)
    ensures |s| == |c.policy.subjects|
  {
    seq(|c.policy.subjects|, i requires 0 <= i < |c.policy.subjects| => Judged(c, c.policy.subjects[i]).served)
  }

  ghost function WholeOf(c: Context): int {
    Sum(ServedEach(c))
  }

  ghost predicate Sized(p: FairnessPolicy, d: Distributed) {
    && |d.base.spread.subjects| == |d.effective.spread.subjects| == |d.effective.spread.binding| == |p.subjects|
    && |d.effective.spread.groups| == |p.groups|
  }

  function ShareOf(p: FairnessPolicy, d: Distributed, i: nat): Share
    requires Sized(p, d) && i < |p.subjects|
  {
    var home := HomeOf(p.groups, p.subjects[i]);
    var group := if home.Some? then home.value else 0;
    Share(d.effective.spread.subjects[i], d.base.spread.subjects[i], d.effective.spread.binding[i],
          if group < |p.groups| then d.effective.spread.groups[group] else 0)
  }

  function SharesOf(p: FairnessPolicy, d: Distributed): (s: seq<Share>)
    requires Sized(p, d)
    ensures |s| == |p.subjects|
  {
    seq(|p.subjects|, i requires 0 <= i < |p.subjects| => ShareOf(p, d, i))
  }

  /** What the engine is given: a validated policy, validated evidence. */
  ghost predicate Sound(c: Context) {
    ValidPolicy(c.policy) && (c.evidence.Some? ==> ValidEvidence(c.evidence.value))
  }

  // --- The decision as a function of the work ------------------------------------------------------

  function CorrectionOf(p: FairnessPolicy, pool: nat, demand: nat, withheld: nat, authorized: nat, bpsCap: nat,
                        unsatisfied: nat, eligible: bool): Correction {
    Correction(pool, demand, authorized, authorized, authorized, withheld, unsatisfied,
      p.maxCorrection < Min(pool, demand) && p.maxCorrection <= bpsCap,
      bpsCap < Min(pool, demand) && bpsCap < p.maxCorrection,
      unsatisfied > 0 && withheld > 0 && authorized < demand, !eligible)
  }

  ghost function Summary(c: Context, w: Work): Correction
    requires |w.augments| == |w.plans|
  {
    var (pool, demand, withheld) := (Sum(Supplies(w.plans)), Sum(Demands(w.plans)), Sum(Withholdings(w.plans)));
    var (whole, unsatisfied) := (WholeOf(c), Sum(Unmets(c.policy.fairBand, w.plans, w.augments)));
    SumNonNegative(Supplies(w.plans));
    SumNonNegative(Demands(w.plans));
    SumNonNegative(Withholdings(w.plans));
    SumNonNegative(ServedEach(c));
    SumNonNegative(Unmets(c.policy.fairBand, w.plans, w.augments));
    CorrectionOf(c.policy, pool, demand, withheld, Authorized(c.policy, whole, pool, demand), BpsCap(c.policy, whole),
                 unsatisfied, Ineligibility(c).None?)
  }

  ghost function FinalPlans(c: Context, w: Work): (s: seq<Plan>)
    requires |w.plans| == |w.augments| == |w.reduces| == |c.policy.subjects|
    ensures |s| == |w.plans|
  {
    Settled(c.policy, w.plans, w.augments, w.reduces, Summary(c, w).blocked)
  }

  /** Augmenting intents first, then the reducing ones, numbered on. */
  ghost function IntentsOf(c: Context, w: Work, plans: seq<Plan>): seq<Intent>
    requires |plans| == |c.policy.subjects| && InRange(w.demandOrder, |plans|) && InRange(w.supplyOrder, |plans|)
  {
    var start := c.accounting.interventionGeneration;
    var augmenting := IntentsAlong(c, Augment, plans, w.demandOrder, start);
    augmenting + IntentsAlong(c, Reduce, plans, w.supplyOrder, Advanced(start, |augmenting|))
  }

  ghost function ContentOf(c: Context, w: Work): Content
    requires |w.plans| == |w.augments| == |w.reduces| == |c.policy.subjects|
    requires InRange(w.demandOrder, |w.plans|) && InRange(w.supplyOrder, |w.plans|)
  {
    var plans := FinalPlans(c, w);
    Content(AuthorityOf(c), Worst(States(c.policy, plans)), States(c.policy, plans), IntentsOf(c, w, plans), Summary(c, w))
  }

  /** Both passes of the distribution share out the whole. */
  ghost predicate SharesOut(p: FairnessPolicy, d: Distributed, whole: nat) {
    && Sized(p, d)
    && Sum(d.effective.spread.subjects) == Sum(d.base.spread.subjects) == whole
    && (forall i :: 0 <= i < |p.subjects| ==> d.effective.spread.subjects[i] <= whole)
  }

  /** The plans are prepared from these shares, and both greedy passes ran. */
  ghost predicate Works(c: Context, w: Work) {
    && 0 <= WholeOf(c) <= MAX_WHOLE && SharesOut(c.policy, w.distributed, WholeOf(c))
    && IsPrepared(c, SharesOf(c.policy, w.distributed), w.plans)
    && Granted(c.policy, WholeOf(c), w.plans, w.demandOrder, w.supplyOrder, w.augments, w.reduces)
    && |w.augments| == |w.reduces| == |w.plans|
  }

  ghost predicate Decides(c: Context, w: Work, content: Content) {
    && Works(c, w) && IsDistributed(c.policy, w.distributed, WholeOf(c))
    && content == ContentOf(c, w)
  }

  // --- Bounds ---------------------------------------------------------------------------------------

  /** What of a sound context the arithmetic rests on. */
  ghost predicate Tame(c: Context) {
    && |c.policy.subjects| <= MAX_SUBJECTS && c.policy.maxCarry <= MAX_CARRY_UNITS
    && (c.evidence.Some? ==> ObservationsSound(c.evidence.value.observations))
  }

  lemma {:induction false} SoundIsTame(c: Context)
    requires Sound(c)
    ensures Tame(c)
  {
  }

  lemma {:induction false} ServedBounded(c: Context, i: nat)
    requires Tame(c) && i < |c.policy.subjects|
    ensures Judged(c, c.policy.subjects[i]).served <= MAX_SERVICE_UNITS
    ensures !Judged(c, c.policy.subjects[i]).authority ==> Judged(c, c.policy.subjects[i]).served == 0
  {
    var s := c.policy.subjects[i];
    AuthorityExactly(c, s);
    if Judged(c, s).authority {
      var o := Find(c.evidence.value.observations, s.id).value;
      assert o in c.evidence.value.observations;
    }
  }

  lemma {:induction false} WholeBounded(c: Context, k: nat)
    requires Tame(c) && k <= |c.policy.subjects|
    ensures 0 <= Sum(ServedEach(c)[..k]) <= MAX_WHOLE
  {
    forall i | 0 <= i < k
      ensures 0 <= ServedEach(c)[..k][i] <= MAX_SERVICE_UNITS
    {
      ServedBounded(c, i);
    }
    SumBounds(ServedEach(c)[..k], 0, MAX_SERVICE_UNITS);
  }

  /** The authoritative service up to k, which never overflows. */
  lemma {:induction false} ServedStep(c: Context, k: nat)
    requires Tame(c) && k < |c.policy.subjects|
    ensures
      var p := Judged(c, c.policy.subjects[k]);
      && Sum(ServedEach(c)[..k + 1]) == Sum(ServedEach(c)[..k]) + p.served <= MAX_WHOLE
      && (!p.authority ==> p.served == 0)
  {
    SumStep(ServedEach(c), k);
    WholeBounded(c, k + 1);
    ServedBounded(c, k);
  }

  method AddServed(c: Context, judged: seq<Plan>) returns (whole: u64)
    requires Tame(c) && |judged| == |c.policy.subjects|
    requires forall i :: 0 <= i < |judged| ==> judged[i] == Judged(c, c.policy.subjects[i])
    ensures whole == WholeOf(c) <= MAX_WHOLE
  {
    whole := 0;
    for i := 0 to |judged|
      invariant whole == Sum(ServedEach(c)[..i])
    {
      ServedStep(c, i);
      var served := if judged[i].authority then judged[i].served else 0;
      if whole + served >= U64_END {
        assert false;
      }
      whole := whole + served;
    }
    WholeBounded(c, |judged|);
    assert ServedEach(c)[..|judged|] == ServedEach(c);
  }

  /** Every prepared plan is contained and holds at most its entitlement. */
  lemma {:induction false} PlanBounds(c: Context, d: Distributed, plans: seq<Plan>, i: nat)
    requires Tame(c) && Sized(c.policy, d) && IsPrepared(c, SharesOf(c.policy, d), plans) && i < |plans|
    ensures PlanContained(plans[i])
    ensures plans[i].share.entitlement <= d.effective.spread.subjects[i]
  {
    var (s, share) := (c.policy.subjects[i], SharesOf(c.policy, d)[i]);
    assert Prepared(c, s, share) == Some(plans[i]);
    ServedBounded(c, i);
    PreparedContained(c, s, share);
  }

  lemma {:induction false} PreparedContained(c: Context, s: Subject, share: Share)
    requires Prepared(c, s, share).Some? && c.policy.maxCarry <= MAX_CARRY_UNITS
    requires Judged(c, s).served <= MAX_SERVICE_UNITS
    ensures PlanContained(Prepared(c, s, share).value)
    ensures Prepared(c, s, share).value.share.entitlement <= share.entitlement
  {
    PreparedWithinBounds(c, s, share);
    if Judged(c, s).authority {
      PreparedNumbers(c, s, share, Prepared(c, s, share).value);
    } else {
      NoAuthorityNoPlan(c, s, share);
    }
  }

  lemma {:induction false} PlansContained(c: Context, d: Distributed, plans: seq<Plan>)
    requires Tame(c) && 0 <= WholeOf(c) <= MAX_WHOLE && SharesOut(c.policy, d, WholeOf(c))
    requires IsPrepared(c, SharesOf(c.policy, d), plans)
    ensures Contained(plans) && Sum(Entitlements(plans)) <= MAX_WHOLE
  {
    forall i | 0 <= i < |plans|
      ensures PlanContained(plans[i])
      ensures Entitlements(plans)[i] <= d.effective.spread.subjects[i]
    {
      PlanBounds(c, d, plans, i);
    }
    SumLe(Entitlements(plans), d.effective.spread.subjects);
  }

  // --- The evaluation -------------------------------------------------------------------------------------

  /** Builds the tree and runs both passes: for a valid policy neither can fail. */
  method DistributeWhole(p: FairnessPolicy, whole: u64) returns (d: Distributed)
    requires ValidPolicy(p)
    ensures IsDistributed(p, d, whole) && SharesOut(p, d, whole)
  {
    var built := BuildTree(p);
    var distributed := Distribute(built.value, whole);
    d := distributed.value;
    EntitlementsSumToWhole(p, d, whole);
  }

  method ListShares(p: FairnessPolicy, d: Distributed) returns (shares: seq<Share>)
    requires Sized(p, d)
    ensures shares == SharesOf(p, d)
  {
    shares := [];
    for i := 0 to |p.subjects|
      invariant |shares| == i && shares == SharesOf(p, d)[..i]
    {
      shares := shares + [ShareOf(p, d, i)];
    }
  }

  lemma {:induction false} ReadyToPrepare(c: Context, d: Distributed, i: nat)
    requires Tame(c) && 0 <= WholeOf(c) <= MAX_WHOLE && SharesOut(c.policy, d, WholeOf(c)) && i < |c.policy.subjects|
    ensures Measurable(Judged(c, c.policy.subjects[i]), SharesOf(c.policy, d)[i])
    ensures Roomy(c.accounting.subjects) ==> Prepared(c, c.policy.subjects[i], SharesOf(c.policy, d)[i]).Some?
  {
    ServedBounded(c, i);
    if Roomy(c.accounting.subjects) {
      RoomyPrepares(c, c.policy.subjects[i], SharesOf(c.policy, d)[i]);
    }
  }

  /** Some authoritative subject's recorded carry has no room for its share. */
  ghost predicate Cramped(c: Context, d: Distributed) {
    Sized(c.policy, d) && exists i :: 0 <= i < |c.policy.subjects| && NoRoom(c, c.policy.subjects[i], SharesOf(c.policy, d)[i])
  }

  /** From shares to prepared plans; fails exactly where some authoritative
      subject's carry overflows its counters. */
  method Prepare(c: Context, judged: seq<Plan>, d: Distributed) returns (r: Option<seq<Plan>>)
    requires Tame(c) && 0 <= WholeOf(c) <= MAX_WHOLE && SharesOut(c.policy, d, WholeOf(c))
    requires |judged| == |c.policy.subjects|
    requires forall i :: 0 <= i < |judged| ==> judged[i] == Judged(c, c.policy.subjects[i])
    ensures r.Some? ==> IsPrepared(c, SharesOf(c.policy, d), r.value)
    ensures r.None? <==> Cramped(c, d)
    ensures Roomy(c.accounting.subjects) ==> r.Some?
  {
    var shares := ListShares(c.policy, d);
    forall i | 0 <= i < |judged|
      ensures Measurable(judged[i], shares[i])
      ensures Prepared(c, c.policy.subjects[i], shares[i]).None? <==> NoRoom(c, c.policy.subjects[i], shares[i])
      ensures Roomy(c.accounting.subjects) ==> Prepared(c, c.policy.subjects[i], shares[i]).Some?
    {
      ReadyToPrepare(c, d, i);
      UnpreparedExactly(c, c.policy.subjects[i], shares[i]);
    }
    r := PrepareAll(c, shares, judged);
  }

  method Summarize(c: Context, whole: u64, d: Distributed, plans: seq<Plan>) returns (w: Work, summary: Correction)
    requires Tame(c) && whole == WholeOf(c) <= MAX_WHOLE && SharesOut(c.policy, d, whole)
    requires IsPrepared(c, SharesOf(c.policy, d), plans)
    ensures Works(c, w) && w.distributed == d && summary == Summary(c, w)
  {
    PlansContained(c, d, plans);
    var pool, demand, withheld := AddTotals(plans);
    var authorized, bpsCap := AuthorizeBudget(c.policy, whole, pool, demand);
    var augments, reduces, demandOrder, supplyOrder := GrantBoth(c.policy.subjects, plans, authorized);
    BalancedBoundedPlan(c.policy, whole, plans, demandOrder, supplyOrder, augments, reduces);
    var unsatisfied := AddUnmet(c.policy.fairBand, plans, augments);
    w := Work(d, plans, demandOrder, supplyOrder, augments, reduces);
    summary := CorrectionOf(c.policy, pool, demand, withheld, authorized, bpsCap, unsatisfied, Ineligibility(c).None?);
  }

  method Emit(c: Context, w: Work, plans: seq<Plan>) returns (intents: seq<Intent>)
    requires |plans| == |c.policy.subjects| <= MAX_SUBJECTS
    requires InRange(w.demandOrder, |plans|) && Distinct(w.demandOrder)
    requires InRange(w.supplyOrder, |plans|) && Distinct(w.supplyOrder)
    ensures intents == IntentsOf(c, w, plans)
  {
    DistinctBounded(w.demandOrder, |plans|);
    DistinctBounded(w.supplyOrder, |plans|);
    var generation;
    intents, generation := EmitIntents(c, Augment, plans, w.demandOrder, c.accounting.interventionGeneration, []);
    intents, generation := EmitIntents(c, Reduce, plans, w.supplyOrder, generation, intents);
  }

  method Conclude(c: Context, w: Work, summary: Correction) returns (content: Content)
    requires Tame(c) && Works(c, w) && summary == Summary(c, w)
    ensures content == ContentOf(c, w)
  {
    var plans := SettleAll(c.policy, w.plans, w.augments, w.reduces, summary.blocked);
    var states := Materialize(c.policy, plans);
    var intents := Emit(c, w, plans);
    var outcome := Aggregate(states);
    content := Content(AuthorityOf(c), outcome, states, intents, summary);
  }

  /** Evaluates a context. It fails exactly where, under the distribution made, the
      recorded carry of some subject with authority has no room for the window; in
      the bounded domain it always decides. */
  method EvaluateFairness(c: Context) returns (r: Result<Content>, ghost w: Work)
    requires Sound(c)
    ensures r.Ok? ==> Decides(c, w, r.value)
    ensures Roomy(c.accounting.subjects) ==> r.Ok?
    ensures r.Err? ==> r.status == ArithmeticOverflow
    ensures r.Err? <==> Cramped(c, w.distributed)
    ensures 0 <= WholeOf(c) && IsDistributed(c.policy, w.distributed, WholeOf(c))
  {
    SoundIsTame(c);
    var judged := JudgeAll(c);
    var whole := AddServed(c, judged);
    var d := DistributeWhole(c.policy, whole);
    var plans := Prepare(c, judged, d);
    if plans.None? {
      r, w := Err(ArithmeticOverflow), Work(d, [], [], [], [], []);
      return;
    }
    var work, summary := Summarize(c, whole, d, plans.value);
    var content := Conclude(c, work, summary);
    r, w := Ok(content), work;
  }
}
