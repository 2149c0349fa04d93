// What every decision of the engine guarantees.

module EngineLaws {
  import opened Core
  import opened Sums
  import opened Ordering
  import opened Greedy
  import opened Policy
  import opened Accounting
  import opened Evidence
  import opened Decision
  import opened Eligibility
  import opened Planner
  import opened Budget
  import opened Verdicts
  import opened Engine
  import Distribution

  function Augmented(states: seq<SubjectState>): (s: seq<nat>)
    ensures |s| == |states|
  {
    seq(|states|, i requires 0 <= i < |states| => states[i].augment)
  }

  function Reduced(states: seq<SubjectState>): (s: seq<nat>)
    ensures |s| == |states|
  {
    seq(|states|, i requires 0 <= i < |states| => states[i].reduce)
  }

  function Entitled(states: seq<SubjectState>): (s: seq<nat>)
    ensures |s| == |states|
  {
    seq(|states|, i requires 0 <= i < |states| => states[i].entitlement)
  }

  function Served(states: seq<SubjectState>): (s: seq<nat>)
    ensures |s| == |states|
  {
    seq(|states|, i requires 0 <= i < |states| => states[i].served)
  }

  function Deficits(states: seq<SubjectState>): (s: seq<nat>)
    ensures |s| == |states|
  {
    seq(|states|, i requires 0 <= i < |states| => states[i].deficit)
  }

  function Surpluses(states: seq<SubjectState>): (s: seq<nat>)
    ensures |s| == |states|
  {
    seq(|states|, i requires 0 <= i < |states| => states[i].surplus)
  }

  // --- What a decision shows of the work -----------------------------------------------------

  /** A subject's state is its prepared plan and its grants. */
  ghost predicate Shows(s: Subject, p: Plan, augment: nat, reduce: nat, state: SubjectState) {
    && (state.id, state.generation, state.group, state.authority) == (s.id, s.generation, s.group, p.authority)
    && (state.served, state.entitlement, state.deficit, state.surplus) == (p.served, p.share.entitlement, p.deficit, p.surplus)
    && (state.deficitAfter, state.surplusAfter) == (p.carry.deficit, p.carry.surplus)
    && (state.unservedStreak, state.belowFloorStreak) == (p.unservedStreak, p.belowFloorStreak)
    && (state.augment, state.reduce) == (augment, reduce)
    && augment <= p.demand && reduce <= p.reducible
    && (!p.authority ==> p.outcome in {Unknown, Stale}) && (state.authority <==> state.outcome !in {Unknown, Stale})
  }

  ghost predicate Answered(c: Context, shares: seq<Share>, w: Work, states: seq<SubjectState>) {
    && IsPrepared(c, shares, w.plans)
    && |states| == |w.augments| == |w.reduces| == |w.plans|
    && forall i :: 0 <= i < |states| ==> Shows(c.policy.subjects[i], w.plans[i], w.augments[i], w.reduces[i], states[i])
  }

  lemma {:induction false} StateShows(policy: FairnessPolicy, s: Subject, p: Plan, augment: nat, reduce: nat, blocked: bool)
    requires augment <= p.demand && reduce <= p.reducible && (!p.authority ==> p.outcome in {Unknown, Stale})
    ensures Shows(s, p, augment, reduce, StateOf(policy, s, Settle(s, p, augment, reduce, blocked)))
  {
    VerdictMeans(policy, s, Settle(s, p, augment, reduce, blocked));
  }

  lemma {:induction false} DecisionAnswers(c: Context, w: Work, content: Content)
    requires Tame(c) && Works(c, w) && content == ContentOf(c, w)
    ensures Answered(c, SharesOf(c.policy, w.distributed), w, content.subjects)
  {
    PlansContained(c, w.distributed, w.plans);
    BalancedBoundedPlan(c.policy, WholeOf(c), w.plans, w.demandOrder, w.supplyOrder, w.augments, w.reduces);
    var (plans, shares) := (w.plans, SharesOf(c.policy, w.distributed));
    forall i | 0 <= i < |plans|
      ensures Shows(c.policy.subjects[i], plans[i], w.augments[i], w.reduces[i], content.subjects[i])
    {
      PreparedReads(c, c.policy.subjects[i], shares[i], plans[i]);
      StateShows(c.policy, c.policy.subjects[i], plans[i], w.augments[i], w.reduces[i], Summary(c, w).blocked);
    }
  }

  // --- The plan ---------------------------------------------------------------------------------

  lemma {:induction false} GrantsOnlyListed(c: Context, w: Work)
    requires Works(c, w)
    ensures InRange(w.demandOrder, |w.plans|) && Distinct(w.demandOrder)
    ensures InRange(w.supplyOrder, |w.plans|) && Distinct(w.supplyOrder)
    ensures forall i :: 0 <= i < |w.plans| && w.augments[i] > 0 ==> i in w.demandOrder
    ensures forall i :: 0 <= i < |w.plans| && w.reduces[i] > 0 ==> i in w.supplyOrder
  {
    var authorized := Authorized(c.policy, WholeOf(c), Sum(Supplies(w.plans)), Sum(Demands(w.plans)));
    forall i | 0 <= i < |w.plans|
      ensures w.augments[i] > 0 ==> i in w.demandOrder
      ensures w.reduces[i] > 0 ==> i in w.supplyOrder
    {
      if w.augments[i] > 0 {
        GrantedMeansListed(Demands(w.plans), w.demandOrder, authorized, i);
      }
      if w.reduces[i] > 0 {
        GrantedMeansListed(Supplies(w.plans), w.supplyOrder, authorized, i);
      }
    }
  }

  /** The intents of each direction total that direction's grants. */
  lemma {:induction false} IntentsTotalGrants(c: Context, w: Work, plans: seq<Plan>)
    requires |w.augments| == |w.reduces| == |plans| == |c.policy.subjects|
    requires InRange(w.demandOrder, |plans|) && Distinct(w.demandOrder) && InRange(w.supplyOrder, |plans|) && Distinct(w.supplyOrder)
    requires forall i :: 0 <= i < |plans| && w.augments[i] > 0 ==> i in w.demandOrder
    requires forall i :: 0 <= i < |plans| && w.reduces[i] > 0 ==> i in w.supplyOrder
    requires forall i :: 0 <= i < |plans| ==> plans[i].augment == w.augments[i] && plans[i].reduce == w.reduces[i]
    ensures Sum(UnitsOf(IntentsOf(c, w, plans), Augment)) == Sum(w.augments)
    ensures Sum(UnitsOf(IntentsOf(c, w, plans), Reduce)) == Sum(w.reduces)
    ensures |IntentsOf(c, w, plans)| <= 2 * |plans|
  {
    DistinctBounded(w.demandOrder, |plans|);
    DistinctBounded(w.supplyOrder, |plans|);
    var start := c.accounting.interventionGeneration;
    var middle := Advanced(start, |IntentsAlong(c, Augment, plans, w.demandOrder, start)|);
    IntentsMatchPlan(c, plans, w.demandOrder, w.supplyOrder, start, middle);
    assert UnitsEach(plans, Augment) == w.augments;
    assert UnitsEach(plans, Reduce) == w.reduces;
  }

  /** Augmentation and reduction, in the summary, over the subjects and over the
      intents, are one and the same amount, within every policy cap. */
  lemma {:induction false} DecisionBalances(c: Context, w: Work, content: Content)
    requires Tame(c) && Works(c, w) && content == ContentOf(c, w)
    ensures
      var units := content.correction.augment;
      && content.correction.reduce == content.correction.authorized == units
      && Sum(Augmented(content.subjects)) == Sum(Reduced(content.subjects)) == units
      && Sum(UnitsOf(content.intents, Augment)) == Sum(UnitsOf(content.intents, Reduce)) == units
      && units <= c.policy.maxCorrection
      && (c.policy.maxCorrectionBps < MAX_BPS ==> units * BASIS_POINT_SCALE <= WholeOf(c) * c.policy.maxCorrectionBps)
      && |content.intents| <= MAX_INTENTS
  {
    WorkBalances(c, w);
    IntentsBalance(c, w, FinalPlans(c, w));
    DecisionAnswers(c, w, content);
    assert Augmented(content.subjects) == w.augments;
    assert Reduced(content.subjects) == w.reduces;
  }

  lemma {:induction false} WorkBalances(c: Context, w: Work)
    requires Tame(c) && Works(c, w)
    ensures
      var units := Summary(c, w).authorized;
      && Sum(w.augments) == Sum(w.reduces) == units && units <= c.policy.maxCorrection
      && (c.policy.maxCorrectionBps < MAX_BPS ==> units * BASIS_POINT_SCALE <= WholeOf(c) * c.policy.maxCorrectionBps)
  {
    PlansContained(c, w.distributed, w.plans);
    BalancedBoundedPlan(c.policy, WholeOf(c), w.plans, w.demandOrder, w.supplyOrder, w.augments, w.reduces);
  }

  lemma {:induction false} IntentsBalance(c: Context, w: Work, plans: seq<Plan>)
    requires Tame(c) && Works(c, w) && |plans| == |w.plans|
    requires forall i :: 0 <= i < |plans| ==> plans[i].augment == w.augments[i] && plans[i].reduce == w.reduces[i]
    ensures InRange(w.demandOrder, |plans|) && InRange(w.supplyOrder, |plans|)
    ensures Sum(UnitsOf(IntentsOf(c, w, plans), Augment)) == Sum(w.augments)
    ensures Sum(UnitsOf(IntentsOf(c, w, plans), Reduce)) == Sum(w.reduces)
    ensures |IntentsOf(c, w, plans)| <= MAX_INTENTS
  {
    GrantsOnlyListed(c, w);
    IntentsTotalGrants(c, w, plans);
  }

  /** No subject gains past its cap or its deficit; none is reduced past its cap
      or below its entitlement, nor, when protected, below its floor. */
  lemma {:induction false} SubjectBounds(c: Context, shares: seq<Share>, w: Work, states: seq<SubjectState>, i: nat)
    requires Answered(c, shares, w, states) && i < |states|
    ensures
      var (s, state) := (c.policy.subjects[i], states[i]);
      && state.augment <= s.maxAugment && state.reduce <= s.maxReduce
      && state.augment <= state.deficit + CarriedDeficit(c, s)
      && (state.reduce > 0 ==> state.served - state.reduce >= state.entitlement)
      && (state.reduce > 0 && s.isProtected ==> state.served - state.reduce >= s.floor)
      && (!state.authority ==> state.augment == state.reduce == 0)
  {
    var s := c.policy.subjects[i];
    PreparedReads(c, s, shares[i], w.plans[i]);
    PreparedWithinBounds(c, s, shares[i]);
    assert Shows(s, w.plans[i], w.augments[i], w.reduces[i], states[i]);
  }

  /** If any subject that does not starve gains, every starving subject's demand
      was granted in full: its effective deficit, as far as its cap goes. */
  lemma {:induction false} StarvationFirst(c: Context, w: Work, content: Content, starving: nat, other: nat)
    requires Tame(c) && Works(c, w) && content == ContentOf(c, w)
    requires starving < |w.plans| && other < |w.plans| && w.plans[starving].starving && !w.plans[other].starving
    requires |content.subjects| == |w.plans| && content.subjects[other].augment > 0
    requires w.plans[starving].effectiveDeficit > c.policy.fairBand
    ensures content.subjects[starving].augment ==
      Min(Min(w.plans[starving].effectiveDeficit, c.policy.subjects[starving].maxAugment), MAX_SERVICE_UNITS)
  {
    DecisionAnswers(c, w, content);
    PlansContained(c, w.distributed, w.plans);
    StarvingDemand(c, c.policy.subjects[starving], SharesOf(c.policy, w.distributed)[starving], w.plans[starving]);
    StarvingServedFirst(c.policy, WholeOf(c), w.plans, w.demandOrder, w.supplyOrder, w.augments, w.reduces, starving, other);
  }

  /** A subject can be augmented and reduced by one decision, but only when it was
      over-served this window and is still owed units from before. */
  lemma {:induction false} BothWaysMeans(c: Context, shares: seq<Share>, w: Work, states: seq<SubjectState>, i: nat)
    requires Answered(c, shares, w, states) && i < |states|
    requires states[i].augment > 0 && states[i].reduce > 0
    ensures states[i].surplus > 0 && states[i].deficit == 0 && CarriedDeficit(c, c.policy.subjects[i]) > 0
  {
    SubjectBounds(c, shares, w, states, i);
    StateNumbers(c, shares, w, states, i);
  }

  // --- The population ------------------------------------------------------------------------------

  /** The numbers of an authoritative state: its share, its service, the one-sided
      difference, and the carry that committing it would leave. */
  lemma {:induction false} StateNumbers(c: Context, shares: seq<Share>, w: Work, states: seq<SubjectState>, i: nat)
    requires Answered(c, shares, w, states) && i < |states| && states[i].authority
    ensures
      var (s, state) := (c.policy.subjects[i], states[i]);
      && state.entitlement == shares[i].entitlement && state.served == Judged(c, s).served
      && state.deficit - state.surplus == state.entitlement - state.served && (state.deficit == 0 || state.surplus == 0)
      && CarryAhead(c, s, state.entitlement - state.served).Some?
      && state.deficitAfter == CarryAhead(c, s, state.entitlement - state.served).value.deficit
      && state.surplusAfter == CarryAhead(c, s, state.entitlement - state.served).value.surplus
  {
    assert Shows(c.policy.subjects[i], w.plans[i], w.augments[i], w.reduces[i], states[i]);
    PreparedReads(c, c.policy.subjects[i], shares[i], w.plans[i]);
  }

  /** With authority over everyone, entitlements sum to what was served, and the
      population's deficit is its surplus. */
  lemma {:induction false} PopulationBalances(c: Context, w: Work, content: Content)
    requires Tame(c) && Works(c, w) && content == ContentOf(c, w)
    requires forall i :: 0 <= i < |content.subjects| ==> content.subjects[i].authority
    ensures Sum(Entitled(content.subjects)) == Sum(Served(content.subjects)) == WholeOf(c)
    ensures Sum(Deficits(content.subjects)) == Sum(Surpluses(content.subjects))
  {
    DecisionAnswers(c, w, content);
    StatesBalance(c, SharesOf(c.policy, w.distributed), w, content.subjects);
    EntitledIsShared(c.policy, w.distributed, content.subjects);
  }

  lemma {:induction false} EntitledIsShared(p: FairnessPolicy, d: Distribution.Distributed, states: seq<SubjectState>)
    requires Sized(p, d) && |states| == |p.subjects|
    requires forall i :: 0 <= i < |states| ==> Entitled(states)[i] == SharesOf(p, d)[i].entitlement
    ensures Entitled(states) == d.effective.spread.subjects
  {
  }

  lemma {:induction false} StatesBalance(c: Context, shares: seq<Share>, w: Work, states: seq<SubjectState>)
    requires Answered(c, shares, w, states) && forall i :: 0 <= i < |states| ==> states[i].authority
    ensures forall i :: 0 <= i < |states| ==> Entitled(states)[i] == shares[i].entitlement
    ensures Sum(Served(states)) == WholeOf(c)
    ensures Sum(Entitled(states)) - Sum(Served(states)) == Sum(Deficits(states)) - Sum(Surpluses(states))
  {
    forall i | 0 <= i < |states|
      ensures states[i].entitlement == shares[i].entitlement && states[i].served == ServedEach(c)[i]
      ensures states[i].deficit - states[i].surplus == states[i].entitlement - states[i].served
    {
      StateNumbers(c, shares, w, states, i);
    }
    assert Served(states) == ServedEach(c);
    NetsCancel(states);
  }

  lemma {:induction false} NetsCancel(states: seq<SubjectState>)
    requires forall i :: 0 <= i < |states| ==> states[i].deficit - states[i].surplus == states[i].entitlement - states[i].served
    ensures Sum(Entitled(states)) - Sum(Served(states)) == Sum(Deficits(states)) - Sum(Surpluses(states))
  {
    var net: seq<int> := seq(|states|, i requires 0 <= i < |states| => states[i].entitlement - states[i].served);
    SumLinear(Entitled(states), 1, Served(states), net);
    SumLinear(Deficits(states), 1, Surpluses(states), net);
  }

  // --- Authority ------------------------------------------------------------------------------------

  /** A state has authority exactly when the evidence was named and fresh and
      recognises the subject; without it the outcome is Unknown or Stale. */
  lemma {:induction false} AuthorityOfState(c: Context, shares: seq<Share>, w: Work, states: seq<SubjectState>, i: nat)
    requires Answered(c, shares, w, states) && i < |states|
    ensures states[i].authority <==> Named(c) && Fresh(c) && Recognised(c, c.policy.subjects[i])
    ensures states[i].authority <==> states[i].outcome !in {Unknown, Stale}
    ensures !states[i].authority ==> states[i].served == states[i].entitlement == 0
  {
    var s := c.policy.subjects[i];
    assert Shows(s, w.plans[i], w.augments[i], w.reduces[i], states[i]);
    AuthorityExactly(c, s);
    PreparedReads(c, s, shares[i], w.plans[i]);
  }

  lemma {:induction false} IdlePlans(c: Context, shares: seq<Share>, w: Work, states: seq<SubjectState>)
    requires Answered(c, shares, w, states) && Ineligibility(c).Some?
    ensures forall i :: 0 <= i < |states| ==> !states[i].authority && states[i].augment == 0
    ensures Sum(w.augments) == 0
  {
    forall i | 0 <= i < |states|
      ensures !states[i].authority && states[i].augment == w.augments[i] == 0
    {
      assert Shows(c.policy.subjects[i], w.plans[i], w.augments[i], w.reduces[i], states[i]);
      PreparedReads(c, c.policy.subjects[i], shares[i], w.plans[i]);
    }
    SumOfZeros(w.augments);
  }

  lemma {:induction false} ZeroSumZeros(s: seq<nat>)
    requires Sum(s) == 0
    ensures forall i :: 0 <= i < |s| ==> s[i] == 0
  {
    forall i | 0 <= i < |s|
      ensures s[i] == 0
    {
      SumElement(s, i);
    }
  }

  lemma {:induction false} NothingGrantedNoIntents(c: Context, w: Work, plans: seq<Plan>)
    requires |w.augments| == |w.reduces| == |plans| == |c.policy.subjects|
    requires InRange(w.demandOrder, |plans|) && InRange(w.supplyOrder, |plans|)
    requires forall i :: 0 <= i < |plans| ==> plans[i].augment == w.augments[i] && plans[i].reduce == w.reduces[i]
    requires Sum(w.augments) == 0 && Sum(w.reduces) == 0
    ensures IntentsOf(c, w, plans) == []
  {
    ZeroSumZeros(w.augments);
    ZeroSumZeros(w.reduces);
    var start := c.accounting.interventionGeneration;
    NoUnitsNoIntents(c, Augment, plans, w.demandOrder, start);
    NoUnitsNoIntents(c, Reduce, plans, w.supplyOrder, Advanced(start, 0));
  }

  lemma {:induction false} FinalUnits(c: Context, w: Work)
    requires |w.plans| == |w.augments| == |w.reduces| == |c.policy.subjects|
    ensures forall i :: 0 <= i < |w.plans| ==>
      FinalPlans(c, w)[i].augment == w.augments[i] && FinalPlans(c, w)[i].reduce == w.reduces[i]
  {
  }

  lemma {:induction false} NothingGranted(c: Context, w: Work)
    requires |w.plans| == |w.augments| == |w.reduces| == |c.policy.subjects|
    requires InRange(w.demandOrder, |w.plans|) && InRange(w.supplyOrder, |w.plans|)
    requires Sum(w.augments) == 0 && Sum(w.reduces) == 0
    ensures IntentsOf(c, w, FinalPlans(c, w)) == []
  {
    FinalUnits(c, w);
    NothingGrantedNoIntents(c, w, FinalPlans(c, w));
  }

  /** Without evidence authority nothing is proposed to anyone. */
  lemma {:induction false} IneligibleProposesNothing(c: Context, w: Work, content: Content)
    requires Tame(c) && Works(c, w) && content == ContentOf(c, w) && Ineligibility(c).Some?
    ensures content.correction.authorized == 0 && content.correction.authorityMissing && content.intents == []
    ensures forall i :: 0 <= i < |content.subjects| ==> !content.subjects[i].authority
  {
    DecisionAnswers(c, w, content);
    IdlePlans(c, SharesOf(c.policy, w.distributed), w, content.subjects);
    WorkBalances(c, w);
    GrantsOnlyListed(c, w);
    NothingGranted(c, w);
  }
}
