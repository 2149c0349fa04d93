// What a decision says, read off the prepared plans: how large a correction it
// authorizes and why not more, each subject's numbers and verdict, the intents.

module DecisionLaws {
  import opened Core
  import opened Sums
  import opened Ordering
  import opened Policy
  import opened Evidence
  import opened Decision
  import opened Eligibility
  import opened Planner
  import opened Budget
  import opened Verdicts
  import opened Engine
  import opened EngineLaws
  import Distribution
  import Siblings

  // --- The budget ----------------------------------------------------------------------------

  /** The budget is as large as it may be: a unit moves exactly when the pool holds
      it, it is demanded, and both limits of the policy allow it. */
  lemma {:induction false} BudgetIsMaximal(c: Context, w: Work, content: Content, units: nat)
    requires Tame(c) && Works(c, w) && content == ContentOf(c, w)
    ensures
      var k := content.correction;
      units <= k.augment <==>
        units <= k.pool && units <= k.demand && units <= c.policy.maxCorrection && WithinBps(c.policy, WholeOf(c), units)
  {
    DecisionBalances(c, w, content);
    AuthorizedExactly(c.policy, WholeOf(c), content.correction.pool, content.correction.demand, units);
  }

  /** The summary's totals, and what they are totals of. */
  ghost predicate Totals(band: nat, plans: seq<Plan>, augments: seq<nat>, k: Correction)
    requires |augments| == |plans|
  {
    && k.pool == Sum(Supplies(plans)) && k.demand == Sum(Demands(plans)) && k.withheld == Sum(Withholdings(plans))
    && k.unsatisfied == Sum(Unmets(band, plans, augments))
    && forall i :: 0 <= i < |plans| ==>
      && (Supplies(plans)[i], Demands(plans)[i], Withholdings(plans)[i]) == (plans[i].reducible, plans[i].demand, plans[i].withheld)
      && Unmets(band, plans, augments)[i] ==
           if plans[i].authority && !plans[i].cooling && plans[i].effectiveDeficit > band then plans[i].effectiveDeficit - augments[i] else 0
  }

  lemma {:induction false} TotalsMean(c: Context, w: Work, content: Content)
    requires Tame(c) && Works(c, w) && content == ContentOf(c, w)
    ensures Totals(c.policy.fairBand, w.plans, w.augments, content.correction)
  {
    forall i | 0 <= i < |w.plans|
      ensures w.augments[i] <= w.plans[i].effectiveDeficit
    {
      GrantsFit(c, w, i);
    }
    SummaryTotals(c, w);
  }

  lemma {:induction false} SummaryTotals(c: Context, w: Work)
    requires |w.augments| == |w.plans| && forall i :: 0 <= i < |w.plans| ==> w.augments[i] <= w.plans[i].effectiveDeficit
    ensures Totals(c.policy.fairBand, w.plans, w.augments, Summary(c, w))
  {
  }

  lemma {:induction false} GrantsFit(c: Context, w: Work, i: nat)
    requires Tame(c) && Works(c, w) && i < |w.plans|
    ensures w.augments[i] <= w.plans[i].demand <= w.plans[i].effectiveDeficit && w.reduces[i] <= w.plans[i].reducible
  {
    PlansContained(c, w.distributed, w.plans);
    BalancedBoundedPlan(c.policy, WholeOf(c), w.plans, w.demandOrder, w.supplyOrder, w.augments, w.reduces);
    assert PlanContained(w.plans[i]);
  }

  /** Why no more was authorized: the unit limit alone stopped it, or the basis-point
      limit, below everything else, did; whether protection stood in the way of
      demand left unmet; and whether the request had authority at all. */
  lemma {:induction false} FlagsMean(c: Context, w: Work, content: Content)
    requires Tame(c) && Works(c, w) && content == ContentOf(c, w)
    ensures
      var (k, limit) := (content.correction, c.policy.maxCorrection);
      && (k.boundedByTotal <==> limit < k.pool && limit < k.demand && WithinBps(c.policy, WholeOf(c), limit))
      && (k.boundedByBps <==>
            k.augment < k.pool && k.augment < k.demand && k.augment < limit && !WithinBps(c.policy, WholeOf(c), k.augment + 1))
      && (k.blocked <==> k.unsatisfied > 0 && k.withheld > 0 && k.augment < k.demand)
      && (k.authorityMissing <==> !(Named(c) && Fresh(c)))
  {
    DecisionBalances(c, w, content);
    BpsCapExactly(c.policy, WholeOf(c), c.policy.maxCorrection);
    BpsCapExactly(c.policy, WholeOf(c), content.correction.augment + 1);
    EligibleExactly(c);
  }

  // --- The subjects -------------------------------------------------------------------------------

  /** A state shows its subject and its plan, what it was granted and what it still
      lacks; without authority it shows no amount at all. */
  ghost predicate Exhibits(s: Subject, plan: Plan, augment: nat, reduce: nat, band: nat, x: SubjectState) {
    && (x.id, x.generation, x.group, x.authority) == (s.id, s.generation, s.group, plan.authority)
    && (x.served, x.augment, x.reduce) == (plan.served, augment, reduce)
    && (x.deficit, x.surplus, x.deficitAfter, x.surplusAfter) == (plan.deficit, plan.surplus, plan.carry.deficit, plan.carry.surplus)
    && (x.unservedStreak, x.belowFloorStreak) == (plan.unservedStreak, plan.belowFloorStreak)
    && x.unsatisfied == (if plan.effectiveDeficit > band then plan.effectiveDeficit - x.augment else 0)
    && (!x.authority ==>
          x.entitlement == x.baseEntitlement == x.groupEntitlement == x.served == x.unsatisfied == x.augment == x.reduce == 0)
  }

  /** With authority it shows its entitlement under both weightings, and what its
      home group holds. */
  ghost predicate Entitles(p: FairnessPolicy, d: Distribution.Distributed, i: nat, x: SubjectState)
    requires Sized(p, d) && i < |p.subjects|
  {
    && x.entitlement == d.effective.spread.subjects[i] && x.baseEntitlement == d.base.spread.subjects[i]
    && forall g :: 0 <= g < |p.groups| && HomeOf(p.groups, p.subjects[i]) == Some(g) ==>
         x.groupEntitlement == d.effective.spread.groups[g]
  }

  lemma {:induction false} PlanExhibits(policy: FairnessPolicy, s: Subject, plan: Plan, augment: nat, reduce: nat, blocked: bool)
    requires augment <= plan.demand <= plan.effectiveDeficit && reduce <= plan.reducible
    requires !plan.authority ==> plan == Idle(plan.outcome, plan.reason)
    ensures Exhibits(s, plan, augment, reduce, policy.fairBand, StateOf(policy, s, Settle(s, plan, augment, reduce, blocked)))
  {
  }

  lemma {:induction false} PlanEntitles(p: FairnessPolicy, d: Distribution.Distributed, i: nat, plan: Plan, augment: nat, reduce: nat, blocked: bool)
    requires Sized(p, d) && i < |p.subjects| && plan.share == SharesOf(p, d)[i]
    ensures Entitles(p, d, i, StateOf(p, p.subjects[i], Settle(p.subjects[i], plan, augment, reduce, blocked)))
  {
  }

  lemma {:induction false} StateReads(c: Context, w: Work, content: Content, i: nat)
    requires Tame(c) && Works(c, w) && content == ContentOf(c, w) && i < |c.policy.subjects|
    ensures |content.subjects| == |w.plans| == |w.augments| == |w.reduces| == |c.policy.subjects|
    ensures Exhibits(c.policy.subjects[i], w.plans[i], w.augments[i], w.reduces[i], c.policy.fairBand, content.subjects[i])
    ensures content.subjects[i].authority ==>
      && Entitles(c.policy, w.distributed, i, content.subjects[i])
      && w.plans[i].share.entitlement == w.distributed.effective.spread.subjects[i]
      && w.plans[i].share.binding == w.distributed.effective.spread.binding[i]
  {
    var (s, share, blocked) := (c.policy.subjects[i], SharesOf(c.policy, w.distributed)[i], Summary(c, w).blocked);
    GrantsFit(c, w, i);
    PlanReads(c, s, share, w.plans[i]);
    PlanExhibits(c.policy, s, w.plans[i], w.augments[i], w.reduces[i], blocked);
    if w.plans[i].authority {
      PlanEntitles(c.policy, w.distributed, i, w.plans[i], w.augments[i], w.reduces[i], blocked);
    }
  }

  lemma {:induction false} PlanReads(c: Context, s: Subject, share: Share, p: Plan)
    requires Prepared(c, s, share) == Some(p)
    ensures p.authority ==> p.share == share
    ensures !p.authority ==> p == Idle(p.outcome, p.reason)
  {
    PreparedReads(c, s, share, p);
  }

  /** Where guarantees reach all the way down the policy's tree, every subject with
      authority is entitled to at least its floor. */
  lemma {:induction false} EntitlementsHonourFloors(c: Context, w: Work, content: Content, i: nat)
    requires Sound(c) && Decides(c, w, content) && Siblings.FloorsDeclared(c.policy, WholeOf(c))
    requires i < |c.policy.subjects| <= |content.subjects| && content.subjects[i].authority
    ensures content.subjects[i].entitlement >= c.policy.subjects[i].floor
  {
    SoundIsTame(c);
    StateReads(c, w, content, i);
    Siblings.EveryFloorReached(c.policy, true, w.distributed.effective.spread, WholeOf(c));
  }

  // --- The verdicts ---------------------------------------------------------------------------------

  /** The plan is blocked, the subject demands units, and it lacks more than its own
      cap explains. */
  ghost predicate HeldBack(s: Subject, p: Plan, augment: nat, blocked: bool) {
    blocked && p.authority && p.demand > 0 && augment < p.effectiveDeficit && augment < s.maxAugment
  }

  /** When each outcome is given. */
  ghost predicate Rules(policy: FairnessPolicy, s: Subject, p: Plan, blocked: bool, x: SubjectState) {
    var owed := p.authority && !p.starving && p.effectiveDeficit > policy.fairBand;
    var held := HeldBack(s, p, x.augment, blocked);
    && (!p.authority <==> x.outcome in {Unknown, Stale})
    && (x.outcome == Fair <==> p.authority && !p.starving && p.effectiveDeficit <= policy.fairBand && p.surplus <= policy.fairBand)
    && (x.outcome == OverServed <==> p.authority && !p.starving && p.effectiveDeficit <= policy.fairBand < p.surplus)
    && (x.outcome == StarvationRisk <==> p.authority && p.starving && !held)
    && (x.outcome == BlockedByStrongerObligation <==> held && (p.starving || owed))
    && (x.outcome == CorrectionRequired <==> owed && !held && x.augment > 0 && p.effectiveDeficit >= policy.correctionThreshold)
    && (x.outcome == UnderServed <==> owed && !held && (x.augment == 0 || p.effectiveDeficit < policy.correctionThreshold))
  }

  /** The reason given with each outcome. */
  ghost predicate Explains(s: Subject, p: Plan, x: SubjectState) {
    && (x.outcome in {Unknown, Stale} ==> (x.outcome, x.reason) == (p.outcome, p.reason))
    && (x.outcome == StarvationRisk ==> x.reason == p.reason)
    && (x.outcome == Fair ==> x.reason == WithinFairBand)
    && (x.outcome == BlockedByStrongerObligation ==> x.reason == ProtectedObligationHeld)
    && (x.outcome == OverServed ==> x.reason == if p.share.binding then GuaranteeFloorSurplus else WeightedShareSurplus)
    && (x.outcome in {CorrectionRequired, UnderServed} ==>
          if x.augment > 0 then x.reason == if p.share.binding then GuaranteeFloorDeficit else WeightedShareDeficit
          else x.reason == NothingGained(s, p))
  }

  lemma {:induction false} PlanIsRuled(policy: FairnessPolicy, s: Subject, p: Plan, augment: nat, reduce: nat, blocked: bool)
    requires augment <= p.demand <= p.effectiveDeficit && (!p.authority ==> p.outcome in {Unknown, Stale})
    ensures Rules(policy, s, p, blocked, StateOf(policy, s, Settle(s, p, augment, reduce, blocked)))
    ensures Explains(s, p, StateOf(policy, s, Settle(s, p, augment, reduce, blocked)))
  {
    var settled := Settle(s, p, augment, reduce, blocked);
    BlockedMeans(s, p, augment, reduce, blocked);
    VerdictMeans(policy, s, settled);
    ReasonMeans(policy, s, settled);
  }

  /** Every subject's outcome and reason follow from its plan, its grant, and whether
      the whole plan was blocked. */
  lemma {:induction false} VerdictReads(c: Context, w: Work, content: Content, i: nat)
    requires Tame(c) && Works(c, w) && content == ContentOf(c, w) && i < |c.policy.subjects|
    ensures |content.subjects| == |w.plans| == |c.policy.subjects|
    ensures Rules(c.policy, c.policy.subjects[i], w.plans[i], content.correction.blocked, content.subjects[i])
    ensures Explains(c.policy.subjects[i], w.plans[i], content.subjects[i])
  {
    var (s, share) := (c.policy.subjects[i], SharesOf(c.policy, w.distributed)[i]);
    GrantsFit(c, w, i);
    PreparedReads(c, s, share, w.plans[i]);
    PlanIsRuled(c.policy, s, w.plans[i], w.augments[i], w.reduces[i], Summary(c, w).blocked);
  }

  /** The decision's outcome is the gravest of its subjects'. */
  lemma {:induction false} PopulationOutcome(c: Context, w: Work, content: Content, o: Outcome)
    requires Works(c, w) && content == ContentOf(c, w)
    ensures content.outcome == o <==>
      && (o == Fair || exists i :: 0 <= i < |content.subjects| && content.subjects[i].outcome == o)
      && (forall i :: 0 <= i < |content.subjects| ==> content.subjects[i].outcome !in Graver(o))
  {
    WorstIs(content.subjects, o);
  }

  // --- The intents -------------------------------------------------------------------------------------

  /** The plans as the intents quote them: granted, and marked where held back. */
  ghost function Final(c: Context, w: Work, i: nat): Plan
    requires i < |c.policy.subjects| == |w.plans| == |w.augments| == |w.reduces|
  {
    var (s, p) := (c.policy.subjects[i], w.plans[i]);
    p.(augment := w.augments[i], reduce := w.reduces[i], blocked := HeldBack(s, p, w.augments[i], Summary(c, w).blocked))
  }

  /** One intent for each subject granted anything, saying what its plan says. */
  ghost predicate ProposesEach(c: Context, w: Work, direction: Direction, granted: seq<nat>, intents: seq<Intent>, who: seq<nat>)
    requires |c.policy.subjects| == |w.plans| == |w.augments| == |w.reduces| == |granted|
  {
    && |intents| == |who| && InRange(who, |w.plans|) && Distinct(who)
    && (forall k :: 0 <= k < |who| ==> Says(c, direction, who[k], Final(c, w, who[k]), intents[k]))
    && (forall i: nat :: i < |w.plans| ==> (i in who <==> granted[i] > 0))
  }

  /** First the subjects that gain, in the order they were granted, then those that
      give, in theirs. */
  ghost predicate Proposes(c: Context, w: Work, intents: seq<Intent>, gains: seq<nat>, gives: seq<nat>)
    requires |c.policy.subjects| == |w.plans| == |w.augments| == |w.reduces|
  {
    && |gains| <= |intents| && ProposesEach(c, w, Augment, w.augments, intents[..|gains|], gains)
    && ProposesEach(c, w, Reduce, w.reduces, intents[|gains|..], gives)
    && (forall k, l :: 0 <= k < l < |gains| ==> !AsksBefore(c.policy.subjects, w.plans, gains[l], gains[k]))
    && (forall k, l :: 0 <= k < l < |gives| ==> !GivesBefore(c.policy.subjects, w.plans, gives[l], gives[k]))
  }

  /** The indices an order has at increasing places. */
  ghost predicate Picked(order: seq<nat>, slots: seq<nat>, who: seq<nat>) {
    && |who| == |slots|
    && (forall k :: 0 <= k < |slots| ==> slots[k] < |order| && who[k] == order[slots[k]])
    && (forall k, l :: 0 <= k < l < |slots| ==> slots[k] < slots[l])
  }

  /** Whom the intents of one direction are for. */
  ghost predicate ForWhom(c: Context, direction: Direction, plans: seq<Plan>, order: seq<nat>, intents: seq<Intent>, who: seq<nat>)
    requires |plans| == |c.policy.subjects|
  {
    && |who| == |intents| && InRange(who, |plans|)
    && (forall k :: 0 <= k < |who| ==> Says(c, direction, who[k], plans[who[k]], intents[k]))
    && (forall i: nat :: i < |plans| && i in order && Units(direction, plans[i]) > 0 ==> i in who)
  }

  lemma {:induction false} SlotsTell(c: Context, direction: Direction, plans: seq<Plan>, order: seq<nat>, intents: seq<Intent>,
                                     slots: seq<nat>, who: seq<nat>)
    requires |plans| == |c.policy.subjects| && InRange(order, |plans|)
    requires ListsAlong(c, direction, plans, order, intents, slots) && Picked(order, slots, who)
    ensures ForWhom(c, direction, plans, order, intents, who)
  {
    forall i: nat | i < |plans| && i in order && Units(direction, plans[i]) > 0
      ensures i in who
    {
      var q :| 0 <= q < |order| && order[q] == i;
      assert q in slots;
      var k :| 0 <= k < |slots| && slots[k] == q;
      assert who[k] == i;
    }
  }

  lemma {:induction false} WhoIsListed(c: Context, direction: Direction, plans: seq<Plan>, order: seq<nat>, start: u64)
    returns (slots: seq<nat>, who: seq<nat>)
    requires |plans| == |c.policy.subjects| && InRange(order, |plans|) && Distinct(order)
    ensures Picked(order, slots, who) && Distinct(who)
    ensures ForWhom(c, direction, plans, order, IntentsAlong(c, direction, plans, order, start), who)
  {
    slots := IntentsSay(c, direction, plans, order, start);
    who := PickAt(order, slots);
    SlotsTell(c, direction, plans, order, IntentsAlong(c, direction, plans, order, start), slots, who);
  }

  lemma {:induction false} PickAt(order: seq<nat>, slots: seq<nat>) returns (who: seq<nat>)
    requires InRange(slots, |order|) && Distinct(order) && forall k, l :: 0 <= k < l < |slots| ==> slots[k] < slots[l]
    ensures Picked(order, slots, who) && Distinct(who)
  {
    who := seq(|slots|, k requires 0 <= k < |slots| => order[slots[k]]);
  }

  lemma {:induction false} GainsInOrder(subjects: seq<Subject>, plans: seq<Plan>, order: seq<nat>, slots: seq<nat>, who: seq<nat>)
    requires |subjects| == |plans| && SortedBy(DemandKeys(subjects, plans), order) && Picked(order, slots, who) && InRange(who, |plans|)
    ensures forall k, l :: 0 <= k < l < |who| ==> !AsksBefore(subjects, plans, who[l], who[k])
  {
    forall k, l | 0 <= k < l < |who|
      ensures !AsksBefore(subjects, plans, who[l], who[k])
    {
      assert !Less(DemandKeys(subjects, plans)[order[slots[l]]], DemandKeys(subjects, plans)[order[slots[k]]]);
    }
  }

  lemma {:induction false} GivesInOrder(subjects: seq<Subject>, plans: seq<Plan>, order: seq<nat>, slots: seq<nat>, who: seq<nat>)
    requires |subjects| == |plans| && SortedBy(SupplyKeys(subjects, plans), order) && Picked(order, slots, who) && InRange(who, |plans|)
    ensures forall k, l :: 0 <= k < l < |who| ==> !GivesBefore(subjects, plans, who[l], who[k])
  {
    forall k, l | 0 <= k < l < |who|
      ensures !GivesBefore(subjects, plans, who[l], who[k])
    {
      assert !Less(SupplyKeys(subjects, plans)[order[slots[l]]], SupplyKeys(subjects, plans)[order[slots[k]]]);
    }
  }

  lemma {:induction false} FinalIs(c: Context, w: Work, i: nat)
    requires Tame(c) && Works(c, w) && i < |w.plans|
    ensures |c.policy.subjects| == |w.plans| && FinalPlans(c, w)[i] == Final(c, w, i)
  {
    GrantsFit(c, w, i);
    BlockedMeans(c.policy.subjects[i], w.plans[i], w.augments[i], w.reduces[i], Summary(c, w).blocked);
  }

  lemma {:induction false} IntentsCounted(c: Context, w: Work, plans: seq<Plan>, k: nat)
    requires |plans| == |c.policy.subjects| && InRange(w.demandOrder, |plans|) && InRange(w.supplyOrder, |plans|)
    requires k < |IntentsOf(c, w, plans)|
    ensures IntentsOf(c, w, plans)[k].generation == Min(c.accounting.interventionGeneration + k + 1, U64_END - 1)
  {
    var start := c.accounting.interventionGeneration;
    var n := |IntentsAlong(c, Augment, plans, w.demandOrder, start)|;
    if k < n {
      IntentsNumbered(c, Augment, plans, w.demandOrder, start, k);
    } else {
      IntentsNumbered(c, Reduce, plans, w.supplyOrder, Advanced(start, n), k - n);
    }
  }

  lemma {:induction false} FinalsAre(c: Context, w: Work)
    requires Tame(c) && Works(c, w)
    ensures |c.policy.subjects| == |w.plans| && forall i :: 0 <= i < |w.plans| ==> FinalPlans(c, w)[i] == Final(c, w, i)
  {
    forall i | 0 <= i < |w.plans|
      ensures FinalPlans(c, w)[i] == Final(c, w, i)
    {
      FinalIs(c, w, i);
    }
  }

  /** Quoting the final plans, an order that lists all who were granted anything
      lists exactly them. */
  lemma {:induction false} QuotesFinal(c: Context, w: Work, direction: Direction, plans: seq<Plan>, order: seq<nat>, granted: seq<nat>,
                                       intents: seq<Intent>, who: seq<nat>)
    requires |c.policy.subjects| == |w.plans| == |w.augments| == |w.reduces| == |plans|
    requires granted == (if direction.Augment? then w.augments else w.reduces)
    requires forall i :: 0 <= i < |plans| ==> plans[i] == Final(c, w, i)
    requires forall i :: 0 <= i < |plans| && granted[i] > 0 ==> i in order
    requires ForWhom(c, direction, plans, order, intents, who) && Distinct(who)
    ensures ProposesEach(c, w, direction, granted, intents, who)
  {
    forall i: nat | i < |plans|
      ensures i in who <==> granted[i] > 0
    {
      GrantQuoted(c, w, direction, plans, granted, i);
      if i in who {
        var k :| 0 <= k < |who| && who[k] == i;
        assert Says(c, direction, who[k], plans[who[k]], intents[k]);
      }
    }
  }

  lemma {:induction false} GrantQuoted(c: Context, w: Work, direction: Direction, plans: seq<Plan>, granted: seq<nat>, i: nat)
    requires |c.policy.subjects| == |w.plans| == |w.augments| == |w.reduces| == |plans| && i < |plans|
    requires granted == (if direction.Augment? then w.augments else w.reduces) && plans[i] == Final(c, w, i)
    ensures Units(direction, plans[i]) == granted[i]
  {
  }

  lemma {:induction false} DirectionReads(c: Context, w: Work, direction: Direction, plans: seq<Plan>, order: seq<nat>, granted: seq<nat>, start: u64)
    returns (slots: seq<nat>, who: seq<nat>)
    requires |c.policy.subjects| == |w.plans| == |w.augments| == |w.reduces| == |plans|
    requires granted == (if direction.Augment? then w.augments else w.reduces)
    requires forall i :: 0 <= i < |plans| ==> plans[i] == Final(c, w, i)
    requires InRange(order, |plans|) && Distinct(order) && forall i :: 0 <= i < |plans| && granted[i] > 0 ==> i in order
    ensures Picked(order, slots, who)
    ensures ProposesEach(c, w, direction, granted, IntentsAlong(c, direction, plans, order, start), who)
  {
    slots, who := WhoIsListed(c, direction, plans, order, start);
    QuotesFinal(c, w, direction, plans, order, granted, IntentsAlong(c, direction, plans, order, start), who);
  }

  /** The intents of a decision: one for every subject that gains or gives, saying
      what it was granted and why. */
  lemma {:induction false} IntentsRead(c: Context, w: Work, content: Content) returns (gains: seq<nat>, gives: seq<nat>)
    requires Tame(c) && Works(c, w) && content == ContentOf(c, w)
    ensures |c.policy.subjects| == |w.plans| && Proposes(c, w, content.intents, gains, gives)
  {
    var (plans, start) := (FinalPlans(c, w), c.accounting.interventionGeneration);
    GrantsOnlyListed(c, w);
    FinalsAre(c, w);
    var slots;
    slots, gains := DirectionReads(c, w, Augment, plans, w.demandOrder, w.augments, start);
    GainsInOrder(c.policy.subjects, w.plans, w.demandOrder, slots, gains);
    slots, gives := DirectionReads(c, w, Reduce, plans, w.supplyOrder, w.reduces, Advanced(start, |gains|));
    GivesInOrder(c.policy.subjects, w.plans, w.supplyOrder, slots, gives);
  }

  /** And they are numbered on from the last committed generation. */
  lemma {:induction false} IntentsAreNumbered(c: Context, w: Work, content: Content, k: nat)
    requires Tame(c) && Works(c, w) && content == ContentOf(c, w) && k < |content.intents|
    ensures content.intents[k].generation == Min(c.accounting.interventionGeneration + k + 1, U64_END - 1)
  {
    GrantsOnlyListed(c, w);
    IntentsCounted(c, w, FinalPlans(c, w), k);
  }
}
