// The last third of an evaluation: outcomes, corrective intents, and the decision
// they make up.

module Verdicts {
  import opened Core
  import opened Bytes
  import opened Digest
  import opened Sums
  import opened Policy
  import opened Accounting
  import opened Decision
  import opened Planner

  // --- Outcomes ---------------------------------------------------------------------------------

  /** The plan with its grants, and whether protection explains what it lacks. */
  function Settle(s: Subject, p: Plan, augment: nat, reduce: nat, blocked: bool): Plan {
    p.(augment := augment, reduce := reduce,
       blocked := blocked && p.authority && p.demand > 0
                  && Monus(p.effectiveDeficit, augment) > Monus(p.effectiveDeficit, s.maxAugment))
  }

  function DeficitVerdict(policy: FairnessPolicy, s: Subject, p: Plan): (Outcome, Reason) {
    if p.blocked then (BlockedByStrongerObligation, ProtectedObligationHeld)
    else if p.augment > 0 then
      (if p.effectiveDeficit >= policy.correctionThreshold then CorrectionRequired else UnderServed,
       if p.share.binding then GuaranteeFloorDeficit else WeightedShareDeficit)
    else
      (UnderServed,
       if p.cooling then CorrectiveCooldown
       else if s.maxAugment == 0 then PolicyBoundReached
       else if p.effectiveDeficit > p.demand then SubjectCapReached
       else CorrectiveBudgetExhausted)
  }

  function Verdict(policy: FairnessPolicy, s: Subject, p: Plan): (Outcome, Reason) {
    if !p.authority then (p.outcome, p.reason)
    else if p.starving then
      if p.blocked then (BlockedByStrongerObligation, ProtectedObligationHeld) else (StarvationRisk, p.reason)
    else if p.effectiveDeficit > policy.fairBand then DeficitVerdict(policy, s, p)
    else if p.surplus > policy.fairBand then
      (OverServed, if p.share.binding then GuaranteeFloorSurplus else WeightedShareSurplus)
    else (Fair, WithinFairBand)
  }

  /** When each outcome is given: UNKNOWN and STALE exactly without authority; a
      starving subject is at risk or blocked; one owed more than the band is
      blocked, or needs correction when it gains and what it is owed reaches the
      threshold, or else is under-served; the rest are over-served or fair. */
  lemma {:induction false} VerdictMeans(policy: FairnessPolicy, s: Subject, p: Plan)
    requires !p.authority ==> p.outcome in {Unknown, Stale}
    ensures
      var outcome := Verdict(policy, s, p).0;
      var owed := p.authority && !p.starving && p.effectiveDeficit > policy.fairBand;
      && (outcome in {Unknown, Stale} <==> !p.authority)
      && (!p.authority ==> outcome == p.outcome)
      && (outcome == Fair <==> p.authority && !p.starving && p.effectiveDeficit <= policy.fairBand && p.surplus <= policy.fairBand)
      && (outcome == OverServed <==> p.authority && !p.starving && p.effectiveDeficit <= policy.fairBand < p.surplus)
      && (outcome == BlockedByStrongerObligation <==> p.authority && p.blocked && (p.starving || owed))
      && (outcome == StarvationRisk <==> p.authority && p.starving && !p.blocked)
      && (outcome == CorrectionRequired <==>
            owed && !p.blocked && p.augment > 0 && p.effectiveDeficit >= policy.correctionThreshold)
      && (outcome == UnderServed <==>
            owed && !p.blocked && (p.augment == 0 || p.effectiveDeficit < policy.correctionThreshold))
  {
  }

  /** A subject that is owed units and gains none is told why: it cools down, may
      not gain, is held by its cap, or the budget ran out before it. */
  function NothingGained(s: Subject, p: Plan): Reason {
    if p.cooling then CorrectiveCooldown
    else if s.maxAugment == 0 then PolicyBoundReached
    else if p.demand < p.effectiveDeficit then SubjectCapReached
    else CorrectiveBudgetExhausted
  }

  /** The reason given with each outcome. */
  lemma {:induction false} ReasonMeans(policy: FairnessPolicy, s: Subject, p: Plan)
    requires !p.authority ==> p.outcome in {Unknown, Stale}
    ensures
      var (outcome, reason) := Verdict(policy, s, p);
      && (outcome in {Unknown, Stale, StarvationRisk} ==> reason == p.reason)
      && (outcome == Fair ==> reason == WithinFairBand)
      && (outcome == BlockedByStrongerObligation ==> reason == ProtectedObligationHeld)
      && (outcome == OverServed ==> reason == if p.share.binding then GuaranteeFloorSurplus else WeightedShareSurplus)
      && (outcome in {CorrectionRequired, UnderServed} ==>
            reason == if p.augment > 0 then (if p.share.binding then GuaranteeFloorDeficit else WeightedShareDeficit)
                      else NothingGained(s, p))
  {
    VerdictMeans(policy, s, p);
  }

  /** A subject is blocked exactly when the plan is, it demands units, and it lacks
      more than its own cap explains. */
  lemma {:induction false} BlockedMeans(s: Subject, p: Plan, augment: nat, reduce: nat, blocked: bool)
    requires augment <= p.effectiveDeficit
    ensures Settle(s, p, augment, reduce, blocked).blocked <==>
      blocked && p.authority && p.demand > 0 && augment < p.effectiveDeficit && augment < s.maxAugment
  {
  }

  function StateOf(policy: FairnessPolicy, s: Subject, p: Plan): SubjectState {
    var (outcome, reason) := Verdict(policy, s, p);
    SubjectState(s.id, s.generation, s.group, outcome, reason, p.authority,
      p.share.groupEntitlement, p.share.entitlement, p.share.base, p.served,
      p.deficit, p.surplus, p.carry.deficit, p.carry.surplus, p.unservedStreak, p.belowFloorStreak,
      p.augment, p.reduce,
      if p.effectiveDeficit > policy.fairBand then Monus(p.effectiveDeficit, p.augment) else 0)
  }

  method SettleAll(policy: FairnessPolicy, plans: seq<Plan>, augments: seq<nat>, reduces: seq<nat>, blocked: bool)
    returns (settled: seq<Plan>)
    requires |plans| == |augments| == |reduces| == |policy.subjects|
    ensures settled == Settled(policy, plans, augments, reduces, blocked)
  {
    settled := plans;
    for i := 0 to |plans|
      invariant |settled| == |plans|
      invariant forall k :: 0 <= k < i ==> settled[k] == Settle(policy.subjects[k], plans[k], augments[k], reduces[k], blocked)
      invariant forall k :: i <= k < |plans| ==> settled[k] == plans[k]
    {
      settled := settled[i := Settle(policy.subjects[i], plans[i], augments[i], reduces[i], blocked)];
    }
  }

  function Settled(policy: FairnessPolicy, plans: seq<Plan>, augments: seq<nat>, reduces: seq<nat>, blocked: bool): (s: seq<Plan>)
    requires |plans| == |augments| == |reduces| == |policy.subjects|
    ensures |s| == |plans|
  {
    seq(|plans|, i requires 0 <= i < |plans| => Settle(policy.subjects[i], plans[i], augments[i], reduces[i], blocked))
  }

  function States(policy: FairnessPolicy, plans: seq<Plan>): (s: seq<SubjectState>)
    requires |plans| == |policy.subjects|
    ensures |s| == |plans|
  {
    seq(|plans|, i requires 0 <= i < |plans| => StateOf(policy, policy.subjects[i], plans[i]))
  }

  method Materialize(policy: FairnessPolicy, plans: seq<Plan>) returns (states: seq<SubjectState>)
    requires |plans| == |policy.subjects|
    ensures states == States(policy, plans)
  {
    states := [];
    for i := 0 to |plans|
      invariant |states| == i && states == States(policy, plans)[..i]
    {
      states := states + [StateOf(policy, policy.subjects[i], plans[i])];
    }
  }

  /** The population's outcome is its worst subject's. */
  function Worst(states: seq<SubjectState>): (o: Outcome)
    ensures forall i :: 0 <= i < |states| ==> Severity(states[i].outcome) <= Severity(o)
    ensures o == Fair || exists i :: 0 <= i < |states| && states[i].outcome == o
  {
    if states == [] then Fair
    else
      var front, last := Worst(states[..|states| - 1]), states[|states| - 1].outcome;
      assert Severity(front) == 0 ==> front == Fair;
      if Severity(last) > Severity(front) then last else front
  }

  method Aggregate(states: seq<SubjectState>) returns (o: Outcome)
    ensures o == Worst(states)
  {
    o := Fair;
    for i := 0 to |states|
      invariant o == Worst(states[..i])
    {
      assert states[..i + 1][..i] == states[..i];
      if Severity(states[i].outcome) > Severity(o) {
        o := states[i].outcome;
      }
    }
    assert states[..|states|] == states;
  }

  /** The outcomes graver than one, gravest last named. */
  function Graver(o: Outcome): set<Outcome> {
    match o
    case Stale => {}
    case Unknown => {Stale}
    case BlockedByStrongerObligation => {Stale, Unknown}
    case CorrectionRequired => {Stale, Unknown, BlockedByStrongerObligation}
    case StarvationRisk => {Stale, Unknown, BlockedByStrongerObligation, CorrectionRequired}
    case UnderServed => {Stale, Unknown, BlockedByStrongerObligation, CorrectionRequired, StarvationRisk}
    case OverServed => {Stale, Unknown, BlockedByStrongerObligation, CorrectionRequired, StarvationRisk, UnderServed}
    case Fair => {Stale, Unknown, BlockedByStrongerObligation, CorrectionRequired, StarvationRisk, UnderServed, OverServed}
  }

  /** An outcome stands for the population exactly when some subject has it and none
      a graver one; a population without subjects is fair. */
  lemma {:induction false} WorstIs(states: seq<SubjectState>, o: Outcome)
    ensures Worst(states) == o <==>
      && (o == Fair || exists i :: 0 <= i < |states| && states[i].outcome == o)
      && (forall i :: 0 <= i < |states| ==> states[i].outcome !in Graver(o))
  {
    forall x: Outcome
      ensures x in Graver(o) <==> Severity(x) > Severity(o)
    {
    }
    assert Severity(Worst(states)) == Severity(o) ==> Worst(states) == o;
  }

  // --- Intents ----------------------------------------------------------------------------------

  function InterventionBytes(window: u64, subject: u64, direction: Direction, attempt: u32): seq<byte> {
    Le(window, 8) + Le(subject, 8) + [direction.Code()] + Le(attempt, 4)
  }

  /** Identity of an intent: never zero. */
  function InterventionId(window: u64, subject: u64, direction: Direction, attempt: u32): (id: nat)
    ensures id > 0
  {
    var digest := Checksum(InterventionBytes(window, subject, direction, attempt));
    if digest == 0 then 1 else digest
  }

  /** The two directions of one subject's correction never share an identity, but
      for the one value that stands in for zero. */
  lemma {:induction false} OppositeIntentsDiffer(window: u64, subject: u64, attempt: u32)
    ensures InterventionId(window, subject, Augment, attempt) == InterventionId(window, subject, Reduce, attempt) ==>
      InterventionId(window, subject, Augment, attempt) == 1
  {
    var (augment, reduce) :=
      (InterventionBytes(window, subject, Augment, attempt), InterventionBytes(window, subject, Reduce, attempt));
    assert augment[16] == 0 && reduce == augment[16 := 1];
    SingleByteChangesDigest(OFFSET_BASIS, augment, 16, 1);
  }

  /** An identity is drawn from the window, the subject, the direction and the
      attempt, and from nothing less: different ones give different bytes. */
  lemma {:induction false} IdentityTells(window: u64, subject: u64, direction: Direction, attempt: u32,
                                         window': u64, subject': u64, direction': Direction, attempt': u32)
    ensures InterventionBytes(window, subject, direction, attempt) == InterventionBytes(window', subject', direction', attempt') ==>
      (window, subject, direction, attempt) == (window', subject', direction', attempt')
  {
    var (x, y) := (InterventionBytes(window, subject, direction, attempt), InterventionBytes(window', subject', direction', attempt'));
    if x == y {
      assert Le(window, 8) == x[..8] && Le(window', 8) == y[..8];
      assert Le(subject, 8) == x[8..16] && Le(subject', 8) == y[8..16];
      assert x[16] == direction.Code() && y[16] == direction'.Code();
      assert Le(attempt, 4) == x[17..] && Le(attempt', 4) == y[17..];
      WidthsInBytes();
      LeInjective(window, window', 8);
      LeInjective(subject, subject', 8);
      LeInjective(attempt, attempt', 4);
    }
  }

  /** A generation advanced n times; it saturates instead of wrapping. */
  function Advanced(generation: u64, n: nat): u64 {
    if generation + n < U64_END then generation + n else U64_END - 1
  }

  function Next(generation: u64): u64 {
    if generation == U64_END - 1 then generation else generation + 1
  }

  function Units(direction: Direction, p: Plan): nat {
    if direction.Augment? then p.augment else p.reduce
  }

  function BoundOf(direction: Direction, p: Plan): Bound {
    if direction.Augment? then (if p.augment < p.demand then BudgetExhausted else DemandSatisfied)
    else if p.reduce < p.reducible then BudgetExhausted
    else if p.reduce == p.reducible then (if p.withheld > 0 then Bound.ProtectedObligation else DemandSatisfied)
    else PolicyTotalBudget
  }

  function IntentFor(c: Context, direction: Direction, i: nat, p: Plan, generation: u64): Intent
    requires i < |c.policy.subjects|
  {
    var s := c.policy.subjects[i];
    Intent(InterventionId(c.request.window, s.id, direction, c.request.attempt), generation, direction,
      s.id, s.generation, s.group, Units(direction, p), BoundOf(direction, p),
      if direction.Augment? then Verdict(c.policy, s, p).1 else WeightedShareSurplus,
      direction.Augment? && p.starving, s.isProtected, s.rank)
  }

  /** One intent per subject along the order that moves anything. */
  function IntentsAlong(c: Context, direction: Direction, plans: seq<Plan>, order: seq<nat>, start: u64): (s: seq<Intent>)
    requires |plans| == |c.policy.subjects| && InRange(order, |plans|)
    ensures |s| <= |order|
  {
    if order == [] then []
    else
      var front := IntentsAlong(c, direction, plans, order[..|order| - 1], start);
      var i := order[|order| - 1];
      if Units(direction, plans[i]) == 0 then front
      else front + [IntentFor(c, direction, i, plans[i], Advanced(start, |front| + 1))]
  }

  method EmitIntents(c: Context, direction: Direction, plans: seq<Plan>, order: seq<nat>, start: u64, before: seq<Intent>)
    returns (intents: seq<Intent>, generation: u64)
    requires |plans| == |c.policy.subjects| && InRange(order, |plans|) && |before| + |order| <= MAX_INTENTS
    ensures intents == before + IntentsAlong(c, direction, plans, order, start)
    ensures generation == Advanced(start, |IntentsAlong(c, direction, plans, order, start)|)
  {
    intents, generation := before, start;
    for k := 0 to |order|
      invariant intents == before + IntentsAlong(c, direction, plans, order[..k], start)
      invariant generation == Advanced(start, |IntentsAlong(c, direction, plans, order[..k], start)|)
    {
      assert order[..k + 1][..k] == order[..k];
      var p := plans[order[k]];
      if Units(direction, p) != 0 {
        if |intents| >= MAX_INTENTS {
          assert false;
        }
        generation := Next(generation);
        intents := intents + [IntentFor(c, direction, order[k], p, generation)];
      }
    }
    assert order[..|order|] == order;
  }

  /** Intents are numbered on from the last committed generation, each one further
      until the counter saturates. */
  lemma {:induction false} IntentsNumbered(c: Context, direction: Direction, plans: seq<Plan>, order: seq<nat>, start: u64, k: nat)
    requires |plans| == |c.policy.subjects| && InRange(order, |plans|)
    requires k < |IntentsAlong(c, direction, plans, order, start)|
    ensures IntentsAlong(c, direction, plans, order, start)[k].generation == Advanced(start, k + 1)
    ensures IntentsAlong(c, direction, plans, order, start)[k].units > 0
    decreases |order|
  {
    var front := IntentsAlong(c, direction, plans, order[..|order| - 1], start);
    if k < |front| {
      IntentsNumbered(c, direction, plans, order[..|order| - 1], start, k);
    }
  }

  /** What an intent says of the subject it is for: whom it moves units to or from,
      how many, on what grounds, and what bounded it. */
  ghost predicate Says(c: Context, direction: Direction, i: nat, p: Plan, x: Intent)
    requires i < |c.policy.subjects|
  {
    var s := c.policy.subjects[i];
    && x.direction == direction && (x.subject, x.subjectGeneration, x.group) == (s.id, s.generation, s.group)
    && (x.fromProtected, x.rank) == (s.isProtected, s.rank)
    && x.id == InterventionId(c.request.window, s.id, direction, c.request.attempt)
    && (if direction.Augment? then SaysGain(c.policy, s, p, x) else SaysGivesUp(p, x))
  }

  ghost predicate SaysGain(policy: FairnessPolicy, s: Subject, p: Plan, x: Intent) {
    && x.units == p.augment > 0 && x.fromStarvation == p.starving && x.reason == Verdict(policy, s, p).1
    && (x.bound == BudgetExhausted <==> p.augment < p.demand) && (x.bound == DemandSatisfied <==> p.augment >= p.demand)
  }

  ghost predicate SaysGivesUp(p: Plan, x: Intent) {
    && x.units == p.reduce > 0 && !x.fromStarvation && x.reason == WeightedShareSurplus
    && (x.bound == BudgetExhausted <==> p.reduce < p.reducible)
    && (p.reduce == p.reducible ==> x.bound == if p.withheld > 0 then Bound.ProtectedObligation else DemandSatisfied)
  }

  /** The intents, and the places in the order their subjects have. */
  ghost predicate ListsAlong(c: Context, direction: Direction, plans: seq<Plan>, order: seq<nat>, intents: seq<Intent>, slots: seq<nat>)
    requires |plans| == |c.policy.subjects| && InRange(order, |plans|)
  {
    && |slots| == |intents| && (forall k, l :: 0 <= k < l < |slots| ==> slots[k] < slots[l])
    && (forall k :: 0 <= k < |slots| ==>
        slots[k] < |order| && Says(c, direction, order[slots[k]], plans[order[slots[k]]], intents[k]))
    && (forall q: nat :: q < |order| && Units(direction, plans[order[q]]) > 0 ==> q in slots)
  }

  /** One intent for each subject along the order that moves anything, in order. */
  lemma {:induction false} IntentsSay(c: Context, direction: Direction, plans: seq<Plan>, order: seq<nat>, start: u64) returns (slots: seq<nat>)
    requires |plans| == |c.policy.subjects| && InRange(order, |plans|)
    ensures ListsAlong(c, direction, plans, order, IntentsAlong(c, direction, plans, order, start), slots)
    decreases |order|
  {
    if order == [] {
      slots := [];
    } else {
      var last := |order| - 1;
      var front := IntentsAlong(c, direction, plans, order[..last], start);
      slots := IntentsSay(c, direction, plans, order[..last], start);
      if Units(direction, plans[order[last]]) == 0 {
        PassedOver(c, direction, plans, order, front, slots);
      } else {
        var x := IntentFor(c, direction, order[last], plans[order[last]], Advanced(start, |front| + 1));
        OneMoreListed(c, direction, plans, order, front, slots, x);
        slots := slots + [last];
      }
    }
  }

  lemma {:induction false} PassedOver(c: Context, direction: Direction, plans: seq<Plan>, order: seq<nat>, intents: seq<Intent>, slots: seq<nat>)
    requires |plans| == |c.policy.subjects| && InRange(order, |plans|) && order != []
    requires ListsAlong(c, direction, plans, order[..|order| - 1], intents, slots)
    requires Units(direction, plans[order[|order| - 1]]) == 0
    ensures ListsAlong(c, direction, plans, order, intents, slots)
  {
    var front := order[..|order| - 1];
    forall q: nat | q < |order| && Units(direction, plans[order[q]]) > 0
      ensures q in slots
    {
      assert front[q] == order[q];
    }
  }

  lemma {:induction false} OneMoreListed(c: Context, direction: Direction, plans: seq<Plan>, order: seq<nat>, intents: seq<Intent>, slots: seq<nat>,
                                         x: Intent)
    requires |plans| == |c.policy.subjects| && InRange(order, |plans|) && order != []
    requires ListsAlong(c, direction, plans, order[..|order| - 1], intents, slots)
    requires Says(c, direction, order[|order| - 1], plans[order[|order| - 1]], x)
    ensures ListsAlong(c, direction, plans, order, intents + [x], slots + [|order| - 1])
  {
    var (last, front, all) := (|order| - 1, order[..|order| - 1], slots + [|order| - 1]);
    forall q: nat | q < |order| && Units(direction, plans[order[q]]) > 0
      ensures q in all
    {
      if q < last {
        assert front[q] == order[q];
        assert q in slots;
      } else {
        assert all[|slots|] == q;
      }
    }
  }

  lemma {:induction false} NoUnitsNoIntents(c: Context, direction: Direction, plans: seq<Plan>, order: seq<nat>, start: u64)
    requires |plans| == |c.policy.subjects| && InRange(order, |plans|)
    requires forall i :: 0 <= i < |plans| ==> Units(direction, plans[i]) == 0
    ensures IntentsAlong(c, direction, plans, order, start) == []
    decreases |order|
  {
    if order != [] {
      NoUnitsNoIntents(c, direction, plans, order[..|order| - 1], start);
    }
  }

  /** What the intents of one direction add up to. */
  function UnitsOf(intents: seq<Intent>, direction: Direction): (s: seq<nat>)
    ensures |s| == |intents|
  {
    seq(|intents|, k requires 0 <= k < |intents| => if intents[k].direction == direction then intents[k].units else 0)
  }

  function UnitsEach(plans: seq<Plan>, direction: Direction): (s: seq<nat>)
    ensures |s| == |plans|
  {
    seq(|plans|, i requires 0 <= i < |plans| => Units(direction, plans[i]))
  }

  lemma {:induction false} IntentTotal(c: Context, direction: Direction, plans: seq<Plan>, order: seq<nat>, start: u64)
    requires |plans| == |c.policy.subjects| && InRange(order, |plans|)
    ensures Sum(UnitsOf(IntentsAlong(c, direction, plans, order, start), direction)) == Sum(Gather(UnitsEach(plans, direction), order))
    ensures forall k :: 0 <= k < |IntentsAlong(c, direction, plans, order, start)| ==>
      IntentsAlong(c, direction, plans, order, start)[k].direction == direction
    decreases |order|
  {
    if order != [] {
      var k := |order| - 1;
      IntentTotal(c, direction, plans, order[..k], start);
      UnitsAlong(UnitsEach(plans, direction), order);
      if Units(direction, plans[order[k]]) != 0 {
        var earlier := IntentsAlong(c, direction, plans, order[..k], start);
        AppendUnits(earlier, IntentFor(c, direction, order[k], plans[order[k]], Advanced(start, |earlier| + 1)));
      }
    }
  }

  lemma {:induction false} UnitsAlong(units: seq<nat>, order: seq<nat>)
    requires InRange(order, |units|) && order != []
    ensures Sum(Gather(units, order)) == Sum(Gather(units, order[..|order| - 1])) + units[order[|order| - 1]]
  {
    var k := |order| - 1;
    GatherStep(units, order, k);
    assert order[..k + 1] == order;
    SumConcat(Gather(units, order[..k]), [units[order[k]]]);
  }

  lemma {:induction false} AppendUnits(intents: seq<Intent>, x: Intent)
    ensures Sum(UnitsOf(intents + [x], x.direction)) == Sum(UnitsOf(intents, x.direction)) + x.units
  {
    SumConcat(UnitsOf(intents, x.direction), [x.units]);
    assert UnitsOf(intents + [x], x.direction) == UnitsOf(intents, x.direction) + [x.units];
  }

  lemma {:induction false} UnitsOfBoth(a: seq<Intent>, b: seq<Intent>, direction: Direction)
    requires forall k :: 0 <= k < |b| ==> b[k].direction != direction
    ensures Sum(UnitsOf(a + b, direction)) == Sum(UnitsOf(a, direction))
    ensures Sum(UnitsOf(b + a, direction)) == Sum(UnitsOf(a, direction))
  {
    SumOfZeros(UnitsOf(b, direction));
    SumConcat(UnitsOf(a, direction), UnitsOf(b, direction));
    SumConcat(UnitsOf(b, direction), UnitsOf(a, direction));
    assert UnitsOf(a + b, direction) == UnitsOf(a, direction) + UnitsOf(b, direction);
    assert UnitsOf(b + a, direction) == UnitsOf(b, direction) + UnitsOf(a, direction);
  }

  /** Augmenting intents carry exactly the augmented units, reducing intents
      exactly the reduced ones. */
  lemma {:induction false} IntentsMatchPlan(c: Context, plans: seq<Plan>, demandOrder: seq<nat>, supplyOrder: seq<nat>, start: u64, middle: u64)
    requires |plans| == |c.policy.subjects|
    requires InRange(demandOrder, |plans|) && Distinct(demandOrder) && InRange(supplyOrder, |plans|) && Distinct(supplyOrder)
    requires forall i :: 0 <= i < |plans| && plans[i].augment > 0 ==> i in demandOrder
    requires forall i :: 0 <= i < |plans| && plans[i].reduce > 0 ==> i in supplyOrder
    ensures
      var intents := IntentsAlong(c, Augment, plans, demandOrder, start) + IntentsAlong(c, Reduce, plans, supplyOrder, middle);
      && Sum(UnitsOf(intents, Augment)) == Sum(UnitsEach(plans, Augment))
      && Sum(UnitsOf(intents, Reduce)) == Sum(UnitsEach(plans, Reduce))
  {
    var a := IntentsAlong(c, Augment, plans, demandOrder, start);
    var b := IntentsAlong(c, Reduce, plans, supplyOrder, middle);
    IntentTotal(c, Augment, plans, demandOrder, start);
    IntentTotal(c, Reduce, plans, supplyOrder, middle);
    UnitsOfBoth(a, b, Augment);
    UnitsOfBoth(b, a, Reduce);
    SumWhereListed(UnitsEach(plans, Augment), demandOrder);
    SumWhereListed(UnitsEach(plans, Reduce), supplyOrder);
  }
}
