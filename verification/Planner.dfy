// The per-subject half of an evaluation: what each subject is owed or over, how
// long it has waited, and how much it may gain or give up.

module Planner {
  import opened Core
  import opened Sums
  import opened Policy
  import opened Accounting
  import opened Evidence
  import opened Decision
  import opened Eligibility

  /** What the two distribution passes assign to a subject. */
  datatype Share = Share(entitlement: nat, base: nat, binding: bool, groupEntitlement: nat)

  datatype Plan = Plan(
    authority: bool, outcome: Outcome, reason: Reason, served: nat, share: Share,
    deficit: nat, effectiveDeficit: nat, surplus: nat, unservedStreak: nat, belowFloorStreak: nat,
    starving: bool, cooling: bool, demand: nat, reducible: nat, withheld: nat,
    augment: nat, reduce: nat, blocked: bool, carry: Carry)

  const NO_SHARE := Share(0, 0, false, 0)

  /** A plan without authority: nothing is known, so nothing is proposed. */
  function Idle(outcome: Outcome, reason: Reason): Plan {
    Plan(false, outcome, reason, 0, NO_SHARE, 0, 0, 0, 0, 0, false, false, 0, 0, 0, 0, 0, false, EMPTY_CARRY)
  }

  function Bumped(streak: nat): nat {
    if streak >= MAX_STREAK then MAX_STREAK else streak + 1
  }

  // --- The stages -------------------------------------------------------------------------

  /** Who has authority, and what was observed of it. */
  function Judged(c: Context, s: Subject): Plan {
    match Ineligibility(c)
    case Some(f) =>
      Idle(if f.outcome == Unknown && c.request.missingIsUnknown then Unknown else Stale, f.reason)
    case None =>
      match StandingOf(c, s)
      case Unheard(outcome, reason) => Idle(outcome, reason)
      case Heard(o) => Idle(Fair, WithinFairBand).(authority := true, served := o.served)
  }

  function CarriedDeficit(c: Context, s: Subject): nat {
    match FindEntry(c.accounting.subjects, s.id)
    case None => 0
    case Some(e) => Min(e.carry.deficit, c.policy.maxCarry)
  }

  /** The carry this window would leave. */
  function CarryAhead(c: Context, s: Subject, net: int): Option<Carry> {
    Applied(EntryOrNew(c.accounting.subjects, s.id).carry, net, c.policy.maxCarry)
  }

  /** Deficit, surplus, streaks and the carry ahead. */
  function Measured(c: Context, s: Subject, share: Share, p: Plan): Option<Plan> {
    if !p.authority then Some(p)
    else
      var entry := EntryOrNew(c.accounting.subjects, s.id);
      var effective := Monus(share.entitlement, p.served) + CarriedDeficit(c, s);
      var carry := CarryAhead(c, s, share.entitlement - p.served);
      if effective >= U64_END || carry.None? then None
      else
        Some(p.(share := share,
                deficit := Monus(share.entitlement, p.served), surplus := Monus(p.served, share.entitlement),
                effectiveDeficit := effective, carry := carry.value,
                unservedStreak := if p.served == 0 then Bumped(entry.unservedStreak) else 0,
                belowFloorStreak := if s.floor > 0 && p.served < s.floor then Bumped(entry.belowFloorStreak) else 0))
  }

  /** The governor trusts the longer of its own streaks and the producer's. */
  function Watched(c: Context, s: Subject, p: Plan): Plan {
    if !p.authority || c.evidence.None? || Find(c.evidence.value.observations, s.id).None? then p
    else
      var o := Find(c.evidence.value.observations, s.id).value;
      var unserved := Max(p.unservedStreak, o.unservedStreak);
      var below := Max(p.belowFloorStreak, o.belowFloorStreak);
      var unservedStarving := s.starvationWindows > 0 && unserved >= s.starvationWindows;
      var floorStarving := s.guaranteeStarvationWindows > 0 && s.floor > 0 && below >= s.guaranteeStarvationWindows;
      p.(unservedStreak := unserved, belowFloorStreak := below, starving := unservedStarving || floorStarving,
         reason := if unservedStarving then StarvationUnserved else if floorStarving then StarvationBelowFloor else p.reason)
  }

  function Cooling(c: Context, s: Subject, p: Plan): bool {
    match FindEntry(c.accounting.subjects, s.id)
    case None => false
    case Some(e) =>
      && c.policy.cooldownWindows > 0 && e.lastCorrectionWindow != 0 && c.request.window != 0
      && c.request.window >= e.lastCorrectionWindow
      && c.request.window - e.lastCorrectionWindow < c.policy.cooldownWindows
      && !p.starving
  }

  /** What may be taken back: the surplus, within the subject's cap. */
  function ReduceCap(s: Subject, p: Plan): nat {
    Min(p.surplus, s.maxReduce)
  }

  /** A protected subject is never taken below its floor. */
  function Reducible(s: Subject, p: Plan): nat {
    if s.isProtected then Min(ReduceCap(s, p), Monus(p.served, s.floor)) else ReduceCap(s, p)
  }

  /** Demand, supply, and what protection holds back. */
  function Limited(c: Context, s: Subject, p: Plan): Plan {
    if !p.authority then p
    else
      var cooling := Cooling(c, s, p);
      p.(cooling := cooling,
         demand := if p.effectiveDeficit > c.policy.fairBand && !cooling
                   then Min(Min(p.effectiveDeficit, s.maxAugment), MAX_SERVICE_UNITS) else 0,
         reducible := Reducible(s, p),
         withheld := ReduceCap(s, p) - Reducible(s, p))
  }

  /** All stages of one subject. */
  function Prepared(c: Context, s: Subject, share: Share): Option<Plan> {
    match Measured(c, s, share, Judged(c, s))
    case None => None
    case Some(p) => Some(Limited(c, s, Watched(c, s, p)))
  }

  // --- The stages as the loops that run them ----------------------------------------------

  method JudgeAll(c: Context) returns (plans: seq<Plan>)
    ensures |plans| == |c.policy.subjects|
    ensures forall i :: 0 <= i < |plans| ==> plans[i] == Judged(c, c.policy.subjects[i])
  {
    plans := [];
    for i := 0 to |c.policy.subjects|
      invariant |plans| == i
      invariant forall k :: 0 <= k < i ==> plans[k] == Judged(c, c.policy.subjects[k])
    {
      plans := plans + [Judged(c, c.policy.subjects[i])];
    }
  }

  /** A share and a served total the signed arithmetic is safe for. */
  ghost predicate Measurable(p: Plan, share: Share) {
    p.served <= MAX_WHOLE && share.entitlement <= MAX_WHOLE
  }

  const MAX_WHOLE: nat := MAX_SUBJECTS * MAX_SERVICE_UNITS

  method Measure(c: Context, s: Subject, share: Share, p: Plan) returns (r: Option<Plan>)
    requires Measurable(p, share)
    ensures r == Measured(c, s, share, p)
  {
    if !p.authority {
      return Some(p);
    }
    var entry := EntryOrNew(c.accounting.subjects, s.id);
    var deficit := Monus(share.entitlement, p.served);
    var effective := deficit + CarriedDeficit(c, s);
    if effective >= U64_END {
      return None;
    }
    var carry := ApplyWindowCarry(entry.carry, share.entitlement - p.served, c.policy.maxCarry);
    if carry.None? {
      return None;
    }
    r := Some(p.(share := share, deficit := deficit, surplus := Monus(p.served, share.entitlement),
                 effectiveDeficit := effective, carry := carry.value.carry,
                 unservedStreak := if p.served == 0 then Bumped(entry.unservedStreak) else 0,
                 belowFloorStreak := if s.floor > 0 && p.served < s.floor then Bumped(entry.belowFloorStreak) else 0));
  }

  /** The subject's stages, one loop after the other; stops where a carry
      overflows its counters. */
  method PrepareAll(c: Context, shares: seq<Share>, judged: seq<Plan>) returns (r: Option<seq<Plan>>)
    requires |shares| == |judged| == |c.policy.subjects|
    requires forall i :: 0 <= i < |judged| ==> judged[i] == Judged(c, c.policy.subjects[i]) && Measurable(judged[i], shares[i])
    ensures r.Some? <==> forall i :: 0 <= i < |shares| ==> Prepared(c, c.policy.subjects[i], shares[i]).Some?
    ensures r.Some? ==> IsPrepared(c, shares, r.value)
  {
    var subjects := c.policy.subjects;
    var plans := judged;
    for i := 0 to |plans|
      invariant |plans| == |judged|
      invariant forall k :: 0 <= k < i ==> Some(plans[k]) == Measured(c, subjects[k], shares[k], judged[k])
      invariant forall k :: i <= k < |plans| ==> plans[k] == judged[k]
    {
      var measured := Measure(c, subjects[i], shares[i], plans[i]);
      if measured.None? {
        assert Prepared(c, subjects[i], shares[i]).None?;
        return None;
      }
      plans := plans[i := measured.value];
    }
    ghost var measured := plans;
    for i := 0 to |plans|
      invariant |plans| == |judged|
      invariant forall k :: 0 <= k < i ==> plans[k] == Watched(c, subjects[k], measured[k])
      invariant forall k :: i <= k < |plans| ==> plans[k] == measured[k]
    {
      plans := plans[i := Watched(c, subjects[i], plans[i])];
    }
    ghost var watched := plans;
    for i := 0 to |plans|
      invariant |plans| == |judged|
      invariant forall k :: 0 <= k < i ==> plans[k] == Limited(c, subjects[k], watched[k])
      invariant forall k :: i <= k < |plans| ==> plans[k] == watched[k]
    {
      plans := plans[i := Limited(c, subjects[i], plans[i])];
    }
    r := Some(plans);
    forall i | 0 <= i < |shares|
      ensures Prepared(c, subjects[i], shares[i]) == Some(plans[i])
    {
    }
  }

  ghost predicate IsPrepared(c: Context, shares: seq<Share>, plans: seq<Plan>) {
    && |plans| == |shares| == |c.policy.subjects|
    && forall i :: 0 <= i < |plans| ==> Prepared(c, c.policy.subjects[i], shares[i]) == Some(plans[i])
  }

  // --- What one subject's plan guarantees ---------------------------------------------------

  /** Without authority nothing is measured and nothing proposed. */
  lemma {:induction false} NoAuthorityNoPlan(c: Context, s: Subject, share: Share)
    requires !Judged(c, s).authority
    ensures Prepared(c, s, share) == Some(Judged(c, s))
    ensures Judged(c, s).outcome in {Unknown, Stale}
    ensures Judged(c, s) == Idle(Judged(c, s).outcome, Judged(c, s).reason)
  {
    if Ineligibility(c).None? {
      EligibleExactly(c);
      HeardExactly(c, s);
    }
  }

  /** Authority means exactly: the request is eligible and the subject recognised. */
  lemma {:induction false} AuthorityExactly(c: Context, s: Subject)
    ensures Judged(c, s).authority <==> Named(c) && Fresh(c) && Recognised(c, s)
    ensures Judged(c, s).authority ==> c.evidence.Some? && Find(c.evidence.value.observations, s.id).Some?
    ensures Judged(c, s).authority ==> Judged(c, s).served == Find(c.evidence.value.observations, s.id).value.served
  {
    EligibleExactly(c);
    if Ineligibility(c).None? {
      HeardExactly(c, s);
    }
  }

  /** Nothing is amiss but that nothing was observed: of anyone, or of the subject. */
  ghost predicate Missing(c: Context, s: Subject) {
    && PolicyNamed(c) && EpochsAgree(c)
    && (c.evidence.None? || (Named(c) && Fresh(c) && Find(c.evidence.value.observations, s.id).None?))
  }

  /** Without authority a subject is unknown exactly when nothing is amiss but the
      observation's absence and the request wants that told apart; else it is stale. */
  lemma {:induction false} UnknownExactly(c: Context, s: Subject)
    requires !Judged(c, s).authority
    ensures Judged(c, s).outcome == if Missing(c, s) && c.request.missingIsUnknown then Unknown else Stale
    ensures Missing(c, s) ==> Judged(c, s).reason == EvidenceAbsent
  {
    EligibleExactly(c);
    if Ineligibility(c).Some? {
      IneligibleBecause(c);
    }
  }

  /** An eligible request's subject that was observed but has no authority is told
      which agreement failed first. */
  lemma {:induction false} UnrecognisedBecause(c: Context, s: Subject)
    requires Named(c) && Fresh(c) && Find(c.evidence.value.observations, s.id).Some? && !Judged(c, s).authority
    ensures
      var o := Find(c.evidence.value.observations, s.id).value;
      var referred := (s.priority.id != 0 ==> o.priority == s.priority) && (s.qos.id != 0 ==> o.qos == s.qos);
      Judged(c, s).reason == if o.generation == s.generation && !referred then PriorityReferenceMismatch else SubjectGenerationMismatch
  {
    EligibleExactly(c);
  }

  /** The caps on what a subject may gain or give up. */
  ghost predicate WithinSubjectBounds(s: Subject, band: nat, p: Plan) {
    && p.demand <= s.maxAugment && p.demand <= p.effectiveDeficit && p.demand <= MAX_SERVICE_UNITS
    && (p.demand > 0 ==> p.effectiveDeficit > band && !p.cooling)
    && p.reducible <= s.maxReduce
    && (p.reducible > 0 ==> p.served - p.reducible >= p.share.entitlement)
    && (p.reducible > 0 && s.isProtected ==> p.served - p.reducible >= s.floor)
    && p.reducible + p.withheld == Min(p.surplus, s.maxReduce)
    && (p.withheld > 0 ==> s.isProtected)
  }

  lemma {:induction false} PreparedWithinBounds(c: Context, s: Subject, share: Share)
    requires Prepared(c, s, share).Some?
    ensures WithinSubjectBounds(s, c.policy.fairBand, Prepared(c, s, share).value)
  {
    if !Judged(c, s).authority {
      NoAuthorityNoPlan(c, s, share);
    }
  }

  ghost predicate SameNumbers(a: Plan, b: Plan) {
    && a.authority == b.authority && a.share == b.share && a.served == b.served && a.deficit == b.deficit
    && a.surplus == b.surplus && a.effectiveDeficit == b.effectiveDeficit && a.carry == b.carry
  }

  /** The later stages leave the numbers alone. */
  lemma {:induction false} LaterStagesKeepNumbers(c: Context, s: Subject, m: Plan)
    ensures SameNumbers(m, Limited(c, s, Watched(c, s, m)))
  {
    assert SameNumbers(m, Watched(c, s, m));
  }

  lemma {:induction false} MeasuredNumbers(c: Context, s: Subject, share: Share, judged: Plan, m: Plan)
    requires Measured(c, s, share, judged) == Some(m) && judged.authority
    ensures m.authority && m.share == share && m.served == judged.served
    ensures m.deficit - m.surplus == share.entitlement - m.served && (m.deficit == 0 || m.surplus == 0)
    ensures m.effectiveDeficit == m.deficit + CarriedDeficit(c, s)
    ensures Some(m.carry) == CarryAhead(c, s, share.entitlement - m.served)
  {
  }

  /** Entitlement less service is deficit less surplus, and at most one of the
      two; the carry ahead is the recorded carry after exactly that net. */
  lemma {:induction false} PreparedNumbers(c: Context, s: Subject, share: Share, p: Plan)
    requires Prepared(c, s, share) == Some(p) && Judged(c, s).authority
    ensures p.authority && p.share == share && p.served == Judged(c, s).served
    ensures p.deficit - p.surplus == share.entitlement - p.served && (p.deficit == 0 || p.surplus == 0)
    ensures p.effectiveDeficit == p.deficit + CarriedDeficit(c, s)
    ensures Some(p.carry) == CarryAhead(c, s, share.entitlement - p.served)
  {
    var m := Measured(c, s, share, Judged(c, s)).value;
    MeasuredNumbers(c, s, share, Judged(c, s), m);
    LaterStagesKeepNumbers(c, s, m);
  }

  /** What is owed is this window's deficit and the recorded one, as far as the
      policy lets a carry count; a subject never recorded is owed nothing more. */
  lemma {:induction false} OwedExactly(c: Context, s: Subject, share: Share)
    requires Prepared(c, s, share).Some? && Judged(c, s).authority
    ensures
      var p := Prepared(c, s, share).value;
      && p.effectiveDeficit == p.deficit + Min(EntryOrNew(c.accounting.subjects, s.id).carry.deficit, c.policy.maxCarry)
  {
    PreparedNumbers(c, s, share, Prepared(c, s, share).value);
  }

  /** Each streak is the longer of the producer's and the governor's own, which
      grows by one while the cause lasts, up to the bound, and else restarts; and a
      subject starves exactly when one of them reaches a limit it was given. */
  lemma {:induction false} StarvingExactly(c: Context, s: Subject, share: Share)
    requires Prepared(c, s, share).Some? && Judged(c, s).authority
    ensures c.evidence.Some? && Find(c.evidence.value.observations, s.id).Some?
    ensures
      var p := Prepared(c, s, share).value;
      var (o, entry) := (Find(c.evidence.value.observations, s.id).value, EntryOrNew(c.accounting.subjects, s.id));
      && p.unservedStreak == Max(o.unservedStreak, if o.served == 0 then Min(entry.unservedStreak + 1, MAX_STREAK) else 0)
      && p.belowFloorStreak == Max(o.belowFloorStreak, if o.served < s.floor then Min(entry.belowFloorStreak + 1, MAX_STREAK) else 0)
      && (p.starving <==>
          || (s.starvationWindows > 0 && p.unservedStreak >= s.starvationWindows)
          || (s.guaranteeStarvationWindows > 0 && s.floor > 0 && p.belowFloorStreak >= s.guaranteeStarvationWindows))
      && (p.starving && s.starvationWindows > 0 && p.unservedStreak >= s.starvationWindows ==> p.reason == StarvationUnserved)
      && (p.starving && !(s.starvationWindows > 0 && p.unservedStreak >= s.starvationWindows) ==> p.reason == StarvationBelowFloor)
  {
    AuthorityExactly(c, s);
    HeardExactly(c, s);
  }

  /** A subject cools down exactly while its last recorded correction lies fewer
      windows back than the policy's cooldown, unless it starves. */
  lemma {:induction false} CoolingExactly(c: Context, s: Subject, share: Share)
    requires Prepared(c, s, share).Some? && Judged(c, s).authority
    ensures
      var (p, last) := (Prepared(c, s, share).value, EntryOrNew(c.accounting.subjects, s.id).lastCorrectionWindow);
      p.cooling <==> !p.starving && last != 0 && last <= c.request.window < last + c.policy.cooldownWindows
  {
    AuthorityExactly(c, s);
  }

  /** A unit is demanded exactly when the subject is owed more than the band allows,
      does not cool down, and neither what it is owed nor its own cap nor the global
      one is passed. */
  lemma {:induction false} DemandExactly(c: Context, s: Subject, share: Share, units: nat)
    requires Prepared(c, s, share).Some? && Judged(c, s).authority && units > 0
    ensures
      var p := Prepared(c, s, share).value;
      units <= p.demand <==>
        && p.effectiveDeficit > c.policy.fairBand && !p.cooling
        && units <= p.effectiveDeficit && units <= s.maxAugment && units <= MAX_SERVICE_UNITS
  {
    AuthorityExactly(c, s);
  }

  /** A unit may be taken back exactly when it is surplus, within the subject's cap,
      and leaves a protected subject its floor; what protection alone keeps is
      withheld. */
  lemma {:induction false} ReducibleExactly(c: Context, s: Subject, share: Share, units: nat)
    requires Prepared(c, s, share).Some? && Judged(c, s).authority && units > 0
    ensures
      var p := Prepared(c, s, share).value;
      && (units <= p.reducible <==>
            units <= p.surplus && units <= s.maxReduce && (s.isProtected ==> p.served - units >= s.floor))
      && (units <= p.reducible + p.withheld <==> units <= p.surplus && units <= s.maxReduce)
  {
    AuthorityExactly(c, s);
  }

  /** Bounded accounting leaves room for any window of the bounded domain. */
  ghost predicate Roomy(entries: seq<SubjectAccounting>) {
    forall i :: 0 <= i < |entries| ==>
      && entries[i].carry.deficit <= MAX_CARRY_UNITS && entries[i].carry.surplus <= MAX_CARRY_UNITS
      && entries[i].carry.discardedDeficit < U64_END / 2 && entries[i].carry.discardedSurplus < U64_END / 2
  }

  lemma {:induction false} RoomyPrepares(c: Context, s: Subject, share: Share)
    requires Roomy(c.accounting.subjects) && c.policy.maxCarry <= MAX_CARRY_UNITS
    requires Measurable(Judged(c, s), share)
    ensures Prepared(c, s, share).Some?
  {
    var entry := EntryOrNew(c.accounting.subjects, s.id);
    WindowNeverOverflows(entry.carry, share.entitlement - Judged(c, s).served, c.policy.maxCarry);
  }

  /** The carry of a subject with authority has no room for the window. */
  ghost predicate NoRoom(c: Context, s: Subject, share: Share) {
    Judged(c, s).authority && CarryAhead(c, s, share.entitlement - Judged(c, s).served).None?
  }

  /** In the bounded domain that is the only way preparing can fail. */
  lemma {:induction false} UnpreparedExactly(c: Context, s: Subject, share: Share)
    requires Measurable(Judged(c, s), share) && c.policy.maxCarry <= MAX_CARRY_UNITS
    ensures Prepared(c, s, share).None? <==> NoRoom(c, s, share)
  {
  }

  /** Streaks stay where the durable record can hold them. */
  lemma {:induction false} StreaksBounded(c: Context, s: Subject, share: Share)
    requires Prepared(c, s, share).Some?
    requires c.evidence.Some? ==> ObservationsSound(c.evidence.value.observations)
    ensures Prepared(c, s, share).value.unservedStreak <= MAX_STREAK
    ensures Prepared(c, s, share).value.belowFloorStreak <= MAX_STREAK
  {
    if !Judged(c, s).authority {
      NoAuthorityNoPlan(c, s, share);
    } else {
      HeardExactly(c, s);
    }
  }

  lemma {:induction false} PreparedReads(c: Context, s: Subject, share: Share, p: Plan)
    requires Prepared(c, s, share) == Some(p)
    ensures p.authority <==> Judged(c, s).authority
    ensures p.served == Judged(c, s).served
    ensures p.authority ==>
      && p.share == share && p.deficit - p.surplus == share.entitlement - p.served && (p.deficit == 0 || p.surplus == 0)
      && p.effectiveDeficit == p.deficit + CarriedDeficit(c, s)
      && CarryAhead(c, s, share.entitlement - p.served) == Some(p.carry)
    ensures !p.authority ==> p.outcome in {Unknown, Stale} && p == Idle(p.outcome, p.reason)
  {
    if Judged(c, s).authority {
      PreparedNumbers(c, s, share, p);
    } else {
      IdleReads(c, s, share, p);
    }
  }

  lemma {:induction false} IdleReads(c: Context, s: Subject, share: Share, p: Plan)
    requires Prepared(c, s, share) == Some(p) && !Judged(c, s).authority
    ensures !p.authority && p.served == Judged(c, s).served && p.outcome in {Unknown, Stale} && p == Idle(p.outcome, p.reason)
  {
    NoAuthorityNoPlan(c, s, share);
  }

  lemma {:induction false} StarvingDemand(c: Context, s: Subject, share: Share, p: Plan)
    requires Prepared(c, s, share) == Some(p) && p.starving && p.effectiveDeficit > c.policy.fairBand
    ensures p.demand == Min(Min(p.effectiveDeficit, s.maxAugment), MAX_SERVICE_UNITS)
  {
    PreparedReads(c, s, share, p);
  }
}
