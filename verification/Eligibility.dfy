// Whether a request's evidence carries authority, for the population and for
// each subject.

module Eligibility {
  import opened Core
  import opened Policy
  import opened Accounting
  import opened Evidence
  import opened Decision

  datatype Failure = Failure(outcome: Outcome, reason: Reason)

  /** The first reason the request as a whole has no evidence authority. */
  function Ineligibility(c: Context): Option<Failure> {
    var r := c.request;
    if r.policyId != c.policy.id || r.policyGeneration != c.policy.generation then Some(Failure(Stale, PolicyMismatch))
    else if c.epoch == 0 || c.policy.epoch != c.epoch || r.epoch != c.epoch then Some(Failure(Stale, EvidenceStaleEpoch))
    else if c.evidence.None? then Some(Failure(Unknown, EvidenceAbsent))
    else if c.evidence.value.id != r.evidenceId || c.evidence.value.generation != r.evidenceGeneration then
      Some(Failure(Stale, EvidenceStaleGeneration))
    else if c.evidence.value.epoch != c.epoch then Some(Failure(Stale, EvidenceStaleEpoch))
    else if c.evidence.value.window != r.window || c.evidence.value.windowGeneration != r.windowGeneration then
      Some(Failure(Stale, EvidenceStaleWindow))
    else if c.lastWindow != 0 && r.window != 0 && r.window <= c.lastWindow then Some(Failure(Stale, EvidenceStaleWindow))
    else if c.currentWindow != 0 && r.window != 0 && r.window > c.currentWindow then Some(Failure(Stale, EvidenceStaleWindow))
    else if c.currentWindow != 0 && r.window != 0 && c.currentWindow - r.window > c.policy.maxAgeWindows then
      Some(Failure(Stale, EvidenceStaleAge))
    else if c.policy.maxAgeNs > 0 && c.evidence.value.capturedAt > r.now then Some(Failure(Stale, EvidenceStaleAge))
    else if c.policy.maxAgeNs > 0 && r.now - c.evidence.value.capturedAt > c.policy.maxAgeNs then
      Some(Failure(Stale, EvidenceStaleAge))
    else None
  }

  /** The evidence the request names, for the window it names, in one epoch. */
  ghost predicate Named(c: Context) {
    var r := c.request;
    && (r.policyId, r.policyGeneration) == (c.policy.id, c.policy.generation)
    && c.epoch != 0 && c.policy.epoch == r.epoch == c.epoch
    && c.evidence.Some?
    && var e := c.evidence.value;
       && e.epoch == c.epoch
       && (e.id, e.generation, e.window, e.windowGeneration) == (r.evidenceId, r.evidenceGeneration, r.window, r.windowGeneration)
  }

  /** Neither committed already, nor ahead of what was seen, nor too old. */
  ghost predicate Fresh(c: Context)
    requires c.evidence.Some?
  {
    var (w, captured) := (c.request.window, c.evidence.value.capturedAt);
    && (w != 0 && c.lastWindow != 0 ==> c.lastWindow < w)
    && (w != 0 && c.currentWindow != 0 ==> w <= c.currentWindow <= w + c.policy.maxAgeWindows)
    && (c.policy.maxAgeNs > 0 ==> 0 <= c.request.now - captured <= c.policy.maxAgeNs)
  }

  /** A request is eligible exactly when its evidence is named and fresh. */
  lemma {:induction false} EligibleExactly(c: Context)
    ensures Ineligibility(c).None? <==> Named(c) && Fresh(c)
    ensures Ineligibility(c).Some? ==> Ineligibility(c).value.outcome in {Stale, Unknown}
    ensures Ineligibility(c).Some? && Ineligibility(c).value.outcome == Unknown ==> c.evidence.None?
  {
    if Ineligibility(c).None? {
      assert Named(c) && Fresh(c);
    }
  }

  ghost predicate PolicyNamed(c: Context) {
    c.request.policyId == c.policy.id && c.request.policyGeneration == c.policy.generation
  }

  ghost predicate EpochsAgree(c: Context) {
    c.epoch != 0 && c.policy.epoch == c.epoch && c.request.epoch == c.epoch
  }

  /** An ineligible request is told what is amiss first: its policy, the epoch, that
      there is no evidence, the evidence's identity, its epoch, its window, a window
      committed or ahead, and last its age. */
  lemma {:induction false} IneligibleBecause(c: Context)
    requires Ineligibility(c).Some?
    ensures
      var (because, r) := (Ineligibility(c).value.reason, c.request);
      && (Ineligibility(c).value.outcome == Unknown <==> because == EvidenceAbsent)
      && (because == PolicyMismatch <==> !PolicyNamed(c))
      && (PolicyNamed(c) && !EpochsAgree(c) ==> because == EvidenceStaleEpoch)
      && (because == EvidenceAbsent <==> PolicyNamed(c) && EpochsAgree(c) && c.evidence.None?)
      && (PolicyNamed(c) && EpochsAgree(c) && c.evidence.Some? ==>
            var e := c.evidence.value;
            var identified := (e.id, e.generation) == (r.evidenceId, r.evidenceGeneration);
            && (because == EvidenceStaleGeneration <==> !identified)
            && (because == EvidenceStaleEpoch <==> identified && e.epoch != c.epoch)
            && (because == EvidenceStaleWindow <==>
                identified && e.epoch == c.epoch && ((e.window, e.windowGeneration) != (r.window, r.windowGeneration) || Passed(c)))
            && (because == EvidenceStaleAge <==> Named(c) && !Passed(c)))
  {
  }

  /** The window was committed already, or lies ahead of every window seen. */
  ghost predicate Passed(c: Context) {
    var w := c.request.window;
    w != 0 && ((c.lastWindow != 0 && w <= c.lastWindow) || (c.currentWindow != 0 && w > c.currentWindow))
  }

  // --- One subject's authority ----------------------------------------------------------

  /** The first accounting entry of a subject. */
  function FindEntry(entries: seq<SubjectAccounting>, id: u64): (r: Option<SubjectAccounting>)
    ensures r.Some? ==> r.value in entries && r.value.id == id
    ensures r.None? ==> forall i :: 0 <= i < |entries| ==> entries[i].id != id
  {
    if entries == [] then None
    else if entries[0].id == id then Some(entries[0])
    else FindEntry(entries[1..], id)
  }

  /** The carry a window is applied to; a subject never seen starts empty. */
  function EntryOrNew(entries: seq<SubjectAccounting>, id: u64): SubjectAccounting {
    match FindEntry(entries, id)
    case Some(e) => e
    case None => NEW_ENTRY
  }

  const NEW_ENTRY := SubjectAccounting(0, 0, EMPTY_CARRY, 0, 0, 0, 0, 0, 0)

  datatype Standing = Unheard(outcome: Outcome, reason: Reason) | Heard(observation: Observation)

  function StandingOf(c: Context, s: Subject): Standing
    requires c.evidence.Some?
  {
    match Find(c.evidence.value.observations, s.id)
    case None => Unheard(if c.request.missingIsUnknown then Unknown else Stale, EvidenceAbsent)
    case Some(o) =>
      if o.generation != s.generation then Unheard(Stale, SubjectGenerationMismatch)
      else if s.priority.Present() && o.priority != s.priority then Unheard(Stale, PriorityReferenceMismatch)
      else if s.qos.Present() && o.qos != s.qos then Unheard(Stale, PriorityReferenceMismatch)
      else
        match FindEntry(c.accounting.subjects, s.id)
        case Some(e) => if e.generation != s.generation then Unheard(Stale, SubjectGenerationMismatch) else Heard(o)
        case None => Heard(o)
  }

  /** Observed, and every generation in agreement. */
  ghost predicate Recognised(c: Context, s: Subject)
    requires c.evidence.Some?
  {
    && Find(c.evidence.value.observations, s.id).Some?
    && var o := Find(c.evidence.value.observations, s.id).value;
       && o.generation == s.generation
       && (s.priority.Present() ==> o.priority == s.priority)
       && (s.qos.Present() ==> o.qos == s.qos)
       && (FindEntry(c.accounting.subjects, s.id).Some? ==> FindEntry(c.accounting.subjects, s.id).value.generation == s.generation)
  }

  lemma {:induction false} HeardExactly(c: Context, s: Subject)
    requires c.evidence.Some?
    ensures StandingOf(c, s).Heard? <==> Recognised(c, s)
    ensures StandingOf(c, s).Heard? ==> Some(StandingOf(c, s).observation) == Find(c.evidence.value.observations, s.id)
    ensures StandingOf(c, s).Unheard? ==> StandingOf(c, s).outcome in {Stale, Unknown}
  {
  }
}
