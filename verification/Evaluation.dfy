// Evaluating against a live governor, and why a decision that commits was
// computed from exactly what it is applied to.

module Evaluation {
  import opened Core
  import opened Sums
  import opened Record
  import opened Policy
  import opened Accounting
  import opened Evidence
  import opened Decision
  import opened Eligibility
  import opened Planner
  import opened Engine
  import opened EngineLaws
  import Distribution
  import opened Commitment
  import CL = CommitmentLaws
  import opened Lifecycle
  import opened Runs
  import opened Fencing
  import opened Room
  import opened Governor

  method FindCurrent(staged: map<nat, Snapshot>, lastWindow: nat) returns (best: nat)
    requires forall w :: w in staged ==> staged[w].window == w
    ensures best == MaxOf(staged.Keys, lastWindow)
  {
    best := lastWindow;
    var keys := staged.Keys;
    while keys != {}
      invariant keys <= staged.Keys && (best == lastWindow || best in staged) && lastWindow <= best
      invariant forall x :: x in staged && x !in keys ==> x <= best
      decreases |keys|
    {
      var w :| w in keys;
      if staged[w].window > best {
        best := w;
      }
      keys := keys - {w};
    }
  }

  lemma {:induction false} ContextSound(s: State, limits: Limits, r: Request)
    requires Consistent(s, limits)
    ensures Sound(ContextOf(s, r))
  {
  }

  /** The decision the live state justifies. Nothing is changed. */
  method Evaluate(g: FairnessGovernor, r: Request) returns (result: Result<FairnessDecision>, ghost w: Work)
    requires g.Valid()
    ensures g.stopping ==> result == Err(ShuttingDown)
    ensures result.Ok? ==>
      && Decides(ContextOf(g.View(), r), w, result.value.content)
      && result.value == FairnessDecision(g.governor, result.value.content, g.digestOf(result.value.content))
    ensures !g.stopping && Roomy(g.accounting.subjects) ==> result.Ok?
    ensures !g.stopping && result.Err? ==> result.status == ArithmeticOverflow && Cramped(ContextOf(g.View(), r), w.distributed)
  {
    if g.stopping {
      result := Err(ShuttingDown);
      w := *;
      return;
    }
    var current := FindCurrent(g.staged, g.accounting.lastWindow);
    assert current in g.staged ==> g.staged[current].window == current;
    var evidence := if r.window in g.staged then Some(g.staged[r.window]) else None;
    var c := Context(g.policy, g.accounting, evidence, r, g.epoch, current, g.accounting.lastWindow);
    ContextSound(g.View(), g.limits, r);
    var content;
    content, w := EvaluateFairness(c);
    result := if content.Err? then Err(content.status) else Ok(FairnessDecision(g.governor, content.value, g.digestOf(content.value)));
  }

  // --- Fencing -------------------------------------------------------------------------------------

  lemma {:induction false} SameLedger(s: State, t: State, r: Request, d: FairnessDecision, digestOf: Content -> u64)
    requires Keyed(s) && Evolves(s, t) && d.content.authority == AuthorityOf(ContextOf(s, r))
    requires CommitOutcome(LedgerOf(t), d, digestOf).Ok?
    ensures t.policy == s.policy && t.accounting.subjects == s.accounting.subjects && t.epoch == s.epoch
    ensures t.accounting.generation == s.accounting.generation
  {
  }

  lemma {:induction false} StatesNamedOnce(c: Context, shares: seq<Share>, w: Work, states: seq<SubjectState>)
    requires Answered(c, shares, w, states) && DistinctSubjectIds(c.policy.subjects)
    ensures CL.NamedOnce(states)
  {
    forall i, j | 0 <= i < j < |states|
      ensures states[i].id != states[j].id
    {
      assert Shows(c.policy.subjects[i], w.plans[i], w.augments[i], w.reduces[i], states[i]);
      assert Shows(c.policy.subjects[j], w.plans[j], w.augments[j], w.reduces[j], states[j]);
    }
  }

  /** However other operations interleave between evaluating and committing: if the
      commit is accepted, policy and carries are those the evaluation read, and
      each authoritative subject's carry becomes the one the decision projected. */
  lemma {:induction false} AcceptedMeansCurrent(s: State, t: State, limits: Limits, r: Request, w: Work, d: FairnessDecision,
                                                digestOf: Content -> u64, i: nat)
    requires Consistent(s, limits) && Evolves(s, t)
    requires Decides(ContextOf(s, r), w, d.content) && CommitOutcome(LedgerOf(t), d, digestOf).Ok?
    requires i < |d.content.subjects| && d.content.subjects[i].authority
    ensures t.policy == s.policy && t.accounting.subjects == s.accounting.subjects
    ensures
      var carry := CL.CarryOf(CommitOutcome(LedgerOf(t), d, digestOf).value.subjects, d.content.subjects[i].id);
      carry.deficit == d.content.subjects[i].deficitAfter && carry.surplus == d.content.subjects[i].surplusAfter
  {
    var c := ContextOf(s, r);
    ContextSound(s, limits, r);
    SoundIsTame(c);
    SameLedger(s, t, r, d, digestOf);
    DecisionAnswers(c, w, d.content);
    EvaluatedIsCommittable(c, w, d.content);
    Projected(c, SharesOf(c.policy, w.distributed), w, d, LedgerOf(t), digestOf, i);
  }

  lemma {:induction false} Projected(c: Context, shares: seq<Share>, w: Work, d: FairnessDecision, l: Ledger, digestOf: Content -> u64, i: nat)
    requires Answered(c, shares, w, d.content.subjects) && DistinctSubjectIds(c.policy.subjects)
    requires l.policy == c.policy && l.accounting.subjects == c.accounting.subjects && CommitOutcome(l, d, digestOf).Ok?
    requires i < |d.content.subjects| && d.content.subjects[i].authority && Modest(d.content.subjects)
    ensures
      var carry := CL.CarryOf(CommitOutcome(l, d, digestOf).value.subjects, d.content.subjects[i].id);
      carry.deficit == d.content.subjects[i].deficitAfter && carry.surplus == d.content.subjects[i].surplusAfter
  {
    var state := d.content.subjects[i];
    assert Shows(c.policy.subjects[i], w.plans[i], w.augments[i], w.reduces[i], state);
    StatesNamedOnce(c, shares, w, d.content.subjects);
    StateNumbers(c, shares, w, d.content.subjects, i);
    ModestIsPlausible(d.content.subjects);
    CL.CommitAppliesNet(l, d, digestOf, i);
    CL.CarryOfFound(c.accounting.subjects, state.id);
  }

  /** The same over a run: what was evaluated before it and is committed after it
      was overtaken by no commit and no policy. */
  lemma {:induction false} FencedOverRun(s: State, u: Setup, evs: seq<Event>, r: Request, w: Work, d: FairnessDecision, i: nat)
    requires Consistent(s, u.limits) && Decides(ContextOf(s, r), w, d.content)
    requires CommitOutcome(LedgerOf(Run(s, u, evs)), d, u.digestOf).Ok?
    requires i < |d.content.subjects| && d.content.subjects[i].authority
    ensures Run(s, u, evs).policy == s.policy && Run(s, u, evs).accounting.subjects == s.accounting.subjects
    ensures
      var carry := CL.CarryOf(CommitOutcome(LedgerOf(Run(s, u, evs)), d, u.digestOf).value.subjects, d.content.subjects[i].id);
      carry.deficit == d.content.subjects[i].deficitAfter && carry.surplus == d.content.subjects[i].surplusAfter
  {
    RunEvolves(s, u, evs);
    AcceptedMeansCurrent(s, Run(s, u, evs), u.limits, r, w, d, u.digestOf, i);
  }

  // --- What a commit of an evaluated decision rests on --------------------------------------------------

  lemma {:induction false} SharesSmall(p: FairnessPolicy, d: Distribution.Distributed, whole: nat)
    requires SharesOut(p, d, whole) && whole <= MAX_WHOLE
    ensures forall k :: 0 <= k < |p.subjects| ==> SharesOf(p, d)[k].entitlement <= MAX_WHOLE
  {
  }

  lemma {:induction false} StateCommittable(c: Context, w: Work, shares: seq<Share>, states: seq<SubjectState>, i: nat)
    requires Tame(c) && Answered(c, shares, w, states) && i < |states|
    requires forall k :: 0 <= k < |shares| ==> shares[k].entitlement <= MAX_WHOLE
    ensures states[i].served <= MAX_WHOLE && states[i].entitlement <= MAX_WHOLE
    ensures states[i].unservedStreak <= MAX_STREAK && states[i].belowFloorStreak <= MAX_STREAK
  {
    var s := c.policy.subjects[i];
    assert Shows(s, w.plans[i], w.augments[i], w.reduces[i], states[i]);
    PreparedReads(c, s, shares[i], w.plans[i]);
    StreaksBounded(c, s, shares[i]);
    ServedBounded(c, i);
  }

  lemma {:induction false} AnsweredIsCommittable(c: Context, w: Work, shares: seq<Share>, states: seq<SubjectState>)
    requires Tame(c) && Answered(c, shares, w, states)
    requires forall k :: 0 <= k < |shares| ==> shares[k].entitlement <= MAX_WHOLE
    ensures Modest(states) && CL.ShortStates(states)
  {
    forall i | 0 <= i < |states|
      ensures states[i].served <= MAX_WHOLE && states[i].entitlement <= MAX_WHOLE
      ensures states[i].unservedStreak <= MAX_STREAK && states[i].belowFloorStreak <= MAX_STREAK
    {
      StateCommittable(c, w, shares, states, i);
    }
  }

  /** An evaluated decision's counts are within what a commit is defined for, and
      its streaks within what the durable record holds. */
  lemma {:induction false} EvaluatedIsCommittable(c: Context, w: Work, content: Content)
    requires Tame(c) && Works(c, w) && content == ContentOf(c, w)
    ensures Modest(content.subjects) && Plausible(content.subjects) && CL.ShortStates(content.subjects)
  {
    DecisionAnswers(c, w, content);
    SharesSmall(c.policy, w.distributed, WholeOf(c));
    AnsweredIsCommittable(c, w, SharesOf(c.policy, w.distributed), content.subjects);
    ModestIsPlausible(content.subjects);
  }

  lemma {:induction false} NetsOfFull(states: seq<SubjectState>)
    requires (forall i :: 0 <= i < |states| ==> states[i].authority) && Modest(states)
    ensures Sum(CL.StateNets(states)) == Sum(Entitled(states)) - Sum(Served(states))
  {
    ModestIsPlausible(states);
    SumLinear(Entitled(states), 1, Served(states), CL.StateNets(states));
  }

  /** A decision with authority over everyone commits a balanced window. */
  lemma {:induction false} FullAuthorityBalances(c: Context, w: Work, content: Content)
    requires Tame(c) && Works(c, w) && content == ContentOf(c, w)
    requires forall i :: 0 <= i < |content.subjects| ==> content.subjects[i].authority
    ensures Sum(CL.StateNets(content.subjects)) == 0
  {
    PopulationBalances(c, w, content);
    EvaluatedIsCommittable(c, w, content);
    NetsOfFull(content.subjects);
  }

  // --- A client asks --------------------------------------------------------------------------------

  /** A decision evaluated in a state is anchored there. */
  lemma {:induction false} EvaluatedIsAnchored(s: State, limits: Limits, r: Request, w: Work, d: FairnessDecision, digestOf: Content -> u64)
    requires Consistent(s, limits) && Decides(ContextOf(s, r), w, d.content)
    ensures Anchored(d, s, digestOf)
  {
    forall t: State | Evolves(s, t) && CommitVerdict(t, d, digestOf).Ok?
      ensures Projects(CommitVerdict(t, d, digestOf).value.subjects, d.content.subjects)
    {
      AcceptedProjects(s, t, limits, r, w, d, digestOf);
    }
  }

  lemma {:induction false} AcceptedProjects(s: State, t: State, limits: Limits, r: Request, w: Work, d: FairnessDecision, digestOf: Content -> u64)
    requires Consistent(s, limits) && Evolves(s, t)
    requires Decides(ContextOf(s, r), w, d.content) && CommitVerdict(t, d, digestOf).Ok?
    ensures Projects(CommitVerdict(t, d, digestOf).value.subjects, d.content.subjects)
  {
    var (after, states) := (CommitVerdict(t, d, digestOf).value.subjects, d.content.subjects);
    forall i | 0 <= i < |states| && states[i].authority
      ensures ProjectsOne(CL.CarryOf(after, states[i].id), states[i])
    {
      AcceptedMeansCurrent(s, t, limits, r, w, d, digestOf, i);
    }
  }

  lemma {:induction false} EvaluatedShort(s: State, limits: Limits, r: Request, w: Work, content: Content)
    requires Consistent(s, limits) && Decides(ContextOf(s, r), w, content)
    ensures Plausible(content.subjects) && CL.ShortStates(content.subjects)
  {
    ContextSound(s, limits, r);
    SoundIsTame(ContextOf(s, r));
    EvaluatedIsCommittable(ContextOf(s, r), w, content);
  }

  /** The decision is this governor's, of just this content, and the one the state
      justifies for the request. */
  ghost predicate DecidedIn(s: State, r: Request, w: Work, d: FairnessDecision, digestOf: Content -> u64) {
    Keyed(s) && d.governor == s.governor && d.digest == digestOf(d.content) && Decides(ContextOf(s, r), w, d.content)
  }

  /** What a client gets: the decision the state justifies, which a commit and a
      record are defined for and which is anchored there; in the bounded domain
      always, until the governor stops. */
  method Consult(g: FairnessGovernor, r: Request) returns (d: Option<FairnessDecision>, ghost w: Work)
    requires g.Valid()
    ensures g.stopping ==> d.None?
    ensures !g.stopping && Roomy(g.accounting.subjects) ==> d.Some?
    ensures d.Some? ==>
      && DecidedIn(g.View(), r, w, d.value, g.digestOf)
      && Plausible(d.value.content.subjects) && CL.ShortStates(d.value.content.subjects)
      && Anchored(d.value, g.View(), g.digestOf)
  {
    var result;
    result, w := Evaluate(g, r);
    if result.Err? {
      return None, w;
    }
    EvaluatedShort(g.View(), g.limits, r, w, result.value.content);
    EvaluatedIsAnchored(g.View(), g.limits, r, w, result.value, g.digestOf);
    d := Some(result.value);
  }
}
