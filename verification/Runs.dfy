// Whole runs: any interleaving of the governor's operations, with any of their
// durable commits failing.

module Runs {
  import opened Core
  import opened Sums
  import opened Policy
  import opened Accounting
  import opened Evidence
  import opened Decision
  import opened Commitment
  import opened CommitmentLaws
  import opened Lifecycle

  datatype Durability = BothDurable | PolicyFailed | AccountingFailed

  datatype Event =
    | Ingest(e: Snapshot)
    | Install(p: FairnessPolicy, how: Durability)
    | MoveEpoch(next: u64, durable: bool)
    | CommitOf(d: FairnessDecision, durable: bool)
    | Stop

  /** The governor's fixed parts. */
  datatype Setup = Setup(limits: Limits, digestOf: Content -> u64)

  /** The decision is committed by this event. */
  predicate Commits(s: State, u: Setup, ev: Event) {
    ev.CommitOf? && ev.durable && CommitVerdict(s, ev.d, u.digestOf).Ok?
  }

  function AfterCommit(s: State, u: Setup, d: FairnessDecision): State
    requires CommitOutcome(LedgerOf(s), d, u.digestOf).Ok?
  {
    s.(accounting := CommitOutcome(LedgerOf(s), d, u.digestOf).value)
  }

  ghost function IngestStep(s: State, limits: Limits, e: Snapshot): State {
    if ValidEvidence(e) then AfterIngest(s, limits, e) else s
  }

  ghost function InstallStep(s: State, p: FairnessPolicy, how: Durability): State {
    if !ValidPolicy(p) || InstallRefusal(s, p) != Okay then s
    else if how.PolicyFailed? then InstallUndone(s, p) else Installed(s, p)
  }

  function EpochStep(s: State, next: u64, durable: bool): State {
    if EpochRefusal(s, next) != Okay then s else if durable then Advanced(s, next) else EpochUndone(s)
  }

  function CommitStep(s: State, d: FairnessDecision, digestOf: Content -> u64, durable: bool): State {
    var verdict := CommitVerdict(s, d, digestOf);
    if durable && verdict.Ok? then s.(accounting := verdict.value) else s
  }

  function StopStep(s: State): State {
    if s.stopping then s else WithoutEvidence(s).(stopping := true)
  }

  /** One operation. Refused operations change nothing. */
  ghost function Step(s: State, u: Setup, ev: Event): State {
    match ev
    case Ingest(e) => IngestStep(s, u.limits, e)
    case Install(p, how) => InstallStep(s, p, how)
    case MoveEpoch(next, durable) => EpochStep(s, next, durable)
    case CommitOf(d, durable) => CommitStep(s, d, u.digestOf, durable)
    case Stop => StopStep(s)
  }

  ghost function Run(s: State, u: Setup, evs: seq<Event>): State {
    if evs == [] then s else Step(Run(s, u, evs[..|evs| - 1]), u, evs[|evs| - 1])
  }

  /** Consistency is kept by every operation. */
  lemma {:induction false} StepConsistent(s: State, u: Setup, ev: Event)
    requires Consistent(s, u.limits)
    ensures Consistent(Step(s, u, ev), u.limits)
  {
    match ev
    case Ingest(e) =>
      if ValidEvidence(e) && IngestRefusal(s, u.limits, e) == Okay {
        StagingConsistent(s, u.limits, e);
      }
    case Install(p, how) =>
      if ValidPolicy(p) && InstallRefusal(s, p) == Okay {
        InstallConsistent(s, u.limits, p);
      }
    case MoveEpoch(next, durable) => EpochConsistent(s, u.limits, next);
    case CommitOf(d, _) =>
      if Commits(s, u, ev) {
        CommitConsistent(s, u.limits, d, u.digestOf);
      }
    case Stop =>
  }

  lemma {:induction false} RunConsistent(s: State, u: Setup, evs: seq<Event>)
    requires Consistent(s, u.limits)
    ensures Consistent(Run(s, u, evs), u.limits)
    decreases |evs|
  {
    if evs != [] {
      RunConsistent(s, u, evs[..|evs| - 1]);
      StepConsistent(Run(s, u, evs[..|evs| - 1]), u, evs[|evs| - 1]);
    }
  }

  // --- Generations fence ------------------------------------------------------------------------

  /** Generations and epochs only grow, and what they number changes only with
      them: policy with the policy generation, carries with the accounting's. */
  ghost predicate Evolves(s: State, t: State) {
    && t.governor == s.governor && t.policy.id == s.policy.id && s.epoch <= t.epoch
    && s.policy.generation <= t.policy.generation && (s.policy.generation == t.policy.generation ==> t.policy == s.policy)
    && s.accounting.generation <= t.accounting.generation && s.accounting.lastWindow <= t.accounting.lastWindow
    && (s.accounting.generation == t.accounting.generation ==>
        && t.accounting.subjects == s.accounting.subjects && t.accounting.lastWindow == s.accounting.lastWindow
        && t.accounting.interventionGeneration == s.accounting.interventionGeneration)
    && (s.accounting.generation < t.accounting.generation ==> s.accounting.lastWindow < t.accounting.lastWindow)
  }

  lemma {:induction false} EvolvesOn(s: State, t: State, v: State)
    requires Evolves(s, t) && Evolves(t, v)
    ensures Evolves(s, v)
  {
  }

  lemma {:induction false} InstallEvolves(s: State, p: FairnessPolicy, how: Durability)
    ensures Evolves(s, InstallStep(s, p, how))
  {
  }

  lemma {:induction false} EpochEvolves(s: State, next: u64, durable: bool)
    ensures Evolves(s, EpochStep(s, next, durable))
  {
  }

  lemma {:induction false} StepEvolves(s: State, u: Setup, ev: Event)
    ensures Evolves(s, Step(s, u, ev))
  {
    match ev
    case Install(p, how) => InstallEvolves(s, p, how);
    case MoveEpoch(next, durable) => EpochEvolves(s, next, durable);
    case _ =>
  }

  lemma {:induction false} RunEvolves(s: State, u: Setup, evs: seq<Event>)
    ensures Evolves(s, Run(s, u, evs))
    decreases |evs|
  {
    if evs != [] {
      var front := Run(s, u, evs[..|evs| - 1]);
      RunEvolves(s, u, evs[..|evs| - 1]);
      StepEvolves(front, u, evs[|evs| - 1]);
      EvolvesOn(s, front, Run(s, u, evs));
    }
  }

  /** A commit raises the accounting generation by exactly one and moves to a new
      service window. */
  lemma {:induction false} CommitAdvances(s: State, u: Setup, d: FairnessDecision)
    requires CommitOutcome(LedgerOf(s), d, u.digestOf).Ok?
    ensures
      var after := AfterCommit(s, u, d).accounting;
      && after.generation == s.accounting.generation + 1 == d.content.authority.accountingGeneration + 1
      && s.accounting.lastWindow < after.lastWindow == d.content.authority.window
  {
  }

  /** Nothing computed against an older accounting generation, and no window
      already passed, ever commits again. */
  lemma {:induction false} NeverAgain(s: State, u: Setup, d: FairnessDecision, evs: seq<Event>, later: FairnessDecision)
    requires CommitOutcome(LedgerOf(s), d, u.digestOf).Ok?
    requires
      || later.content.authority.accountingGeneration <= d.content.authority.accountingGeneration
      || later.content.authority.window <= d.content.authority.window
    ensures CommitOutcome(LedgerOf(Run(AfterCommit(s, u, d), u, evs)), later, u.digestOf).Err?
  {
    CommitAdvances(s, u, d);
    RunEvolves(AfterCommit(s, u, d), u, evs);
  }

  // --- The carry identity over runs ----------------------------------------------------------------

  /** The nets of every decision the run committed. */
  ghost function CommittedNet(s: State, u: Setup, evs: seq<Event>): int {
    if evs == [] then 0
    else
      var (front, last) := (evs[..|evs| - 1], evs[|evs| - 1]);
      CommittedNet(s, u, front) + if Commits(Run(s, u, front), u, last) then Sum(StateNets(last.d.content.subjects)) else 0
  }

  /** One subject's windows in a committed event, under the bound in force. */
  ghost function NewWindows(s: State, u: Setup, ev: Event, id: u64): seq<Window> {
    if Commits(s, u, ev) then WindowsOf(ev.d.content.subjects, id, s.policy.maxCarry) else []
  }

  ghost function CommittedWindows(s: State, u: Setup, evs: seq<Event>, id: u64): seq<Window> {
    if evs == [] then []
    else CommittedWindows(s, u, evs[..|evs| - 1], id) + NewWindows(Run(s, u, evs[..|evs| - 1]), u, evs[|evs| - 1], id)
  }

  lemma {:induction false} QuietStep(s: State, u: Setup, ev: Event)
    requires !Commits(s, u, ev)
    ensures Step(s, u, ev).accounting.subjects == s.accounting.subjects
  {
  }

  /** Over any run, the population's signed carry and discards change by exactly
      the nets committed, saturation included. */
  lemma {:induction false} RunMovesTotal(s: State, u: Setup, evs: seq<Event>)
    ensures TotalSigned(Run(s, u, evs).accounting.subjects) == TotalSigned(s.accounting.subjects) + CommittedNet(s, u, evs)
    decreases |evs|
  {
    if evs != [] {
      var (front, last) := (evs[..|evs| - 1], evs[|evs| - 1]);
      RunMovesTotal(s, u, front);
      var state := Run(s, u, front);
      if Commits(state, u, last) {
        CommitMovesTotal(LedgerOf(state), last.d, u.digestOf);
      } else {
        QuietStep(state, u, last);
      }
    }
  }

  lemma {:induction false} StepMovesCarry(s: State, u: Setup, ev: Event, id: u64)
    ensures CarryAfter(CarryOf(s.accounting.subjects, id), NewWindows(s, u, ev, id))
            == Some(CarryOf(Step(s, u, ev).accounting.subjects, id))
  {
    if Commits(s, u, ev) {
      CommitMovesCarry(LedgerOf(s), ev.d, u.digestOf, id);
    } else {
      QuietStep(s, u, ev);
    }
  }

  /** Over any run, each subject's carry goes through exactly the windows that
      were committed for it. */
  lemma {:induction false} RunMovesCarry(s: State, u: Setup, evs: seq<Event>, id: u64)
    ensures CarryAfter(CarryOf(s.accounting.subjects, id), CommittedWindows(s, u, evs, id))
            == Some(CarryOf(Run(s, u, evs).accounting.subjects, id))
    decreases |evs|
  {
    if evs != [] {
      var (front, last) := (evs[..|evs| - 1], evs[|evs| - 1]);
      RunMovesCarry(s, u, front, id);
      StepMovesCarry(Run(s, u, front), u, last, id);
      CarryJoins(CarryOf(s.accounting.subjects, id), CommittedWindows(s, u, front, id),
        NewWindows(Run(s, u, front), u, last, id));
    }
  }

  /** From empty accounting, in every run: a subject never holds both a deficit
      and a surplus; its signed carry is the sum of its committed nets; and until
      its first saturation the carry is that sum's positive or negative part. */
  lemma {:induction false} CarryInEveryRun(s: State, u: Setup, evs: seq<Event>, id: u64)
    requires s.accounting.subjects == []
    ensures Reflects(CarryOf(Run(s, u, evs).accounting.subjects, id), CommittedWindows(s, u, evs, id))
  {
    RunMovesCarry(s, u, evs, id);
    RunReflects(CommittedWindows(s, u, evs, id), CarryOf(Run(s, u, evs).accounting.subjects, id));
  }

  /** Every decision the run committed balanced its population. */
  ghost predicate CommitsBalance(s: State, u: Setup, evs: seq<Event>) {
    forall k :: 0 <= k < |evs| && Commits(Run(s, u, evs[..k]), u, evs[k]) ==> Sum(StateNets(evs[k].d.content.subjects)) == 0
  }

  /** Then from empty accounting the population's signed carry stays zero. */
  lemma {:induction false} BalancedRun(s: State, u: Setup, evs: seq<Event>)
    requires s.accounting.subjects == [] && CommitsBalance(s, u, evs)
    ensures TotalSigned(Run(s, u, evs).accounting.subjects) == 0
  {
    NoNetCommitted(s, u, evs);
    RunMovesTotal(s, u, evs);
  }

  lemma {:induction false} BalanceOfFront(s: State, u: Setup, evs: seq<Event>)
    requires CommitsBalance(s, u, evs) && evs != []
    ensures CommitsBalance(s, u, evs[..|evs| - 1])
  {
    var front := evs[..|evs| - 1];
    forall k | 0 <= k < |front| && Commits(Run(s, u, front[..k]), u, front[k])
      ensures Sum(StateNets(front[k].d.content.subjects)) == 0
    {
      assert front[..k] == evs[..k] && front[k] == evs[k];
    }
  }

  lemma {:induction false} NoNetCommitted(s: State, u: Setup, evs: seq<Event>)
    requires CommitsBalance(s, u, evs)
    ensures CommittedNet(s, u, evs) == 0
    decreases |evs|
  {
    if evs != [] {
      var k := |evs| - 1;
      BalanceOfFront(s, u, evs);
      NoNetCommitted(s, u, evs[..k]);
      assert Commits(Run(s, u, evs[..k]), u, evs[k]) ==> Sum(StateNets(evs[k].d.content.subjects)) == 0;
    }
  }
}
