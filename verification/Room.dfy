// How long carries are sure to have room: what one committed window can discard,
// and so how many a carry's counters outlast.

module Room {
  import opened Core
  import opened Accounting
  import opened Decision
  import opened Planner
  import opened Commitment
  import opened CommitmentLaws
  import opened Lifecycle
  import opened Runs
  import History

  /** Counts within what a whole population can be served. */
  ghost predicate Modest(states: seq<SubjectState>) {
    forall i :: 0 <= i < |states| ==> states[i].served <= MAX_WHOLE && states[i].entitlement <= MAX_WHOLE
  }

  lemma {:induction false} ModestIsPlausible(states: seq<SubjectState>)
    requires Modest(states)
    ensures Plausible(states)
    ensures forall i :: 0 <= i < |states| && states[i].authority ==> NetOf(states[i]) == states[i].entitlement - states[i].served
  {
  }

  ghost predicate Bounded(states: seq<SubjectState>) {
    NamedOnce(states) && Modest(states)
  }

  // More than one window of the bounded domain can discard of a carry.
  const WINDOW_LOSS: nat := 0x20_0000_0000_0000

  /** A bounded carry that has discarded at most what n windows can. */
  ghost predicate CarrySpent(c: Carry, n: nat) {
    && c.deficit <= MAX_CARRY_UNITS && c.surplus <= MAX_CARRY_UNITS
    && c.discardedDeficit <= n * WINDOW_LOSS && c.discardedSurplus <= n * WINDOW_LOSS
  }

  ghost predicate Spent(entries: seq<SubjectAccounting>, n: nat) {
    forall i :: 0 <= i < |entries| ==> CarrySpent(entries[i].carry, n)
  }

  lemma {:induction false} WindowSpends(c: Carry, net: int, maxCarry: u64, n: nat)
    requires CarrySpent(c, n) && maxCarry <= MAX_CARRY_UNITS && -(MAX_WHOLE as int) <= net <= MAX_WHOLE
    requires Applied(c, net, maxCarry).Some?
    ensures CarrySpent(Applied(c, net, maxCarry).value, n + 1)
  {
  }

  /** A subject named once has at most one window in a decision. */
  lemma {:induction false} AtMostOneWindow(states: seq<SubjectState>, id: u64, maxCarry: u64)
    requires NamedOnce(states) && Modest(states)
    ensures |WindowsOf(states, id, maxCarry)| <= 1
    ensures forall w :: w in WindowsOf(states, id, maxCarry) ==> w.maxCarry == maxCarry && -(MAX_WHOLE as int) <= w.net <= MAX_WHOLE
  {
    if i :| 0 <= i < |states| && states[i].id == id {
      WindowsOfOne(states, i, maxCarry);
      ModestIsPlausible(states);
    } else {
      WindowsOfOthers(states, id, maxCarry);
    }
  }

  lemma {:induction false} WindowsSpend(c: Carry, ws: seq<Window>, maxCarry: u64, n: nat)
    requires |ws| <= 1 && maxCarry <= MAX_CARRY_UNITS && CarrySpent(c, n) && CarryAfter(c, ws).Some?
    requires forall w :: w in ws ==> w.maxCarry == maxCarry && -(MAX_WHOLE as int) <= w.net <= MAX_WHOLE
    ensures CarrySpent(CarryAfter(c, ws).value, n + 1)
  {
    if ws != [] {
      var w := ws[0];
      assert ws == [w];
      CarryAfterOne(c, w);
      WindowSpends(c, w.net, maxCarry, n);
    }
  }

  lemma {:induction false} CarryOfEntry(entries: seq<SubjectAccounting>, i: nat)
    requires Orderly(entries, false) && i < |entries|
    ensures CarryOf(entries, entries[i].id) == entries[i].carry
  {
    History.IndexOfOne(entries, entries[i]);
  }

  lemma {:induction false} SpentCarryOf(entries: seq<SubjectAccounting>, n: nat, id: u64)
    requires Spent(entries, n)
    ensures CarrySpent(CarryOf(entries, id), n)
  {
  }

  /** Committing one more bounded decision spends one more window's room. */
  lemma {:induction false} CommitSpends(l: Ledger, d: FairnessDecision, digestOf: Content -> u64, n: nat)
    requires Orderly(l.accounting.subjects, false) && Spent(l.accounting.subjects, n) && l.policy.maxCarry <= MAX_CARRY_UNITS
    requires Bounded(d.content.subjects) && CommitOutcome(l, d, digestOf).Ok?
    ensures Spent(CommitOutcome(l, d, digestOf).value.subjects, n + 1)
  {
    var (before, after) := (l.accounting.subjects, CommitOutcome(l, d, digestOf).value.subjects);
    CommitKeepsOrder(l, d, digestOf, false);
    forall i | 0 <= i < |after|
      ensures CarrySpent(after[i].carry, n + 1)
    {
      var id := after[i].id;
      CarryOfEntry(after, i);
      CommitMovesCarry(l, d, digestOf, id);
      SpentCarryOf(before, n, id);
      AtMostOneWindow(d.content.subjects, id, l.policy.maxCarry);
      WindowsSpend(CarryOf(before, id), WindowsOf(d.content.subjects, id, l.policy.maxCarry), l.policy.maxCarry, n);
    }
  }

  /** Every decision this run committed names each subject once, in modest counts. */
  ghost predicate CommitsBounded(s: State, u: Setup, evs: seq<Event>) {
    forall k :: 0 <= k < |evs| && Commits(Run(s, u, evs[..k]), u, evs[k]) ==> Bounded(evs[k].d.content.subjects)
  }

  /** How many decisions the run committed. */
  ghost function CommitCount(s: State, u: Setup, evs: seq<Event>): nat {
    if evs == [] then 0
    else
      CommitCount(s, u, evs[..|evs| - 1]) + if Commits(Run(s, u, evs[..|evs| - 1]), u, evs[|evs| - 1]) then 1 else 0
  }

  lemma {:induction false} StepSpends(s: State, u: Setup, ev: Event, n: nat)
    requires Consistent(s, u.limits) && Spent(s.accounting.subjects, n) && (Commits(s, u, ev) ==> Bounded(ev.d.content.subjects))
    ensures Spent(Step(s, u, ev).accounting.subjects, n + if Commits(s, u, ev) then 1 else 0)
  {
    if Commits(s, u, ev) {
      CommitSpends(LedgerOf(s), ev.d, u.digestOf, n);
    } else {
      QuietStep(s, u, ev);
    }
  }

  lemma {:induction false} RunSpends(s: State, u: Setup, evs: seq<Event>, n: nat)
    requires Consistent(s, u.limits) && Spent(s.accounting.subjects, n) && CommitsBounded(s, u, evs)
    ensures Spent(Run(s, u, evs).accounting.subjects, n + CommitCount(s, u, evs))
    decreases |evs|
  {
    if evs != [] {
      var k := |evs| - 1;
      var front := evs[..k];
      forall j | 0 <= j < |front|
        ensures front[..j] == evs[..j] && front[j] == evs[j]
      {
      }
      RunSpends(s, u, front, n);
      RunConsistent(s, u, front);
      assert Commits(Run(s, u, evs[..k]), u, evs[k]) ==> Bounded(evs[k].d.content.subjects);
      StepSpends(Run(s, u, front), u, evs[k], n + CommitCount(s, u, front));
    }
  }

  /** From empty accounting, through the first 1023 such decisions committed, every
      carry has room for any window of the bounded domain. */
  lemma {:induction false} RoomInRun(s: State, u: Setup, evs: seq<Event>)
    requires Consistent(s, u.limits) && s.accounting.subjects == [] && CommitsBounded(s, u, evs)
    requires CommitCount(s, u, evs) < 1024
    ensures Roomy(Run(s, u, evs).accounting.subjects)
  {
    RunSpends(s, u, evs, 0);
    var entries := Run(s, u, evs).accounting.subjects;
    forall i | 0 <= i < |entries|
      ensures entries[i].carry.discardedDeficit < U64_END / 2 && entries[i].carry.discardedSurplus < U64_END / 2
    {
      assert CarrySpent(entries[i].carry, CommitCount(s, u, evs));
    }
  }
}
