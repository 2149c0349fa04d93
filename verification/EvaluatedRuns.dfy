// Runs that commit only what was evaluated: who is owed in all, and for how long
// carries are sure to have room.

module EvaluatedRuns {
  import opened Core
  import opened Sums
  import opened Policy
  import opened Accounting
  import opened Decision
  import opened Eligibility
  import opened Planner
  import opened Engine
  import opened EngineLaws
  import opened Commitment
  import opened CommitmentLaws
  import opened Lifecycle
  import opened Runs
  import opened Room
  import opened Evaluation

  /** Some consistent state, asked something, gives this decision. */
  ghost predicate Justified(content: Content) {
    exists s: State, limits: Limits, r: Request, w: Work :: Consistent(s, limits) && Decides(ContextOf(s, r), w, content)
  }

  ghost predicate FullAuthority(states: seq<SubjectState>) {
    forall i :: 0 <= i < |states| ==> states[i].authority
  }

  /** What an evaluation's states are, wherever it was made. */
  lemma {:induction false} JustifiedStates(content: Content)
    requires Justified(content)
    ensures Modest(content.subjects) && NamedOnce(content.subjects)
    ensures FullAuthority(content.subjects) ==> Sum(StateNets(content.subjects)) == 0
  {
    var s: State, limits: Limits, r: Request, w: Work :| Consistent(s, limits) && Decides(ContextOf(s, r), w, content);
    DecidedStates(s, limits, r, w, content);
  }

  lemma {:induction false} DecidedStates(s: State, limits: Limits, r: Request, w: Work, content: Content)
    requires Consistent(s, limits) && Decides(ContextOf(s, r), w, content)
    ensures Modest(content.subjects) && NamedOnce(content.subjects)
    ensures FullAuthority(content.subjects) ==> Sum(StateNets(content.subjects)) == 0
  {
    var c := ContextOf(s, r);
    ContextSound(s, limits, r);
    SoundIsTame(c);
    EvaluatedIsCommittable(c, w, content);
    DecisionAnswers(c, w, content);
    StatesNamedOnce(c, SharesOf(c.policy, w.distributed), w, content.subjects);
    if FullAuthority(content.subjects) {
      FullAuthorityBalances(c, w, content);
    }
  }

  /** Every decision this run committed came from an evaluation. */
  ghost predicate CommitsJustified(s: State, u: Setup, evs: seq<Event>) {
    forall k :: 0 <= k < |evs| && Commits(Run(s, u, evs[..k]), u, evs[k]) ==> Justified(evs[k].d.content)
  }

  ghost predicate CommitsFull(s: State, u: Setup, evs: seq<Event>) {
    forall k :: 0 <= k < |evs| && Commits(Run(s, u, evs[..k]), u, evs[k]) ==> FullAuthority(evs[k].d.content.subjects)
  }

  /** From empty accounting, if every decision committed was evaluated, in whatever
      state and on whatever evidence, with authority over everyone, the population
      is owed nothing and owes nothing, after any run. */
  lemma {:induction false} FullAuthorityRun(s: State, u: Setup, evs: seq<Event>)
    requires s.accounting.subjects == [] && CommitsJustified(s, u, evs) && CommitsFull(s, u, evs)
    ensures TotalSigned(Run(s, u, evs).accounting.subjects) == 0
  {
    forall k | 0 <= k < |evs| && Commits(Run(s, u, evs[..k]), u, evs[k])
      ensures Sum(StateNets(evs[k].d.content.subjects)) == 0
    {
      JustifiedStates(evs[k].d.content);
    }
    BalancedRun(s, u, evs);
  }

  /** From empty accounting, through the first 1023 evaluated decisions committed,
      every carry has room, so every evaluation decides. */
  lemma {:induction false} RoomLasts(s: State, u: Setup, evs: seq<Event>)
    requires Consistent(s, u.limits) && s.accounting.subjects == [] && CommitsJustified(s, u, evs)
    requires CommitCount(s, u, evs) < 1024
    ensures Roomy(Run(s, u, evs).accounting.subjects)
  {
    forall k | 0 <= k < |evs| && Commits(Run(s, u, evs[..k]), u, evs[k])
      ensures Bounded(evs[k].d.content.subjects)
    {
      JustifiedStates(evs[k].d.content);
    }
    RoomInRun(s, u, evs);
  }
}
