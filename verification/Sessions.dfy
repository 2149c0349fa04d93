// Clients at work: opening, ingesting, evaluating, installing, committing, in any
// order and on any incarnation, with the process dying anywhere in between.

module Sessions {
  import opened Core
  import opened Digest
  import opened Record
  import opened Disk
  import opened Store
  import opened Policy
  import opened Evidence
  import opened Accounting
  import opened Decision
  import opened PolicyCodec
  import opened Commitment
  import opened CommitmentLaws
  import opened Lifecycle
  import R = Runs
  import opened History
  import opened Governor
  import opened Opening
  import opened DurableRuns
  import opened Fencing
  import opened Planner
  import Evaluation

  datatype Action =
    | Reopen(governor: Incarnation)
    | Offer(e: Snapshot)
    | Replace(p: FairnessPolicy)
    | MoveOn(next: u64)
    | Ask(r: Request)
    | Hand(k: nat)
    | Halt

  ghost predicate AllEvaluated(pool: seq<FairnessDecision>) {
    forall i :: 0 <= i < |pool| ==> Evaluated(pool[i])
  }

  /** What the deeds on record may become in one action: the same, with what memory
      had dropped, or with a decision from the pool committed. */
  ghost predicate DeedsMove(b: Book, after: Book, s: State, digestOf: Content -> u64, pool: seq<FairnessDecision>, action: Action) {
    || after.deeds in {b.deeds, b.deeds + b.pending}
    || (&& action.Hand? && action.k < |pool| && CommitVerdict(s, pool[action.k], digestOf).Ok?
        && after.deeds == DeedsAfterCommit(b, s.policy, pool[action.k].content))
  }

  /** What an action reports to its client. */
  datatype Reply = Silence | Decided(d: FairnessDecision) | CommittedWindow(window: u64) | InstalledPolicy(p: FairnessPolicy)

  /** An acknowledgement means that what it names is on record. */
  ghost predicate Honest(reply: Reply, b: Book, after: Book) {
    && (reply.CommittedWindow? ==> Numbers(after.deeds) == Numbers(b.deeds) + [reply.window])
    && (reply.InstalledPolicy? ==> after.policies == b.policies + [reply.p])
  }

  ghost predicate PoliciesMove(b: Book, after: Book) {
    after.policies == b.policies || exists p: FairnessPolicy :: after.policies == b.policies + [p]
  }

  lemma {:induction false} PendingHasNoNumbers(deeds: seq<Deed>, pending: seq<Deed>)
    requires pending == [] || exists p: FairnessPolicy :: pending == [Reopened(p)]
    ensures Numbers(deeds + pending) == Numbers(deeds)
  {
    if pending == [] {
      assert deeds + pending == deeds;
    } else {
      NumbersOneMore(deeds, pending[0]);
      assert pending == [pending[0]];
    }
  }

  lemma {:induction false} CommitNumbers(b: Book, p: FairnessPolicy, content: Content, entries: seq<SubjectAccounting>)
    requires Pending(b.deeds, b.pending, entries)
    ensures Numbers(DeedsAfterCommit(b, p, content)) == Numbers(b.deeds) + [content.authority.window]
  {
    PendingHasNoNumbers(b.deeds, b.pending);
    NumbersOneMore(b.deeds + b.pending, Committed(p, content));
  }

  /** The window an action reports committed, if any. */
  function WindowOf(reply: Reply): seq<nat> {
    if reply.CommittedWindow? then [reply.window] else []
  }

  /** Nothing is committed in silence: the windows on record grow by just the one
      reported. */
  ghost predicate Outspoken(b: Book, after: Book, reply: Reply) {
    Numbers(after.deeds) == Numbers(b.deeds) + WindowOf(reply)
  }

  /** How memory moves in an action that the process survives, and what its client
      hears: each operation's own step, told just when it was done durably. */
  ghost predicate Performed(s: State, t: State, u: R.Setup, b: Book, after: Book, pool: seq<FairnessDecision>, action: Action, reply: Reply) {
    match action
    case Reopen(_) => t == s && reply.Silence?
    case Offer(e) => t == R.IngestStep(s, u.limits, e) && reply.Silence?
    case Replace(p) => t == R.InstallStep(s, p, if after.policies == b.policies then R.PolicyFailed else R.BothDurable)
    case MoveOn(next) => (t == R.EpochStep(s, next, true) || t == R.EpochStep(s, next, false)) && reply.Silence?
    case Ask(_) => t == s && (reply.Decided? || s.stopping || !Roomy(s.accounting.subjects))
    case Hand(k) => if k < |pool| then t == R.CommitStep(s, pool[k], u.digestOf, reply.CommittedWindow?) else t == s && reply.Silence?
    case Halt => t == R.StopStep(s) && reply.Silence?
  }

  /** What the store takes of what a governor is asked to make durable. */
  ghost predicate Takes(g: FairnessGovernor, pool: seq<FairnessDecision>, action: Action)
    reads g, g.Disk()
  {
    match action
    case Replace(p) => ValidPolicy(p) && InstallRefusal(g.View(), p) == Okay && g.StoreTakesBoth(p)
    case Hand(k) => k < |pool| && CommitTaken(g, pool[k])
    case MoveOn(next) => AdvanceTaken(g, next)
    case _ => false
  }

  /** Undisturbed, a process survives; and a decision, policy or epoch that is not
      refused and that the store takes is made durable, the first two acknowledged. */
  ghost predicate Due(s: State, t: State, takes: bool, calm: bool, alive: bool, action: Action, reply: Reply) {
    calm ==> alive && (takes ==>
      match action
      case Hand(_) => reply.CommittedWindow?
      case Replace(p) => reply == InstalledPolicy(p)
      case MoveOn(next) => t == R.EpochStep(s, next, true)
      case _ => true)
  }

  /** All an action does to the book, and what it may say of it. */
  ghost predicate Accounted(b: Book, after: Book, s: State, digestOf: Content -> u64, pool: seq<FairnessDecision>, action: Action, reply: Reply) {
    DeedsMove(b, after, s, digestOf, pool, action) && PoliciesMove(b, after) && Honest(reply, b, after)
  }

  /** One action, from end to end: how memory and the book move, what the client
      hears, and whether the process is still there to be asked. */
  ghost predicate Through(s: State, t: State, u: R.Setup, b: Book, after: Book, pool: seq<FairnessDecision>, action: Action,
                          alive: bool, reply: Reply, takes: bool, calm: bool) {
    && Accounted(b, after, s, u.digestOf, pool, action, reply)
    && (if alive then Performed(s, t, u, b, after, pool, action, reply) && Outspoken(b, after, reply) else reply.Silence?)
    && Due(s, t, takes, calm, alive, action, reply)
  }

  lemma {:induction false} QuietThrough(s: State, t: State, u: R.Setup, b: Book, pool: seq<FairnessDecision>, action: Action, reply: Reply, calm: bool)
    requires Performed(s, t, u, b, b, pool, action, reply) && (reply.Silence? || reply.Decided?)
    ensures Through(s, t, u, b, b, pool, action, true, reply, false, calm)
  {
    assert Numbers(b.deeds) + [] == Numbers(b.deeds);
  }

  lemma {:induction false} HandThrough(s: State, t: State, u: R.Setup, b: Book, after: Book, pool: seq<FairnessDecision>, k: nat,
                                       exit: Exit, reply: Reply, takes: bool, calm: bool)
    requires k < |pool| && Pending(b.deeds, b.pending, s.accounting.subjects)
    requires CommitMoves(b, after, s, pool[k], CommitVerdict(s, pool[k], u.digestOf), exit)
    requires reply == if exit == Returned(Okay) then CommittedWindow(pool[k].content.authority.window) else Silence
    requires exit.Returned? ==> t == R.CommitStep(s, pool[k], u.digestOf, exit == Returned(Okay))
    requires calm ==> exit.Returned? && (takes ==> exit == Returned(Okay))
    ensures Through(s, t, u, b, after, pool, Hand(k), exit.Returned?, reply, takes, calm)
  {
    CommitNumbers(b, s.policy, pool[k].content, s.accounting.subjects);
    assert Numbers(b.deeds) + [] == Numbers(b.deeds);
  }

  lemma {:induction false} ReplaceThrough(s: State, t: State, u: R.Setup, b: Book, after: Book, pool: seq<FairnessDecision>, p: FairnessPolicy,
                                          exit: Exit, reply: Reply, takes: bool, calm: bool)
    requires after.deeds in {b.deeds, b.deeds + b.pending} && after.policies in {b.policies, b.policies + [p]}
    requires Pending(b.deeds, b.pending, s.accounting.subjects) && (exit == Returned(Okay) ==> after.policies == b.policies + [p])
    requires reply == if exit == Returned(Okay) then InstalledPolicy(p) else Silence
    requires exit.Returned? ==> t == R.InstallStep(s, p, if after.policies == b.policies then R.PolicyFailed else R.BothDurable)
    requires calm ==> exit.Returned? && (takes ==> exit == Returned(Okay))
    ensures Through(s, t, u, b, after, pool, Replace(p), exit.Returned?, reply, takes, calm)
  {
    PendingHasNoNumbers(b.deeds, b.pending);
    assert Numbers(b.deeds) + [] == Numbers(b.deeds);
  }

  lemma {:induction false} MoveThrough(s: State, t: State, u: R.Setup, b: Book, after: Book, pool: seq<FairnessDecision>, next: u64, exit: Exit,
                                       takes: bool, calm: bool)
    requires after.deeds in {b.deeds, b.deeds + b.pending} && after.policies == b.policies && Pending(b.deeds, b.pending, s.accounting.subjects)
    requires exit.Returned? ==> t == R.EpochStep(s, next, exit == Returned(Okay))
    requires calm ==> exit.Returned? && (takes ==> exit == Returned(Okay))
    ensures Through(s, t, u, b, after, pool, MoveOn(next), exit.Returned?, Silence, takes, calm)
  {
    PendingHasNoNumbers(b.deeds, b.pending);
    assert Numbers(b.deeds) + [] == Numbers(b.deeds);
  }

  /** One action on a serving governor. */
  method Serve(g: FairnessGovernor, store: DurableStore, action: Action, pool: seq<FairnessDecision>, ghost b: Book)
    returns (alive: bool, reply: Reply, ghost after: Book)
    requires Recorded(store.disk.files, b, store.disk.atomicRename) && Healthy(g, store, b) && AllEvaluated(pool)
    modifies g, store.disk
    ensures Recorded(store.disk.files, after, store.disk.atomicRename) && (alive ==> Healthy(g, store, after))
    ensures alive ==> R.Evolves(old(g.View()), g.View())
    ensures store.disk.faults >= old(store.disk.faults)
    ensures Through(old(g.View()), g.View(), R.Setup(g.limits, g.digestOf), b, after, pool, action, alive, reply,
                    old(Takes(g, pool, action)), store.disk.faults == old(store.disk.faults))
    ensures reply.Decided? ==> alive && Answer(reply.d, g)
  {
    ghost var s := g.View();
    alive, after := true, b;
    if action.Replace? || action.MoveOn? || action.Hand? {
      alive, reply, after := ServeWrite(g, store, action, pool, b);
    } else {
      reply := ServeQuietly(g, store, action, pool, b);
      QuietThrough(s, g.View(), R.Setup(g.limits, g.digestOf), b, pool, action, reply, true);
    }
  }

  /** Actions that leave the disk alone. */
  method ServeQuietly(g: FairnessGovernor, store: DurableStore, action: Action, ghost pool: seq<FairnessDecision>, ghost b: Book)
    returns (reply: Reply)
    requires Healthy(g, store, b) && !action.Replace? && !action.MoveOn? && !action.Hand?
    modifies g
    ensures Healthy(g, store, b) && R.Evolves(old(g.View()), g.View())
    ensures Performed(old(g.View()), g.View(), R.Setup(g.limits, g.digestOf), b, b, pool, action, reply)
    ensures (reply.Silence? || reply.Decided?) && (reply.Decided? ==> Answer(reply.d, g))
  {
    reply := Silence;
    match action
    case Offer(e) => RunIngest(g, store, e, b);
    case Ask(r) => reply := ServeAsk(g, r);
    case Halt => RunShutdown(g, store, b);
    case Reopen(_) => StaysPut(g.View());
  }

  lemma {:induction false} StaysPut(s: State)
    ensures R.Evolves(s, s)
  {
  }

  /** Actions that commit something durable. */
  method ServeWrite(g: FairnessGovernor, store: DurableStore, action: Action, pool: seq<FairnessDecision>, ghost b: Book)
    returns (alive: bool, reply: Reply, ghost after: Book)
    requires Recorded(store.disk.files, b, store.disk.atomicRename) && Healthy(g, store, b) && AllEvaluated(pool)
    requires action.Replace? || action.MoveOn? || action.Hand?
    modifies g, store.disk
    ensures Recorded(store.disk.files, after, store.disk.atomicRename)
    ensures alive ==> Healthy(g, store, after) && R.Evolves(old(g.View()), g.View())
    ensures store.disk.faults >= old(store.disk.faults)
    ensures Through(old(g.View()), g.View(), R.Setup(g.limits, g.digestOf), b, after, pool, action, alive, reply,
                    old(Takes(g, pool, action)), store.disk.faults == old(store.disk.faults))
    ensures !reply.Decided?
  {
    alive, reply, after := true, Silence, b;
    match action
    case Replace(p) => alive, reply, after := ServeReplace(g, store, pool, p, b);
    case MoveOn(next) => alive, after := ServeMove(g, store, pool, next, b);
    case Hand(k) =>
      if k < |pool| {
        alive, reply, after := ServeHand(g, store, pool, k, b);
      } else {
        QuietThrough(g.View(), g.View(), R.Setup(g.limits, g.digestOf), b, pool, action, Silence, true);
        StaysPut(g.View());
      }
  }

  method ServeAsk(g: FairnessGovernor, r: Request) returns (reply: Reply)
    requires g.Valid()
    ensures R.Evolves(g.View(), g.View()) && (reply.Silence? || reply.Decided?)
    ensures reply.Decided? ==> Answer(reply.d, g)
    ensures reply.Silence? ==> g.stopping || !Roomy(g.accounting.subjects)
  {
    var d;
    ghost var w;
    d, w := Evaluation.Consult(g, r);
    reply := if d.Some? then Decided(d.value) else Silence;
  }

  /** A decision as this governor gives it. */
  ghost predicate Answer(d: FairnessDecision, g: FairnessGovernor)
    reads g
  {
    Evaluated(d) && d.governor == g.governor && Anchored(d, g.View(), g.digestOf)
  }

  method ServeReplace(g: FairnessGovernor, store: DurableStore, pool: seq<FairnessDecision>, p: FairnessPolicy, ghost b: Book)
    returns (alive: bool, reply: Reply, ghost after: Book)
    requires Recorded(store.disk.files, b, store.disk.atomicRename) && Healthy(g, store, b)
    modifies g, store.disk
    ensures Recorded(store.disk.files, after, store.disk.atomicRename)
    ensures alive ==> Healthy(g, store, after) && R.Evolves(old(g.View()), g.View())
    ensures store.disk.faults >= old(store.disk.faults)
    ensures Through(old(g.View()), g.View(), R.Setup(g.limits, g.digestOf), b, after, pool, Replace(p), alive, reply,
                    old(Takes(g, pool, Replace(p))), store.disk.faults == old(store.disk.faults))
    ensures !reply.Decided?
  {
    ghost var s, takes := g.View(), Takes(g, pool, Replace(p));
    var exit;
    exit, after := RunInstall(g, store, p, b);
    alive := exit.Returned?;
    reply := if exit == Returned(Okay) then InstalledPolicy(p) else Silence;
    ReplaceThrough(s, g.View(), R.Setup(g.limits, g.digestOf), b, after, pool, p, exit, reply, takes,
      store.disk.faults == old(store.disk.faults));
  }

  method ServeMove(g: FairnessGovernor, store: DurableStore, pool: seq<FairnessDecision>, next: u64, ghost b: Book)
    returns (alive: bool, ghost after: Book)
    requires Recorded(store.disk.files, b, store.disk.atomicRename) && Healthy(g, store, b)
    modifies g, store.disk
    ensures Recorded(store.disk.files, after, store.disk.atomicRename)
    ensures alive ==> Healthy(g, store, after) && R.Evolves(old(g.View()), g.View())
    ensures store.disk.faults >= old(store.disk.faults)
    ensures Through(old(g.View()), g.View(), R.Setup(g.limits, g.digestOf), b, after, pool, MoveOn(next), alive, Silence,
                    old(Takes(g, pool, MoveOn(next))), store.disk.faults == old(store.disk.faults))
  {
    ghost var s, takes := g.View(), Takes(g, pool, MoveOn(next));
    var exit;
    exit, after := RunAdvance(g, store, next, b);
    alive := exit.Returned?;
    MoveThrough(s, g.View(), R.Setup(g.limits, g.digestOf), b, after, pool, next, exit, takes, store.disk.faults == old(store.disk.faults));
  }

  method ServeHand(g: FairnessGovernor, store: DurableStore, pool: seq<FairnessDecision>, k: nat, ghost b: Book)
    returns (alive: bool, reply: Reply, ghost after: Book)
    requires Recorded(store.disk.files, b, store.disk.atomicRename) && Healthy(g, store, b)
    requires k < |pool| && Evaluated(pool[k])
    modifies g, store.disk
    ensures Recorded(store.disk.files, after, store.disk.atomicRename)
    ensures alive ==> Healthy(g, store, after) && R.Evolves(old(g.View()), g.View())
    ensures store.disk.faults >= old(store.disk.faults)
    ensures Through(old(g.View()), g.View(), R.Setup(g.limits, g.digestOf), b, after, pool, Hand(k), alive, reply,
                    old(Takes(g, pool, Hand(k))), store.disk.faults == old(store.disk.faults))
    ensures !reply.Decided?
  {
    ghost var s, takes := g.View(), Takes(g, pool, Hand(k));
    var exit;
    exit, after := RunCommit(g, store, pool[k], b);
    alive := exit.Returned?;
    reply := if exit == Returned(Okay) then CommittedWindow(pool[k].content.authority.window) else Silence;
    HandThrough(s, g.View(), R.Setup(g.limits, g.digestOf), b, after, pool, k, exit, reply, takes,
      store.disk.faults == old(store.disk.faults));
  }

  // --- One action, whether or not a governor is serving -----------------------------------------------

  ghost predicate Alive(g: FairnessGovernor?, store: DurableStore, b: Book)
    reads if g == null then {} else {g}, store.disk
  {
    g != null ==> Healthy(g, store, b)
  }

  ghost function ViewOf(g: FairnessGovernor?): Option<State>
    reads if g == null then {} else {g}
  {
    if g == null then None else Some(g.View())
  }

  /** Reopening leaves the deeds, and so does anything while nobody serves. */
  ghost predicate Moves(b: Book, after: Book, s: Option<State>, digestOf: Content -> u64, pool: seq<FairnessDecision>, action: Action) {
    if s.None? || action.Reopen? then after.deeds == b.deeds else DeedsMove(b, after, s.value, digestOf, pool, action)
  }

  method Act(config: Config, digestOf: Content -> u64, store: DurableStore, g: FairnessGovernor?, action: Action,
             pool: seq<FairnessDecision>, ghost b: Book)
    returns (next: FairnessGovernor?, reply: Reply, ghost after: Book)
    requires Recorded(store.disk.files, b, store.disk.atomicRename) && Alive(g, store, b) && AllEvaluated(pool)
    requires g != null ==> g.digestOf == digestOf
    modifies store.disk, if g == null then {} else {g}
    ensures Recorded(store.disk.files, after, store.disk.atomicRename) && Alive(next, store, after)
    ensures next != null ==> next.digestOf == digestOf
    ensures Moves(b, after, old(ViewOf(g)), digestOf, pool, action) && PoliciesMove(b, after) && Honest(reply, b, after)
    ensures next == null || next == g || (fresh(next) && action == Reopen(next.governor))
    ensures next != null && next == g ==> R.Evolves(old(g.View()), g.View())
    ensures reply.Decided? ==> g != null && next == g && Answer(reply.d, g)
    ensures store.disk.faults >= old(store.disk.faults)
    ensures g != null && !action.Reopen? ==>
      Through(old(g.View()), g.View(), R.Setup(g.limits, digestOf), b, after, pool, action, next != null, reply,
              old(Takes(g, pool, action)), store.disk.faults == old(store.disk.faults))
    ensures g == null || action.Reopen? ==> reply.Silence?
    ensures action.Reopen? && store.disk.faults == old(store.disk.faults) ==>
      (next != null <==> Openable(old(store.disk.files), config, action.governor))
  {
    next, reply, after := g, Silence, b;
    if action.Reopen? {
      next, after := RunOpen(config, store, action.governor, digestOf, b);
    } else if g != null {
      var alive;
      alive, reply, after := Serve(g, store, action, pool, b);
      next := if alive then g else null;
    }
  }

  // --- What a session keeps ---------------------------------------------------------------------------

  /** The windows acknowledged so far are on record, in the order acknowledged. */
  ghost predicate Acknowledged(acked: seq<nat>, ws: seq<nat>) {
    Increasing(acked) && forall i :: 0 <= i < |acked| ==> acked[i] in ws
  }

  /** What a client has been told: windows committed, policies installed. */
  datatype Told = Told(windows: seq<nat>, policies: seq<FairnessPolicy>)

  function ToldMore(t: Told, reply: Reply): Told {
    match reply
    case CommittedWindow(w) => t.(windows := t.windows + [w])
    case InstalledPolicy(p) => t.(policies := t.policies + [p])
    case _ => t
  }

  /** All of it is on record. */
  ghost predicate KeptWord(t: Told, b: Book) {
    Acknowledged(t.windows, Numbers(b.deeds)) && forall i :: 0 <= i < |t.policies| ==> t.policies[i] in b.policies
  }

  lemma {:induction false} MoveNumbers(b: Book, after: Book, s: State, digestOf: Content -> u64, pool: seq<FairnessDecision>, action: Action)
    requires DeedsMove(b, after, s, digestOf, pool, action) && Pending(b.deeds, b.pending, s.accounting.subjects)
    ensures b.deeds <= after.deeds
    ensures Numbers(after.deeds) == Numbers(b.deeds) || exists w: nat :: Numbers(after.deeds) == Numbers(b.deeds) + [w]
  {
    PendingHasNoNumbers(b.deeds, b.pending);
    if after.deeds !in {b.deeds, b.deeds + b.pending} {
      CommitNumbers(b, s.policy, pool[action.k].content, s.accounting.subjects);
    }
  }

  lemma {:induction false} WordKept(t: Told, b: Book, after: Book, reply: Reply)
    requires KeptWord(t, b) && Honest(reply, b, after) && PoliciesMove(b, after) && Increasing(Numbers(after.deeds))
    requires Numbers(after.deeds) == Numbers(b.deeds) || exists w: nat :: Numbers(after.deeds) == Numbers(b.deeds) + [w]
    ensures KeptWord(ToldMore(t, reply), after)
  {
    var (ws, after') := (Numbers(b.deeds), Numbers(after.deeds));
    if reply.CommittedWindow? {
      forall i | 0 <= i < |t.windows|
        ensures t.windows[i] < reply.window
      {
        assert t.windows[i] in ws;
        var j :| 0 <= j < |ws| && ws[j] == t.windows[i];
        assert after'[j] < after'[|ws|];
      }
    }
  }

  /** A policy that was acknowledged is never rolled back: what stands is as new,
      and the same policy if it is no newer. */
  lemma {:induction false} NeverRolledBackTo(files: Files, ps: seq<FairnessPolicy>, p: FairnessPolicy)
    requires PolicyStands(files, ps) && p in ps
    ensures StandingOf(files, PolicyRecord).Kept?
    ensures
      var standing := ParsedPolicy(StandingOf(files, PolicyRecord).record.payload);
      && standing.Ok? && p.generation <= standing.value.generation
      && (p.generation == standing.value.generation ==> p == standing.value)
  {
    var i :| 0 <= i < |ps| && ps[i] == p;
  }

  lemma {:induction false} ServesNoOlder(g: FairnessGovernor, store: DurableStore, b: Book, p: FairnessPolicy)
    requires Recorded(store.disk.files, b, store.disk.atomicRename) && Healthy(g, store, b) && p in b.policies
    ensures p.generation <= g.policy.generation
  {
    LastIsNewest(g.policy, g.policyRecord, store.disk.files, b.policies, p);
  }

  lemma {:induction false} LastIsNewest(q: FairnessPolicy, record: u64, files: Files, ps: seq<FairnessPolicy>, p: FairnessPolicy)
    requires LinkedPolicy(q, record, files) && PolicyStands(files, ps) && p in ps
    ensures p.generation <= q.generation
  {
    LinkedStands(q, record, files, ps);
    var i :| 0 <= i < |ps| && ps[i] == p;
  }

  // --- Fencing across a session -------------------------------------------------------------------------

  /** No incarnation opens twice. */
  ghost predicate DistinctOpenings(script: seq<Action>) {
    forall i, j :: 0 <= i < j < |script| && script[i].Reopen? && script[j].Reopen? ==> script[i].governor != script[j].governor
  }

  /** Each decision of this governor is anchored in a state of its past. */
  ghost predicate AllAnchored(pool: seq<FairnessDecision>, origins: seq<State>, s: State, digestOf: Content -> u64) {
    && |origins| == |pool|
    && forall k :: 0 <= k < |pool| && pool[k].governor == s.governor ==>
         Anchored(pool[k], origins[k], digestOf) && R.Evolves(origins[k], s)
  }

  lemma {:induction false} CommitReplays(deeds: seq<Deed>, s: State, d: FairnessDecision, digestOf: Content -> u64)
    requires Replayed(deeds) == Some(s.accounting.subjects) && CommitVerdict(s, d, digestOf).Ok?
    ensures Replayed(deeds + [Committed(s.policy, d.content)]) == Some(CommitVerdict(s, d, digestOf).value.subjects)
  {
    ReplayedOneMore(deeds, Committed(s.policy, d.content));
  }

  /** So whatever an action adds to the record left the carries it projected. */
  lemma {:induction false} StillProjected(b: Book, after: Book, s: State, digestOf: Content -> u64, pool: seq<FairnessDecision>,
                                          origins: seq<State>, action: Action)
    requires AllProjected(b.deeds) && DeedsMove(b, after, s, digestOf, pool, action) && Pending(b.deeds, b.pending, s.accounting.subjects)
    requires AllAnchored(pool, origins, s, digestOf)
    ensures AllProjected(after.deeds)
  {
    assert AllProjected(b.deeds + b.pending) by {
      if b.pending == [] {
        assert b.deeds + b.pending == b.deeds;
      } else {
        ProjectedMore(b.deeds, b.pending[0]);
        assert b.pending == [b.pending[0]];
      }
    }
    if after.deeds !in {b.deeds, b.deeds + b.pending} {
      var d := pool[action.k];
      CommitReplays(b.deeds + b.pending, s, d, digestOf);
      assert d.governor == s.governor;
      ProjectedMore(b.deeds + b.pending, Committed(s.policy, d.content));
    }
  }

  ghost predicate Anchors(pool: seq<FairnessDecision>, origins: seq<State>, s: Option<State>, digestOf: Content -> u64) {
    |origins| == |pool| && (s.Some? ==> AllAnchored(pool, origins, s.value, digestOf))
  }

  /** Every incarnation that decided or serves opened in this much of the script. */
  ghost predicate AllOpened(pool: seq<FairnessDecision>, s: Option<State>, script: seq<Action>) {
    && (forall k :: 0 <= k < |pool| ==> Reopen(pool[k].governor) in script)
    && (s.Some? ==> Reopen(s.value.governor) in script)
  }

  /** Whatever was decided before a reopening was decided by another incarnation. */
  lemma {:induction false} ReopenedAnchors(pool: seq<FairnessDecision>, origins: seq<State>, script: seq<Action>, i: nat, s: State,
                                           digestOf: Content -> u64)
    requires i < |script| && DistinctOpenings(script) && |origins| == |pool| && script[i] == Reopen(s.governor)
    requires forall k :: 0 <= k < |pool| ==> Reopen(pool[k].governor) in script[..i]
    ensures AllAnchored(pool, origins, s, digestOf)
  {
    forall k | 0 <= k < |pool|
      ensures pool[k].governor != s.governor
    {
      assert Reopen(pool[k].governor) in script[..i];
      var j :| 0 <= j < i && script[..i][j] == Reopen(pool[k].governor);
      assert script[j] == Reopen(pool[k].governor);
    }
  }

  lemma {:induction false} AnchorsGoOn(pool: seq<FairnessDecision>, origins: seq<State>, s: State, t: State, digestOf: Content -> u64)
    requires AllAnchored(pool, origins, s, digestOf) && R.Evolves(s, t)
    ensures AllAnchored(pool, origins, t, digestOf)
  {
    forall k | 0 <= k < |pool| && pool[k].governor == t.governor
      ensures Anchored(pool[k], origins[k], digestOf) && R.Evolves(origins[k], t)
    {
      R.EvolvesOn(origins[k], s, t);
    }
  }

  lemma {:induction false} OneMoreAnchor(pool: seq<FairnessDecision>, origins: seq<State>, s: State, d: FairnessDecision, digestOf: Content -> u64)
    requires AllAnchored(pool, origins, s, digestOf) && Anchored(d, s, digestOf)
    ensures AllAnchored(pool + [d], origins + [s], s, digestOf)
  {
  }

  /** What every action keeps of the book. */
  lemma {:induction false} TurnKeeps(b: Book, after: Book, s: Option<State>, digestOf: Content -> u64, pool: seq<FairnessDecision>,
                                     origins: seq<State>, action: Action, t: Told, reply: Reply, distinct: bool)
    requires Moves(b, after, s, digestOf, pool, action) && PoliciesMove(b, after) && Honest(reply, b, after)
    requires s.Some? ==> Pending(b.deeds, b.pending, s.value.accounting.subjects)
    requires KeptWord(t, b) && Increasing(Numbers(after.deeds))
    requires distinct ==> Anchors(pool, origins, s, digestOf) && AllProjected(b.deeds)
    ensures b.deeds <= after.deeds && b.policies <= after.policies && KeptWord(ToldMore(t, reply), after)
    ensures distinct ==> AllProjected(after.deeds)
  {
    if s.Some? && !action.Reopen? {
      MoveNumbers(b, after, s.value, digestOf, pool, action);
      if distinct {
        StillProjected(b, after, s.value, digestOf, pool, origins, action);
      }
    }
    WordKept(t, b, after, reply);
  }

  /** What every action keeps of where decisions came from. */
  lemma {:induction false} TurnAnchors(pool: seq<FairnessDecision>, origins: seq<State>, script: seq<Action>, i: nat,
                                       s: Option<State>, t: Option<State>, digestOf: Content -> u64)
    requires i < |script| && DistinctOpenings(script) && AllOpened(pool, s, script[..i]) && Anchors(pool, origins, s, digestOf)
    requires t.Some? ==> script[i] == Reopen(t.value.governor) || (s.Some? && R.Evolves(s.value, t.value))
    ensures Anchors(pool, origins, t, digestOf)
  {
    if t.Some? {
      if s.Some? && R.Evolves(s.value, t.value) {
        AnchorsGoOn(pool, origins, s.value, t.value, digestOf);
      } else {
        ReopenedAnchors(pool, origins, script, i, t.value, digestOf);
      }
    }
  }

  lemma {:induction false} TurnOpened(pool: seq<FairnessDecision>, script: seq<Action>, i: nat, s: Option<State>, t: Option<State>)
    requires i < |script| && AllOpened(pool, s, script[..i])
    requires t.Some? ==> script[i] == Reopen(t.value.governor) || (s.Some? && t.value.governor == s.value.governor)
    ensures AllOpened(pool, t, script[..i + 1])
  {
    assert script[..i + 1] == script[..i] + [script[i]];
  }

  function PoolAfter(pool: seq<FairnessDecision>, reply: Reply): seq<FairnessDecision> {
    if reply.Decided? then pool + [reply.d] else pool
  }

  ghost function OriginsAfter(origins: seq<State>, reply: Reply, s: Option<State>): seq<State> {
    if reply.Decided? && s.Some? then origins + [s.value] else origins
  }

  /** A new decision joins the pool, anchored where it was given. */
  lemma {:induction false} DecisionJoins(pool: seq<FairnessDecision>, origins: seq<State>, reply: Reply, s: Option<State>,
                                         digestOf: Content -> u64, script: seq<Action>, distinct: bool)
    requires AllEvaluated(pool) && AllOpened(pool, s, script) && (distinct ==> Anchors(pool, origins, s, digestOf))
    requires reply.Decided? ==>
      s.Some? && Evaluated(reply.d) && reply.d.governor == s.value.governor && Anchored(reply.d, s.value, digestOf)
    ensures AllEvaluated(PoolAfter(pool, reply)) && AllOpened(PoolAfter(pool, reply), s, script)
    ensures distinct ==> Anchors(PoolAfter(pool, reply), OriginsAfter(origins, reply, s), s, digestOf)
  {
    if reply.Decided? && distinct && R.Evolves(s.value, s.value) {
      OneMoreAnchor(pool, origins, s.value, reply.d, digestOf);
    }
  }

  /** What was told is kept, and the book has grown from where it started. */
  ghost predicate Grown(start: Book, b: Book, told: Told) {
    start.deeds <= b.deeds && start.policies <= b.policies && KeptWord(told, b)
  }

  lemma {:induction false} GrownOn(start: Book, b: Book, after: Book, told: Told, told': Told)
    requires Grown(start, b, told) && Grown(b, after, told')
    ensures Grown(start, after, told')
  {
  }

  /** Of the windows committed, those not acknowledged are at most one for each action
      the process did not survive; without any, they are exactly those acknowledged,
      in order. */
  ghost predicate Counts(start: Book, b: Book, told: Told, lost: nat) {
    && |Numbers(b.deeds)| <= |Numbers(start.deeds)| + |told.windows| + lost
    && (lost == 0 ==> Numbers(b.deeds) == Numbers(start.deeds) + told.windows)
  }

  /** A serving governor did not survive the action. */
  ghost predicate Lost(s: Option<State>, action: Action, t: Option<State>) {
    s.Some? && !action.Reopen? && t.None?
  }

  lemma {:induction false} CountsOn(start: Book, b: Book, after: Book, told: Told, reply: Reply, lost: nat, died: bool)
    requires Counts(start, b, told, lost)
    requires if died then reply.Silence? && |Numbers(after.deeds)| <= |Numbers(b.deeds)| + 1 else Outspoken(b, after, reply)
    ensures Counts(start, after, ToldMore(told, reply), lost + if died then 1 else 0)
  {
  }

  /** One more window at most, and if the process survived, the one reported. */
  lemma {:induction false} TurnCounts(b: Book, after: Book, s: Option<State>, t: Option<State>, u: R.Setup, pool: seq<FairnessDecision>,
                                      action: Action, reply: Reply, now: Option<State>, takes: bool, calm: bool)
    requires Moves(b, after, s, u.digestOf, pool, action)
    requires s.Some? ==> Pending(b.deeds, b.pending, s.value.accounting.subjects)
    requires s.None? || action.Reopen? ==> reply.Silence?
    requires s.Some? && !action.Reopen? ==>
      now.Some? && Through(s.value, now.value, u, b, after, pool, action, t.Some?, reply, takes, calm)
    ensures if Lost(s, action, t) then reply.Silence? && |Numbers(after.deeds)| <= |Numbers(b.deeds)| + 1 else Outspoken(b, after, reply)
    ensures calm ==> !Lost(s, action, t)
  {
    if s.Some? && !action.Reopen? {
      MoveNumbers(b, after, s.value, u.digestOf, pool, action);
    } else {
      assert Numbers(b.deeds) + [] == Numbers(b.deeds);
    }
  }

  /** Where every decision in the pool came from. */
  ghost predicate Traced(pool: seq<FairnessDecision>, origins: seq<State>, s: Option<State>, script: seq<Action>, digestOf: Content -> u64,
                         deeds: seq<Deed>, distinct: bool) {
    && AllEvaluated(pool) && AllOpened(pool, s, script)
    && (distinct ==> Anchors(pool, origins, s, digestOf) && AllProjected(deeds))
  }

  /** What a session amounts to so far. */
  ghost predicate SoFar(start: Book, b: Book, told: Told, lost: nat) {
    Grown(start, b, told) && Counts(start, b, told, lost)
  }

  lemma {:induction false} OneMoreTurn(start: Book, b: Book, after: Book, told: Told, told': Told, reply: Reply, lost: nat, died: bool)
    requires SoFar(start, b, told, lost) && Grown(b, after, told') && told' == ToldMore(told, reply)
    requires if died then reply.Silence? && |Numbers(after.deeds)| <= |Numbers(b.deeds)| + 1 else Outspoken(b, after, reply)
    ensures SoFar(start, after, told', lost + if died then 1 else 0)
  {
    GrownOn(start, b, after, told, told');
    CountsOn(start, b, after, told, reply, lost, died);
  }

  /** What an action did, as far as the book and the states before and after tell. */
  ghost predicate Acted(b: Book, after: Book, s: Option<State>, t: Option<State>, now: Option<State>, u: R.Setup, pool: seq<FairnessDecision>,
                        action: Action, reply: Reply, takes: bool, calm: bool) {
    && Moves(b, after, s, u.digestOf, pool, action) && PoliciesMove(b, after) && Honest(reply, b, after)
    && (t.Some? ==> action == Reopen(t.value.governor) || (s.Some? && R.Evolves(s.value, t.value)))
    && (s.None? || action.Reopen? ==> reply.Silence?)
    && (s.Some? && !action.Reopen? ==>
          now.Some? && Through(s.value, now.value, u, b, after, pool, action, t.Some?, reply, takes, calm))
    && (reply.Decided? ==>
          t.Some? && Evaluated(reply.d) && reply.d.governor == t.value.governor && Anchored(reply.d, t.value, u.digestOf))
  }

  lemma {:induction false} TurnLeaves(start: Book, b: Book, after: Book, s: Option<State>, t: Option<State>, now: Option<State>, u: R.Setup,
                                      pool: seq<FairnessDecision>, origins: seq<State>, script: seq<Action>, i: nat, told: Told, reply: Reply,
                                      lost: nat, takes: bool, calm: bool, distinct: bool)
    requires i < |script| && SoFar(start, b, told, lost) && Increasing(Numbers(after.deeds)) && (distinct ==> DistinctOpenings(script))
    requires s.Some? ==> Pending(b.deeds, b.pending, s.value.accounting.subjects)
    requires Acted(b, after, s, t, now, u, pool, script[i], reply, takes, calm)
    requires Traced(pool, origins, s, script[..i], u.digestOf, b.deeds, distinct)
    ensures SoFar(start, after, ToldMore(told, reply), lost + if Lost(s, script[i], t) then 1 else 0)
    ensures calm ==> !Lost(s, script[i], t)
    ensures Traced(PoolAfter(pool, reply), OriginsAfter(origins, reply, t), t, script[..i + 1], u.digestOf, after.deeds, distinct)
  {
    TurnKeeps(b, after, s, u.digestOf, pool, origins, script[i], told, reply, distinct);
    TurnCounts(b, after, s, t, u, pool, script[i], reply, now, takes, calm);
    OneMoreTurn(start, b, after, told, ToldMore(told, reply), reply, lost, Lost(s, script[i], t));
    TurnOpened(pool, script, i, s, t);
    if distinct {
      TurnAnchors(pool, origins, script, i, s, t, u.digestOf);
    }
    DecisionJoins(pool, origins, reply, t, u.digestOf, script[..i + 1], distinct);
  }

  /** A session underway: what the disk, a serving governor and the client hold. */
  ghost predicate Underway(g: FairnessGovernor?, store: DurableStore, digestOf: Content -> u64, pool: seq<FairnessDecision>, told: Told,
                           start: Book, b: Book, origins: seq<State>, lost: nat, script: seq<Action>, i: nat, distinct: bool)
    requires i <= |script|
    reads if g == null then {} else {g}, store.disk
  {
    && Recorded(store.disk.files, b, store.disk.atomicRename) && Alive(g, store, b) && SoFar(start, b, told, lost)
    && (g != null ==> g.digestOf == digestOf)
    && Traced(pool, origins, ViewOf(g), script[..i], digestOf, b.deeds, distinct)
  }

  /** One action of a script, and what it does to the session. */
  method Turn(config: Config, digestOf: Content -> u64, store: DurableStore, g: FairnessGovernor?, script: seq<Action>, i: nat,
              pool: seq<FairnessDecision>, told: Told, ghost start: Book, ghost b: Book, ghost origins: seq<State>, ghost lost: nat,
              ghost distinct: bool)
    returns (next: FairnessGovernor?, pool': seq<FairnessDecision>, told': Told, ghost after: Book, ghost origins': seq<State>, ghost lost': nat)
    requires i < |script| && Underway(g, store, digestOf, pool, told, start, b, origins, lost, script, i, distinct)
    requires distinct ==> DistinctOpenings(script)
    modifies store.disk, if g == null then {} else {g}
    ensures Underway(next, store, digestOf, pool', told', start, after, origins', lost', script, i + 1, distinct)
    ensures next == null || next == g || fresh(next)
    ensures store.disk.faults >= old(store.disk.faults) + lost' - lost && lost' >= lost
  {
    ghost var s := ViewOf(g);
    ghost var takes := g != null && Takes(g, pool, script[i]);
    ghost var u := R.Setup(if g == null then Limits(0, 0) else g.limits, digestOf);
    var reply;
    next, reply, after := Act(config, digestOf, store, g, script[i], pool, b);
    TurnLeaves(start, b, after, s, ViewOf(next), ViewOf(g), u, pool, origins, script, i, told, reply, lost, takes,
      store.disk.faults == old(store.disk.faults), distinct);
    told', lost' := ToldMore(told, reply), lost + if Lost(s, script[i], ViewOf(next)) then 1 else 0;
    pool', origins' := PoolAfter(pool, reply), OriginsAfter(origins, reply, ViewOf(next));
  }

  lemma {:induction false} NothingYet(store: DurableStore, start: Book, script: seq<Action>, digestOf: Content -> u64, distinct: bool)
    requires Recorded(store.disk.files, start, store.disk.atomicRename) && (distinct ==> AllProjected(start.deeds))
    ensures Underway(null, store, digestOf, [], Told([], []), start, start, [], 0, script, 0, distinct)
  {
    NothingSaid(start);
    NothingTraced(script[..0], digestOf, start.deeds, distinct);
  }

  lemma {:induction false} NothingSaid(start: Book)
    ensures SoFar(start, start, Told([], []), 0)
  {
    assert Numbers(start.deeds) + [] == Numbers(start.deeds);
  }

  lemma {:induction false} NothingTraced(script: seq<Action>, digestOf: Content -> u64, deeds: seq<Deed>, distinct: bool)
    requires distinct ==> AllProjected(deeds)
    ensures Traced([], [], None, script, digestOf, deeds, distinct)
  {
  }

  /** Any script of actions, over a store on which a book is on record. The deeds and
      the policies on record only grow, windows strictly increasing, policies ever
      newer; the disk holds exactly them, kind by kind, unless the kind has sunk,
      which never happens where renames are atomic; everything a client was told is
      among them, and every window it was not told of was committed by an action the
      process did not survive, one at most each, which takes a file operation that
      does not complete; and if no incarnation opens twice, every committed decision
      left exactly the carries its evaluation projected. */
  method Session(config: Config, digestOf: Content -> u64, store: DurableStore, script: seq<Action>, ghost start: Book)
    returns (told: Told, serving: FairnessGovernor?, ghost b: Book, ghost lost: nat)
    requires Recorded(store.disk.files, start, store.disk.atomicRename)
    modifies store.disk
    ensures Recorded(store.disk.files, b, store.disk.atomicRename)
    ensures Grown(start, b, told) && Counts(start, b, told, lost)
    ensures store.disk.faults >= old(store.disk.faults) + lost
    ensures Alive(serving, store, b)
    ensures DistinctOpenings(script) && AllProjected(start.deeds) ==> AllProjected(b.deeds)
  {
    ghost var pool, origins;
    told, serving, pool, b, origins, lost := Play(config, digestOf, store, script, |script|, start,
      DistinctOpenings(script) && AllProjected(start.deeds));
  }

  /** The first n actions of a script. */
  method Play(config: Config, digestOf: Content -> u64, store: DurableStore, script: seq<Action>, n: nat, ghost start: Book, ghost distinct: bool)
    returns (told: Told, serving: FairnessGovernor?, pool: seq<FairnessDecision>, ghost b: Book, ghost origins: seq<State>, ghost lost: nat)
    requires n <= |script| && Recorded(store.disk.files, start, store.disk.atomicRename)
    requires distinct ==> DistinctOpenings(script) && AllProjected(start.deeds)
    modifies store.disk
    ensures serving != null ==> fresh(serving)
    ensures Underway(serving, store, digestOf, pool, told, start, b, origins, lost, script, n, distinct)
    ensures store.disk.faults >= old(store.disk.faults) + lost
  {
    if n == 0 {
      told, serving, pool, b, origins, lost := Told([], []), null, [], start, [], 0;
      NothingYet(store, start, script, digestOf, distinct);
      return;
    }
    told, serving, pool, b, origins, lost := Play(config, digestOf, store, script, n - 1, start, distinct);
    serving, pool, told, b, origins, lost :=
      Turn(config, digestOf, store, serving, script, n - 1, pool, told, start, b, origins, lost, distinct);
  }

  /** A store without records is where the empty book is on record. */
  lemma {:induction false} EmptyStore(files: Files, atomicRename: bool)
    requires AllTidy(files) && LoadFrom(files, PolicyRecord).Absent? && LoadFrom(files, AccountingRecord).Absent?
    ensures Recorded(files, Book([], [], []), atomicRename)
  {
  }

  /** What a session leaves, read off the disk. Where renames are atomic, and on any
      volume while a governor serves, both records hold exactly what the book says;
      so a governor never serves anything rolled back. */
  lemma {:induction false} OnRecord(files: Files, b: Book, atomicRename: bool)
    requires Recorded(files, b, atomicRename)
    ensures atomicRename || !LoadFrom(files, AccountingRecord).Unusable? ==> AccountsFor(files, b.deeds)
    ensures atomicRename || !LoadFrom(files, PolicyRecord).Unusable? ==> PolicyStands(files, b.policies)
  {
  }

  lemma {:induction false} ServesWhatIsRecorded(g: FairnessGovernor, store: DurableStore, b: Book)
    requires Recorded(store.disk.files, b, store.disk.atomicRename) && Healthy(g, store, b)
    ensures AccountsFor(store.disk.files, b.deeds) && PolicyStands(store.disk.files, b.policies)
    ensures Replayed(b.deeds + b.pending) == Some(g.accounting.subjects)
    ensures g.accounting.generation == |Numbers(b.deeds)| && g.accounting.lastWindow == LastOf(Numbers(b.deeds))
  {
    OnRecord(store.disk.files, b, store.disk.atomicRename);
    LinkedEnds(g.accounting, g.accountingRecord, store.disk.files, b.deeds, b.pending);
    PendingHasNoNumbers(b.deeds, b.pending);
  }
}
