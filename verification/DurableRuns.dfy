// Runs across crashes and reopens: whatever the clients do and wherever the process
// dies, the disk holds exactly what was committed to it.

module DurableRuns {
  import opened Core
  import opened Bytes
  import opened Digest
  import opened Record
  import opened Disk
  import opened Store
  import opened Policy
  import opened Accounting
  import opened Evidence
  import opened Decision
  import opened AccountingCodec
  import opened PolicyCodec
  import opened Commitment
  import opened CommitmentLaws
  import opened Lifecycle
  import R = Runs
  import opened History
  import opened Governor
  import opened Opening

  // --- The accounting on disk -----------------------------------------------------------------------

  ghost predicate Increasing(ws: seq<nat>) {
    forall i, j :: 0 <= i < j < |ws| ==> ws[i] < ws[j]
  }

  /** Committed windows strictly increase, and each policy bounds its carries. */
  ghost predicate Proper(deeds: seq<Deed>) {
    Lawful(deeds) && Increasing(Numbers(deeds)) && forall i :: 0 <= i < |Numbers(deeds)| ==> Numbers(deeds)[i] > 0
  }

  function LastOf(ws: seq<nat>): nat {
    if ws == [] then 0 else ws[|ws| - 1]
  }

  /** The accounting after exactly these deeds: their entries, a generation for
      each window, and the last window. */
  ghost predicate Ends(a: FairnessAccounting, deeds: seq<Deed>) {
    && a.generation == |Numbers(deeds)| && a.lastWindow == LastOf(Numbers(deeds))
    && Replayed(deeds) == Some(a.subjects)
  }

  /** What stands on disk is what exactly these deeds lead to. */
  ghost predicate AccountsFor(files: Files, deeds: seq<Deed>) {
    && Proper(deeds)
    && match StandingOf(files, AccountingRecord)
       case Nothing => deeds == []
       case Ruined => false
       case Kept(r) => DecodedAccounting(r.payload).Ok? && Ends(DecodedAccounting(r.payload).value, deeds)
  }

  /** So every carry on disk reflects exactly the windows committed for its subject
      since that was last dropped, and the population's total the nets. */
  lemma {:induction false} DurableCarries(files: Files, deeds: seq<Deed>, id: u64)
    requires AccountsFor(files, deeds) && StandingOf(files, AccountingRecord).Kept?
    ensures
      var durable := DecodedAccounting(StandingOf(files, AccountingRecord).record.payload).value;
      Reflects(CarryOf(durable.subjects, id), WindowsSince(deeds, id)) && TotalSigned(durable.subjects) == NetOfDeeds(deeds)
  {
    ReplayedReflects(deeds, id);
    ReplayedTotal(deeds);
  }

  lemma {:induction false} ProperOneMore(deeds: seq<Deed>, deed: Deed)
    requires Proper(deeds) && deed.policy.maxCarry <= MAX_CARRY_UNITS
    requires deed.Committed? ==> deed.content.authority.window > LastOf(Numbers(deeds))
    ensures Proper(deeds + [deed])
  {
    NumbersOneMore(deeds, deed);
    var (ws, after) := (Numbers(deeds), Numbers(deeds + [deed]));
    forall i, j | 0 <= i < j < |after|
      ensures after[i] < after[j]
    {
      if j == |ws| {
        assert ws[i] <= LastOf(ws);
      }
    }
  }

  // --- Memory over the disk -------------------------------------------------------------------------------

  /** What a run has made durable: deeds, then policies; and what memory has dropped
      in reopening that the disk still has. */
  datatype Book = Book(deeds: seq<Deed>, pending: seq<Deed>, policies: seq<FairnessPolicy>)

  /** Memory is the disk's deeds, less what reopening dropped. */
  ghost predicate Pending(deeds: seq<Deed>, pending: seq<Deed>, entries: seq<SubjectAccounting>) {
    && (pending == [] || exists p: FairnessPolicy :: p.maxCarry <= MAX_CARRY_UNITS && pending == [Reopened(p)])
    && Replayed(deeds + pending) == Some(entries)
  }

  lemma {:induction false} PendingEnds(a: FairnessAccounting, deeds: seq<Deed>, pending: seq<Deed>)
    requires Proper(deeds) && Pending(deeds, pending, a.subjects)
    requires a.generation == |Numbers(deeds)| && a.lastWindow == LastOf(Numbers(deeds))
    ensures Proper(deeds + pending) && Ends(a, deeds + pending)
  {
    if pending == [] {
      assert deeds + pending == deeds;
    } else {
      NumbersOneMore(deeds, pending[0]);
      ProperOneMore(deeds, pending[0]);
      assert pending == [pending[0]];
    }
  }

  /** Memory linked to a disk that these deeds account for has their generation and
      last window. */
  lemma {:induction false} LinkedEnds(a: FairnessAccounting, record: u64, files: Files, deeds: seq<Deed>, pending: seq<Deed>)
    requires Linked(a, record, files) && AccountsFor(files, deeds) && Pending(deeds, pending, a.subjects)
    ensures Proper(deeds + pending) && Ends(a, deeds + pending)
  {
    PendingEnds(a, deeds, pending);
  }

  /** A step that may have made the accounting a durable leaves the old deeds
      standing or the further ones; only where renames tear, possibly neither. */
  lemma {:induction false} StepDeeds(before: Files, files: Files, exit: Exit, r: Record, atomicRename: bool,
                                     a: FairnessAccounting, deeds: seq<Deed>, further: seq<Deed>) returns (after: seq<Deed>)
    requires AccountsFor(before, deeds) && !LoadFrom(before, AccountingRecord).Unusable?
    requires AccountingStep(before, files, exit, r, atomicRename)
    requires r.payload == EncodedAccounting(a) && Keepable(a) && Proper(further) && Ends(a, further)
    ensures after in {deeds, further}
    ensures AccountsFor(files, after) || Sunk(files, AccountingRecord)
    ensures exit.Returned? ==> after == if exit == Returned(Okay) then further else deeds
    ensures atomicRename || exit.Returned? ==> !LoadFrom(files, AccountingRecord).Unusable?
  {
    if exit == Returned(Okay) || (exit.Died? && StandingOf(files, AccountingRecord) == Kept(r)) {
      KeepableHolds(files, AccountingRecord, r, a);
      after := further;
    } else {
      after := deeds;
    }
  }

  /** Memory and disk still agree after a step that returned. */
  lemma {:induction false} StepLinked(accounting: FairnessAccounting, record: u64, before: Files, files: Files, exit: Exit, r: Record,
                                      atomicRename: bool, a: FairnessAccounting)
    requires Linked(accounting, record, before) && AccountingStep(before, files, exit, r, atomicRename) && exit.Returned?
    requires r.payload == EncodedAccounting(a) && Keepable(a)
    ensures exit == Returned(Okay) ==> Linked(a, r.generation, files)
    ensures exit != Returned(Okay) ==> Linked(accounting, record, files)
  {
    if exit == Returned(Okay) {
      KeepableHolds(files, AccountingRecord, r, a);
    }
  }

  /** The same accounting under another policy and a later epoch. */
  ghost predicate SameWindows(a: FairnessAccounting, b: FairnessAccounting) {
    && a.epoch <= b.epoch && b == a.(policyId := b.policyId, policyGeneration := b.policyGeneration, epoch := b.epoch)
  }

  lemma {:induction false} Relinked(a: FairnessAccounting, b: FairnessAccounting, record: u64, files: Files)
    requires Linked(a, record, files) && SameWindows(a, b)
    ensures Linked(b, record, files)
  {
  }

  // --- The policy on disk -----------------------------------------------------------------------------------

  /** Policies of one identity, each newer than the ones before it. */
  ghost predicate Succession(ps: seq<FairnessPolicy>) {
    forall i, j :: 0 <= i < j < |ps| ==> ps[i].id == ps[j].id && ps[i].generation < ps[j].generation
  }

  /** The last of these policies is the one that stands. */
  ghost predicate PolicyStands(files: Files, ps: seq<FairnessPolicy>) {
    && Succession(ps)
    && match StandingOf(files, PolicyRecord)
       case Nothing => ps == []
       case Ruined => false
       case Kept(r) => ps != [] && ParsedPolicy(r.payload) == Ok(ps[|ps| - 1])
  }

  lemma {:induction false} SuccessionOneMore(ps: seq<FairnessPolicy>, p: FairnessPolicy)
    requires Succession(ps)
    requires ps != [] ==> ps[|ps| - 1].id == p.id && ps[|ps| - 1].generation < p.generation
    ensures Succession(ps + [p])
  {
    forall i, j | 0 <= i < j < |ps + [p]|
      ensures (ps + [p])[i].id == (ps + [p])[j].id && (ps + [p])[i].generation < (ps + [p])[j].generation
    {
      if j == |ps| && i < |ps| - 1 {
        assert ps[i].generation < ps[|ps| - 1].generation;
      }
    }
  }

  /** What the policy in memory has to do with the one that stands. */
  lemma {:induction false} LinkedStands(p: FairnessPolicy, record: u64, files: Files, ps: seq<FairnessPolicy>)
    requires LinkedPolicy(p, record, files) && PolicyStands(files, ps)
    ensures ps != []
    ensures ps[|ps| - 1].id == p.id && ps[|ps| - 1].generation == p.generation
    ensures Checksum(EncodedPolicy(ps[|ps| - 1])) == Checksum(EncodedPolicy(p))
  {
  }

  /** A step that may have made the policy p durable leaves the old succession
      standing or the longer one; only where renames tear, possibly neither. */
  lemma {:induction false} StepPolicies(before: Files, files: Files, r: Record, atomicRename: bool, p: FairnessPolicy, ps: seq<FairnessPolicy>)
    returns (after: seq<FairnessPolicy>)
    requires PolicyStands(before, ps) && !LoadFrom(before, PolicyRecord).Unusable? && CrashLeaves(before, files, PolicyRecord, r, atomicRename)
    requires ParsedPolicy(r.payload) == Ok(p) && Succession(ps + [p])
    ensures after in {ps, ps + [p]}
    ensures PolicyStands(files, after) || Sunk(files, PolicyRecord)
    ensures StandingOf(files, PolicyRecord) == StandingOf(before, PolicyRecord) && StandingOf(before, PolicyRecord) != Kept(r) ==> after == ps
    ensures StandingOf(files, PolicyRecord) == Kept(r) ==> after == ps + [p]
  {
    after := if StandingOf(files, PolicyRecord) == Kept(r) then ps + [p] else ps;
  }

  /** The same for an installation: the longer succession exactly when memory has
      the new policy, once it returned. */
  lemma {:induction false} InstallPolicies(before: Files, files: Files, exit: Exit, installed: bool, r: Record, atomicRename: bool,
                                           p: FairnessPolicy, ps: seq<FairnessPolicy>)
    returns (after: seq<FairnessPolicy>)
    requires PolicyStands(before, ps) && !LoadFrom(before, PolicyRecord).Unusable?
    requires PolicyStep(before, files, exit, installed, r, atomicRename)
    requires ParsedPolicy(r.payload) == Ok(p) && Succession(ps + [p])
    ensures after in {ps, ps + [p]}
    ensures PolicyStands(files, after) || Sunk(files, PolicyRecord)
    ensures exit.Returned? ==> after == if installed then ps + [p] else ps
    ensures atomicRename || exit.Returned? ==> !LoadFrom(files, PolicyRecord).Unusable?
  {
    if exit.Died? {
      after := StepPolicies(before, files, r, atomicRename, p, ps);
    } else if installed {
      after := ps + [p];
      assert StandingOf(files, PolicyRecord) == Kept(r);
    } else {
      after := ps;
      assert StandingOf(files, PolicyRecord) == StandingOf(before, PolicyRecord);
    }
  }

  /** A newer policy than the one in memory is newer than the one that stands. */
  lemma {:induction false} NewerSucceeds(q: FairnessPolicy, record: u64, files: Files, ps: seq<FairnessPolicy>, p: FairnessPolicy)
    requires LinkedPolicy(q, record, files) && PolicyStands(files, ps) && p.id == q.id && p.generation > q.generation
    ensures Succession(ps + [p])
  {
    LinkedStands(q, record, files, ps);
    SuccessionOneMore(ps, p);
  }

  // --- What is on record, and what serves ------------------------------------------------------------------

  /** The disk holds exactly what the book says, kind by kind, unless a kind has
      sunk; and where renames are atomic, none ever does. */
  ghost predicate Recorded(files: Files, b: Book, atomicRename: bool) {
    && AllTidy(files) && Proper(b.deeds) && Succession(b.policies)
    && (AccountsFor(files, b.deeds) || Sunk(files, AccountingRecord))
    && (PolicyStands(files, b.policies) || Sunk(files, PolicyRecord))
    && (atomicRename ==> !LoadFrom(files, AccountingRecord).Unusable? && !LoadFrom(files, PolicyRecord).Unusable?)
  }

  /** A policy and accounting in memory that continue what the disk holds. */
  ghost predicate Continuing(p: FairnessPolicy, a: FairnessAccounting, policyRecord: u64, record: u64, files: Files, b: Book) {
    Keepable(a) && Linked(a, record, files) && LinkedPolicy(p, policyRecord, files) && Pending(b.deeds, b.pending, a.subjects)
  }

  /** A decision a client may hand in: any the engine produced. */
  ghost predicate Evaluated(d: FairnessDecision) {
    Plausible(d.content.subjects) && ShortStates(d.content.subjects)
  }

  /** A commit is one more deed. */
  lemma {:induction false} CommitIsDeed(l: Ledger, d: FairnessDecision, digestOf: Content -> u64, deeds: seq<Deed>)
    requires Proper(deeds) && Ends(l.accounting, deeds) && CommitOutcome(l, d, digestOf).Ok? && l.policy.maxCarry <= MAX_CARRY_UNITS
    ensures Proper(deeds + [Committed(l.policy, d.content)])
    ensures Ends(CommitOutcome(l, d, digestOf).value, deeds + [Committed(l.policy, d.content)])
  {
    var deed := Committed(l.policy, d.content);
    ReplayedOneMore(deeds, deed);
    NumbersOneMore(deeds, deed);
    ProperOneMore(deeds, deed);
  }

  ghost function DeedsAfterCommit(b: Book, p: FairnessPolicy, content: Content): seq<Deed> {
    b.deeds + b.pending + [Committed(p, content)]
  }

  /** What a commit that is not refused would make durable. */
  lemma {:induction false} CommitDeeds(l: Ledger, d: FairnessDecision, digestOf: Content -> u64, record: u64, files: Files, b: Book)
    requires AccountsFor(files, b.deeds) && Linked(l.accounting, record, files) && Pending(b.deeds, b.pending, l.accounting.subjects)
    requires Keepable(l.accounting) && Evaluated(d) && l.policy.maxCarry <= MAX_CARRY_UNITS && CommitOutcome(l, d, digestOf).Ok?
    ensures Keepable(CommitOutcome(l, d, digestOf).value)
    ensures Proper(DeedsAfterCommit(b, l.policy, d.content))
    ensures Ends(CommitOutcome(l, d, digestOf).value, DeedsAfterCommit(b, l.policy, d.content))
  {
    LinkedEnds(l.accounting, record, files, b.deeds, b.pending);
    CommitIsDeed(l, d, digestOf, b.deeds + b.pending);
    CommitKeepsOrder(l, d, digestOf, false);
    CommitKeepsStreaks(l, d, digestOf);
  }

  lemma {:induction false} StillOnRecord(before: Files, files: Files, b: Book, after: Book, atomicRename: bool)
    requires Recorded(before, b, atomicRename) && OtherKindsKept(before, files, AccountingRecord) && AllTidy(files)
    requires Proper(after.deeds) && (AccountsFor(files, after.deeds) || Sunk(files, AccountingRecord))
    requires atomicRename ==> !LoadFrom(files, AccountingRecord).Unusable?
    requires after.policies == b.policies
    ensures Recorded(files, after, atomicRename)
  {
    OtherKindStands(before, files, AccountingRecord, PolicyRecord);
  }

  /** A step on the accounting: the deeds afterwards, and memory still in step. */
  lemma {:induction false} SettleDeeds(a: FairnessAccounting, record: u64, before: Files, files: Files, exit: Exit, a': FairnessAccounting,
                                       next: FairnessAccounting, r: Record, atomicRename: bool,
                                       deeds: seq<Deed>, pending: seq<Deed>, further: seq<Deed>)
    returns (deeds': seq<Deed>, pending': seq<Deed>)
    requires AccountsFor(before, deeds) && Keepable(a) && Linked(a, record, before) && Pending(deeds, pending, a.subjects)
    requires AccountingStep(before, files, exit, r, atomicRename)
    requires r.payload == EncodedAccounting(next) && Keepable(next) && Proper(further) && Ends(next, further)
    requires exit.Returned? ==> if exit.status == Okay then a' == next else SameWindows(a, a')
    ensures AccountsFor(files, deeds') || Sunk(files, AccountingRecord)
    ensures atomicRename ==> !LoadFrom(files, AccountingRecord).Unusable?
    ensures deeds' in {deeds, further}
    ensures exit == Returned(Okay) ==> deeds' == further && pending' == []
    ensures exit.Returned? && exit.status != Okay ==> deeds' == deeds && pending' == pending
    ensures exit.Returned? ==>
      && Keepable(a') && Linked(a', if exit == Returned(Okay) then r.generation else record, files)
      && Pending(deeds', pending', a'.subjects)
  {
    deeds' := StepDeeds(before, files, exit, r, atomicRename, next, deeds, further);
    pending' := if exit.Returned? && exit.status != Okay then pending else [];
    if exit.Returned? {
      StepLinked(a, record, before, files, exit, r, atomicRename, next);
      if exit == Returned(Okay) {
        assert further + [] == further;
      } else {
        Relinked(a, a', record, files);
      }
    }
  }

  lemma {:induction false} SettleAccounting(p: FairnessPolicy, a: FairnessAccounting, policyRecord: u64, record: u64, before: Files, files: Files,
                                            exit: Exit, a': FairnessAccounting, next: FairnessAccounting, r: Record, atomicRename: bool,
                                            b: Book, further: seq<Deed>)
    returns (after: Book)
    requires Recorded(before, b, atomicRename) && Continuing(p, a, policyRecord, record, before, b) && AllTidy(files)
    requires AccountingStep(before, files, exit, r, atomicRename) && OtherKindsKept(before, files, AccountingRecord)
    requires r.payload == EncodedAccounting(next) && Keepable(next) && Proper(further) && Ends(next, further)
    requires exit.Returned? ==> if exit.status == Okay then a' == next else SameWindows(a, a')
    ensures Recorded(files, after, atomicRename) && after.policies == b.policies
    ensures after.deeds in {b.deeds, further}
    ensures exit == Returned(Okay) ==> after.deeds == further && after.pending == []
    ensures exit.Returned? && exit.status != Okay ==> after == b
    ensures exit.Returned? ==> Continuing(p, a', policyRecord, if exit == Returned(Okay) then r.generation else record, files, after)
  {
    var deeds, pending := SettleDeeds(a, record, before, files, exit, a', next, r, atomicRename, b.deeds, b.pending, further);
    after := Book(deeds, pending, b.policies);
    StillOnRecord(before, files, b, after, atomicRename);
    OtherKindStands(before, files, AccountingRecord, PolicyRecord);
  }

  // --- Single operations on a governor -----------------------------------------------------------------

  /** A governor that serves over this store. */
  ghost predicate Healthy(g: FairnessGovernor, store: DurableStore, b: Book)
    reads g, store.disk
  {
    g.store == store && g.Valid() && Continuing(g.policy, g.accounting, g.policyRecord, g.accountingRecord, store.disk.files, b)
  }

  /** A process only dies in a file operation that does not complete. */
  ghost predicate Tallied(exit: Exit, before: nat, faults: nat) {
    faults >= before && (exit.Died? ==> faults > before)
  }

  /** What a serving governor's store does not refuse: anything within the payload
      bound, while its record numbers last. So if no file operation fails, whatever
      the governor accepts becomes durable. */
  lemma {:induction false} StoreTakesNext(g: FairnessGovernor, store: DurableStore, b: Book, kind: RecordKind, payload: seq<byte>)
    requires Healthy(g, store, b) && g.governor.Live()
    requires g.policyRecord + 1 < U64_END && g.accountingRecord + 1 < U64_END
    ensures g.StoreTakes(kind, payload) <==> |payload| <= MAX_PAYLOAD_BYTES
  {
  }

  lemma {:induction false} PolicyBoundsCarry(p: FairnessPolicy)
    requires ValidPolicy(p)
    ensures p.maxCarry <= MAX_CARRY_UNITS
  {
  }

  /** What a commit leaves: memory, its record number, and the disk. */
  ghost predicate CommitLeaves(s: State, t: State, verdict: Result<FairnessAccounting>, record: u64, record': u64,
                               before: Files, files: Files, exit: Exit, atomicRename: bool) {
    && AllTidy(files) && OtherKindsKept(before, files, AccountingRecord)
    && (verdict.Err? ==> files == before && exit.Returned? && exit.status != Okay)
    && (verdict.Ok? ==>
        AccountingStep(before, files, exit, Record(NextRecord(record), s.governor, EncodedAccounting(verdict.value)), atomicRename))
    && (exit.Returned? ==> t == if exit.status == Okay && verdict.Ok? then s.(accounting := verdict.value) else s)
    && (exit == Returned(Okay) ==> verdict.Ok?)
    && record' == if exit == Returned(Okay) then NextRecord(record) else record
  }

  /** One more deed if the commit was acknowledged, possibly if the process died, and
      none if it was refused or reported failure. */
  ghost predicate CommitMoves(b: Book, after: Book, s: State, d: FairnessDecision, verdict: Result<FairnessAccounting>, exit: Exit) {
    && after.policies == b.policies
    && (after.deeds == b.deeds || (verdict.Ok? && after.deeds == DeedsAfterCommit(b, s.policy, d.content)))
    && (exit == Returned(Okay) ==> after.deeds == DeedsAfterCommit(b, s.policy, d.content))
    && (exit.Returned? && exit.status != Okay ==> after == b)
  }

  /** The store takes what a commit of this decision would make durable. */
  ghost predicate CommitTaken(g: FairnessGovernor, d: FairnessDecision)
    reads g, g.Disk()
  {
    var verdict := CommitVerdict(g.View(), d, g.digestOf);
    verdict.Ok? && g.StoreTakes(AccountingRecord, EncodedAccounting(verdict.value))
  }

  /** Undisturbed, what is not refused and what the store takes is committed. */
  ghost predicate CommitDue(verdict: Result<FairnessAccounting>, taken: bool, calm: bool, exit: Exit) {
    calm && verdict.Ok? && taken ==> exit == Returned(Okay)
  }

  method CommitOver(g: FairnessGovernor, store: DurableStore, d: FairnessDecision) returns (exit: Exit)
    requires g.store == store && g.Valid() && AllTidy(store.disk.files) && Evaluated(d)
    modifies g`accounting, g`accountingRecord, store.disk
    ensures exit.Returned? ==> g.Valid()
    ensures Tallied(exit, old(store.disk.faults), store.disk.faults)
    ensures CommitDue(CommitVerdict(old(g.View()), d, g.digestOf), old(CommitTaken(g, d)), store.disk.faults == old(store.disk.faults), exit)
    ensures CommitLeaves(old(g.View()), g.View(), CommitVerdict(old(g.View()), d, g.digestOf), old(g.accountingRecord), g.accountingRecord,
                         old(store.disk.files), store.disk.files, exit, store.disk.atomicRename)
  {
    exit := g.Commit(d);
  }

  lemma {:induction false} CommitEvolves(s: State, t: State, d: FairnessDecision, digestOf: Content -> u64, durable: bool)
    requires t == s || (durable && CommitVerdict(s, d, digestOf).Ok? && t == s.(accounting := CommitVerdict(s, d, digestOf).value))
    ensures R.Evolves(s, t)
  {
    if t != s {
      R.StepEvolves(s, R.Setup(Limits(0, 0), digestOf), R.CommitOf(d, durable));
    }
  }

  /** Commits: one more deed if that was acknowledged, possibly if the process
      died, and then under exactly the policy and entries memory had. */
  method RunCommit(g: FairnessGovernor, store: DurableStore, d: FairnessDecision, ghost b: Book) returns (exit: Exit, ghost after: Book)
    requires Recorded(store.disk.files, b, store.disk.atomicRename) && Healthy(g, store, b) && Evaluated(d)
    modifies g`accounting, g`accountingRecord, store.disk
    ensures Recorded(store.disk.files, after, store.disk.atomicRename)
    ensures exit.Returned? ==> Healthy(g, store, after) && R.Evolves(old(g.View()), g.View())
    ensures exit.Returned? ==> g.View() == R.CommitStep(old(g.View()), d, g.digestOf, exit == Returned(Okay))
    ensures CommitMoves(b, after, old(g.View()), d, CommitVerdict(old(g.View()), d, g.digestOf), exit)
    ensures Tallied(exit, old(store.disk.faults), store.disk.faults)
    ensures CommitDue(CommitVerdict(old(g.View()), d, g.digestOf), old(CommitTaken(g, d)), store.disk.faults == old(store.disk.faults), exit)
  {
    ghost var (s, record, before) := (g.View(), g.accountingRecord, store.disk.files);
    PolicyBoundsCarry(g.policy);
    exit := CommitOver(g, store, d);
    if exit.Returned? {
      CommitEvolves(s, g.View(), d, g.digestOf, exit == Returned(Okay));
    }
    after := CommitSettles(s, g.View(), d, g.digestOf, CommitVerdict(s, d, g.digestOf), g.policyRecord, record, g.accountingRecord,
                           before, store.disk.files, exit, store.disk.atomicRename, b);
  }

  lemma {:induction false} CommitSettles(s: State, t: State, d: FairnessDecision, digestOf: Content -> u64, verdict: Result<FairnessAccounting>,
                                         policyRecord: u64, record: u64, record': u64, before: Files, files: Files, exit: Exit,
                                         atomicRename: bool, b: Book)
    returns (after: Book)
    requires verdict == CommitVerdict(s, d, digestOf) && Evaluated(d) && s.policy.maxCarry <= MAX_CARRY_UNITS
    requires Recorded(before, b, atomicRename) && Continuing(s.policy, s.accounting, policyRecord, record, before, b)
    requires CommitLeaves(s, t, verdict, record, record', before, files, exit, atomicRename)
    ensures Recorded(files, after, atomicRename)
    ensures exit.Returned? ==> Continuing(s.policy, t.accounting, policyRecord, record', files, after)
    ensures CommitMoves(b, after, s, d, verdict, exit)
  {
    if verdict.Err? {
      after := b;
    } else {
      CommitDeeds(LedgerOf(s), d, digestOf, record, before, b);
      after := SettleAccounting(s.policy, s.accounting, policyRecord, record, before, files, exit, t.accounting, verdict.value,
                                Record(NextRecord(record), s.governor, EncodedAccounting(verdict.value)), atomicRename, b,
                                DeedsAfterCommit(b, s.policy, d.content));
    }
  }

  /** What a step leaves that may only rewrite the accounting, under another policy
      or epoch: memory, its record number, and the disk. */
  ghost predicate QuietLeaves(a: FairnessAccounting, a': FairnessAccounting, next: FairnessAccounting, record: u64, record': u64,
                              governor: Incarnation, before: Files, files: Files, exit: Exit, atomicRename: bool) {
    && AllTidy(files) && SameWindows(a, next)
    && AccountingStep(before, files, exit, Record(NextRecord(record), governor, EncodedAccounting(next)), atomicRename)
    && (exit.Returned? ==> if exit.status == Okay then a' == next else SameWindows(a, a'))
    && record' == if exit == Returned(Okay) then NextRecord(record) else record
  }

  lemma {:induction false} QuietSettles(p: FairnessPolicy, a: FairnessAccounting, a': FairnessAccounting, next: FairnessAccounting,
                                        policyRecord: u64, record: u64, record': u64, governor: Incarnation, before: Files, files: Files,
                                        exit: Exit, atomicRename: bool, b: Book)
    returns (after: Book)
    requires Recorded(before, b, atomicRename) && Continuing(p, a, policyRecord, record, before, b)
    requires QuietLeaves(a, a', next, record, record', governor, before, files, exit, atomicRename)
    requires OtherKindsKept(before, files, AccountingRecord)
    ensures Recorded(files, after, atomicRename) && after.policies == b.policies
    ensures after.deeds in {b.deeds, b.deeds + b.pending}
    ensures exit.Returned? ==> Continuing(p, a', policyRecord, record', files, after)
  {
    LinkedEnds(a, record, before, b.deeds, b.pending);
    after := SettleAccounting(p, a, policyRecord, record, before, files, exit, a', next,
                              Record(NextRecord(record), governor, EncodedAccounting(next)), atomicRename, b, b.deeds + b.pending);
  }

  /** An advance is not refused, and the store takes what it would make durable. */
  ghost predicate AdvanceTaken(g: FairnessGovernor, next: u64)
    reads g, g.Disk()
  {
    EpochRefusal(g.View(), next) == Okay && g.StoreTakes(AccountingRecord, EncodedAccounting(Advanced(g.View(), next).accounting))
  }

  method AdvanceOver(g: FairnessGovernor, store: DurableStore, next: u64) returns (exit: Exit)
    requires g.store == store && g.Valid() && AllTidy(store.disk.files)
    modifies g, store.disk
    ensures exit.Returned? ==> g.Valid() && g.policy == old(g.policy) && R.Evolves(old(g.View()), g.View())
    ensures exit.Returned? ==> g.View() == R.EpochStep(old(g.View()), next, exit == Returned(Okay))
    ensures Tallied(exit, old(store.disk.faults), store.disk.faults)
    ensures store.disk.faults == old(store.disk.faults) && old(AdvanceTaken(g, next)) ==> exit == Returned(Okay)
    ensures QuietLeaves(old(g.accounting), g.accounting, Moved(old(g.accounting), next), old(g.accountingRecord), g.accountingRecord,
                        g.governor, old(store.disk.files), store.disk.files, exit, store.disk.atomicRename)
    ensures OtherKindsKept(old(store.disk.files), store.disk.files, AccountingRecord) && g.policyRecord == old(g.policyRecord)
  {
    ghost var s := g.View();
    exit := g.AdvanceEpoch(next);
    R.EpochEvolves(s, next, exit == Returned(Okay));
  }

  function Moved(a: FairnessAccounting, next: u64): FairnessAccounting {
    if next > a.epoch then a.(epoch := next) else a
  }

  /** Moving the epoch commits no window. */
  method RunAdvance(g: FairnessGovernor, store: DurableStore, next: u64, ghost b: Book) returns (exit: Exit, ghost after: Book)
    requires Recorded(store.disk.files, b, store.disk.atomicRename) && Healthy(g, store, b)
    modifies g, store.disk
    ensures Recorded(store.disk.files, after, store.disk.atomicRename) && after.policies == b.policies
    ensures exit.Returned? ==> Healthy(g, store, after) && R.Evolves(old(g.View()), g.View())
    ensures exit.Returned? ==> g.View() == R.EpochStep(old(g.View()), next, exit == Returned(Okay))
    ensures Tallied(exit, old(store.disk.faults), store.disk.faults)
    ensures store.disk.faults == old(store.disk.faults) && old(AdvanceTaken(g, next)) ==> exit == Returned(Okay)
    ensures after.deeds in {b.deeds, b.deeds + b.pending}
  {
    ghost var (p, a, record, before) := (g.policy, g.accounting, g.accountingRecord, store.disk.files);
    exit := AdvanceOver(g, store, next);
    after := QuietSettles(p, a, g.accounting, Moved(a, next), g.policyRecord, record, g.accountingRecord, g.governor,
                          before, store.disk.files, exit, store.disk.atomicRename, b);
  }

  /** What an installation leaves of the policy: in memory, its record number, and
      on disk. */
  ghost predicate InstallLeaves(q: FairnessPolicy, q': FairnessPolicy, p: FairnessPolicy, accepted: bool, installed: bool,
                                policyRecord: u64, policyRecord': u64, governor: Incarnation, before: Files, files: Files, exit: Exit,
                                atomicRename: bool) {
    && (accepted ==>
        && p.id == q.id && p.generation > q.generation && (exit == Returned(Okay) ==> installed)
        && PolicyStep(before, files, exit, installed, Record(NextRecord(policyRecord), governor, EncodedPolicy(p)), atomicRename)
        && (exit.Returned? ==>
            q' == (if installed then p else q) && policyRecord' == if installed then NextRecord(policyRecord) else policyRecord))
    && (!accepted ==>
        !installed && files == before && exit.Returned? && exit.status != Okay && q' == q && policyRecord' == policyRecord)
  }

  function InstallTarget(a: FairnessAccounting, p: FairnessPolicy): FairnessAccounting {
    a.(policyGeneration := p.generation, epoch := if p.epoch > a.epoch then p.epoch else a.epoch)
  }

  method InstallOver(g: FairnessGovernor, store: DurableStore, p: FairnessPolicy)
    returns (exit: Exit, ghost accepted: bool, ghost installed: bool)
    requires g.store == store && g.Valid() && AllTidy(store.disk.files)
    modifies g, store.disk
    ensures exit.Returned? ==> g.Valid() && R.Evolves(old(g.View()), g.View())
    ensures accepted <==> ValidPolicy(p) && InstallRefusal(old(g.View()), p) == Okay
    ensures Tallied(exit, old(store.disk.faults), store.disk.faults)
    ensures exit.Returned? ==> g.View() == R.InstallStep(old(g.View()), p, if installed then R.BothDurable else R.PolicyFailed)
    ensures accepted && store.disk.faults == old(store.disk.faults) && old(g.StoreTakesBoth(p)) ==> exit == Returned(Okay)
    ensures InstallLeaves(old(g.policy), g.policy, p, accepted, installed, old(g.policyRecord), g.policyRecord, g.governor,
                          old(store.disk.files), store.disk.files, exit, store.disk.atomicRename)
    ensures QuietLeaves(old(g.accounting), g.accounting, InstallTarget(old(g.accounting), p), old(g.accountingRecord), g.accountingRecord,
                        g.governor, old(store.disk.files), store.disk.files, exit, store.disk.atomicRename)
  {
    ghost var s := g.View();
    accepted := ValidPolicy(p) && InstallRefusal(s, p) == Okay;
    exit := g.InstallPolicy(p);
    installed := accepted && g.View() == Installed(s, p);
    ghost var how := if exit == Returned(Okay) then R.BothDurable else if g.View() == Installed(s, p) then R.AccountingFailed else R.PolicyFailed;
    R.InstallEvolves(s, p, how);
  }

  /** The policy side of an installation. */
  lemma {:induction false} InstallSettlesPolicy(q: FairnessPolicy, q': FairnessPolicy, p: FairnessPolicy, accepted: bool, installed: bool,
                                                policyRecord: u64, policyRecord': u64, governor: Incarnation, before: Files, files: Files,
                                                exit: Exit, atomicRename: bool, ps: seq<FairnessPolicy>)
    returns (after: seq<FairnessPolicy>)
    requires PolicyStands(before, ps) && LinkedPolicy(q, policyRecord, before) && (accepted ==> ValidPolicy(p))
    requires InstallLeaves(q, q', p, accepted, installed, policyRecord, policyRecord', governor, before, files, exit, atomicRename)
    ensures (after == ps || (accepted && after == ps + [p])) && Succession(after)
    ensures PolicyStands(files, after) || Sunk(files, PolicyRecord)
    ensures atomicRename ==> !LoadFrom(files, PolicyRecord).Unusable?
    ensures exit == Returned(Okay) ==> after == ps + [p]
    ensures exit.Returned? ==> (after == ps <==> !installed)
    ensures exit.Returned? ==> LinkedPolicy(q', policyRecord', files)
  {
    if accepted {
      var r := Record(NextRecord(policyRecord), governor, EncodedPolicy(p));
      PolicyRoundTrip(p);
      NewerSucceeds(q, policyRecord, before, ps, p);
      after := InstallPolicies(before, files, exit, installed, r, atomicRename, p, ps);
      if exit.Returned? {
        InstalledExactlyWhenHeld(q, policyRecord, before, files, exit, installed, p, r, atomicRename);
      }
    } else {
      after := ps;
    }
  }

  /** Installing commits no window; it succeeds the policy that stood if it was
      acknowledged, possibly if it failed or the process died, and never otherwise. */
  method RunInstall(g: FairnessGovernor, store: DurableStore, p: FairnessPolicy, ghost b: Book)
    returns (exit: Exit, ghost after: Book)
    requires Recorded(store.disk.files, b, store.disk.atomicRename) && Healthy(g, store, b)
    modifies g, store.disk
    ensures Recorded(store.disk.files, after, store.disk.atomicRename)
    ensures exit.Returned? ==> Healthy(g, store, after) && R.Evolves(old(g.View()), g.View())
    ensures after.deeds in {b.deeds, b.deeds + b.pending}
    ensures after.policies in {b.policies, b.policies + [p]}
    ensures exit == Returned(Okay) ==> after.policies == b.policies + [p]
    ensures exit.Returned? ==>
      g.View() == R.InstallStep(old(g.View()), p, if after.policies == b.policies then R.PolicyFailed else R.BothDurable)
    ensures Tallied(exit, old(store.disk.faults), store.disk.faults)
    ensures ValidPolicy(p) && InstallRefusal(old(g.View()), p) == Okay && store.disk.faults == old(store.disk.faults) && old(g.StoreTakesBoth(p)) ==>
      exit == Returned(Okay)
  {
    ghost var (q, a, before) := (g.policy, g.accounting, store.disk.files);
    ghost var (policyRecord, record) := (g.policyRecord, g.accountingRecord);
    ghost var accepted, installed;
    exit, accepted, installed := InstallOver(g, store, p);
    after := InstallSettles(q, g.policy, p, accepted, installed, policyRecord, g.policyRecord, a, g.accounting, record, g.accountingRecord,
                            g.governor, before, store.disk.files, exit, store.disk.atomicRename, b);
  }

  lemma {:induction false} InstallSettles(q: FairnessPolicy, q': FairnessPolicy, p: FairnessPolicy, accepted: bool, installed: bool,
                                          policyRecord: u64, policyRecord': u64, a: FairnessAccounting, a': FairnessAccounting,
                                          record: u64, record': u64, governor: Incarnation, before: Files, files: Files, exit: Exit,
                                          atomicRename: bool, b: Book)
    returns (after: Book)
    requires Recorded(before, b, atomicRename) && Continuing(q, a, policyRecord, record, before, b) && (accepted ==> ValidPolicy(p))
    requires InstallLeaves(q, q', p, accepted, installed, policyRecord, policyRecord', governor, before, files, exit, atomicRename)
    requires QuietLeaves(a, a', InstallTarget(a, p), record, record', governor, before, files, exit, atomicRename)
    ensures Recorded(files, after, atomicRename)
    ensures after.deeds in {b.deeds, b.deeds + b.pending}
    ensures after.policies in {b.policies, b.policies + [p]}
    ensures exit == Returned(Okay) ==> after.policies == b.policies + [p]
    ensures exit.Returned? ==> (after.policies == b.policies <==> !installed)
    ensures exit.Returned? ==> Continuing(q', a', policyRecord', record', files, after)
  {
    var r := Record(NextRecord(record), governor, EncodedAccounting(InstallTarget(a, p)));
    LinkedEnds(a, record, before, b.deeds, b.pending);
    var deeds, pending := SettleDeeds(a, record, before, files, exit, a', InstallTarget(a, p), r, atomicRename,
                                      b.deeds, b.pending, b.deeds + b.pending);
    var policies := InstallSettlesPolicy(q, q', p, accepted, installed, policyRecord, policyRecord', governor, before, files, exit,
                                         atomicRename, b.policies);
    after := Book(deeds, pending, policies);
  }

  method RunIngest(g: FairnessGovernor, store: DurableStore, e: Snapshot, ghost b: Book)
    requires Healthy(g, store, b)
    modifies g`staged, g`ingested, g`publishers
    ensures Healthy(g, store, b) && R.Evolves(old(g.View()), g.View()) && g.View() == R.IngestStep(old(g.View()), g.limits, e)
  {
    ghost var s := g.View();
    var r := g.IngestEvidence(e);
    R.StepEvolves(s, R.Setup(g.limits, g.digestOf), R.Ingest(e));
  }

  method RunShutdown(g: FairnessGovernor, store: DurableStore, ghost b: Book)
    requires Healthy(g, store, b)
    modifies g
    ensures Healthy(g, store, b) && R.Evolves(old(g.View()), g.View()) && g.View() == R.StopStep(old(g.View()))
  {
    ghost var s := g.View();
    g.Shutdown();
    R.StepEvolves(s, R.Setup(g.limits, g.digestOf), R.Stop);
  }

  // --- Opening ---------------------------------------------------------------------------------------------

  lemma {:induction false} RecoveredDeeds(before: Files, files: Files, deeds: seq<Deed>)
    requires SurvivesOrSinks(before, files, AccountingRecord)
    requires AccountsFor(before, deeds) || Sunk(before, AccountingRecord)
    ensures AccountsFor(files, deeds) || Sunk(files, AccountingRecord)
  {
  }

  lemma {:induction false} RecoveredPolicies(before: Files, files: Files, ps: seq<FairnessPolicy>)
    requires SurvivesOrSinks(before, files, PolicyRecord)
    requires PolicyStands(before, ps) || Sunk(before, PolicyRecord)
    ensures PolicyStands(files, ps) || Sunk(files, PolicyRecord)
  {
  }

  /** The succession after opening under a configured policy. */
  lemma {:induction false} RenewedPolicies(before: Files, files: Files, governor: Incarnation, p: FairnessPolicy, atomicRename: bool,
                                           ps: seq<FairnessPolicy>)
    returns (after: seq<FairnessPolicy>)
    requires PolicyRenewed(before, files, governor, p, atomicRename) && (PolicyStands(before, ps) || Sunk(before, PolicyRecord))
    requires ParsedPolicy(EncodedPolicy(p)) == Ok(p)
    requires atomicRename ==> !LoadFrom(before, PolicyRecord).Unusable?
    ensures after in {ps, ps + [p]} && (Succession(ps) ==> Succession(after))
    ensures PolicyStands(files, after) || Sunk(files, PolicyRecord)
    ensures atomicRename ==> !LoadFrom(files, PolicyRecord).Unusable?
  {
    after := ps;
    if LoadFrom(files, PolicyRecord) != LoadFrom(before, PolicyRecord) || StandingOf(files, PolicyRecord) != StandingOf(before, PolicyRecord) {
      var r := Successor(LoadFrom(before, PolicyRecord), governor, p);
      SupersedingSucceeds(before, p, ps);
      after := StepPolicies(before, files, r, atomicRename, p, ps);
    }
  }

  lemma {:induction false} SupersedingSucceeds(files: Files, p: FairnessPolicy, ps: seq<FairnessPolicy>)
    requires Supersedes(p, LoadFrom(files, PolicyRecord)) && (PolicyStands(files, ps) || Sunk(files, PolicyRecord))
    ensures PolicyStands(files, ps) && Succession(ps + [p])
  {
    SuccessionOneMore(ps, p);
  }

  /** What memory resumed is the deeds on disk, less what this policy dropped. */
  lemma {:induction false} ResumedPending(loaded: Loaded, p: FairnessPolicy, epoch: u64, a: FairnessAccounting, record: u64, files: Files,
                                          deeds: seq<Deed>)
    returns (pending: seq<Deed>)
    requires Resumes(loaded, p, epoch, a, record) && loaded == LoadFrom(files, AccountingRecord) && p.maxCarry <= MAX_CARRY_UNITS
    requires AccountsFor(files, deeds)
    ensures Pending(deeds, pending, a.subjects)
    ensures pending == if loaded.Absent? then [] else [Reopened(p)]
  {
    if loaded.Absent? {
      pending := [];
      assert deeds + pending == [];
    } else {
      pending := [Reopened(p)];
      ReplayedOneMore(deeds, Reopened(p));
    }
  }

  /** Opens, wherever the process dies: the deeds on record stay, the configured
      policy may succeed the one that stood, and a governor that serves has the
      newest policy and exactly the deeds, less what that policy does not govern. */
  method RunOpen(config: Config, store: DurableStore, governor: Incarnation, digestOf: Content -> u64, ghost b: Book)
    returns (g: FairnessGovernor?, ghost after: Book)
    requires Recorded(store.disk.files, b, store.disk.atomicRename)
    modifies store.disk
    ensures Recorded(store.disk.files, after, store.disk.atomicRename)
    ensures after.deeds == b.deeds && after.policies in {b.policies, b.policies + [config.policy]}
    ensures g != null ==>
      && fresh(g) && g.governor == governor && g.digestOf == digestOf && Healthy(g, store, after)
      && (after.pending == [] || after.pending == [Reopened(g.policy)])
    ensures store.disk.faults >= old(store.disk.faults)
    ensures store.disk.faults == old(store.disk.faults) ==> (g != null <==> Openable(old(store.disk.files), config, governor))
  {
    ghost var before := store.disk.files;
    var outcome;
    ghost var recovered;
    outcome, recovered := Open(config, store, governor, digestOf);
    after := OpenSettles(before, recovered, store.disk.files, governor, config.policy, store.disk.atomicRename, b);
    g := null;
    if outcome.Serving? {
      g := outcome.g;
      after := OpenLinks(g, config, recovered, store.disk.files, after);
    }
  }

  lemma {:induction false} OpenSettles(before: Files, recovered: Files, files: Files, governor: Incarnation, p: FairnessPolicy,
                                       atomicRename: bool, b: Book)
    returns (after: Book)
    requires Recorded(before, b, atomicRename) && AllTidy(files)
    requires SurvivesOrSinks(before, recovered, PolicyRecord) && SurvivesOrSinks(before, recovered, AccountingRecord)
    requires OtherKindsKept(recovered, files, PolicyRecord) && PolicyRenewed(recovered, files, governor, p, atomicRename)
    requires ValidPolicy(p) || files == before
    ensures Recorded(files, after, atomicRename)
    ensures after.deeds == b.deeds && after.policies in {b.policies, b.policies + [p]}
  {
    if files == before {
      after := b;
    } else {
      PolicyRoundTrip(p);
      RecoveredDeeds(before, recovered, b.deeds);
      RecoveredPolicies(before, recovered, b.policies);
      OtherKindStands(recovered, files, PolicyRecord, AccountingRecord);
      var policies := RenewedPolicies(recovered, files, governor, p, atomicRename, b.policies);
      after := Book(b.deeds, [], policies);
    }
  }

  lemma {:induction false} OpenLinks(g: FairnessGovernor, config: Config, recovered: Files, files: Files, b: Book) returns (after: Book)
    requires Served(g, config, recovered, files) && OtherKindsKept(recovered, files, PolicyRecord)
    requires AccountsFor(files, b.deeds) || Sunk(files, AccountingRecord)
    ensures after == b.(pending := after.pending) && (after.pending == [] || after.pending == [Reopened(g.policy)])
    ensures g.Valid() && Continuing(g.policy, g.accounting, g.policyRecord, g.accountingRecord, files, after)
  {
    OtherKindStands(recovered, files, PolicyRecord, AccountingRecord);
    PolicyBoundsCarry(g.policy);
    var epoch := if g.policy == config.policy then config.epoch else g.policy.epoch;
    var pending := ResumedPending(LoadFrom(recovered, AccountingRecord), g.policy, epoch, g.accounting, g.accountingRecord, files, b.deeds);
    after := b.(pending := pending);
  }
}
