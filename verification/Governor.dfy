// The governor: live policy, accounting and staged evidence over a durable store.
// Each operation runs under the state lock, so it is one step.

module Governor {
  import opened Core
  import opened Bytes
  import opened Record
  import opened Disk
  import opened Store
  import opened Policy
  import opened Accounting
  import opened Evidence
  import opened Decision
  import opened EvidenceCodec
  import opened AccountingCodec
  import opened PolicyCodec
  import opened Commitment
  import opened Digest
  import opened Lifecycle
  import opened LifecycleLaws
  import R = Runs

  function NextRecord(generation: u64): u64 {
    if generation == U64_END - 1 then 0 else generation + 1
  }

  /** What one durable commit may leave of a kind, depending on how it ended. */
  ghost predicate RecordCommit(kind: RecordKind, before: Files, after: Files, exit: Exit, r: Record, atomicRename: bool) {
    && Tidy(after, kind) && OtherKindsKept(before, after, kind)
    && (exit == Returned(Okay) ==> LoadFrom(after, kind) == Present(r))
    && (exit.Returned? && exit.status != Okay ==> LoadFrom(after, kind) == LoadFrom(before, kind))
    && (exit.Died? ==> CrashLeaves(before, after, kind, r, atomicRename))
  }

  /** What a step that commits the accounting at most once may leave of it. */
  ghost predicate AccountingStep(before: Files, after: Files, exit: Exit, r: Record, atomicRename: bool) {
    && (exit == Returned(Okay) ==> LoadFrom(after, AccountingRecord) == Present(r))
    && (exit.Returned? && exit.status != Okay ==> LoadFrom(after, AccountingRecord) == LoadFrom(before, AccountingRecord))
    && (exit.Died? ==> CrashLeaves(before, after, AccountingRecord, r, atomicRename))
  }

  /** What installing a policy may leave of the policy record: exactly the new one
      if memory has it, exactly the old one if not. */
  ghost predicate PolicyStep(before: Files, after: Files, exit: Exit, installed: bool, r: Record, atomicRename: bool) {
    && (exit.Returned? ==> LoadFrom(after, PolicyRecord) == if installed then Present(r) else LoadFrom(before, PolicyRecord))
    && (exit.Died? ==> CrashLeaves(before, after, PolicyRecord, r, atomicRename))
  }

  /** Nothing of the policy record moves once it is stored. */
  lemma {:induction false} StoredPolicyStays(before: Files, middle: Files, after: Files, exit: Exit, r: Record, atomicRename: bool)
    requires LoadFrom(middle, PolicyRecord) == Present(r) && OtherKindsKept(middle, after, AccountingRecord)
    ensures PolicyStep(before, after, exit, true, r, atomicRename)
  {
    OtherKindStands(middle, after, AccountingRecord, PolicyRecord);
  }

  /** The durable policy is the one in memory: same generation, same content. */
  ghost predicate LinkedPolicy(p: FairnessPolicy, record: u64, files: Files) {
    match LoadFrom(files, PolicyRecord)
    case Present(r) => r.generation == record && HoldsPolicy(r, p)
    case _ => false
  }

  /** A record of this policy, as far as generation and content digest tell. */
  ghost predicate HoldsPolicy(r: Record, p: FairnessPolicy) {
    && ParsedPolicy(r.payload).Ok?
    && var durable := ParsedPolicy(r.payload).value;
       && durable.id == p.id && durable.generation == p.generation
       && Checksum(EncodedPolicy(durable)) == Checksum(EncodedPolicy(p))
  }

  lemma {:induction false} EncodedIsHeld(r: Record, p: FairnessPolicy)
    requires ValidPolicy(p) && r.payload == EncodedPolicy(p)
    ensures HoldsPolicy(r, p) && ParsedPolicy(r.payload) == Ok(p)
  {
    PolicyRoundTrip(p);
  }

  /** After an installation that returned, memory and disk agree on the policy; and
      the new one is in memory exactly when the policy record holds it, whether or
      not success was reported. */
  lemma {:induction false} InstalledExactlyWhenHeld(q: FairnessPolicy, record: u64, before: Files, after: Files, exit: Exit, installed: bool,
                                                    p: FairnessPolicy, r: Record, atomicRename: bool)
    requires LinkedPolicy(q, record, before) && ValidPolicy(p) && p.generation > q.generation && r.payload == EncodedPolicy(p)
    requires PolicyStep(before, after, exit, installed, r, atomicRename) && exit.Returned?
    ensures LinkedPolicy(if installed then p else q, if installed then r.generation else record, after)
    ensures installed <==> LoadFrom(after, PolicyRecord).Present? && LoadFrom(after, PolicyRecord).record.payload == EncodedPolicy(p)
  {
    EncodedIsHeld(r, p);
  }

  lemma {:induction false} StepAfterPolicy(before: Files, middle: Files, after: Files, exit: Exit, r: Record, atomicRename: bool)
    requires OtherKindsKept(before, middle, PolicyRecord)
    requires AccountingStep(middle, after, exit, r, atomicRename)
    ensures AccountingStep(before, after, exit, r, atomicRename)
  {
    OtherKindStands(before, middle, PolicyRecord, AccountingRecord);
  }

  lemma {:induction false} PolicyAloneSteps(before: Files, after: Files, exit: Exit, r: Record, atomicRename: bool)
    requires OtherKindsKept(before, after, PolicyRecord) && exit != Returned(Okay)
    ensures AccountingStep(before, after, exit, r, atomicRename)
  {
    OtherKindStands(before, after, PolicyRecord, AccountingRecord);
  }

  ghost predicate AllTidy(files: Files) {
    Tidy(files, PolicyRecord) && Tidy(files, AccountingRecord)
  }

  lemma {:induction false} InstallIsStep(s: State, p: FairnessPolicy, how: R.Durability, t: State)
    requires ValidPolicy(p) && InstallRefusal(s, p) == Okay
    requires t == if how.PolicyFailed? then InstallUndone(s, p) else Installed(s, p)
    ensures t == R.InstallStep(s, p, how)
  {
  }

  /** A commit is one step of a run, and keeps the invariant. */
  lemma {:induction false} CommitIsStep(s: State, u: R.Setup, d: FairnessDecision, durable: bool, t: State)
    requires Consistent(s, u.limits)
    requires durable ==> CommitVerdict(s, d, u.digestOf).Ok? && t == s.(accounting := CommitVerdict(s, d, u.digestOf).value)
    ensures durable || t == s ==> t == R.CommitStep(s, d, u.digestOf, durable) && Consistent(t, u.limits)
  {
    R.StepConsistent(s, u, R.CommitOf(d, durable));
  }

  class FairnessGovernor {
    const limits: Limits
    const governor: Incarnation
    const digestOf: Content -> u64
    const store: DurableStore?
    var policy: FairnessPolicy
    var accounting: FairnessAccounting
    var epoch: u64
    var staged: map<nat, Snapshot>
    var ingested: map<nat, nat>
    var publishers: map<nat, u64>
    var stopping: bool
    var policyRecord: u64
    var accountingRecord: u64

    function View(): State
      reads this
    {
      State(policy, accounting, epoch, governor, staged, ingested, publishers, stopping)
    }

    ghost predicate Valid()
      reads this
    {
      Consistent(View(), limits)
    }

    ghost function Disk(): set<object> {
      if store == null then {} else {store.disk}
    }

    ghost predicate Ready()
      reads Disk()
    {
      store != null ==> AllTidy(store.disk.files)
    }

    constructor (policy: FairnessPolicy, accounting: FairnessAccounting, epoch: u64, governor: Incarnation, limits: Limits,
                 digestOf: Content -> u64, store: DurableStore?, policyRecord: u64, accountingRecord: u64)
      ensures View() == State(policy, accounting, epoch, governor, map[], map[], map[], false)
      ensures this.limits == limits && this.digestOf == digestOf && this.store == store
      ensures this.policyRecord == policyRecord && this.accountingRecord == accountingRecord
    {
      this.policy, this.accounting, this.epoch := policy, accounting, epoch;
      this.governor, this.limits, this.digestOf, this.store := governor, limits, digestOf, store;
      staged, ingested, publishers, stopping := map[], map[], map[], false;
      this.policyRecord, this.accountingRecord := policyRecord, accountingRecord;
    }

    /** The store would not refuse this payload as the next record of a kind. */
    ghost predicate StoreTakes(kind: RecordKind, payload: seq<byte>)
      reads this, Disk()
    {
      store == null ||
        (var record := if kind.PolicyRecord? then policyRecord else accountingRecord;
         Refusal(LoadFrom(store.disk.files, kind), record, NextRecord(record), payload, governor) == Okay)
    }

    /** No file operation has failed. */
    twostate predicate Undisturbed()
      reads Disk()
    {
      store != null ==> store.disk.faults == old(store.disk.faults)
    }

    /** A process only dies in a file operation that does not complete. */
    twostate predicate Counted(exit: Exit)
      reads Disk()
    {
      if store == null then exit.Returned?
      else store.disk.faults >= old(store.disk.faults) && (exit.Died? ==> store.disk.faults > old(store.disk.faults))
    }

    // --- The durable boundary ----------------------------------------------------------------

    method CommitAccounting() returns (exit: Exit)
      requires Ready()
      modifies `accountingRecord, Disk()
      ensures Ready()
      ensures Counted(exit)
      ensures store == null ==> exit == Returned(Okay) && accountingRecord == old(accountingRecord)
      ensures Undisturbed() && old(StoreTakes(AccountingRecord, EncodedAccounting(accounting))) ==> exit == Returned(Okay)
      ensures store != null ==>
        && RecordCommit(AccountingRecord, old(store.disk.files), store.disk.files, exit,
                        Record(NextRecord(old(accountingRecord)), governor, EncodedAccounting(accounting)), store.disk.atomicRename)
        && accountingRecord == if exit == Returned(Okay) then NextRecord(old(accountingRecord)) else old(accountingRecord)
    {
      if store == null {
        return Returned(Okay);
      }
      var payload := EncodeAccounting(accounting);
      exit := store.Commit(AccountingRecord, accountingRecord, NextRecord(accountingRecord), payload, governor);
      OtherKindStands(old(store.disk.files), store.disk.files, AccountingRecord, PolicyRecord);
      if exit == Returned(Okay) {
        accountingRecord := NextRecord(accountingRecord);
      }
    }

    method CommitPolicy() returns (exit: Exit)
      requires Ready()
      modifies `policyRecord, Disk()
      ensures Ready()
      ensures Counted(exit)
      ensures store == null ==> exit == Returned(Okay) && policyRecord == old(policyRecord)
      ensures Undisturbed() ==> (exit == Returned(Okay) <==> old(StoreTakes(PolicyRecord, EncodedPolicy(policy))))
      ensures store != null ==>
        && RecordCommit(PolicyRecord, old(store.disk.files), store.disk.files, exit,
                        Record(NextRecord(old(policyRecord)), governor, EncodedPolicy(policy)), store.disk.atomicRename)
        && policyRecord == if exit == Returned(Okay) then NextRecord(old(policyRecord)) else old(policyRecord)
    {
      if store == null {
        return Returned(Okay);
      }
      var payload := EncodePolicy(policy);
      exit := store.Commit(PolicyRecord, policyRecord, NextRecord(policyRecord), payload, governor);
      OtherKindStands(old(store.disk.files), store.disk.files, PolicyRecord, AccountingRecord);
      if exit == Returned(Okay) {
        policyRecord := NextRecord(policyRecord);
      }
    }

    // --- Evidence ------------------------------------------------------------------------------

    method DropEvidence()
      modifies `staged, `ingested, `publishers
      ensures View() == WithoutEvidence(old(View()))
    {
      staged, ingested, publishers := map[], map[], map[];
    }

    /** Validates and stages a snapshot; refused evidence changes nothing. */
    method IngestEvidence(e: Snapshot) returns (r: Result<Disposition>)
      requires Valid()
      modifies `staged, `ingested, `publishers
      ensures Valid()
      ensures !ValidEvidence(e) ==> r.Err? && View() == old(View())
      ensures ValidEvidence(e) ==>
        && r == (if IngestRefusal(old(View()), limits, e) != Okay then Err(IngestRefusal(old(View()), limits, e))
                 else Ok(DispositionOf(old(View()), e)))
        && View() == AfterIngest(old(View()), limits, e)
        && Tells(old(View()), limits, e, r)
      ensures View() == R.IngestStep(old(View()), limits, e)
    {
      var status := ValidateEvidence(e);
      if status != Okay {
        return Err(status);
      }
      IngestTells(View(), limits, e);
      var refusal := IngestRefusal(View(), limits, e);
      if refusal != Okay {
        return Err(refusal);
      }
      var key := IdentityKey(e.id, e.generation);
      if key in ingested {
        return Ok(DuplicateIgnored);
      }
      StagingConsistent(View(), limits, e);
      var encoded := EncodeEvidence(e);
      var digest := Fnv1a64(encoded, OFFSET_BASIS);
      Remember(e, key, digest, PublisherKey(e.producer));
      r := Ok(Staged);
    }

    method Remember(e: Snapshot, key: nat, digest: nat, publisher: nat)
      modifies `staged, `ingested, `publishers
      ensures View() == Remembered(old(View()), limits, e, key, digest, publisher)
    {
      var sequence := if publisher in publishers then Max(publishers[publisher], e.sequence) else e.sequence;
      var trimmedStaged := TrimTo(staged[e.window as nat := e], limits.maxStaged);
      var trimmedIngested := TrimTo(ingested[key := digest], limits.maxStaged * 4);
      var trimmedPublishers := TrimTo(publishers[publisher := sequence], MAX_PUBLISHERS);
      staged, ingested, publishers := trimmedStaged, trimmedIngested, trimmedPublishers;
    }

    // --- Policy and epoch ------------------------------------------------------------------------

    method AdoptPolicy(p: FairnessPolicy)
      modifies this
      ensures View() == Installed(old(View()), p)
      ensures policyRecord == old(policyRecord) && accountingRecord == old(accountingRecord)
    {
      if p.epoch > epoch {
        epoch := p.epoch;
        DropEvidence();
      }
      policy := p;
      accounting := accounting.(policyGeneration := p.generation, epoch := epoch);
    }

    /** Installs a newer policy and makes it durable, then the accounting that
        names it. Memory has the new policy exactly if the disk has. */
    method InstallPolicy(p: FairnessPolicy) returns (exit: Exit)
      requires Valid() && Ready()
      modifies this, Disk()
      ensures Counted(exit)
      ensures exit.Returned? ==> Valid()
      ensures Ready()
      ensures exit == Returned(Okay) ==>
        ValidPolicy(p) && InstallRefusal(old(View()), p) == Okay && View() == Installed(old(View()), p)
      ensures !ValidPolicy(p) || InstallRefusal(old(View()), p) != Okay ==>
        && View() == old(View()) && exit.Returned? && exit.status != Okay
        && (ValidPolicy(p) ==> exit == Returned(InstallRefusal(old(View()), p)))
        && policyRecord == old(policyRecord) && (store != null ==> store.disk.files == old(store.disk.files))
      ensures ValidPolicy(p) && InstallRefusal(old(View()), p) == Okay ==>
        && (exit.Returned? ==> View() in {InstallUndone(old(View()), p), Installed(old(View()), p)})
        && (store == null ==> exit == Returned(Okay))
        && (store != null ==>
            PolicyStep(old(store.disk.files), store.disk.files, exit, View() == Installed(old(View()), p),
                       Record(NextRecord(old(policyRecord)), governor, EncodedPolicy(p)), store.disk.atomicRename))
        && (exit.Returned? ==>
            policyRecord == if store != null && View() == Installed(old(View()), p) then NextRecord(old(policyRecord)) else old(policyRecord))
      ensures store != null ==> AccountingStep(old(store.disk.files), store.disk.files, exit,
        Record(NextRecord(old(accountingRecord)), governor, EncodedAccounting(Installed(old(View()), p).accounting)), store.disk.atomicRename)
      ensures accountingRecord == if exit == Returned(Okay) && store != null then NextRecord(old(accountingRecord)) else old(accountingRecord)
      ensures exit.Returned? ==> View() == R.InstallStep(old(View()), p, How(p, exit))
      ensures ValidPolicy(p) && InstallRefusal(old(View()), p) == Okay && Undisturbed() && old(StoreTakesBoth(p)) ==> exit == Returned(Okay)
    {
      var status := ValidatePolicy(p);
      if status != Okay {
        return Returned(status);
      }
      status := InstallRefusal(View(), p);
      if status != Okay {
        return Returned(status);
      }
      exit := InstallNewer(p);
    }

    /** Installs a valid policy that is not refused. */
    method InstallNewer(p: FairnessPolicy) returns (exit: Exit)
      requires Valid() && Ready() && ValidPolicy(p) && InstallRefusal(View(), p) == Okay
      modifies this, Disk()
      ensures Counted(exit)
      ensures Ready() && (exit.Returned? ==> Valid())
      ensures exit == Returned(Okay) ==> View() == Installed(old(View()), p)
      ensures exit.Returned? ==> View() in {InstallUndone(old(View()), p), Installed(old(View()), p)}
      ensures store == null ==> exit == Returned(Okay)
      ensures store != null ==>
        && PolicyStep(old(store.disk.files), store.disk.files, exit, View() == Installed(old(View()), p),
                      Record(NextRecord(old(policyRecord)), governor, EncodedPolicy(p)), store.disk.atomicRename)
        && AccountingStep(old(store.disk.files), store.disk.files, exit,
             Record(NextRecord(old(accountingRecord)), governor, EncodedAccounting(Installed(old(View()), p).accounting)), store.disk.atomicRename)
      ensures exit.Returned? ==>
        policyRecord == if store != null && View() == Installed(old(View()), p) then NextRecord(old(policyRecord)) else old(policyRecord)
      ensures accountingRecord == if exit == Returned(Okay) && store != null then NextRecord(old(accountingRecord)) else old(accountingRecord)
      ensures exit.Returned? ==> View() == R.InstallStep(old(View()), p, How(p, exit))
      ensures Undisturbed() && old(StoreTakesBoth(p)) ==> exit == Returned(Okay)
    {
      InstallConsistent(View(), limits, p);
      InstallsApart(View(), p);
      ghost var installed;
      exit, installed := ReplacePolicy(p);
      if exit.Returned? {
        InstallIsStep(old(View()), p, How(p, exit), View());
      }
    }

    /** How an installation went: both commits, none, or the first alone. */
    twostate function How(p: FairnessPolicy, exit: Exit): R.Durability
      reads this
    {
      if exit == Returned(Okay) then R.BothDurable
      else if View() == Installed(old(View()), p) then R.AccountingFailed else R.PolicyFailed
    }

    ghost predicate StoreTakesBoth(p: FairnessPolicy)
      reads this, Disk()
    {
      && StoreTakes(PolicyRecord, EncodedPolicy(p))
      && StoreTakes(AccountingRecord, EncodedAccounting(Installed(View(), p).accounting))
    }

    method ReplacePolicy(p: FairnessPolicy) returns (exit: Exit, ghost installed: bool)
      requires Ready()
      modifies this, Disk()
      ensures Counted(exit)
      ensures Ready()
      ensures exit == Returned(Okay) ==> installed
      ensures exit.Returned? ==> View() == if installed then Installed(old(View()), p) else InstallUndone(old(View()), p)
      ensures exit.Died? ==> View() == Installed(old(View()), p)
      ensures store == null ==> exit == Returned(Okay)
      ensures store != null ==>
        && PolicyStep(old(store.disk.files), store.disk.files, exit, installed,
                      Record(NextRecord(old(policyRecord)), governor, EncodedPolicy(p)), store.disk.atomicRename)
        && AccountingStep(old(store.disk.files), store.disk.files, exit,
             Record(NextRecord(old(accountingRecord)), governor, EncodedAccounting(Installed(old(View()), p).accounting)), store.disk.atomicRename)
      ensures policyRecord == if store != null && installed then NextRecord(old(policyRecord)) else old(policyRecord)
      ensures accountingRecord == if exit == Returned(Okay) && store != null then NextRecord(old(accountingRecord)) else old(accountingRecord)
      ensures Undisturbed() && old(StoreTakesBoth(p)) ==> exit == Returned(Okay)
    {
      ghost var r := Record(NextRecord(accountingRecord), governor, EncodedAccounting(Installed(View(), p).accounting));
      ghost var rp := Record(NextRecord(policyRecord), governor, EncodedPolicy(p));
      exit := StorePolicy(p);
      installed := exit == Returned(Okay);
      if exit != Returned(Okay) {
        if store != null {
          PolicyAloneSteps(old(store.disk.files), store.disk.files, exit, r, store.disk.atomicRename);
        }
        return;
      }
      if store != null {
        OtherKindStands(old(store.disk.files), store.disk.files, PolicyRecord, AccountingRecord);
      }
      exit := CommitInstalled(if store == null then map[] else old(store.disk.files), rp);
    }

    /** The second commit of an installation, whose policy is already stored. */
    method CommitInstalled(ghost before: Files, ghost rp: Record) returns (exit: Exit)
      requires Ready()
      requires store != null ==>
        LoadFrom(store.disk.files, PolicyRecord) == Present(rp) && OtherKindsKept(before, store.disk.files, PolicyRecord)
      modifies `accountingRecord, Disk()
      ensures Ready()
      ensures store == null ==> exit == Returned(Okay)
      ensures Undisturbed() && old(StoreTakes(AccountingRecord, EncodedAccounting(accounting))) ==> exit == Returned(Okay)
      ensures store != null ==>
        && PolicyStep(before, store.disk.files, exit, true, rp, store.disk.atomicRename)
        && AccountingStep(before, store.disk.files, exit,
             Record(NextRecord(old(accountingRecord)), governor, EncodedAccounting(accounting)), store.disk.atomicRename)
      ensures Counted(exit)
      ensures accountingRecord == if exit == Returned(Okay) && store != null then NextRecord(old(accountingRecord)) else old(accountingRecord)
    {
      ghost var r := Record(NextRecord(accountingRecord), governor, EncodedAccounting(accounting));
      ghost var middle := if store == null then map[] else store.disk.files;
      exit := CommitAccounting();
      if store != null {
        StepAfterPolicy(before, middle, store.disk.files, exit, r, store.disk.atomicRename);
        StoredPolicyStays(before, middle, store.disk.files, exit, rp, store.disk.atomicRename);
      }
    }

    /** Adopts a policy and commits it, or puts the old one back. */
    method StorePolicy(p: FairnessPolicy) returns (exit: Exit)
      requires Ready()
      modifies this, Disk()
      ensures Ready()
      ensures Counted(exit)
      ensures View() == if exit.Returned? && exit.status != Okay then InstallUndone(old(View()), p) else Installed(old(View()), p)
      ensures store == null ==> exit == Returned(Okay)
      ensures store != null ==>
        RecordCommit(PolicyRecord, old(store.disk.files), store.disk.files, exit,
                     Record(NextRecord(old(policyRecord)), governor, EncodedPolicy(p)), store.disk.atomicRename)
      ensures Undisturbed() && old(StoreTakes(PolicyRecord, EncodedPolicy(p))) ==> exit == Returned(Okay)
      ensures policyRecord == if store != null && exit == Returned(Okay) then NextRecord(old(policyRecord)) else old(policyRecord)
      ensures accountingRecord == old(accountingRecord)
    {
      var previousPolicy, previousEpoch := policy, epoch;
      InstallTakenBack(View(), p);
      AdoptPolicy(p);
      exit := CommitPolicy();
      if exit.Returned? && exit != Returned(Okay) {
        RestorePolicy(previousPolicy, previousEpoch);
      }
    }

    method RestorePolicy(previousPolicy: FairnessPolicy, previousEpoch: u64)
      modifies `policy, `epoch, `accounting
      ensures View() == old(View()).(policy := previousPolicy, epoch := previousEpoch,
        accounting := old(accounting).(policyGeneration := previousPolicy.generation, epoch := previousEpoch))
    {
      policy, epoch := previousPolicy, previousEpoch;
      accounting := accounting.(policyGeneration := previousPolicy.generation, epoch := previousEpoch);
    }

    /** Advances the fabric epoch durably; staged evidence is gone either way. */
    method AdvanceEpoch(next: u64) returns (exit: Exit)
      requires Valid() && Ready()
      modifies this, Disk()
      ensures Counted(exit)
      ensures Ready() && (exit.Returned? ==> Valid())
      ensures EpochRefusal(old(View()), next) != Okay ==>
        && exit == Returned(EpochRefusal(old(View()), next)) && View() == old(View())
        && (store != null ==> store.disk.files == old(store.disk.files))
      ensures exit == Returned(Okay) ==> EpochRefusal(old(View()), next) == Okay && View() == Advanced(old(View()), next)
      ensures exit.Returned? && exit.status != Okay && EpochRefusal(old(View()), next) == Okay ==> View() == EpochUndone(old(View()))
      ensures EpochRefusal(old(View()), next) == Okay && Undisturbed() && old(StoreTakes(AccountingRecord, EncodedAccounting(Advanced(View(), next).accounting))) ==>
        exit == Returned(Okay)
      ensures store != null ==> OtherKindsKept(old(store.disk.files), store.disk.files, AccountingRecord)
      ensures store != null ==> AccountingStep(old(store.disk.files), store.disk.files, exit,
        Record(NextRecord(old(accountingRecord)), governor, EncodedAccounting(Advanced(old(View()), next).accounting)), store.disk.atomicRename)
      ensures policyRecord == old(policyRecord)
      ensures accountingRecord == if exit == Returned(Okay) && store != null then NextRecord(old(accountingRecord)) else old(accountingRecord)
      ensures exit.Returned? ==> View() == R.EpochStep(old(View()), next, exit == Returned(Okay))
    {
      var status := EpochRefusal(View(), next);
      if status != Okay {
        return Returned(status);
      }
      EpochConsistent(View(), limits, next);
      exit := MoveEpoch(next);
    }

    method MoveEpoch(next: u64) returns (exit: Exit)
      requires Ready()
      modifies this, Disk()
      ensures Counted(exit)
      ensures Ready()
      ensures exit == Returned(Okay) ==> View() == Advanced(old(View()), next)
      ensures exit.Returned? && exit.status != Okay ==> View() == EpochUndone(old(View()))
      ensures Undisturbed() && old(StoreTakes(AccountingRecord, EncodedAccounting(Advanced(View(), next).accounting))) ==>
        exit == Returned(Okay)
      ensures store != null ==> OtherKindsKept(old(store.disk.files), store.disk.files, AccountingRecord)
      ensures store != null ==> AccountingStep(old(store.disk.files), store.disk.files, exit,
        Record(NextRecord(old(accountingRecord)), governor, EncodedAccounting(Advanced(old(View()), next).accounting)), store.disk.atomicRename)
      ensures policyRecord == old(policyRecord)
      ensures accountingRecord == if exit == Returned(Okay) && store != null then NextRecord(old(accountingRecord)) else old(accountingRecord)
    {
      var previous := epoch;
      SetEpoch(next);
      DropEvidence();
      exit := CommitAccounting();
      if exit.Returned? && exit != Returned(Okay) {
        SetEpoch(previous);
      }
    }

    method SetEpoch(next: u64)
      modifies `epoch, `accounting
      ensures View() == old(View()).(epoch := next, accounting := old(accounting).(epoch := next))
    {
      epoch := next;
      accounting := accounting.(epoch := next);
    }

    // --- Commit --------------------------------------------------------------------------------------

    /** Commits a decision's accounting: all of it, durably, or nothing. */
    method Commit(d: FairnessDecision) returns (exit: Exit)
      requires Valid() && Ready() && (!stopping ==> Computable(LedgerOf(View()), d, digestOf))
      modifies `accounting, `accountingRecord, Disk()
      ensures Counted(exit)
      ensures Ready() && (exit.Returned? ==> Valid())
      ensures Committed(d, exit)
      ensures exit.Returned? ==> View() == R.CommitStep(old(View()), d, digestOf, exit == Returned(Okay))
    {
      ghost var s := View();
      exit := CommitNow(d);
      CommitIsStep(s, R.Setup(limits, digestOf), d, exit == Returned(Okay), View());
    }

    /** What a commit leaves of memory and of the disk. */
    twostate predicate Committed(d: FairnessDecision, exit: Exit)
      reads this, Disk()
    {
      var verdict := CommitVerdict(old(View()), d, digestOf);
      && (verdict.Err? ==> exit == Returned(verdict.status) && (store != null ==> store.disk.files == old(store.disk.files)))
      && (exit == Returned(Okay) ==> verdict.Ok? && View() == old(View()).(accounting := verdict.value))
      && (exit.Returned? && exit.status != Okay ==> View() == old(View()))
      && (store != null ==> OtherKindsKept(old(store.disk.files), store.disk.files, AccountingRecord))
      && (store != null && verdict.Ok? ==>
          AccountingStep(old(store.disk.files), store.disk.files, exit,
            Record(NextRecord(old(accountingRecord)), governor, EncodedAccounting(verdict.value)), store.disk.atomicRename))
      && accountingRecord == (if exit == Returned(Okay) && store != null then NextRecord(old(accountingRecord)) else old(accountingRecord))
      && (verdict.Ok? && Undisturbed() && old(StoreTakes(AccountingRecord, EncodedAccounting(verdict.value))) ==> exit == Returned(Okay))
    }

    method CommitNow(d: FairnessDecision) returns (exit: Exit)
      requires Ready() && (!stopping ==> Computable(LedgerOf(View()), d, digestOf))
      modifies `accounting, `accountingRecord, Disk()
      ensures Counted(exit)
      ensures Ready() && Committed(d, exit)
    {
      if stopping {
        return Returned(ShuttingDown);
      }
      var outcome := PrepareCommit(Ledger(policy, accounting, epoch, governor), d, digestOf);
      if outcome.Err? {
        return Returned(outcome.status);
      }
      exit := Adopt(outcome.value);
    }

    /** Makes new accounting durable, or puts the old back. */
    method Adopt(a: FairnessAccounting) returns (exit: Exit)
      requires Ready()
      modifies `accounting, `accountingRecord, Disk()
      ensures Counted(exit)
      ensures Ready()
      ensures exit == Returned(Okay) ==> View() == old(View()).(accounting := a)
      ensures exit.Returned? && exit.status != Okay ==> View() == old(View())
      ensures Undisturbed() && old(StoreTakes(AccountingRecord, EncodedAccounting(a))) ==> exit == Returned(Okay)
      ensures store != null ==> OtherKindsKept(old(store.disk.files), store.disk.files, AccountingRecord)
      ensures store != null ==> AccountingStep(old(store.disk.files), store.disk.files, exit,
        Record(NextRecord(old(accountingRecord)), governor, EncodedAccounting(a)), store.disk.atomicRename)
      ensures accountingRecord == if exit == Returned(Okay) && store != null then NextRecord(old(accountingRecord)) else old(accountingRecord)
    {
      var previous := accounting;
      accounting := a;
      exit := CommitAccounting();
      if exit.Returned? && exit != Returned(Okay) {
        accounting := previous;
      }
    }

    /** Stops accepting work and drops staged evidence; idempotent. */
    method Shutdown()
      requires Valid()
      modifies this
      ensures Valid()
      ensures View() == if old(stopping) then old(View()) else WithoutEvidence(old(View())).(stopping := true)
      ensures accountingRecord == old(accountingRecord)
      ensures policyRecord == old(policyRecord) && View() == R.StopStep(old(View()))
    {
      if !stopping {
        stopping := true;
        DropEvidence();
      }
    }
  }
}
