// Opening a governor: recovery, then the durable policy, then the durable accounting.

module Opening {
  import opened Core
  import opened Bytes
  import opened Digest
  import opened Record
  import opened Disk
  import opened Store
  import opened Policy
  import opened Accounting
  import opened Decision
  import opened AccountingCodec
  import opened PolicyCodec
  import opened Commitment
  import opened CommitmentLaws
  import opened History
  import opened Lifecycle
  import opened Governor

  datatype Config = Config(policy: FairnessPolicy, epoch: u64, requireDurability: bool, limits: Limits, maxHistory: u32)

  datatype Opened = Serving(g: FairnessGovernor) | NotOpened(status: Status) | DiedOpening

  /** Accounting nothing was ever committed to. */
  function Unused(policyId: u64, policyGeneration: u64, epoch: u64): FairnessAccounting {
    FairnessAccounting(policyId, policyGeneration, epoch, 0, 0, 0, 0, 0, [])
  }

  function FreshAccounting(p: FairnessPolicy, epoch: u64): FairnessAccounting {
    Unused(p.id, p.generation, epoch)
  }

  // --- What memory owes the disk -------------------------------------------------------------------

  /** The accounting a record holds. */
  ghost predicate Holds(r: Record, a: FairnessAccounting) {
    DecodedAccounting(r.payload) == Ok(a)
  }

  /** Memory continues the durable accounting: the same but for what reopening,
      installing and moving the epoch rewrite, and never an older epoch. */
  ghost predicate Continues(a: FairnessAccounting, durable: FairnessAccounting) {
    && durable.epoch <= a.epoch
    && a == durable.(subjects := a.subjects, policyId := a.policyId, policyGeneration := a.policyGeneration, epoch := a.epoch)
  }

  ghost predicate Linked(a: FairnessAccounting, record: u64, files: Files) {
    match LoadFrom(files, AccountingRecord)
    case Absent => record == 0 && a == Unused(a.policyId, a.policyGeneration, a.epoch)
    case Unusable(_) => false
    case Present(r) => r.generation == record && DecodedAccounting(r.payload).Ok? && Continues(a, DecodedAccounting(r.payload).value)
  }

  /** What memory holds can be stored and read back. */
  ghost predicate Keepable(a: FairnessAccounting) {
    Orderly(a.subjects, false) && ShortStreaks(a.subjects)
  }

  lemma {:induction false} DecodedKeepable(data: seq<byte>)
    requires DecodedAccounting(data).Ok?
    ensures Keepable(DecodedAccounting(data).value)
  {
    DecodedIsStorable(data);
  }

  /** Whatever keepable accounting a record on disk encodes, it decodes to. */
  lemma {:induction false} KeepableHolds(files: Files, kind: RecordKind, r: Record, a: FairnessAccounting)
    requires Keepable(a) && r.payload == EncodedAccounting(a)
    requires StandingOf(files, kind) == Kept(r)
    ensures Holds(r, a)
  {
    AccountingRoundTrip(a);
    assert |r.payload| <= MAX_PAYLOAD_BYTES;
  }

  // --- Opening -----------------------------------------------------------------------------------------

  function ConfigStatus(config: Config, durable: bool): Status {
    if config.epoch == 0 then InvalidArgument
    else if config.policy.epoch != config.epoch then Conflict
    else if config.limits.maxStaged == 0 || config.maxHistory == 0 || config.limits.maxObservations == 0 then InvalidArgument
    else if !durable && config.requireDurability then InvalidArgument
    else Okay
  }

  /** The configuration serves exactly if its epoch is set and its policy's, no limit
      is zero, and durability is not asked of a governor without a store. */
  lemma {:induction false} ConfigTells(config: Config, durable: bool)
    ensures
      var (why, limits) := (ConfigStatus(config, durable), config.limits);
      var timed := config.epoch != 0 && config.policy.epoch == config.epoch;
      && (why == Okay <==>
            timed && limits.maxStaged > 0 && limits.maxObservations > 0 && config.maxHistory > 0 && (config.requireDurability ==> durable))
      && (why == Conflict <==> config.epoch != 0 && config.policy.epoch != config.epoch)
      && (why in {Okay, Conflict, InvalidArgument})
  {
  }

  /** What loads of a kind once recovery has settled it. */
  ghost function Settled(files: Files, kind: RecordKind): Loaded {
    match StandingOf(files, kind)
    case Kept(r) => Present(r)
    case _ => LoadFrom(files, kind)
  }

  /** Recovery that returned Okay has brought a kind to what stood of it, unless that
      has sunk. */
  ghost predicate Brought(before: Files, after: Files, kind: RecordKind) {
    LoadFrom(after, kind) == Settled(before, kind) || Sunk(after, kind)
  }

  /** What recovering a kind makes of it, and what it makes of it undisturbed. */
  ghost predicate KindRecovered(before: Files, after: Files, kind: RecordKind, exit: Exit, undisturbed: bool) {
    && Tidy(after, kind) && SurvivesOrSinks(before, after, kind)
    && (exit == Returned(Okay) ==> Brought(before, after, kind))
    && (undisturbed ==>
          && Clean(after, kind) && exit.Returned? && (exit == Returned(Okay) <==> !Unsound(before, kind))
          && (exit == Returned(Okay) && Sunk(after, kind) ==> Sunk(before, kind)))
  }

  method RecoverKind(store: DurableStore, kind: RecordKind) returns (exit: Exit)
    requires Tidy(store.disk.files, kind)
    modifies store.disk
    ensures KindRecovered(old(store.disk.files), store.disk.files, kind, exit, store.disk.faults == old(store.disk.faults))
    ensures OtherKindsKept(old(store.disk.files), store.disk.files, kind)
    ensures store.disk.faults >= old(store.disk.faults)
  {
    var notes, failed;
    exit, notes, failed := store.Recover(kind);
    RecoverySettles(old(store.disk.files), store.disk.files, kind, exit, failed);
    if !Unsound(old(store.disk.files), kind) {
      RecoveryBrings(old(store.disk.files), store.disk.files, kind, exit, failed);
    }
  }

  lemma {:induction false} RecoveryBrings(before: Files, after: Files, kind: RecordKind, exit: Exit, restoreFailed: bool)
    requires RecoveryLeaves(before, after, kind, exit, restoreFailed) && !Unsound(before, kind)
    ensures exit == Returned(Okay) ==> Brought(before, after, kind)
    ensures exit.Returned? && !restoreFailed ==> exit == Returned(Okay)
  {
    if StandingOf(before, kind).Ruined? {
      assert Sunk(before, kind);
    }
  }

  /** What happens to the other kind does not matter to one, neither afterwards nor
      before. */
  lemma {:induction false} UndoneByOther(f0: Files, f1: Files, f2: Files, kind: RecordKind, other: RecordKind, exit: Exit, undisturbed: bool)
    requires kind != other && KindRecovered(f0, f1, kind, exit, undisturbed) && OtherKindsKept(f1, f2, other)
    ensures KindRecovered(f0, f2, kind, exit, undisturbed)
  {
    OtherKindStands(f1, f2, other, kind);
  }

  lemma {:induction false} UnmovedByOther(f0: Files, f1: Files, f2: Files, kind: RecordKind, other: RecordKind, exit: Exit, undisturbed: bool)
    requires kind != other && OtherKindsKept(f0, f1, other) && KindRecovered(f1, f2, kind, exit, undisturbed)
    ensures KindRecovered(f0, f2, kind, exit, undisturbed)
  {
    OtherKindStands(f0, f1, other, kind);
  }

  /** Recovers both kinds, each whatever becomes of the other. */
  method RecoverBoth(store: DurableStore) returns (exit: Exit, ghost policyExit: Exit, ghost accountingExit: Exit)
    requires AllTidy(store.disk.files)
    modifies store.disk
    ensures AllTidy(store.disk.files)
    ensures SurvivesOrSinks(old(store.disk.files), store.disk.files, PolicyRecord)
    ensures SurvivesOrSinks(old(store.disk.files), store.disk.files, AccountingRecord)
    ensures store.disk.faults >= old(store.disk.faults)
    ensures exit == Returned(Okay) || store.disk.faults == old(store.disk.faults) ==>
      && KindRecovered(old(store.disk.files), store.disk.files, PolicyRecord, policyExit, store.disk.faults == old(store.disk.faults))
      && KindRecovered(old(store.disk.files), store.disk.files, AccountingRecord, accountingExit, store.disk.faults == old(store.disk.faults))
      && (exit == Returned(Okay) <==> policyExit == accountingExit == Returned(Okay))
  {
    ghost var start := store.disk.files;
    var first := RecoverKind(store, PolicyRecord);
    policyExit := first;
    ghost var middle := store.disk.files;
    ghost var calm := store.disk.faults == old(store.disk.faults);
    OtherKindStands(start, middle, PolicyRecord, AccountingRecord);
    if first.Died? {
      return first, first, first;
    }
    var second := RecoverKind(store, AccountingRecord);
    accountingExit := second;
    UndoneByOther(start, middle, store.disk.files, PolicyRecord, AccountingRecord, policyExit, calm);
    UnmovedByOther(start, middle, store.disk.files, AccountingRecord, PolicyRecord, accountingExit, store.disk.faults == old(store.disk.faults));
    exit := if second == Returned(Okay) then first else second;
  }

  // --- Which policy serves ---------------------------------------------------------------------------

  /** The durable policy of a record, if it is one of this identity. */
  ghost function DurablePolicy(loaded: Loaded, id: u64): Option<FairnessPolicy> {
    if !loaded.Present? || ParsedPolicy(loaded.record.payload).Err? then None
    else
      var durable := ParsedPolicy(loaded.record.payload).value;
      if ValidPolicy(durable) && durable.id == id then Some(durable) else None
  }

  /** The configured policy is to be made durable: nothing is, or something older. */
  ghost predicate Supersedes(p: FairnessPolicy, loaded: Loaded) {
    loaded.Absent? || (DurablePolicy(loaded, p.id).Some? && DurablePolicy(loaded, p.id).value.generation < p.generation)
  }

  /** The policy that serves, if that can be settled: the newer of the two, and at
      equal generations only if the contents agree. */
  ghost function ServedPolicy(loaded: Loaded, p: FairnessPolicy): Option<FairnessPolicy> {
    if Supersedes(p, loaded) then Some(p)
    else
      match DurablePolicy(loaded, p.id)
      case None => None
      case Some(durable) =>
        if durable.generation > p.generation then Some(durable)
        else if Checksum(EncodedPolicy(durable)) == Checksum(EncodedPolicy(p)) then Some(p) else None
  }

  /** Which policy serves: the configured one where none is durable, or an older one
      of its identity, or one as new with the same content; the durable one where it
      is newer; and none where the record is unusable, holds no valid policy of this
      identity, or one as new with other content. */
  lemma {:induction false} ServesExactly(loaded: Loaded, p: FairnessPolicy)
    ensures loaded.Absent? ==> ServedPolicy(loaded, p) == Some(p)
    ensures loaded.Unusable? ==> ServedPolicy(loaded, p).None?
    ensures loaded.Present? ==>
      match ParsedPolicy(loaded.record.payload)
      case Err(_) => ServedPolicy(loaded, p).None?
      case Ok(q) =>
        if !ValidPolicy(q) || q.id != p.id then ServedPolicy(loaded, p).None?
        else if q.generation != p.generation then ServedPolicy(loaded, p) == Some(if q.generation < p.generation then p else q)
        else ServedPolicy(loaded, p) == if Checksum(EncodedPolicy(q)) == Checksum(EncodedPolicy(p)) then Some(p) else None
  {
  }

  /** A durable policy is never rolled back: what serves is as new, and the durable
      policy itself where the configured one is older. */
  lemma {:induction false} NeverRolledBack(loaded: Loaded, p: FairnessPolicy)
    requires ServedPolicy(loaded, p).Some? && loaded.Present?
    ensures DurablePolicy(loaded, p.id).Some?
    ensures
      var (served, durable) := (ServedPolicy(loaded, p).value, DurablePolicy(loaded, p.id).value);
      && served.generation == Max(durable.generation, p.generation)
      && (durable.generation > p.generation ==> served == durable)
      && (durable.generation == p.generation ==> Checksum(EncodedPolicy(durable)) == Checksum(EncodedPolicy(served)))
  {
  }

  /** The record that would make the configured policy durable. */
  function Successor(loaded: Loaded, governor: Incarnation, p: FairnessPolicy): Record {
    Record(NextRecord(if loaded.Present? then loaded.record.generation else 0), governor, EncodedPolicy(p))
  }

  /** The store takes the configured policy as the next record. */
  ghost predicate Renewable(loaded: Loaded, governor: Incarnation, p: FairnessPolicy) {
    var record := if loaded.Present? then loaded.record.generation else 0;
    Refusal(loaded, record, NextRecord(record), EncodedPolicy(p), governor) == Okay
  }

  /** Some policy can serve, and the store takes it where it is to be made durable. */
  ghost predicate Settleable(loaded: Loaded, governor: Incarnation, p: FairnessPolicy) {
    ServedPolicy(loaded, p).Some? && (Supersedes(p, loaded) ==> Renewable(loaded, governor, p))
  }

  /** What settling the policy may leave of its record. */
  ghost predicate PolicySettled(before: Files, after: Files, exit: Exit, governor: Incarnation, p: FairnessPolicy, atomicRename: bool) {
    if Supersedes(p, LoadFrom(before, PolicyRecord))
    then RecordCommit(PolicyRecord, before, after, exit, Successor(LoadFrom(before, PolicyRecord), governor, p), atomicRename)
    else after == before && exit.Returned? && (exit.status == Okay <==> ServedPolicy(LoadFrom(before, PolicyRecord), p).Some?)
  }

  lemma {:induction false} StoredIsLinked(p: FairnessPolicy, files: Files, r: Record)
    requires ValidPolicy(p) && LoadFrom(files, PolicyRecord) == Present(r) && r.payload == EncodedPolicy(p)
    ensures LinkedPolicy(p, r.generation, files)
  {
    EncodedIsHeld(r, p);
  }

  /** What settling the policy comes to: what serves, with which epoch and which
      record; undisturbed, or with nothing to make durable, it succeeds exactly if
      a policy can be settled. */
  ghost predicate PolicyOpened(before: Files, after: Files, exit: Exit, governor: Incarnation, p: FairnessPolicy, epoch: u64,
                               served: FairnessPolicy, servedEpoch: u64, record: u64, calm: bool, atomicRename: bool) {
    && PolicySettled(before, after, exit, governor, p, atomicRename)
    && (exit == Returned(Okay) ==>
          && ServedPolicy(LoadFrom(before, PolicyRecord), p) == Some(served) && ValidPolicy(served)
          && servedEpoch == (if served == p then epoch else served.epoch) && LinkedPolicy(served, record, after))
    && (calm || !Supersedes(p, LoadFrom(before, PolicyRecord)) ==>
          (exit == Returned(Okay) <==> Settleable(LoadFrom(before, PolicyRecord), governor, p)))
  }

  lemma {:induction false} NotRenewed(files: Files, status: Status, governor: Incarnation, p: FairnessPolicy, epoch: u64,
                                      served: FairnessPolicy, servedEpoch: u64, record: u64, calm: bool, atomicRename: bool)
    requires !Supersedes(p, LoadFrom(files, PolicyRecord))
    requires status == Okay <==> ServedPolicy(LoadFrom(files, PolicyRecord), p).Some?
    requires status == Okay ==>
      && ServedPolicy(LoadFrom(files, PolicyRecord), p) == Some(served) && ValidPolicy(served)
      && servedEpoch == (if served == p then epoch else served.epoch) && LinkedPolicy(served, record, files)
    ensures PolicyOpened(files, files, Returned(status), governor, p, epoch, served, servedEpoch, record, calm, atomicRename)
  {
  }

  lemma {:induction false} OlderIsSuperseded(loaded: Loaded, p: FairnessPolicy, durable: FairnessPolicy)
    requires loaded.Present? && ParsedPolicy(loaded.record.payload) == Ok(durable) && ValidPolicy(durable)
    requires durable.id == p.id && durable.generation < p.generation
    ensures Supersedes(p, loaded)
  {
  }

  /** The outcome where there is nothing to make durable. */
  ghost predicate KeptAgainst(p: FairnessPolicy, epoch: u64, durable: FairnessPolicy, exit: Exit, served: FairnessPolicy, servedEpoch: u64) {
    var newer := durable.id == p.id && durable.generation > p.generation;
    var alike := durable.id == p.id && Checksum(EncodedPolicy(durable)) == Checksum(EncodedPolicy(p));
    && exit == Returned(if newer || alike then Okay else Conflict)
    && served == (if newer then durable else p) && servedEpoch == if newer then durable.epoch else epoch
  }

  /** A durable policy that is not older than the configured one, or is not of its
      identity, stays as it is: it serves if newer, the configured one serves if the
      two are alike, and else there is a conflict. */
  lemma {:induction false} DurableStays(files: Files, governor: Incarnation, p: FairnessPolicy, epoch: u64, durable: FairnessPolicy,
                                        record: u64, exit: Exit, served: FairnessPolicy, servedEpoch: u64, atomicRename: bool)
    requires
      var loaded := LoadFrom(files, PolicyRecord);
      loaded.Present? && ParsedPolicy(loaded.record.payload) == Ok(durable) && record == loaded.record.generation
    requires ValidPolicy(durable) && ValidPolicy(p) && (durable.id != p.id || durable.generation >= p.generation)
    requires KeptAgainst(p, epoch, durable, exit, served, servedEpoch)
    ensures PolicyOpened(files, files, exit, governor, p, epoch, served, servedEpoch, record, true, atomicRename)
  {
    ServesExactly(LoadFrom(files, PolicyRecord), p);
    NotRenewed(files, exit.status, governor, p, epoch, served, servedEpoch, record, true, atomicRename);
  }

  lemma {:induction false} RenewedOpens(before: Files, after: Files, exit: Exit, governor: Incarnation, p: FairnessPolicy, epoch: u64,
                                        record: u64, calm: bool, atomicRename: bool)
    requires Supersedes(p, LoadFrom(before, PolicyRecord)) && ValidPolicy(p)
    requires RecordCommit(PolicyRecord, before, after, exit, Successor(LoadFrom(before, PolicyRecord), governor, p), atomicRename)
    requires exit == Returned(Okay) ==> LinkedPolicy(p, record, after)
    requires calm ==> (exit == Returned(Okay) <==> Renewable(LoadFrom(before, PolicyRecord), governor, p))
    ensures PolicyOpened(before, after, exit, governor, p, epoch, p, epoch, record, calm, atomicRename)
  {
  }

  /** Makes the configured policy durable in place of nothing, or something older. */
  method RenewPolicy(g: FairnessGovernor, ghost loaded: Loaded) returns (exit: Exit)
    requires g.store != null && g.Ready() && ValidPolicy(g.policy)
    requires loaded == LoadFrom(g.store.disk.files, PolicyRecord) && g.policyRecord == if loaded.Present? then loaded.record.generation else 0
    requires Supersedes(g.policy, loaded)
    modifies g`policyRecord, g.store.disk
    ensures g.Ready() && g.store.disk.faults >= old(g.store.disk.faults)
    ensures PolicyOpened(old(g.store.disk.files), g.store.disk.files, exit, g.governor, g.policy, g.epoch, g.policy, g.epoch,
                         g.policyRecord, g.store.disk.faults == old(g.store.disk.faults), g.store.disk.atomicRename)
  {
    exit := g.CommitPolicy();
    if exit == Returned(Okay) {
      StoredIsLinked(g.policy, g.store.disk.files, Successor(loaded, g.governor, g.policy));
    }
    RenewedOpens(old(g.store.disk.files), g.store.disk.files, exit, g.governor, g.policy, g.epoch, g.policyRecord,
      g.store.disk.faults == old(g.store.disk.faults), g.store.disk.atomicRename);
  }

  /** With nothing to make durable: adopts a newer durable policy, keeps the
      configured one if the two are alike, and else reports a conflict. */
  method KeepDurable(g: FairnessGovernor, durable: FairnessPolicy) returns (exit: Exit)
    modifies g`policy, g`epoch
    ensures KeptAgainst(old(g.policy), old(g.epoch), durable, exit, g.policy, g.epoch)
  {
    if durable.id != g.policy.id {
      return Returned(Conflict);
    }
    if durable.generation > g.policy.generation {
      g.policy, g.epoch := durable, durable.epoch;
      return Returned(Okay);
    }
    var same := Checksum(EncodedPolicy(durable)) == Checksum(EncodedPolicy(g.policy));
    exit := Returned(if same then Okay else Conflict);
  }

  method StandByDurable(g: FairnessGovernor, ghost loaded: Loaded, durable: FairnessPolicy) returns (exit: Exit)
    requires g.store != null && g.Ready() && ValidPolicy(durable) && ValidPolicy(g.policy)
    requires loaded == LoadFrom(g.store.disk.files, PolicyRecord) && loaded.Present? && g.policyRecord == loaded.record.generation
    requires ParsedPolicy(loaded.record.payload) == Ok(durable) && !(durable.id == g.policy.id && durable.generation < g.policy.generation)
    modifies g`policy, g`epoch
    ensures g.Ready()
    ensures PolicyOpened(g.store.disk.files, g.store.disk.files, exit, g.governor, old(g.policy), old(g.epoch), g.policy, g.epoch,
                         g.policyRecord, g.store.disk.faults == old(g.store.disk.faults), g.store.disk.atomicRename)
  {
    ghost var (p, epoch) := (g.policy, g.epoch);
    exit := KeepDurable(g, durable);
    DurableStays(g.store.disk.files, g.governor, p, epoch, durable, g.policyRecord, exit, g.policy, g.epoch, g.store.disk.atomicRename);
  }

  method ChoosePolicy(g: FairnessGovernor, ghost loaded: Loaded, durable: FairnessPolicy) returns (exit: Exit)
    requires g.store != null && g.Ready() && ValidPolicy(durable) && ValidPolicy(g.policy)
    requires loaded == LoadFrom(g.store.disk.files, PolicyRecord) && loaded.Present? && g.policyRecord == loaded.record.generation
    requires ParsedPolicy(loaded.record.payload) == Ok(durable)
    modifies g`policy, g`epoch, g`policyRecord, g.store.disk
    ensures g.Ready() && g.store.disk.faults >= old(g.store.disk.faults)
    ensures PolicyOpened(old(g.store.disk.files), g.store.disk.files, exit, g.governor, old(g.policy), old(g.epoch), g.policy, g.epoch,
                         g.policyRecord, g.store.disk.faults == old(g.store.disk.faults), g.store.disk.atomicRename)
  {
    var older := durable.id == g.policy.id && durable.generation < g.policy.generation;
    if older {
      assert Supersedes(g.policy, loaded) by {
        OlderIsSuperseded(loaded, g.policy, durable);
      }
      exit := RenewPolicy(g, loaded);
    } else {
      exit := StandByDurable(g, loaded, durable);
    }
  }

  /** Settles which policy serves, and makes it durable if it is newer. */
  method OpenPolicy(g: FairnessGovernor, config: Config) returns (exit: Exit)
    requires g.store != null && g.Ready() && g.policy == config.policy && g.epoch == config.epoch && ValidPolicy(config.policy)
    requires g.policyRecord == 0
    modifies g`policy, g`epoch, g`policyRecord, g.store.disk
    ensures g.Ready() && g.store.disk.faults >= old(g.store.disk.faults)
    ensures PolicyOpened(old(g.store.disk.files), g.store.disk.files, exit, g.governor, config.policy, config.epoch, g.policy, g.epoch,
                         g.policyRecord, g.store.disk.faults == old(g.store.disk.faults), g.store.disk.atomicRename)
  {
    ghost var files := g.store.disk.files;
    var loaded := g.store.Load(PolicyRecord);
    if loaded.Absent? {
      exit := RenewPolicy(g, loaded);
      return;
    }
    ServesExactly(loaded, g.policy);
    if loaded.Unusable? {
      NotRenewed(files, loaded.status, g.governor, g.policy, g.epoch, g.policy, g.epoch, g.policyRecord, true, g.store.disk.atomicRename);
      return Returned(loaded.status);
    }
    var decoded := DecodePolicy(loaded.record.payload);
    if decoded.Err? {
      NotRenewed(files, decoded.status, g.governor, g.policy, g.epoch, g.policy, g.epoch, g.policyRecord, true, g.store.disk.atomicRename);
      return Returned(decoded.status);
    }
    g.policyRecord := loaded.record.generation;
    exit := ChoosePolicy(g, loaded, decoded.value);
  }

  // --- Resuming the accounting ------------------------------------------------------------------------

  /** What a governor with this policy and epoch resumes from a load. */
  ghost predicate Resumes(loaded: Loaded, p: FairnessPolicy, epoch: u64, a: FairnessAccounting, record: u64) {
    match loaded
    case Absent => record == 0 && a == FreshAccounting(p, epoch)
    case Unusable(_) => false
    case Present(r) => record == r.generation && DecodedAccounting(r.payload).Ok? && a == Resumed(p, epoch, DecodedAccounting(r.payload).value)
  }

  ghost predicate AccountingLoads(loaded: Loaded) {
    loaded.Absent? || (loaded.Present? && DecodedAccounting(loaded.record.payload).Ok?)
  }

  /** The durable accounting as a governor with this policy resumes it. */
  function Resumed(p: FairnessPolicy, epoch: u64, a: FairnessAccounting): FairnessAccounting {
    a.(subjects := KeptEntries(p, a.subjects), policyId := p.id, policyGeneration := p.generation,
       epoch := if a.epoch > epoch then a.epoch else epoch)
  }

  lemma {:induction false} ResumedKeepable(p: FairnessPolicy, epoch: u64, a: FairnessAccounting)
    requires Keepable(a)
    ensures Keepable(Resumed(p, epoch, a))
  {
    KeptStaysOrderly(p, a.subjects, false);
    KeptStaysShort(p, a.subjects);
  }

  method Resume(g: FairnessGovernor, durable: FairnessAccounting)
    requires ValidPolicy(g.policy) && Keepable(Resumed(g.policy, g.epoch, durable))
    requires g.staged == map[]
    modifies g`epoch, g`accounting
    ensures g.Valid() && Keepable(g.accounting) && g.accounting == Resumed(old(g.policy), old(g.epoch), durable)
    ensures g.epoch == g.accounting.epoch
  {
    if durable.epoch > g.epoch {
      g.epoch := durable.epoch;
    }
    var kept := KeepEntries(g.policy, durable.subjects);
    g.accounting := durable.(subjects := kept, policyId := g.policy.id, policyGeneration := g.policy.generation, epoch := g.epoch);
  }

  /** Resumes from the record found, if it decodes. */
  method TakeUp(g: FairnessGovernor, r: Record) returns (status: Status)
    requires g.Ready() && ValidPolicy(g.policy) && g.store != null && LoadFrom(g.store.disk.files, AccountingRecord) == Present(r)
    requires g.View() == State(g.policy, FreshAccounting(g.policy, g.epoch), g.epoch, g.governor, map[], map[], map[], false)
    modifies g`epoch, g`accounting, g`accountingRecord
    ensures status == Okay <==> DecodedAccounting(r.payload).Ok?
    ensures status == Okay ==>
      && g.accounting == Resumed(g.policy, old(g.epoch), DecodedAccounting(r.payload).value) && g.accountingRecord == r.generation
      && g.epoch == g.accounting.epoch && g.Valid() && Keepable(g.accounting)
      && Linked(g.accounting, g.accountingRecord, g.store.disk.files)
    ensures status != Okay ==> unchanged(g)
    ensures g.View() == old(g.View()).(epoch := g.epoch, accounting := g.accounting)
  {
    var decoded := DecodeAccounting(r.payload);
    if decoded.Err? {
      return decoded.status;
    }
    DecodedKeepable(r.payload);
    ResumedKeepable(g.policy, g.epoch, decoded.value);
    g.accountingRecord := r.generation;
    Resume(g, decoded.value);
    status := Okay;
  }

  /** Loads the durable accounting into a governor that has none; it can exactly
      when nothing is recorded or what is recorded decodes. */
  method OpenAccounting(g: FairnessGovernor) returns (status: Status)
    requires g.store != null && g.Ready() && ValidPolicy(g.policy)
    requires g.View() == State(g.policy, FreshAccounting(g.policy, g.epoch), g.epoch, g.governor, map[], map[], map[], false)
    requires g.accountingRecord == 0
    modifies g`epoch, g`accounting, g`accountingRecord
    ensures
      var loaded := LoadFrom(g.store.disk.files, AccountingRecord);
      && (status == Okay <==> AccountingLoads(loaded))
      && (status == Okay ==>
          && Resumes(loaded, g.policy, old(g.epoch), g.accounting, g.accountingRecord) && g.epoch == g.accounting.epoch
          && g.Valid() && Keepable(g.accounting) && Linked(g.accounting, g.accountingRecord, g.store.disk.files))
    ensures g.View() == old(g.View()).(epoch := g.epoch, accounting := g.accounting)
  {
    var loaded := g.store.Load(AccountingRecord);
    if loaded.Absent? {
      return Okay;
    }
    if loaded.Unusable? {
      return loaded.status;
    }
    status := TakeUp(g, loaded.record);
  }

  /** What a governor that serves has: the newer policy, durably, and the durable
      accounting of the subjects that policy governs. */
  ghost predicate Served(g: FairnessGovernor, config: Config, recovered: Files, files: Files)
    reads g
  {
    && ServedPolicy(LoadFrom(recovered, PolicyRecord), config.policy) == Some(g.policy)
    && LinkedPolicy(g.policy, g.policyRecord, files)
    && ResumedBy(g, LoadFrom(recovered, AccountingRecord), if g.policy == config.policy then config.epoch else g.policy.epoch)
    && Linked(g.accounting, g.accountingRecord, files)
  }

  ghost predicate ResumedBy(g: FairnessGovernor, loaded: Loaded, epoch: u64)
    reads g
  {
    g.Valid() && Keepable(g.accounting) && g.staged == map[] && Resumes(loaded, g.policy, epoch, g.accounting, g.accountingRecord)
  }

  /** The policy record after opening: as recovered, or, where the configured policy
      is newer, what its commit may leave. */
  ghost predicate PolicyRenewed(before: Files, after: Files, governor: Incarnation, p: FairnessPolicy, atomicRename: bool) {
    || (&& LoadFrom(after, PolicyRecord) == LoadFrom(before, PolicyRecord)
        && StandingOf(after, PolicyRecord) == StandingOf(before, PolicyRecord)
        && (Sunk(before, PolicyRecord) ==> Sunk(after, PolicyRecord)))
    || (&& Supersedes(p, LoadFrom(before, PolicyRecord))
        && CrashLeaves(before, after, PolicyRecord, Successor(LoadFrom(before, PolicyRecord), governor, p), atomicRename))
  }

  lemma {:induction false} SettledIsRenewed(before: Files, after: Files, exit: Exit, governor: Incarnation, p: FairnessPolicy, atomicRename: bool)
    requires PolicySettled(before, after, exit, governor, p, atomicRename)
    ensures PolicyRenewed(before, after, governor, p, atomicRename) && OtherKindsKept(before, after, PolicyRecord)
  {
  }

  /** What stands on the disk can be opened: the configuration is sound, neither kind
      is beyond repair, a policy can be settled and the accounting loads. */
  ghost predicate Openable(files: Files, config: Config, governor: Incarnation) {
    && ValidPolicy(config.policy) && ConfigStatus(config, true) == Okay
    && !Unsound(files, PolicyRecord) && !Unsound(files, AccountingRecord)
    && CanServe(Settled(files, PolicyRecord), Settled(files, AccountingRecord), governor, config.policy)
  }

  /** A policy can be settled and the accounting loads. */
  ghost predicate CanServe(policies: Loaded, accounting: Loaded, governor: Incarnation, p: FairnessPolicy) {
    Settleable(policies, governor, p) && AccountingLoads(accounting)
  }

  /** A kind that has sunk can neither serve a policy nor load accounting. */
  lemma {:induction false} SunkServesNothing(files: Files, after: Files, kind: RecordKind, governor: Incarnation, p: FairnessPolicy)
    requires Sunk(files, kind) && Sunk(after, kind)
    ensures !Settleable(LoadFrom(after, kind), governor, p) && !Settleable(Settled(files, kind), governor, p)
    ensures !AccountingLoads(LoadFrom(after, kind)) && !AccountingLoads(Settled(files, kind))
  {
  }

  lemma {:induction false} OpensAlike(before: Files, after: Files, config: Config, governor: Incarnation)
    requires Brought(before, after, PolicyRecord) && Brought(before, after, AccountingRecord)
    requires Sunk(after, PolicyRecord) ==> Sunk(before, PolicyRecord)
    requires Sunk(after, AccountingRecord) ==> Sunk(before, AccountingRecord)
    ensures CanServe(LoadFrom(after, PolicyRecord), LoadFrom(after, AccountingRecord), governor, config.policy) <==>
      CanServe(Settled(before, PolicyRecord), Settled(before, AccountingRecord), governor, config.policy)
  {
    if Sunk(after, PolicyRecord) {
      SunkServesNothing(before, after, PolicyRecord, governor, config.policy);
    }
    if Sunk(after, AccountingRecord) {
      SunkServesNothing(before, after, AccountingRecord, governor, config.policy);
    }
  }

  /** Opens a governor over a store, which recovery has brought to the files
      recovered. Whatever happens, nothing that stood is lost but by sinking; a
      governor that serves continues what is durable. */
  method Open(config: Config, store: DurableStore, governor: Incarnation, digestOf: Content -> u64)
    returns (r: Opened, ghost recovered: Files)
    requires AllTidy(store.disk.files)
    modifies store.disk
    ensures AllTidy(store.disk.files)
    ensures SurvivesOrSinks(old(store.disk.files), recovered, PolicyRecord)
    ensures SurvivesOrSinks(old(store.disk.files), recovered, AccountingRecord)
    ensures OtherKindsKept(recovered, store.disk.files, PolicyRecord)
    ensures PolicyRenewed(recovered, store.disk.files, governor, config.policy, store.disk.atomicRename)
    ensures ValidPolicy(config.policy) || store.disk.files == old(store.disk.files)
    ensures r.Serving? ==>
      && fresh(r.g) && r.g.store == store && r.g.governor == governor && r.g.digestOf == digestOf
      && ValidPolicy(config.policy) && Served(r.g, config, recovered, store.disk.files)
    ensures store.disk.faults >= old(store.disk.faults)
    ensures store.disk.faults == old(store.disk.faults) ==> (r.Serving? <==> Openable(old(store.disk.files), config, governor))
  {
    recovered := store.disk.files;
    var status := ValidatePolicy(config.policy);
    if status == Okay {
      status := ConfigStatus(config, true);
    }
    if status != Okay {
      return NotOpened(status), recovered;
    }
    var exit, policyExit, accountingExit := RecoverBoth(store);
    recovered := store.disk.files;
    if store.disk.faults == old(store.disk.faults) && exit == Returned(Okay) {
      OpensAlike(old(store.disk.files), recovered, config, governor);
    }
    if exit != Returned(Okay) {
      return if exit.Died? then DiedOpening else NotOpened(RecoveryRequired), recovered;
    }
    var g := new FairnessGovernor(config.policy, FreshAccounting(config.policy, config.epoch), config.epoch, governor,
                                  config.limits, digestOf, store, 0, 0);
    r := Restore(g, config);
  }

  /** After recovery: policy, then accounting. */
  method Restore(g: FairnessGovernor, config: Config) returns (r: Opened)
    requires g.store != null && g.Ready() && ValidPolicy(config.policy) && g.accountingRecord == 0 && g.policyRecord == 0
    requires g.View() == State(config.policy, FreshAccounting(config.policy, config.epoch), config.epoch, g.governor, map[], map[], map[], false)
    modifies g, g.store.disk
    ensures g.Ready() && OtherKindsKept(old(g.store.disk.files), g.store.disk.files, PolicyRecord)
    ensures PolicyRenewed(old(g.store.disk.files), g.store.disk.files, g.governor, config.policy, g.store.disk.atomicRename)
    ensures r.Serving? ==> r.g == g && Served(g, config, old(g.store.disk.files), g.store.disk.files)
    ensures g.store.disk.faults >= old(g.store.disk.faults)
    ensures g.store.disk.faults == old(g.store.disk.faults) || !Supersedes(config.policy, LoadFrom(old(g.store.disk.files), PolicyRecord)) ==>
      (r.Serving? <==> CanServe(LoadFrom(old(g.store.disk.files), PolicyRecord), LoadFrom(old(g.store.disk.files), AccountingRecord),
                                g.governor, config.policy))
  {
    var exit := SettlePolicy(g, config);
    if exit != Returned(Okay) {
      return if exit.Died? then DiedOpening else NotOpened(exit.status);
    }
    var status := RestoreAccounting(g);
    r := if status == Okay then Serving(g) else NotOpened(status);
  }

  method SettlePolicy(g: FairnessGovernor, config: Config) returns (exit: Exit)
    requires g.store != null && g.Ready() && g.policy == config.policy && g.epoch == config.epoch && ValidPolicy(config.policy)
    requires g.policyRecord == 0
    modifies g`policy, g`epoch, g`policyRecord, g.store.disk
    ensures g.Ready() && OtherKindsKept(old(g.store.disk.files), g.store.disk.files, PolicyRecord)
    ensures LoadFrom(g.store.disk.files, AccountingRecord) == LoadFrom(old(g.store.disk.files), AccountingRecord)
    ensures PolicyRenewed(old(g.store.disk.files), g.store.disk.files, g.governor, config.policy, g.store.disk.atomicRename)
    ensures g.store.disk.faults >= old(g.store.disk.faults)
    ensures PolicyOpened(old(g.store.disk.files), g.store.disk.files, exit, g.governor, config.policy, config.epoch, g.policy, g.epoch,
                         g.policyRecord, g.store.disk.faults == old(g.store.disk.faults), g.store.disk.atomicRename)
  {
    ghost var recovered := g.store.disk.files;
    exit := OpenPolicy(g, config);
    SettledIsRenewed(recovered, g.store.disk.files, exit, g.governor, config.policy, g.store.disk.atomicRename);
    OtherKindStands(recovered, g.store.disk.files, PolicyRecord, AccountingRecord);
  }

  method RestoreAccounting(g: FairnessGovernor) returns (status: Status)
    requires g.store != null && g.Ready() && ValidPolicy(g.policy) && g.accountingRecord == 0
    requires g.View() == State(g.policy, g.accounting, g.epoch, g.governor, map[], map[], map[], false)
    modifies g`epoch, g`accounting, g`accountingRecord
    ensures status == Okay <==> AccountingLoads(LoadFrom(g.store.disk.files, AccountingRecord))
    ensures status == Okay ==>
      && ResumedBy(g, LoadFrom(g.store.disk.files, AccountingRecord), old(g.epoch))
      && Linked(g.accounting, g.accountingRecord, g.store.disk.files)
  {
    g.accounting := FreshAccounting(g.policy, g.epoch);
    status := OpenAccounting(g);
  }

  /** Opens a governor without a store. */
  method OpenInMemory(config: Config, governor: Incarnation, digestOf: Content -> u64) returns (r: Opened)
    ensures r.Serving? ==> fresh(r.g) && r.g.Valid() && r.g.store == null && r.g.accounting == FreshAccounting(config.policy, config.epoch)
    ensures r.Serving? <==> ValidPolicy(config.policy) && ConfigStatus(config, false) == Okay
  {
    var status := ValidatePolicy(config.policy);
    if status == Okay {
      status := ConfigStatus(config, false);
    }
    if status != Okay {
      return NotOpened(status);
    }
    var g := new FairnessGovernor(config.policy, FreshAccounting(config.policy, config.epoch), config.epoch, governor,
                                  config.limits, digestOf, null, 0, 0);
    r := Serving(g);
  }
}
