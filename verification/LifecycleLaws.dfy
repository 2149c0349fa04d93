// What each of the governor's operations tells its caller and leaves behind, in
// terms of what it was given.

module LifecycleLaws {
  import opened Core
  import opened Bytes
  import opened Digest
  import opened Policy
  import opened Accounting
  import opened Evidence
  import opened Decision
  import opened EvidenceCodec
  import opened Commitment
  import opened Lifecycle

  // --- Evidence arriving ----------------------------------------------------------------------

  ghost predicate KnownIdentity(s: State, e: Snapshot) {
    IdentityKey(e.id, e.generation) in s.ingested
  }

  ghost predicate KnownContent(s: State, e: Snapshot) {
    KnownIdentity(s, e) && s.ingested[IdentityKey(e.id, e.generation)] == EvidenceDigest(e)
  }

  /** The window is later than any committed. */
  ghost predicate StillOpen(s: State, e: Snapshot) {
    s.accounting.lastWindow == 0 || e.window > s.accounting.lastWindow
  }

  /** Its publisher published nothing later. */
  ghost predicate InSequence(s: State, e: Snapshot) {
    PublisherKey(e.producer) in s.publishers ==> s.publishers[PublisherKey(e.producer)] <= e.sequence
  }

  /** Nothing staged for its window is as new. */
  ghost predicate NewestStaged(s: State, e: Snapshot) {
    e.window in s.staged ==> s.staged[e.window].generation < e.generation
  }

  ghost predicate Admitted(s: State, limits: Limits, e: Snapshot) {
    !s.stopping && e.epoch == s.epoch && |e.observations| <= limits.maxObservations
  }

  /** Valid evidence is taken exactly of this epoch, within the bound, for a window
      still open, new, in sequence and newest for its window; a copy of what is known
      is ignored; and whatever else arrives is told what failed first. */
  ghost predicate Tells(s: State, limits: Limits, e: Snapshot, r: Result<Disposition>) {
    var open, known := Admitted(s, limits, e) && StillOpen(s, e), KnownIdentity(s, e);
    && (r == Ok(Staged) <==> open && !known && InSequence(s, e) && NewestStaged(s, e))
    && (r == Ok(DuplicateIgnored) <==> open && KnownContent(s, e))
    && (r == Err(EvidenceContradictory) <==> open && known && !KnownContent(s, e))
    && (r == Err(ShuttingDown) <==> s.stopping)
    && (r == Err(StaleEpoch) <==> !s.stopping && e.epoch != s.epoch)
    && (r == Err(LimitExceeded) <==> !s.stopping && e.epoch == s.epoch && |e.observations| > limits.maxObservations)
    && (r == Err(SequenceViolation) <==> open && !known && !InSequence(s, e))
    && (r == Err(StaleGeneration) <==>
          (Admitted(s, limits, e) && !StillOpen(s, e)) || (open && !known && InSequence(s, e) && !NewestStaged(s, e)))
  }

  lemma {:induction false} IngestTells(s: State, limits: Limits, e: Snapshot)
    ensures Tells(s, limits, e, if IngestRefusal(s, limits, e) != Okay then Err(IngestRefusal(s, limits, e)) else Ok(DispositionOf(s, e)))
  {
  }

  /** after is before with one key set, less the smallest keys past a bound. */
  ghost predicate Retains<T>(before: map<nat, T>, after: map<nat, T>, k: nat, v: T, bound: nat) {
    && |after| == Min(|before[k := v]|, bound)
    && (forall x :: x in after ==> (x == k || x in before) && after[x] == if x == k then v else before[x])
    && (forall x, y :: x in after && (y == k || y in before) && y !in after ==> y < x)
  }

  lemma {:induction false} TrimmedRetains<T>(before: map<nat, T>, k: nat, v: T, bound: nat)
    ensures Retains(before, Trimmed(before[k := v], bound), k, v, bound)
  {
    TrimKeepsLargest(before[k := v], bound);
  }

  /** Taking evidence stages it for its window and remembers its identity, content
      and place in its publisher's sequence, each memory dropping its smallest keys
      past its bound; refusing or ignoring it changes nothing. */
  lemma {:induction false} IngestLeaves(s: State, limits: Limits, e: Snapshot, r: Result<Disposition>)
    requires Tells(s, limits, e, r)
    ensures
      var after := AfterIngest(s, limits, e);
      && (r != Ok(Staged) ==> after == s)
      && (r == Ok(Staged) ==>
            && after == s.(staged := after.staged, ingested := after.ingested, publishers := after.publishers)
            && Retains(s.staged, after.staged, e.window, e, limits.maxStaged)
            && Retains(s.ingested, after.ingested, IdentityKey(e.id, e.generation), EvidenceDigest(e), limits.maxStaged * 4)
            && Retains(s.publishers, after.publishers, PublisherKey(e.producer), e.sequence, 1024))
  {
    IngestTells(s, limits, e);
    if r == Ok(Staged) {
      TrimmedRetains(s.staged, e.window, e, limits.maxStaged);
      TrimmedRetains(s.ingested, IdentityKey(e.id, e.generation), EvidenceDigest(e), limits.maxStaged * 4);
      TrimmedRetains(s.publishers, PublisherKey(e.producer), e.sequence, MAX_PUBLISHERS);
    }
  }

  /** The digest that identity is remembered with is of the whole snapshot: changing
      any one byte of what it encodes to changes it. */
  lemma {:induction false} AnyByteContradicts(e: Snapshot, other: Snapshot, i: nat, b: byte)
    requires i < |EncodedEvidence(e)| && b != EncodedEvidence(e)[i] && EncodedEvidence(other) == EncodedEvidence(e)[i := b]
    ensures EvidenceDigest(other) != EvidenceDigest(e)
  {
    SingleByteChangesDigest(OFFSET_BASIS, EncodedEvidence(e), i, b);
  }

  /** Two instances of one producer never share a place in the sequences. */
  lemma {:induction false} InstancesApart(p: Producer, q: Producer)
    requires p.name == q.name && p.instance != q.instance
    ensures PublisherKey(p) != PublisherKey(q)
  {
    var hash := (Checksum(p.name) * PRIME) % U64_END;
    if PublisherKey(p) == PublisherKey(q) {
      XorCommutes(hash, p.instance, 64);
      XorCommutes(hash, q.instance, 64);
      Pow2OfWord();
      XorInjective(p.instance, q.instance, hash, 64);
    }
  }

  /** Nor do two names whose digests differ, under one instance. */
  lemma {:induction false} NamesApart(p: Producer, q: Producer)
    requires p.instance == q.instance && Checksum(p.name) != Checksum(q.name)
    ensures PublisherKey(p) != PublisherKey(q)
  {
    var (h, h') := ((Checksum(p.name) * PRIME) % U64_END, (Checksum(q.name) * PRIME) % U64_END);
    if PublisherKey(p) == PublisherKey(q) {
      Pow2OfWord();
      XorInjective(h, h', p.instance, 64);
      PrimeIsInvertible(Checksum(p.name));
      PrimeIsInvertible(Checksum(q.name));
    }
  }

  // --- Policies and epochs ----------------------------------------------------------------------

  /** A valid policy is installed exactly if it is this policy's, newer, and its
      epoch not behind; else the caller is told what failed first. */
  lemma {:induction false} InstallTells(s: State, p: FairnessPolicy)
    ensures
      var (r, same) := (InstallRefusal(s, p), !s.stopping && p.id == s.policy.id);
      && (r == Okay <==> same && s.policy.generation < p.generation && s.epoch <= p.epoch)
      && (r == ShuttingDown <==> s.stopping)
      && (r == Conflict <==> !s.stopping && p.id != s.policy.id)
      && (r == StaleGeneration <==> same && p.generation <= s.policy.generation)
      && (r == StaleEpoch <==> same && s.policy.generation < p.generation && p.epoch < s.epoch)
  {
  }

  /** Installing adopts the policy and the later epoch, which the accounting follows;
      it touches nothing else, unless a later epoch makes it drop all evidence. */
  lemma {:induction false} InstallLeaves(s: State, p: FairnessPolicy)
    requires InstallRefusal(s, p) == Okay
    ensures
      var after := Installed(s, p);
      && after.policy == p && after.epoch == p.epoch == after.accounting.epoch
      && after.accounting.policyGeneration == p.generation
      && after.accounting == s.accounting.(policyGeneration := p.generation, epoch := p.epoch)
      && (after.governor, after.stopping) == (s.governor, s.stopping)
      && (after.staged, after.ingested, after.publishers)
         == if p.epoch == s.epoch then (s.staged, s.ingested, s.publishers) else (map[], map[], map[])
  {
    InstallTells(s, p);
  }

  /** The epoch moves exactly to a later one, and takes the evidence with it. */
  lemma {:induction false} EpochTells(s: State, next: u64)
    ensures
      var (r, after) := (EpochRefusal(s, next), Advanced(s, next));
      && (r == Okay <==> !s.stopping && next > s.epoch)
      && (r == ShuttingDown <==> s.stopping)
      && (r == StaleEpoch <==> !s.stopping && next <= s.epoch)
      && after.epoch == next && after.accounting == s.accounting.(epoch := next)
      && after.staged == map[] && after.ingested == map[] && after.publishers == map[]
      && (after.policy, after.governor, after.stopping) == (s.policy, s.governor, s.stopping)
  {
  }

  /** A failed advance puts the epoch back but not the evidence. */
  lemma {:induction false} EpochUndoneLeaves(s: State, limits: Limits)
    requires Consistent(s, limits)
    ensures EpochUndone(s) == s <==> !HoldsEvidence(s)
    ensures EpochUndone(s).accounting == s.accounting && EpochUndone(s).epoch == s.epoch
    ensures !HoldsEvidence(EpochUndone(s))
  {
  }

  // --- What an evaluation reads ---------------------------------------------------------------------

  /** The live policy, accounting and epoch, the evidence staged for the window asked
      about, and the latest windows seen and committed. */
  lemma {:induction false} EvaluationReads(s: State, r: Request)
    requires Keyed(s)
    ensures
      var c := ContextOf(s, r);
      && (c.policy, c.accounting, c.epoch, c.request, c.lastWindow) == (s.policy, s.accounting, s.epoch, r, s.accounting.lastWindow)
      && (c.evidence.None? <==> r.window !in s.staged) && (c.evidence.Some? ==> c.evidence.value == s.staged[r.window])
      && c.currentWindow >= s.accounting.lastWindow && (forall w :: w in s.staged ==> w <= c.currentWindow)
      && (c.currentWindow == s.accounting.lastWindow || c.currentWindow in s.staged)
  {
  }

  /** A commit is refused once the governor stops, and else told by the ledger. */
  lemma {:induction false} CommitTells(s: State, d: FairnessDecision, digestOf: Content -> u64)
    ensures s.stopping ==> CommitVerdict(s, d, digestOf) == Err(ShuttingDown)
    ensures !s.stopping ==>
      CommitVerdict(s, d, digestOf) == CommitOutcome(Ledger(s.policy, s.accounting, s.epoch, s.governor), d, digestOf)
  {
  }
}
