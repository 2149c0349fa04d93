// The governor's state and what each operation makes of it.

module Lifecycle {
  import opened Core
  import opened Bytes
  import opened Digest
  import opened Record
  import opened Policy
  import opened Accounting
  import opened Evidence
  import opened Decision
  import opened EvidenceCodec
  import opened Commitment
  import opened CommitmentLaws

  const MAX_PUBLISHERS: nat := 1024

  datatype Limits = Limits(maxStaged: u32, maxObservations: u32)

  datatype State = State(
    policy: FairnessPolicy, accounting: FairnessAccounting, epoch: u64, governor: Incarnation,
    staged: map<nat, Snapshot>, ingested: map<nat, nat>, publishers: map<nat, u64>, stopping: bool)

  datatype Disposition = Staged | DuplicateIgnored

  function LedgerOf(s: State): Ledger {
    Ledger(s.policy, s.accounting, s.epoch, s.governor)
  }

  // --- Bounded maps -------------------------------------------------------------------------------

  /** The smallest key. */
  ghost function MinOf(keys: set<nat>): (k: nat)
    requires keys != {}
    ensures k in keys && forall x :: x in keys ==> k <= x
    decreases |keys|
  {
    var x :| x in keys;
    if keys == {x} then x
    else
      var k := MinOf(keys - {x});
      assert forall y :: y in keys ==> y == x || y in keys - {x};
      if x < k then x else k
  }

  /** The map without its smallest keys, down to n entries. */
  ghost function Trimmed<T>(m: map<nat, T>, n: nat): (r: map<nat, T>)
    ensures |r| <= n && r.Keys <= m.Keys && forall k :: k in r ==> r[k] == m[k]
    decreases |m|
  {
    if |m| <= n then m
    else
      assert m.Keys != {};
      var smaller := m - {MinOf(m.Keys)};
      SmallerMap(m, MinOf(m.Keys));
      Trimmed(smaller, n)
  }

  lemma {:induction false} SmallerMap<T>(m: map<nat, T>, k: nat)
    requires k in m
    ensures |m - {k}| == |m| - 1
  {
    assert (m - {k}).Keys == m.Keys - {k};
  }

  method FindMin<T>(m: map<nat, T>) returns (k: nat)
    requires |m| > 0
    ensures k == MinOf(m.Keys)
  {
    var keys := m.Keys;
    assert keys != {};
    k :| k in keys;
    keys := keys - {k};
    while keys != {}
      invariant k in m && keys <= m.Keys
      invariant forall x :: x in m && x !in keys ==> k <= x
      decreases |keys|
    {
      var x :| x in keys;
      if x < k {
        k := x;
      }
      keys := keys - {x};
    }
  }

  method TrimTo<T>(m: map<nat, T>, n: nat) returns (r: map<nat, T>)
    ensures r == Trimmed(m, n)
  {
    r := m;
    while |r| > n
      invariant Trimmed(r, n) == Trimmed(m, n)
      decreases |r|
    {
      var k := FindMin(r);
      SmallerMap(r, k);
      r := r - {k};
    }
  }

  /** Trimming evicts only keys below every key it keeps. */
  lemma {:induction false} TrimKeepsLargest<T>(m: map<nat, T>, n: nat)
    ensures |Trimmed(m, n)| == Min(|m|, n)
    ensures forall k, x :: k in Trimmed(m, n) && x in m && x !in Trimmed(m, n) ==> x < k
    decreases |m|
  {
    if |m| > n {
      assert m.Keys != {};
      var k := MinOf(m.Keys);
      SmallerMap(m, k);
      TrimKeepsLargest(m - {k}, n);
    }
  }

  // --- Evidence ---------------------------------------------------------------------------------------

  function IdentityKey(id: u64, generation: u64): nat {
    id * U64_END + generation
  }

  /** Identities get distinct keys, ordered by id and then generation. */
  lemma {:induction false} IdentityKeyOrder(id: u64, generation: u64, id': u64, generation': u64)
    ensures IdentityKey(id, generation) == IdentityKey(id', generation') <==> id == id' && generation == generation'
    ensures IdentityKey(id, generation) < IdentityKey(id', generation') <==> id < id' || (id == id' && generation < generation')
  {
  }

  function EvidenceDigest(e: Snapshot): nat {
    Checksum(EncodedEvidence(e))
  }

  function PublisherKey(p: Producer): nat {
    Xor((Checksum(p.name) * PRIME) % U64_END, p.instance, 64)
  }

  /** Why valid evidence is refused, if it is. */
  function IngestRefusal(s: State, limits: Limits, e: Snapshot): Status {
    var (key, publisher) := (IdentityKey(e.id, e.generation), PublisherKey(e.producer));
    if s.stopping then ShuttingDown
    else if e.epoch != s.epoch then StaleEpoch
    else if |e.observations| > limits.maxObservations then LimitExceeded
    else if s.accounting.lastWindow != 0 && e.window <= s.accounting.lastWindow then StaleGeneration
    else if key in s.ingested then if s.ingested[key] != EvidenceDigest(e) then EvidenceContradictory else Okay
    else if publisher in s.publishers && e.sequence < s.publishers[publisher] then SequenceViolation
    else if e.window in s.staged && e.generation <= s.staged[e.window].generation then StaleGeneration
    else Okay
  }

  /** The evidence staged and remembered, and each memory trimmed to its bound. */
  ghost function Remembered(s: State, limits: Limits, e: Snapshot, key: nat, digest: nat, publisher: nat): State {
    var sequence := if publisher in s.publishers then Max(s.publishers[publisher], e.sequence) else e.sequence;
    s.(staged := Trimmed(s.staged[e.window := e], limits.maxStaged),
       ingested := Trimmed(s.ingested[key := digest], limits.maxStaged * 4),
       publishers := Trimmed(s.publishers[publisher := sequence], MAX_PUBLISHERS))
  }

  ghost function Staging(s: State, limits: Limits, e: Snapshot): State {
    Remembered(s, limits, e, IdentityKey(e.id, e.generation), EvidenceDigest(e), PublisherKey(e.producer))
  }

  function DispositionOf(s: State, e: Snapshot): Disposition {
    if IdentityKey(e.id, e.generation) in s.ingested then DuplicateIgnored else Staged
  }

  ghost function AfterIngest(s: State, limits: Limits, e: Snapshot): State {
    if IngestRefusal(s, limits, e) != Okay || DispositionOf(s, e) == DuplicateIgnored then s else Staging(s, limits, e)
  }

  function WithoutEvidence(s: State): State {
    s.(staged := map[], ingested := map[], publishers := map[])
  }

  // --- Policy and epoch -----------------------------------------------------------------------------------

  function InstallRefusal(s: State, p: FairnessPolicy): Status {
    if s.stopping then ShuttingDown
    else if p.id != s.policy.id then Conflict
    else if p.generation <= s.policy.generation then StaleGeneration
    else if p.epoch < s.epoch then StaleEpoch
    else Okay
  }

  /** A newer epoch discards staged evidence. */
  function Cleared(s: State, epoch: u64): State {
    if epoch > s.epoch then WithoutEvidence(s) else s
  }

  function Installed(s: State, p: FairnessPolicy): State {
    var epoch := if p.epoch > s.epoch then p.epoch else s.epoch;
    Cleared(s, p.epoch).(policy := p, epoch := epoch, accounting := s.accounting.(policyGeneration := p.generation, epoch := epoch))
  }

  /** What a failed policy commit leaves: the old policy, without its evidence if
      the new epoch had already discarded it. */
  function InstallUndone(s: State, p: FairnessPolicy): State {
    Cleared(s, p.epoch).(accounting := s.accounting.(policyGeneration := s.policy.generation, epoch := s.epoch))
  }

  /** The stored policy, epoch and accounting put back, evidence or not. */
  lemma {:induction false} InstallTakenBack(s: State, p: FairnessPolicy)
    ensures Installed(s, p).(policy := s.policy, epoch := s.epoch,
              accounting := Installed(s, p).accounting.(policyGeneration := s.policy.generation, epoch := s.epoch))
            == InstallUndone(s, p)
  {
  }

  lemma {:induction false} InstallsApart(s: State, p: FairnessPolicy)
    requires InstallRefusal(s, p) == Okay
    ensures Installed(s, p) != InstallUndone(s, p)
  {
  }

  ghost predicate HoldsEvidence(s: State) {
    s.staged != map[] || s.ingested != map[] || s.publishers != map[]
  }

  /** A failed installation is undone exactly, except that evidence held is gone
      once the new policy had moved the epoch. */
  lemma {:induction false} UndoneExactly(s: State, limits: Limits, p: FairnessPolicy)
    requires Consistent(s, limits)
    ensures InstallUndone(s, p) == s <==> !(p.epoch > s.epoch && HoldsEvidence(s))
  {
  }

  function EpochRefusal(s: State, next: u64): Status {
    if s.stopping then ShuttingDown
    else if next == 0 || next <= s.epoch then StaleEpoch
    else Okay
  }

  function Advanced(s: State, next: u64): State {
    WithoutEvidence(s).(epoch := next, accounting := s.accounting.(epoch := next))
  }

  function EpochUndone(s: State): State {
    WithoutEvidence(s).(accounting := s.accounting.(epoch := s.epoch))
  }

  // --- Evaluation and commit --------------------------------------------------------------------------------

  ghost function MaxOf(keys: set<nat>, start: nat): (k: nat)
    ensures (k == start || k in keys) && start <= k && forall x :: x in keys ==> x <= k
    decreases |keys|
  {
    if keys == {} then start
    else
      var x :| x in keys;
      var k := MaxOf(keys - {x}, start);
      assert forall y :: y in keys ==> y == x || y in keys - {x};
      if x > k then x else k
  }

  /** The highest window committed or staged. */
  ghost function CurrentWindow(s: State): nat {
    MaxOf(s.staged.Keys, s.accounting.lastWindow)
  }

  /** Staged snapshots are keyed by their window. */
  ghost predicate Keyed(s: State) {
    forall w :: w in s.staged ==> s.staged[w].window == w
  }

  ghost function ContextOf(s: State, r: Request): Context
    requires Keyed(s)
  {
    var current := CurrentWindow(s);
    assert current in s.staged ==> s.staged[current].window == current;
    Context(s.policy, s.accounting, if r.window in s.staged then Some(s.staged[r.window]) else None, r, s.epoch,
      current, s.accounting.lastWindow)
  }

  /** The accounting a commit would adopt, or why it is refused. */
  function CommitVerdict(s: State, d: FairnessDecision, digestOf: Content -> u64): (r: Result<FairnessAccounting>)
    ensures r.Err? ==> r.status != Okay
  {
    if s.stopping then Err(ShuttingDown) else CommitOutcome(LedgerOf(s), d, digestOf)
  }

  // --- The invariant ------------------------------------------------------------------------------------------

  /** Everything the governor holds is validated, current and in agreement. */
  ghost predicate Consistent(s: State, limits: Limits) {
    && ValidPolicy(s.policy) && Orderly(s.accounting.subjects, false) && Aligned(s)
    && Keyed(s) && |s.staged| <= limits.maxStaged
    && forall w :: w in s.staged ==> ValidEvidence(s.staged[w]) && s.staged[w].epoch == s.epoch
  }

  ghost predicate Aligned(s: State) {
    s.accounting.policyId == s.policy.id && s.accounting.policyGeneration == s.policy.generation && s.accounting.epoch == s.epoch
  }

  lemma {:induction false} StagingConsistent(s: State, limits: Limits, e: Snapshot)
    requires Consistent(s, limits) && ValidEvidence(e) && IngestRefusal(s, limits, e) == Okay
    ensures Consistent(AfterIngest(s, limits, e), limits)
  {
  }

  lemma {:induction false} InstallConsistent(s: State, limits: Limits, p: FairnessPolicy)
    requires Consistent(s, limits) && ValidPolicy(p) && InstallRefusal(s, p) == Okay
    ensures Consistent(Installed(s, p), limits) && Consistent(InstallUndone(s, p), limits)
  {
  }

  lemma {:induction false} EpochConsistent(s: State, limits: Limits, next: u64)
    requires Consistent(s, limits)
    ensures Consistent(Advanced(s, next), limits) && Consistent(EpochUndone(s), limits)
  {
  }

  lemma {:induction false} CommitConsistent(s: State, limits: Limits, d: FairnessDecision, digestOf: Content -> u64)
    requires Consistent(s, limits) && CommitOutcome(LedgerOf(s), d, digestOf).Ok?
    ensures Consistent(s.(accounting := CommitOutcome(LedgerOf(s), d, digestOf).value), limits)
  {
    CommitKeepsOrder(LedgerOf(s), d, digestOf, false);
  }

  // --- Evidence laws --------------------------------------------------------------------------------------------

  /** Evidence just staged is recognised when it arrives again, exactly as long as
      its identity has not been evicted; different content is a contradiction. */
  lemma {:induction false} SecondArrival(s: State, limits: Limits, e: Snapshot, again: Snapshot)
    requires IngestRefusal(s, limits, e) == Okay && DispositionOf(s, e) == Staged
    requires again.id == e.id && again.generation == e.generation && again.epoch == e.epoch && again.window == e.window
    requires |again.observations| <= limits.maxObservations
    requires IdentityKey(e.id, e.generation) in Staging(s, limits, e).ingested
    ensures
      var after := Staging(s, limits, e);
      && (EvidenceDigest(again) == EvidenceDigest(e) ==>
            IngestRefusal(after, limits, again) == Okay && DispositionOf(after, again) == DuplicateIgnored
            && AfterIngest(after, limits, again) == after)
      && (EvidenceDigest(again) != EvidenceDigest(e) ==>
            IngestRefusal(after, limits, again) == EvidenceContradictory && AfterIngest(after, limits, again) == after)
  {
  }

  /** A remembered publisher's sequence never goes backwards, nor does a staged
      window's snapshot generation. */
  lemma {:induction false} SequencesAdvance(s: State, limits: Limits, e: Snapshot)
    ensures
      var after := AfterIngest(s, limits, e);
      && (forall k :: k in s.publishers && k in after.publishers ==> s.publishers[k] <= after.publishers[k])
      && (forall w :: w in s.staged && w in after.staged ==> s.staged[w].generation <= after.staged[w].generation)
      && |after.publishers| <= Max(|s.publishers|, MAX_PUBLISHERS)
  {
  }
}
