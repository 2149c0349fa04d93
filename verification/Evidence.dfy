// Service-window evidence: what a producer observed, its validation, and the
// digest a producer may declare over its observations.

module Evidence {
  import opened Core
  import opened Bytes
  import opened Digest
  import opened Sums
  import opened Ordering
  import opened Policy

  const DIGEST_MIX: nat := 0x9E3779B97F4A7C15

  datatype Observation = Observation(
    id: u64, generation: u64, served: u64, unservedStreak: u32, belowFloorStreak: u32, priority: ClassRef, qos: ClassRef)

  datatype Producer = Producer(name: seq<byte>, instance: u64, version: u64)

  datatype Snapshot = Snapshot(
    id: u64, generation: u64, window: u64, windowGeneration: u64, epoch: u64, capturedAt: i64, sequence: u64,
    producer: Producer, provenance: Provenance, declaredDigest: u64, observations: seq<Observation>)

  // --- What valid evidence is -----------------------------------------------------------

  function SnapshotStatus(e: Snapshot): Status {
    if e.id == 0 || e.generation == 0 || e.window == 0 || e.windowGeneration == 0 || e.epoch == 0 then InvalidArgument
    else if |e.observations| > MAX_EVIDENCE_RECORDS then LimitExceeded
    else if |e.producer.name| > MAX_LABEL_BYTES || |e.provenance.source| > MAX_LABEL_BYTES then LimitExceeded
    else if e.capturedAt < 0 then InvalidArgument
    else Okay
  }

  function ObservationStatus(o: Observation): Status {
    if o.id == 0 || o.generation == 0 then InvalidArgument
    else if o.served > MAX_SERVICE_UNITS then OutOfRange
    else if o.unservedStreak > MAX_STREAK || o.belowFloorStreak > MAX_STREAK then OutOfRange
    else if !o.priority.Consistent() || !o.qos.Consistent() then InvalidArgument
    else if o.served > 0 && o.unservedStreak != 0 then EvidenceContradictory
    else Okay
  }

  ghost predicate DistinctObservations(os: seq<Observation>) {
    forall i, j :: 0 <= i < j < |os| ==> os[i].id != os[j].id
  }

  ghost predicate DigestHolds(e: Snapshot) {
    e.declaredDigest != 0 ==> ObservationDigest(e.observations) == e.declaredDigest
  }

  ghost predicate ObservationsSound(os: seq<Observation>) {
    forall i :: 0 <= i < |os| ==> ObservationStatus(os[i]) == Okay
  }

  ghost predicate ValidEvidence(e: Snapshot) {
    SnapshotStatus(e) == Okay && ObservationsSound(e.observations) && DistinctObservations(e.observations) && DigestHolds(e)
  }

  // --- The declared digest -----------------------------------------------------------------

  function ObservationBytes(o: Observation): seq<byte> {
    Le(o.id, 8) + Le(o.generation, 8) + Le(o.served, 8) + Le(o.unservedStreak, 8) + Le(o.belowFloorStreak, 8)
      + Le(o.priority.id, 8) + Le(o.qos.id, 8)
  }

  /** What the digest is of: every observed amount and streak, whose they are, and
      which classes were referred to; not the classes' generations. */
  lemma {:induction false} DigestedExactly(o: Observation, x: Observation)
    ensures ObservationBytes(o) == ObservationBytes(x) <==>
      && (o.id, o.generation, o.served) == (x.id, x.generation, x.served)
      && (o.unservedStreak, o.belowFloorStreak) == (x.unservedStreak, x.belowFloorStreak)
      && (o.priority.id, o.qos.id) == (x.priority.id, x.qos.id)
  {
    var (a, b) := (ObservationBytes(o), ObservationBytes(x));
    if a == b {
      WidthsInBytes();
      forall k: nat | k < 7
        ensures DigestedWords(o)[k] == DigestedWords(x)[k]
      {
        EighthWord(o, k);
        EighthWord(x, k);
        LeInjective(DigestedWords(o)[k], DigestedWords(x)[k], 8);
      }
      assert DigestedWords(o) == DigestedWords(x);
    }
  }

  function DigestedWords(o: Observation): (s: seq<u64>)
    ensures |s| == 7
  {
    [o.id, o.generation, o.served, o.unservedStreak, o.belowFloorStreak, o.priority.id, o.qos.id]
  }

  lemma {:induction false} EighthWord(o: Observation, k: nat)
    requires k < 7
    ensures |ObservationBytes(o)| == 56 && ObservationBytes(o)[8 * k..8 * k + 8] == Le(DigestedWords(o)[k], 8)
  {
  }

  function Digests(os: seq<Observation>): (s: seq<nat>)
    ensures |s| == |os|
  {
    seq(|os|, i requires 0 <= i < |os| => Checksum(ObservationBytes(os[i])))
  }

  /** Exclusive or of all values, n bits wide. */
  function XorAll(ds: seq<nat>, n: nat): nat {
    if ds == [] then 0 else Xor(XorAll(ds[..|ds| - 1], n), ds[|ds| - 1], n)
  }

  function ObservationDigest(os: seq<Observation>): nat {
    Xor(Xor((Sum(Digests(os)) % U64_END) * DIGEST_MIX % U64_END, XorAll(Digests(os), 64), 64), OFFSET_BASIS, 64)
  }

  method DigestOne(o: Observation) returns (digest: u64)
    ensures digest == Checksum(ObservationBytes(o))
  {
    var bytes := new byte[56](i => 0);
    StoreLe(bytes, 0, o.id, 8);
    assert bytes[..8] == Le(o.id, 8);
    StoreLe(bytes, 8, o.generation, 8);
    StoreLe(bytes, 16, o.served, 8);
    StoreLe(bytes, 24, o.unservedStreak, 8);
    StoreLe(bytes, 32, o.belowFloorStreak, 8);
    StoreLe(bytes, 40, o.priority.id, 8);
    StoreLe(bytes, 48, o.qos.id, 8);
    assert bytes[..] == bytes[..56];
    digest := Fnv1a64(bytes[..], OFFSET_BASIS);
  }

  /** One pass over the observations, in any order: their digests' sum, wrapping
      around, and their exclusive or. */
  method FoldDigests(os: seq<Observation>) returns (sum: u64, xored: nat)
    ensures sum == Sum(Digests(os)) % U64_END && xored == XorAll(Digests(os), 64)
  {
    sum, xored := 0, 0;
    ghost var ds := Digests(os);
    for i := 0 to |os|
      invariant sum == Sum(ds[..i]) % U64_END
      invariant xored == XorAll(ds[..i], 64)
    {
      var one := DigestOne(os[i]);
      SumStep(ds, i);
      XorAllStep(ds, i, 64);
      WrapStep(Sum(ds[..i]), one);
      sum := (sum + one) % U64_END;
      xored := Xor(xored, one, 64);
    }
    assert ds[..|os|] == ds;
  }

  method ComputeObservationDigest(os: seq<Observation>) returns (digest: nat)
    ensures digest == ObservationDigest(os)
  {
    var sum, xored := FoldDigests(os);
    digest := Xor(Xor(sum * DIGEST_MIX % U64_END, xored, 64), OFFSET_BASIS, 64);
  }

  lemma {:induction false} WrapStep(total: int, one: nat)
    ensures (total % U64_END + one) % U64_END == (total + one) % U64_END
  {
  }

  lemma {:induction false} XorAllStep(ds: seq<nat>, i: nat, n: nat)
    requires i < |ds|
    ensures XorAll(ds[..i + 1], n) == Xor(XorAll(ds[..i], n), ds[i], n)
  {
    assert ds[..i + 1][..i] == ds[..i];
  }

  function LowBits(ds: seq<nat>): (s: seq<nat>)
    ensures |s| == |ds|
  {
    seq(|ds|, i requires 0 <= i < |ds| => ds[i] % 2)
  }

  function Halves(ds: seq<nat>): (s: seq<nat>)
    ensures |s| == |ds|
  {
    seq(|ds|, i requires 0 <= i < |ds| => ds[i] / 2)
  }

  /** Bit by bit, whether an odd number of values have it set. */
  function Parities(ds: seq<nat>, n: nat): nat
    decreases n
  {
    SumNonNegative(LowBits(ds));
    if n == 0 then 0 else Sum(LowBits(ds)) % 2 + 2 * Parities(Halves(ds), n - 1)
  }

  lemma {:induction false} ParitiesOfNone(n: nat)
    ensures Parities([], n) == 0
  {
    assert LowBits([]) == [] && Halves([]) == [];
    if n > 0 {
      ParitiesOfNone(n - 1);
    }
  }

  lemma {:induction false} ParitiesStep(ds: seq<nat>, d: nat, n: nat)
    ensures Parities(ds + [d], n) == Xor(Parities(ds, n), d, n)
    decreases n
  {
    if n > 0 {
      ParitiesStep(Halves(ds), d / 2, n - 1);
      assert Halves(ds + [d]) == Halves(ds) + [d / 2];
      SumNonNegative(LowBits(ds));
      OneMoreLowBit(ds, d);
      LowBitStep(Sum(LowBits(ds)), d % 2, Parities(Halves(ds), n - 1));
    }
  }

  lemma {:induction false} OneMoreLowBit(ds: seq<nat>, d: nat)
    ensures Sum(LowBits(ds + [d])) == Sum(LowBits(ds)) + d % 2
  {
    assert LowBits(ds + [d]) == LowBits(ds) + [d % 2];
    SumConcat(LowBits(ds), [d % 2]);
    SumStep([d % 2], 0);
    assert [d % 2][..1] == [d % 2] && [d % 2][..0] == [];
  }

  lemma {:induction false} LowBitStep(count: nat, bit: nat, rest: nat)
    requires bit < 2
    ensures (count + bit) % 2 == (count % 2 + bit) % 2
    ensures (count % 2 + 2 * rest) % 2 == count % 2 && (count % 2 + 2 * rest) / 2 == rest
  {
  }

  lemma {:induction false} XorAllIsParities(ds: seq<nat>, n: nat)
    ensures XorAll(ds, n) == Parities(ds, n)
  {
    if ds == [] {
      ParitiesOfNone(n);
    } else {
      var front := ds[..|ds| - 1];
      XorAllIsParities(front, n);
      ParitiesStep(front, ds[|ds| - 1], n);
      assert ds == front + [ds[|ds| - 1]];
    }
  }

  lemma {:induction false} ParitiesPermute(ds: seq<nat>, ds': seq<nat>, p: seq<nat>, n: nat)
    requires Permutes(p, |ds|) && |ds'| == |p| && forall i :: 0 <= i < |p| ==> ds'[i] == ds[p[i]]
    ensures Parities(ds', n) == Parities(ds, n)
    decreases n
  {
    if n > 0 {
      ParitiesPermute(Halves(ds), Halves(ds'), p, n - 1);
      SumPermuted(LowBits(ds), p);
      assert LowBits(ds') == Gather(LowBits(ds), p);
    }
  }

  /** A producer may list its observations in any order. */
  lemma {:induction false} DigestIgnoresOrder(os: seq<Observation>, os': seq<Observation>, p: seq<nat>)
    requires Permutes(p, |os|) && |os'| == |p| && forall i :: 0 <= i < |p| ==> os'[i] == os[p[i]]
    ensures ObservationDigest(os') == ObservationDigest(os)
  {
    var (ds, ds') := (Digests(os), Digests(os'));
    SumPermuted(ds, p);
    assert ds' == Gather(ds, p);
    ParitiesPermute(ds, ds', p, 64);
    XorAllIsParities(ds, 64);
    XorAllIsParities(ds', 64);
  }

  // --- Validation ---------------------------------------------------------------------------

  /** Checks every observation; the bounded count keeps the total in 64 bits. */
  method CheckObservations(os: seq<Observation>) returns (status: Status)
    requires |os| <= MAX_EVIDENCE_RECORDS
    ensures status == Okay <==> ObservationsSound(os)
    ensures status != Okay ==> exists i :: 0 <= i < |os| && ObservationStatus(os[i]) == status && ObservationsSound(os[..i])
  {
    var totalServed: nat := 0;
    for i := 0 to |os|
      invariant forall k :: 0 <= k < i ==> ObservationStatus(os[k]) == Okay
      invariant totalServed <= i * MAX_SERVICE_UNITS
    {
      status := ObservationStatus(os[i]);
      if status != Okay {
        return;
      }
      if totalServed + os[i].served >= U64_END {
        assert false;
      }
      totalServed := totalServed + os[i].served;
    }
    status := Okay;
  }

  /** Sorts the identities and looks at neighbours. */
  method FindDuplicate(os: seq<Observation>) returns (found: bool)
    ensures found <==> !DistinctObservations(os)
  {
    var keys := seq(|os|, i requires 0 <= i < |os| => SortKey(os[i].id, 0, 0, 0));
    var indices := seq(|os|, i => i);
    var order := Sort(keys, indices);
    EveryIndexListed(order, |os|);
    var k := 1;
    while k < |order|
      invariant forall j :: 0 < j < k && j < |order| ==> os[order[j - 1]].id != os[order[j]].id
    {
      if os[order[k - 1]].id == os[order[k]].id {
        assert order[k - 1] != order[k];
        return true;
      }
      k := k + 1;
    }
    found := false;
    NeighboursDiffer(os, keys, order);
  }

  lemma {:induction false} EveryIndexListed(order: seq<nat>, n: nat)
    requires SameMembers(order, seq(n, i => i))
    ensures forall i: nat :: i < n ==> i in order
  {
    var indices := seq(n, i => i);
    forall i: nat | i < n
      ensures i in order
    {
      assert indices[i] == i;
    }
  }

  lemma {:induction false} NeighboursDiffer(os: seq<Observation>, keys: seq<SortKey>, order: seq<nat>)
    requires |keys| == |os| && forall i :: 0 <= i < |os| ==> keys[i] == SortKey(os[i].id, 0, 0, 0)
    requires SortedBy(keys, order) && forall i: nat :: i < |os| ==> i in order
    requires forall j :: 0 < j < |order| ==> os[order[j - 1]].id != os[order[j]].id
    ensures DistinctObservations(os)
  {
    forall i, j | 0 <= i < j < |os|
      ensures os[i].id != os[j].id
    {
      assert (i as nat) in order && (j as nat) in order;
      var a :| 0 <= a < |order| && order[a] == i as nat;
      var b :| 0 <= b < |order| && order[b] == j as nat;
      if a < b {
        StrictlyUp(os, keys, order, a, b);
      } else {
        StrictlyUp(os, keys, order, b, a);
      }
    }
  }

  lemma {:induction false} StrictlyUp(os: seq<Observation>, keys: seq<SortKey>, order: seq<nat>, a: nat, b: nat)
    requires |keys| == |os| && forall i :: 0 <= i < |os| ==> keys[i] == SortKey(os[i].id, 0, 0, 0)
    requires SortedBy(keys, order) && a < b < |order|
    requires forall j :: 0 < j < |order| ==> os[order[j - 1]].id != os[order[j]].id
    ensures os[order[a]].id < os[order[b]].id
    decreases b
  {
    assert !Less(keys[order[b]], keys[order[b - 1]]);
    if a < b - 1 {
      StrictlyUp(os, keys, order, a, b - 1);
    }
  }

  /** The stage that refuses a snapshot, and what it says. */
  ghost predicate EvidenceRefused(e: Snapshot, status: Status) {
    if SnapshotStatus(e) != Okay then status == SnapshotStatus(e)
    else if !ObservationsSound(e.observations) then
      exists i :: 0 <= i < |e.observations| && ObservationStatus(e.observations[i]) == status && ObservationsSound(e.observations[..i])
    else status == if DistinctObservations(e.observations) then EvidenceContradictory else Duplicate
  }

  /** Validation accepts exactly the valid snapshots, and says what fails first. */
  method ValidateEvidence(e: Snapshot) returns (status: Status)
    ensures status == Okay <==> ValidEvidence(e)
    ensures status != Okay ==> EvidenceRefused(e, status)
  {
    status := SnapshotStatus(e);
    if status != Okay {
      return;
    }
    status := CheckObservations(e.observations);
    if status != Okay {
      return;
    }
    var duplicate := FindDuplicate(e.observations);
    if duplicate {
      return Duplicate;
    }
    if e.declaredDigest != 0 {
      var computed := ComputeObservationDigest(e.observations);
      if computed != e.declaredDigest {
        return EvidenceContradictory;
      }
    }
    status := Okay;
  }

  // --- Looking a subject up ---------------------------------------------------------------------

  /** The first observation of a subject. */
  function Find(os: seq<Observation>, id: u64): (r: Option<Observation>)
    ensures r.Some? ==> r.value in os && r.value.id == id
    ensures r.None? ==> forall i :: 0 <= i < |os| ==> os[i].id != id
  {
    if os == [] then None
    else if os[0].id == id then Some(os[0])
    else Find(os[1..], id)
  }
}
