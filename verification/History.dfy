// What durable accounting is made of: the decisions committed to it and the
// reopenings in between, each of which keeps only subjects the policy governs.

module History {
  import opened Core
  import opened Sums
  import opened Policy
  import opened Accounting
  import opened Decision
  import opened Commitment
  import opened CommitmentLaws

  // --- Entries a policy governs ------------------------------------------------------------------

  /** The policy has the entry's subject at the entry's generation. */
  predicate Governs(p: FairnessPolicy, e: SubjectAccounting) {
    var subject := FindSubject(p.subjects, e.id);
    subject.Some? && subject.value.generation == e.generation
  }

  lemma {:induction false} FindsOnly(subjects: seq<Subject>, s: Subject)
    requires DistinctSubjectIds(subjects) && s in subjects
    ensures FindSubject(subjects, s.id) == Some(s)
    decreases |subjects|
  {
    if subjects[0] != s {
      assert s in subjects[1..];
      assert subjects[0].id != s.id;
      FindsOnly(subjects[1..], s);
    }
  }

  lemma {:induction false} GovernsExactly(p: FairnessPolicy, e: SubjectAccounting)
    requires DistinctSubjectIds(p.subjects)
    ensures Governs(p, e) <==> exists s :: s in p.subjects && s.id == e.id && s.generation == e.generation
  {
    forall s | s in p.subjects && s.id == e.id && s.generation == e.generation
      ensures Governs(p, e)
    {
      FindsOnly(p.subjects, s);
    }
  }

  /** The entries the policy governs, in their order. */
  function KeptEntries(p: FairnessPolicy, entries: seq<SubjectAccounting>): (r: seq<SubjectAccounting>)
    ensures forall e :: e in r <==> e in entries && Governs(p, e)
  {
    if entries == [] then []
    else
      var front, last := KeptEntries(p, entries[..|entries| - 1]), entries[|entries| - 1];
      assert entries == entries[..|entries| - 1] + [last];
      if Governs(p, last) then front + [last] else front
  }

  method KeepEntries(p: FairnessPolicy, entries: seq<SubjectAccounting>) returns (kept: seq<SubjectAccounting>)
    ensures kept == KeptEntries(p, entries)
  {
    kept := [];
    for i := 0 to |entries|
      invariant kept == KeptEntries(p, entries[..i])
    {
      assert entries[..i + 1][..i] == entries[..i];
      var subject := FindSubject(p.subjects, entries[i].id);
      if subject.Some? && subject.value.generation == entries[i].generation {
        kept := kept + [entries[i]];
      }
    }
    assert entries[..|entries|] == entries;
  }

  lemma {:induction false} KeptStaysOrderly(p: FairnessPolicy, entries: seq<SubjectAccounting>, normal: bool)
    requires Orderly(entries, normal)
    ensures Orderly(KeptEntries(p, entries), normal)
    decreases |entries|
  {
    if entries != [] {
      var (front, last) := (entries[..|entries| - 1], entries[|entries| - 1]);
      KeptStaysOrderly(p, front, normal);
      forall e | e in KeptEntries(p, front)
        ensures e.id != last.id
      {
        assert e in front;
      }
    }
  }

  lemma {:induction false} KeptStaysShort(p: FairnessPolicy, entries: seq<SubjectAccounting>)
    requires ShortStreaks(entries)
    ensures ShortStreaks(KeptEntries(p, entries))
  {
    forall i | 0 <= i < |KeptEntries(p, entries)|
      ensures KeptEntries(p, entries)[i] in entries
    {
      assert KeptEntries(p, entries)[i] in KeptEntries(p, entries);
    }
  }

  lemma {:induction false} SamePlace(entries: seq<SubjectAccounting>, i: nat, k: nat)
    requires Orderly(entries, false) && i < |entries| && k < |entries| && entries[i].id == entries[k].id
    ensures i == k
  {
  }

  lemma {:induction false} IndexOfOne(entries: seq<SubjectAccounting>, e: SubjectAccounting)
    requires Orderly(entries, false) && e in entries
    ensures IndexOf(entries, e.id).Some? && entries[IndexOf(entries, e.id).value] == e
  {
    var k :| 0 <= k < |entries| && entries[k] == e;
    if IndexOf(entries, e.id).Some? {
      SamePlace(entries, IndexOf(entries, e.id).value, k);
    }
  }

  /** A subject has an entry and the policy governs it. */
  ghost predicate Keeps(p: FairnessPolicy, entries: seq<SubjectAccounting>, id: u64) {
    IndexOf(entries, id).Some? && Governs(p, entries[IndexOf(entries, id).value])
  }

  /** Reopening leaves a governed subject its carry, and drops any other's. */
  lemma {:induction false} KeptCarry(p: FairnessPolicy, entries: seq<SubjectAccounting>, id: u64)
    requires Orderly(entries, false)
    ensures CarryOf(KeptEntries(p, entries), id) == if Keeps(p, entries, id) then CarryOf(entries, id) else EMPTY_CARRY
  {
    var kept := KeptEntries(p, entries);
    KeptStaysOrderly(p, entries, false);
    if Keeps(p, entries, id) {
      var e := entries[IndexOf(entries, id).value];
      assert e in entries;
      IndexOfOne(kept, e);
    } else if IndexOf(kept, id).Some? {
      var e := kept[IndexOf(kept, id).value];
      assert e in kept;
      IndexOfOne(entries, e);
      assert false;
    }
  }

  // --- Deeds ------------------------------------------------------------------------------------------

  /** What changed the accounting: a decision committed under a policy, or a
      governor that opened on it under one. */
  datatype Deed = Committed(policy: FairnessPolicy, content: Content) | Reopened(policy: FairnessPolicy)

  function DeedOn(entries: seq<SubjectAccounting>, deed: Deed): Option<seq<SubjectAccounting>> {
    match deed
    case Reopened(p) => Some(KeptEntries(p, entries))
    case Committed(p, content) =>
      match ApplyStates(p, entries, content.subjects)
      case Err(_) => None
      case Ok(applied) => Some(Stamped(applied, content.intents, content.authority.window))
  }

  /** The entries these deeds lead to, from none. */
  function Replayed(deeds: seq<Deed>): Option<seq<SubjectAccounting>> {
    if deeds == [] then Some([])
    else
      match Replayed(deeds[..|deeds| - 1])
      case None => None
      case Some(entries) => DeedOn(entries, deeds[|deeds| - 1])
  }

  lemma {:induction false} ReplayedOneMore(deeds: seq<Deed>, deed: Deed)
    requires Replayed(deeds).Some?
    ensures Replayed(deeds + [deed]) == DeedOn(Replayed(deeds).value, deed)
  {
    assert (deeds + [deed])[..|deeds|] == deeds;
  }

  /** The windows committed, in order. */
  function Numbers(deeds: seq<Deed>): seq<nat> {
    if deeds == [] then []
    else
      var front, last := Numbers(deeds[..|deeds| - 1]), deeds[|deeds| - 1];
      if last.Committed? then front + [last.content.authority.window] else front
  }

  lemma {:induction false} NumbersOneMore(deeds: seq<Deed>, deed: Deed)
    ensures Numbers(deeds + [deed]) == Numbers(deeds) + if deed.Committed? then [deed.content.authority.window] else []
  {
    assert (deeds + [deed])[..|deeds|] == deeds;
  }

  ghost predicate Lawful(deeds: seq<Deed>) {
    forall i :: 0 <= i < |deeds| ==> deeds[i].policy.maxCarry <= MAX_CARRY_UNITS
  }

  // --- What the deeds say of each carry --------------------------------------------------------------

  /** One subject's windows since its entry was last dropped, each with the bound
      then in force. */
  ghost function WindowsSince(deeds: seq<Deed>, id: u64): seq<Window> {
    if deeds == [] then []
    else
      var front := deeds[..|deeds| - 1];
      match deeds[|deeds| - 1]
      case Committed(p, content) => WindowsSince(front, id) + WindowsOf(content.subjects, id, p.maxCarry)
      case Reopened(p) =>
        if Replayed(front).Some? && Keeps(p, Replayed(front).value, id) then WindowsSince(front, id) else []
  }

  /** Whatever was committed and reopened, identities are distinct, carries bounded
      and one-sided. */
  lemma {:induction false} ReplayedOrderly(deeds: seq<Deed>)
    requires Lawful(deeds) && Replayed(deeds).Some?
    ensures Orderly(Replayed(deeds).value, true)
    decreases |deeds|
  {
    if deeds != [] {
      var (front, last) := (deeds[..|deeds| - 1], deeds[|deeds| - 1]);
      ReplayedOrderly(front);
      DeedKeepsOrder(Replayed(front).value, last);
    }
  }

  lemma {:induction false} DeedKeepsOrder(entries: seq<SubjectAccounting>, deed: Deed)
    requires Orderly(entries, true) && deed.policy.maxCarry <= MAX_CARRY_UNITS && DeedOn(entries, deed).Some?
    ensures Orderly(DeedOn(entries, deed).value, true)
  {
    match deed
    case Reopened(p) => KeptStaysOrderly(p, entries, true);
    case Committed(p, content) =>
      StatesKeepOrder(p, entries, content.subjects, true);
      StampsKeepOrder(ApplyStates(p, entries, content.subjects).value, content.intents, content.authority.window, true);
  }

  /** A deed takes a subject's carry through its windows, or drops it. */
  lemma {:induction false} DeedMovesCarry(deeds: seq<Deed>, id: u64)
    requires deeds != [] && Replayed(deeds).Some? && Lawful(deeds)
    ensures
      var (front, last) := (deeds[..|deeds| - 1], deeds[|deeds| - 1]);
      && Replayed(front).Some?
      && match last
         case Committed(p, content) =>
           CarryAfter(CarryOf(Replayed(front).value, id), WindowsOf(content.subjects, id, p.maxCarry)) == Some(CarryOf(Replayed(deeds).value, id))
         case Reopened(p) =>
           CarryOf(Replayed(deeds).value, id) ==
             if Keeps(p, Replayed(front).value, id) then CarryOf(Replayed(front).value, id) else EMPTY_CARRY
  {
    var (front, last) := (deeds[..|deeds| - 1], deeds[|deeds| - 1]);
    var entries := Replayed(front).value;
    match last
    case Reopened(p) =>
      ReplayedOrderly(front);
      KeptCarry(p, entries, id);
    case Committed(p, content) =>
      StatesMoveCarry(p, entries, content.subjects, id);
      StampsKeepCarries(ApplyStates(p, entries, content.subjects).value, content.intents, content.authority.window, id);
  }

  /** Every subject's carry is exactly what its windows since it was last dropped
      make of an empty one. */
  lemma {:induction false} ReplayedCarries(deeds: seq<Deed>, id: u64)
    requires Lawful(deeds) && Replayed(deeds).Some?
    ensures CarryAfter(EMPTY_CARRY, WindowsSince(deeds, id)) == Some(CarryOf(Replayed(deeds).value, id))
    decreases |deeds|
  {
    if deeds != [] {
      var (front, last) := (deeds[..|deeds| - 1], deeds[|deeds| - 1]);
      DeedMovesCarry(deeds, id);
      ReplayedCarries(front, id);
      if last.Committed? {
        CarryJoins(EMPTY_CARRY, WindowsSince(front, id), WindowsOf(last.content.subjects, id, last.policy.maxCarry));
      }
    }
  }

  /** So the carry identity, saturation included, holds of whatever is durable. */
  lemma {:induction false} ReplayedReflects(deeds: seq<Deed>, id: u64)
    requires Lawful(deeds) && Replayed(deeds).Some?
    ensures Reflects(CarryOf(Replayed(deeds).value, id), WindowsSince(deeds, id))
  {
    ReplayedCarries(deeds, id);
    RunReflects(WindowsSince(deeds, id), CarryOf(Replayed(deeds).value, id));
  }

  // --- The population ----------------------------------------------------------------------------------

  /** The entries reopening drops. */
  function DroppedEntries(p: FairnessPolicy, entries: seq<SubjectAccounting>): (r: seq<SubjectAccounting>)
    ensures forall e :: e in r <==> e in entries && !Governs(p, e)
  {
    if entries == [] then []
    else
      var front, last := DroppedEntries(p, entries[..|entries| - 1]), entries[|entries| - 1];
      assert entries == entries[..|entries| - 1] + [last];
      if Governs(p, last) then front else front + [last]
  }

  lemma {:induction false} KeptAndDropped(p: FairnessPolicy, entries: seq<SubjectAccounting>)
    ensures TotalSigned(entries) == TotalSigned(KeptEntries(p, entries)) + TotalSigned(DroppedEntries(p, entries))
    decreases |entries|
  {
    if entries != [] {
      var (front, last) := (entries[..|entries| - 1], entries[|entries| - 1]);
      KeptAndDropped(p, front);
      assert entries == front + [last];
      TotalOfOneMore(front, last);
      TotalOfOneMore(KeptEntries(p, front), last);
      TotalOfOneMore(DroppedEntries(p, front), last);
    }
  }

  /** The nets committed, less what dropped subjects took with them. */
  function NetOfDeeds(deeds: seq<Deed>): int {
    if deeds == [] then 0
    else
      var front := deeds[..|deeds| - 1];
      NetOfDeeds(front) +
      match deeds[|deeds| - 1]
      case Committed(_, content) => Sum(StateNets(content.subjects))
      case Reopened(p) => if Replayed(front).Some? then -TotalSigned(DroppedEntries(p, Replayed(front).value)) else 0
  }

  /** The population's signed carry and discards are the nets committed, less what
      the dropped subjects took with them. */
  lemma {:induction false} ReplayedTotal(deeds: seq<Deed>)
    requires Replayed(deeds).Some?
    ensures TotalSigned(Replayed(deeds).value) == NetOfDeeds(deeds)
    decreases |deeds|
  {
    if deeds != [] {
      var (front, last) := (deeds[..|deeds| - 1], deeds[|deeds| - 1]);
      ReplayedTotal(front);
      var entries := Replayed(front).value;
      match last
      case Reopened(p) => KeptAndDropped(p, entries);
      case Committed(p, content) =>
        StatesMoveTotal(p, entries, content.subjects);
        StampsKeepTotal(ApplyStates(p, entries, content.subjects).value, content.intents, content.authority.window);
    }
  }

  lemma {:induction false} StampsKeepTotal(entries: seq<SubjectAccounting>, intents: seq<Intent>, window: u64)
    ensures TotalSigned(Stamped(entries, intents, window)) == TotalSigned(entries)
  {
    StampsKeepCarries(entries, intents, window, 0);
    assert SignedEach(Stamped(entries, intents, window)) == SignedEach(entries);
  }
}
