// What committing a decision does to the accounting: which decisions are refused,
// and how the accepted ones move every subject's carry.

module Commitment {
  import opened Core
  import opened Sums
  import opened Record
  import opened Policy
  import opened Accounting
  import opened Decision
  import opened Eligibility
  import opened Verdicts

  /** What a commit reads of the governor. */
  datatype Ledger = Ledger(policy: FairnessPolicy, accounting: FairnessAccounting, epoch: u64, governor: Incarnation)

  function FindSubject(subjects: seq<Subject>, id: u64): (r: Option<Subject>)
    ensures r.Some? ==> r.value in subjects && r.value.id == id
  {
    if subjects == [] then None
    else if subjects[0].id == id then Some(subjects[0])
    else FindSubject(subjects[1..], id)
  }

  function IndexOf(entries: seq<SubjectAccounting>, id: u64): (r: Option<nat>)
    ensures r.Some? ==> r.value < |entries| && entries[r.value].id == id
    ensures r.None? ==> forall i :: 0 <= i < |entries| ==> entries[i].id != id
  {
    if entries == [] then None
    else if entries[0].id == id then Some(0)
    else
      match IndexOf(entries[1..], id)
      case None => None
      case Some(i) => Some(i + 1)
  }

  // --- Refusals ---------------------------------------------------------------------------------

  /** Why a decision is refused before anything is applied, if it is. */
  function Refused(l: Ledger, d: FairnessDecision, digestOf: Content -> u64): Status {
    var (a, c) := (d.content.authority, d.content.correction);
    if d.governor != l.governor then StaleIncarnation
    else if a.epoch != l.epoch then StaleEpoch
    else if a.policyId != l.policy.id || a.policyGeneration != l.policy.generation then PolicyGenerationMismatch
    else if a.accountingGeneration != l.accounting.generation then StaleGeneration
    else if a.window == 0 || a.windowGeneration == 0 then InvalidArgument
    else if l.accounting.lastWindow != 0 && a.window <= l.accounting.lastWindow then StaleGeneration
    else if |d.content.subjects| != |l.policy.subjects| then Conflict
    else if digestOf(d.content) != d.digest then Conflict
    else if c.augment != c.reduce then Conflict
    else if Sum(UnitsOf(d.content.intents, Augment)) >= U64_END || Sum(UnitsOf(d.content.intents, Reduce)) >= U64_END then
      ArithmeticOverflow
    else if Sum(UnitsOf(d.content.intents, Augment)) != c.augment || Sum(UnitsOf(d.content.intents, Reduce)) != c.reduce then Conflict
    else if |d.content.intents| > MAX_INTENTS then LimitExceeded
    else Okay
  }

  /** Adds up both directions' intents, refusing a total past 64 bits. */
  method AddIntents(intents: seq<Intent>) returns (r: Result<(nat, nat)>)
    ensures r.Err? <==> Sum(UnitsOf(intents, Augment)) >= U64_END || Sum(UnitsOf(intents, Reduce)) >= U64_END
    ensures r.Err? ==> r.status == ArithmeticOverflow
    ensures r.Ok? ==> r.value == (Sum(UnitsOf(intents, Augment)), Sum(UnitsOf(intents, Reduce)))
  {
    var augments, reduces := UnitsOf(intents, Augment), UnitsOf(intents, Reduce);
    var augment: nat, reduce: nat := 0, 0;
    for k := 0 to |intents|
      invariant augment == Sum(augments[..k]) < U64_END && reduce == Sum(reduces[..k]) < U64_END
    {
      SumStep(augments, k);
      SumStep(reduces, k);
      SumPrefix(augments, k + 1);
      SumPrefix(reduces, k + 1);
      if intents[k].direction.Augment? {
        if augment + intents[k].units >= U64_END {
          return Err(ArithmeticOverflow);
        }
        augment := augment + intents[k].units;
      } else {
        if reduce + intents[k].units >= U64_END {
          return Err(ArithmeticOverflow);
        }
        reduce := reduce + intents[k].units;
      }
    }
    assert augments[..|intents|] == augments && reduces[..|intents|] == reduces;
    r := Ok((augment, reduce));
  }

  // --- Applying states ------------------------------------------------------------------------------

  /** A 64-bit count read as a signed word. */
  function AsI64(x: nat): int {
    if x <= I64_MAX then x else x - U64_END
  }

  function NetOf(s: SubjectState): int {
    if s.authority then AsI64(s.entitlement) - AsI64(s.served) else 0
  }

  /** Counts of 64 bits whose signed difference, where one is taken, does not
      overflow. */
  ghost predicate PlausibleState(s: SubjectState) {
    s.served < U64_END && s.entitlement < U64_END && (s.authority ==> FitsI64(NetOf(s)))
  }

  /** An entry after one window, or why it cannot take it. */
  function EntryAfter(e: SubjectAccounting, s: SubjectState, maxCarry: u64): (r: Result<SubjectAccounting>)
    ensures r.Err? ==> r.status != Okay
  {
    match Applied(e.carry, NetOf(s), maxCarry)
    case None => Err(ArithmeticOverflow)
    case Some(c) =>
      if e.windowsObserved + 1 >= U64_END || e.totalServed + s.served >= U64_END then Err(ArithmeticOverflow)
      else
        Ok(e.(carry := c, unservedStreak := s.unservedStreak % U32_END, belowFloorStreak := s.belowFloorStreak % U32_END,
              windowsObserved := e.windowsObserved + 1, totalServed := e.totalServed + s.served))
  }

  function NewEntry(s: SubjectState): SubjectAccounting {
    SubjectAccounting(s.id, s.generation, EMPTY_CARRY, 0, 0, 0, 0, 0, 0)
  }

  /** The entry a state applies to, appended when the subject is new. */
  function WithEntry(entries: seq<SubjectAccounting>, s: SubjectState): (r: seq<SubjectAccounting>)
    ensures |r| > 0 && |r| >= |entries|
  {
    if IndexOf(entries, s.id).Some? then entries else entries + [NewEntry(s)]
  }

  function PlaceOf(entries: seq<SubjectAccounting>, s: SubjectState): (i: nat)
    ensures i < |WithEntry(entries, s)| && WithEntry(entries, s)[i].id == s.id
  {
    match IndexOf(entries, s.id)
    case Some(i) => i
    case None => |entries|
  }

  function ApplyState(policy: FairnessPolicy, entries: seq<SubjectAccounting>, s: SubjectState): (r: Result<seq<SubjectAccounting>>)
    ensures r.Err? ==> r.status != Okay
  {
    if !s.authority then Ok(entries)
    else
      var subject := FindSubject(policy.subjects, s.id);
      if subject.None? || subject.value.generation != s.generation then Err(Conflict)
      else
        var (all, i) := (WithEntry(entries, s), PlaceOf(entries, s));
        match EntryAfter(all[i], s, policy.maxCarry)
        case Err(e) => Err(e)
        case Ok(after) => Ok(all[i := after])
  }

  function ApplyStates(policy: FairnessPolicy, entries: seq<SubjectAccounting>, states: seq<SubjectState>): (r: Result<seq<SubjectAccounting>>)
    ensures r.Err? ==> r.status != Okay
  {
    if states == [] then Ok(entries)
    else
      match ApplyStates(policy, entries, states[..|states| - 1])
      case Err(e) => Err(e)
      case Ok(front) => ApplyState(policy, front, states[|states| - 1])
  }

  /** States the signed arithmetic is defined for. */
  ghost predicate Plausible(states: seq<SubjectState>) {
    forall i :: 0 <= i < |states| ==> PlausibleState(states[i])
  }

  method ApplyOne(policy: FairnessPolicy, entries: seq<SubjectAccounting>, s: SubjectState) returns (r: Result<seq<SubjectAccounting>>)
    requires PlausibleState(s)
    ensures r == ApplyState(policy, entries, s)
  {
    if !s.authority {
      return Ok(entries);
    }
    var subject := FindSubject(policy.subjects, s.id);
    if subject.None? || subject.value.generation != s.generation {
      return Err(Conflict);
    }
    var all, i := entries, |entries|;
    match IndexOf(entries, s.id) {
      case Some(k) => i := k;
      case None => all := entries + [NewEntry(s)];
    }
    var carry := ApplyWindowCarry(all[i].carry, AsI64(s.entitlement) - AsI64(s.served), policy.maxCarry);
    if carry.None? {
      return Err(ArithmeticOverflow);
    }
    if all[i].windowsObserved + 1 >= U64_END || all[i].totalServed + s.served >= U64_END {
      return Err(ArithmeticOverflow);
    }
    r := Ok(all[i := all[i].(carry := carry.value.carry, unservedStreak := s.unservedStreak % U32_END,
                             belowFloorStreak := s.belowFloorStreak % U32_END,
                             windowsObserved := all[i].windowsObserved + 1, totalServed := all[i].totalServed + s.served)]);
  }

  method ApplyAll(policy: FairnessPolicy, entries: seq<SubjectAccounting>, states: seq<SubjectState>) returns (r: Result<seq<SubjectAccounting>>)
    requires Plausible(states)
    ensures r == ApplyStates(policy, entries, states)
  {
    r := Ok(entries);
    for i := 0 to |states|
      invariant r.Ok? && r == ApplyStates(policy, entries, states[..i])
    {
      assert states[..i + 1][..i] == states[..i];
      r := ApplyOne(policy, r.value, states[i]);
      if r.Err? {
        FailsFromThere(policy, entries, states, i + 1);
        return;
      }
    }
    assert states[..|states|] == states;
  }

  lemma {:induction false} FailsFromThere(policy: FairnessPolicy, entries: seq<SubjectAccounting>, states: seq<SubjectState>, i: nat)
    requires i <= |states| && ApplyStates(policy, entries, states[..i]).Err?
    ensures ApplyStates(policy, entries, states) == ApplyStates(policy, entries, states[..i])
    decreases |states|
  {
    if i < |states| {
      var front := states[..|states| - 1];
      assert front[..i] == states[..i];
      FailsFromThere(policy, entries, front, i);
    } else {
      assert states[..i] == states;
    }
  }

  // --- Interventions ----------------------------------------------------------------------------------

  function StampOne(entries: seq<SubjectAccounting>, intent: Intent, window: u64): (r: seq<SubjectAccounting>)
    ensures |r| == |entries|
  {
    match IndexOf(entries, intent.subject)
    case None => entries
    case Some(i) =>
      if intent.generation > entries[i].lastCorrectionGeneration
      then entries[i := entries[i].(lastCorrectionWindow := window, lastCorrectionGeneration := intent.generation)]
      else entries
  }

  /** Each intent newer than the last marks its subject as corrected. */
  function Stamped(entries: seq<SubjectAccounting>, intents: seq<Intent>, window: u64): (r: seq<SubjectAccounting>)
    ensures |r| == |entries|
  {
    if intents == [] then entries
    else StampOne(Stamped(entries, intents[..|intents| - 1], window), intents[|intents| - 1], window)
  }

  method StampAll(entries: seq<SubjectAccounting>, intents: seq<Intent>, window: u64) returns (r: seq<SubjectAccounting>)
    ensures r == Stamped(entries, intents, window)
  {
    r := entries;
    for i := 0 to |intents|
      invariant r == Stamped(entries, intents[..i], window)
    {
      assert intents[..i + 1][..i] == intents[..i];
      r := StampOne(r, intents[i], window);
    }
    assert intents[..|intents|] == intents;
  }

  function NewestGeneration(intents: seq<Intent>, start: u64): (g: u64)
    ensures g >= start && forall i :: 0 <= i < |intents| ==> intents[i].generation <= g
  {
    if intents == [] then start
    else
      var front, last := NewestGeneration(intents[..|intents| - 1], start), intents[|intents| - 1].generation;
      if last > front then last else front
  }

  method FindNewest(intents: seq<Intent>, start: u64) returns (g: u64)
    ensures g == NewestGeneration(intents, start)
  {
    g := start;
    for i := 0 to |intents|
      invariant g == NewestGeneration(intents[..i], start)
    {
      assert intents[..i + 1][..i] == intents[..i];
      if intents[i].generation > g {
        g := intents[i].generation;
      }
    }
    assert intents[..|intents|] == intents;
  }

  // --- The commit ---------------------------------------------------------------------------------------

  function AccountingAfter(l: Ledger, content: Content, entries: seq<SubjectAccounting>): FairnessAccounting
    requires l.accounting.generation + 1 < U64_END
  {
    FairnessAccounting(l.policy.id, l.policy.generation, l.epoch, l.accounting.generation + 1,
      NewestGeneration(content.intents, l.accounting.interventionGeneration),
      content.authority.window, content.authority.windowGeneration, l.governor.boot,
      Stamped(entries, content.intents, content.authority.window))
  }

  /** The accounting a commit would make durable, or why it is refused. */
  function CommitOutcome(l: Ledger, d: FairnessDecision, digestOf: Content -> u64): (r: Result<FairnessAccounting>)
    ensures r.Err? ==> r.status != Okay
  {
    if Refused(l, d, digestOf) != Okay then Err(Refused(l, d, digestOf))
    else
      match ApplyStates(l.policy, l.accounting.subjects, d.content.subjects)
      case Err(e) => Err(e)
      case Ok(entries) =>
        if l.accounting.generation + 1 >= U64_END then Err(ArithmeticOverflow) else Ok(AccountingAfter(l, d.content, entries))
  }

  method CheckDecision(l: Ledger, d: FairnessDecision, digestOf: Content -> u64) returns (status: Status)
    ensures status == Refused(l, d, digestOf)
  {
    var a, c := d.content.authority, d.content.correction;
    if d.governor != l.governor {
      return StaleIncarnation;
    }
    if a.epoch != l.epoch {
      return StaleEpoch;
    }
    if a.policyId != l.policy.id || a.policyGeneration != l.policy.generation {
      return PolicyGenerationMismatch;
    }
    if a.accountingGeneration != l.accounting.generation {
      return StaleGeneration;
    }
    if a.window == 0 || a.windowGeneration == 0 {
      return InvalidArgument;
    }
    if l.accounting.lastWindow != 0 && a.window <= l.accounting.lastWindow {
      return StaleGeneration;
    }
    if |d.content.subjects| != |l.policy.subjects| || digestOf(d.content) != d.digest || c.augment != c.reduce {
      return Conflict;
    }
    var sums := AddIntents(d.content.intents);
    if sums.Err? {
      return ArithmeticOverflow;
    }
    if sums.value.0 != c.augment || sums.value.1 != c.reduce {
      return Conflict;
    }
    status := if |d.content.intents| > MAX_INTENTS then LimitExceeded else Okay;
  }

  /** No signed difference that the commit gets to take overflows. */
  ghost predicate Computable(l: Ledger, d: FairnessDecision, digestOf: Content -> u64) {
    Refused(l, d, digestOf) == Okay ==> Plausible(d.content.subjects)
  }

  /** Everything a commit computes before it touches the disk. */
  method PrepareCommit(l: Ledger, d: FairnessDecision, digestOf: Content -> u64) returns (r: Result<FairnessAccounting>)
    requires Computable(l, d, digestOf)
    ensures r == CommitOutcome(l, d, digestOf)
  {
    var status := CheckDecision(l, d, digestOf);
    if status != Okay {
      return Err(status);
    }
    var generation := FindNewest(d.content.intents, l.accounting.interventionGeneration);
    var entries := ApplyAll(l.policy, l.accounting.subjects, d.content.subjects);
    if entries.Err? {
      return Err(entries.status);
    }
    var stamped := StampAll(entries.value, d.content.intents, d.content.authority.window);
    if l.accounting.generation + 1 >= U64_END {
      return Err(ArithmeticOverflow);
    }
    r := Ok(FairnessAccounting(l.policy.id, l.policy.generation, l.epoch, l.accounting.generation + 1, generation,
      d.content.authority.window, d.content.authority.windowGeneration, l.governor.boot, stamped));
  }
}
