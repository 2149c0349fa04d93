// The signed carry identity over commits and over whole runs of them.

module CommitmentLaws {
  import opened Core
  import opened Sums
  import opened Policy
  import opened Accounting
  import opened Decision
  import opened Eligibility
  import opened Verdicts
  import opened Commitment

  // --- One subject's carry ----------------------------------------------------------------------

  function CarryOf(entries: seq<SubjectAccounting>, id: u64): Carry {
    match IndexOf(entries, id)
    case None => EMPTY_CARRY
    case Some(i) => entries[i].carry
  }

  lemma {:induction false} CarryOfFound(entries: seq<SubjectAccounting>, id: u64)
    ensures EntryOrNew(entries, id).carry == CarryOf(entries, id)
    decreases |entries|
  {
    if entries != [] && entries[0].id != id {
      CarryOfFound(entries[1..], id);
    }
  }

  lemma {:induction false} IndexAfterUpdate(entries: seq<SubjectAccounting>, i: nat, e: SubjectAccounting, id: u64)
    requires i < |entries| && e.id == entries[i].id
    ensures IndexOf(entries[i := e], id) == IndexOf(entries, id)
    decreases |entries|
  {
    if entries[0].id != id && |entries| > 1 {
      if i > 0 {
        IndexAfterUpdate(entries[1..], i - 1, e, id);
        assert entries[i := e][1..] == entries[1..][i - 1 := e];
      } else {
        assert entries[i := e][1..] == entries[1..];
      }
    }
  }

  lemma {:induction false} IndexAfterAppend(entries: seq<SubjectAccounting>, e: SubjectAccounting, id: u64)
    ensures IndexOf(entries + [e], id) ==
      if IndexOf(entries, id).Some? then IndexOf(entries, id) else if e.id == id then Some(|entries|) else None
    decreases |entries|
  {
    if entries == [] {
      assert entries + [e] == [e];
      assert [e][1..] == [];
    } else if entries[0].id != id {
      assert (entries + [e])[1..] == entries[1..] + [e];
      IndexAfterAppend(entries[1..], e, id);
    }
  }

  lemma {:induction false} WithEntryKeeps(entries: seq<SubjectAccounting>, s: SubjectState, id: u64)
    ensures CarryOf(WithEntry(entries, s), id) == CarryOf(entries, id)
    ensures IndexOf(WithEntry(entries, s), s.id) == Some(PlaceOf(entries, s))
  {
    if IndexOf(entries, s.id).None? {
      IndexAfterAppend(entries, NewEntry(s), id);
      IndexAfterAppend(entries, NewEntry(s), s.id);
    }
  }

  /** An authoritative state moves its own subject's carry by the window's net,
      and nobody else's. */
  lemma {:induction false} StateMovesCarry(policy: FairnessPolicy, entries: seq<SubjectAccounting>, s: SubjectState, id: u64)
    requires ApplyState(policy, entries, s).Ok?
    ensures
      var after := ApplyState(policy, entries, s).value;
      if s.authority && s.id == id then Applied(CarryOf(entries, id), NetOf(s), policy.maxCarry) == Some(CarryOf(after, id))
      else CarryOf(after, id) == CarryOf(entries, id)
  {
    if s.authority {
      var (all, i) := (WithEntry(entries, s), PlaceOf(entries, s));
      WithEntryKeeps(entries, s, id);
      IndexAfterUpdate(all, i, EntryAfter(all[i], s, policy.maxCarry).value, id);
      if s.id != id {
        OtherPlace(all, i, id);
      }
    }
  }

  lemma {:induction false} OtherPlace(entries: seq<SubjectAccounting>, i: nat, id: u64)
    requires i < |entries| && entries[i].id != id
    ensures IndexOf(entries, id) != Some(i)
  {
  }

  /** The windows the states hold for one subject. */
  function WindowsOf(states: seq<SubjectState>, id: u64, maxCarry: u64): seq<Window> {
    if states == [] then []
    else
      var front, last := WindowsOf(states[..|states| - 1], id, maxCarry), states[|states| - 1];
      if last.authority && last.id == id then front + [Window(NetOf(last), maxCarry)] else front
  }

  lemma {:induction false} CarryAfterOneMore(c: Carry, ws: seq<Window>, w: Window)
    requires CarryAfter(c, ws).Some?
    ensures CarryAfter(c, ws + [w]) == Applied(CarryAfter(c, ws).value, w.net, w.maxCarry)
  {
    assert (ws + [w])[..|ws|] == ws;
  }

  /** Applying a decision's states takes each subject's carry through exactly its
      own windows. */
  lemma {:induction false} StatesMoveCarry(policy: FairnessPolicy, entries: seq<SubjectAccounting>, states: seq<SubjectState>, id: u64)
    requires ApplyStates(policy, entries, states).Ok?
    ensures CarryAfter(CarryOf(entries, id), WindowsOf(states, id, policy.maxCarry))
            == Some(CarryOf(ApplyStates(policy, entries, states).value, id))
    decreases |states|
  {
    if states != [] {
      var (front, last) := (states[..|states| - 1], states[|states| - 1]);
      StatesMoveCarry(policy, entries, front, id);
      StateMovesCarry(policy, ApplyStates(policy, entries, front).value, last, id);
      if last.authority && last.id == id {
        CarryAfterOneMore(CarryOf(entries, id), WindowsOf(front, id, policy.maxCarry), Window(NetOf(last), policy.maxCarry));
      }
    }
  }

  /** Marking corrections leaves every carry alone. */
  lemma {:induction false} StampsKeepCarries(entries: seq<SubjectAccounting>, intents: seq<Intent>, window: u64, id: u64)
    ensures IndexOf(Stamped(entries, intents, window), id) == IndexOf(entries, id)
    ensures forall i :: 0 <= i < |entries| ==> Stamped(entries, intents, window)[i].carry == entries[i].carry
    decreases |intents|
  {
    if intents != [] {
      var (front, last) := (intents[..|intents| - 1], intents[|intents| - 1]);
      StampsKeepCarries(entries, front, window, id);
      var before := Stamped(entries, front, window);
      if IndexOf(before, last.subject).Some? {
        var i := IndexOf(before, last.subject).value;
        var stamped := before[i].(lastCorrectionWindow := window, lastCorrectionGeneration := last.generation);
        IndexAfterUpdate(before, i, stamped, id);
      }
    }
  }

  /** A commit takes each subject's carry through exactly its own windows. */
  lemma {:induction false} CommitMovesCarry(l: Ledger, d: FairnessDecision, digestOf: Content -> u64, id: u64)
    requires CommitOutcome(l, d, digestOf).Ok?
    ensures CarryAfter(CarryOf(l.accounting.subjects, id), WindowsOf(d.content.subjects, id, l.policy.maxCarry))
            == Some(CarryOf(CommitOutcome(l, d, digestOf).value.subjects, id))
  {
    var entries := ApplyStates(l.policy, l.accounting.subjects, d.content.subjects).value;
    StatesMoveCarry(l.policy, l.accounting.subjects, d.content.subjects, id);
    StampsKeepCarries(entries, d.content.intents, d.content.authority.window, id);
  }

  // --- A subject named once ------------------------------------------------------------------------

  ghost predicate NamedOnce(states: seq<SubjectState>) {
    forall i, j :: 0 <= i < j < |states| ==> states[i].id != states[j].id
  }

  lemma {:induction false} WindowsOfOthers(states: seq<SubjectState>, id: u64, maxCarry: u64)
    requires forall i :: 0 <= i < |states| ==> states[i].id != id
    ensures WindowsOf(states, id, maxCarry) == []
    decreases |states|
  {
    if states != [] {
      WindowsOfOthers(states[..|states| - 1], id, maxCarry);
    }
  }

  lemma {:induction false} WindowsOfOne(states: seq<SubjectState>, i: nat, maxCarry: u64)
    requires NamedOnce(states) && i < |states|
    ensures WindowsOf(states, states[i].id, maxCarry) ==
      if states[i].authority then [Window(NetOf(states[i]), maxCarry)] else []
    decreases |states|
  {
    var front := states[..|states| - 1];
    if i < |front| {
      WindowsOfOne(front, i, maxCarry);
      assert states[|states| - 1].id != states[i].id;
    } else {
      WindowsOfOthers(front, states[i].id, maxCarry);
    }
  }

  lemma {:induction false} CarryAfterOne(c: Carry, w: Window)
    ensures CarryAfter(c, [w]) == Applied(c, w.net, w.maxCarry)
  {
    CarryAfterOneMore(c, [], w);
    assert [] + [w] == [w];
  }

  /** When a decision names each subject once, committing it gives an authoritative
      subject exactly the carry its window leads to. */
  lemma {:induction false} CommitAppliesNet(l: Ledger, d: FairnessDecision, digestOf: Content -> u64, i: nat)
    requires CommitOutcome(l, d, digestOf).Ok? && NamedOnce(d.content.subjects)
    requires i < |d.content.subjects| && d.content.subjects[i].authority
    ensures Applied(CarryOf(l.accounting.subjects, d.content.subjects[i].id), NetOf(d.content.subjects[i]), l.policy.maxCarry)
            == Some(CarryOf(CommitOutcome(l, d, digestOf).value.subjects, d.content.subjects[i].id))
  {
    var id := d.content.subjects[i].id;
    CommitMovesCarry(l, d, digestOf, id);
    WindowsOfOne(d.content.subjects, i, l.policy.maxCarry);
    CarryAfterOne(CarryOf(l.accounting.subjects, id), Window(NetOf(d.content.subjects[i]), l.policy.maxCarry));
  }

  // --- The population --------------------------------------------------------------------------------

  function StateNets(states: seq<SubjectState>): (s: seq<int>)
    ensures |s| == |states|
  {
    seq(|states|, i requires 0 <= i < |states| => NetOf(states[i]))
  }

  function TotalSigned(entries: seq<SubjectAccounting>): int {
    Sum(SignedEach(entries))
  }

  lemma {:induction false} StateMovesTotal(policy: FairnessPolicy, entries: seq<SubjectAccounting>, s: SubjectState)
    requires ApplyState(policy, entries, s).Ok?
    ensures TotalSigned(ApplyState(policy, entries, s).value) == TotalSigned(entries) + NetOf(s)
  {
    if s.authority {
      var (all, i) := (WithEntry(entries, s), PlaceOf(entries, s));
      var after := EntryAfter(all[i], s, policy.maxCarry).value;
      assert TotalSigned(all) == TotalSigned(entries) by {
        NewEntryAddsNothing(entries, s);
      }
      assert Signed(after.carry) == Signed(all[i].carry) + NetOf(s) by {
        WindowCloses(all[i].carry, NetOf(s), policy.maxCarry);
      }
      EntryMovesTotal(all, i, after);
    }
  }

  lemma {:induction false} NewEntryAddsNothing(entries: seq<SubjectAccounting>, s: SubjectState)
    ensures TotalSigned(WithEntry(entries, s)) == TotalSigned(entries)
  {
    if IndexOf(entries, s.id).None? {
      TotalOfOneMore(entries, NewEntry(s));
    }
  }

  lemma {:induction false} TotalOfOneMore(entries: seq<SubjectAccounting>, e: SubjectAccounting)
    ensures TotalSigned(entries + [e]) == TotalSigned(entries) + Signed(e.carry)
  {
    var all := SignedEach(entries + [e]);
    assert all[..|all| - 1] == SignedEach(entries);
  }

  lemma {:induction false} EntryMovesTotal(entries: seq<SubjectAccounting>, i: nat, after: SubjectAccounting)
    requires i < |entries|
    ensures TotalSigned(entries[i := after]) == TotalSigned(entries) - Signed(entries[i].carry) + Signed(after.carry)
  {
    SumUpdate(SignedEach(entries), i, Signed(after.carry));
    assert SignedEach(entries[i := after]) == SignedEach(entries)[i := Signed(after.carry)];
  }

  lemma {:induction false} StatesMoveTotal(policy: FairnessPolicy, entries: seq<SubjectAccounting>, states: seq<SubjectState>)
    requires ApplyStates(policy, entries, states).Ok?
    ensures TotalSigned(ApplyStates(policy, entries, states).value) == TotalSigned(entries) + Sum(StateNets(states))
    decreases |states|
  {
    if states != [] {
      var (front, last) := (states[..|states| - 1], states[|states| - 1]);
      StatesMoveTotal(policy, entries, front);
      StateMovesTotal(policy, ApplyStates(policy, entries, front).value, last);
      assert StateNets(states)[..|states| - 1] == StateNets(front);
    }
  }

  /** The population's signed carry and discards move by the decision's nets. */
  lemma {:induction false} CommitMovesTotal(l: Ledger, d: FairnessDecision, digestOf: Content -> u64)
    requires CommitOutcome(l, d, digestOf).Ok?
    ensures TotalSigned(CommitOutcome(l, d, digestOf).value.subjects) == TotalSigned(l.accounting.subjects) + Sum(StateNets(d.content.subjects))
  {
    var entries := ApplyStates(l.policy, l.accounting.subjects, d.content.subjects).value;
    StatesMoveTotal(l.policy, l.accounting.subjects, d.content.subjects);
    StampsKeepCarries(entries, d.content.intents, d.content.authority.window, 0);
    assert SignedEach(Stamped(entries, d.content.intents, d.content.authority.window)) == SignedEach(entries);
  }

  // --- What every entry keeps ---------------------------------------------------------------------------

  /** Identities are distinct and carries within the global bound; in normal form,
      no subject holds both a deficit and a surplus. */
  ghost predicate Orderly(entries: seq<SubjectAccounting>, normal: bool) {
    && (forall i, j :: 0 <= i < j < |entries| ==> entries[i].id != entries[j].id)
    && forall i :: 0 <= i < |entries| ==> OrderlyEntry(entries[i], normal)
  }

  ghost predicate OrderlyEntry(e: SubjectAccounting, normal: bool) {
    (normal ==> NormalForm(e.carry)) && e.carry.deficit <= MAX_CARRY_UNITS && e.carry.surplus <= MAX_CARRY_UNITS
  }

  lemma {:induction false} StateKeepsOrder(policy: FairnessPolicy, entries: seq<SubjectAccounting>, s: SubjectState, normal: bool)
    requires Orderly(entries, normal) && policy.maxCarry <= MAX_CARRY_UNITS && ApplyState(policy, entries, s).Ok?
    ensures Orderly(ApplyState(policy, entries, s).value, normal)
  {
    if s.authority {
      var (all, i) := (WithEntry(entries, s), PlaceOf(entries, s));
      WithEntryKeepsOrder(entries, s, normal);
      WindowCaps(all[i].carry, NetOf(s), policy.maxCarry);
      if normal {
        WindowClampsBalance(all[i].carry, NetOf(s), policy.maxCarry);
      }
      UpdateKeepsOrder(all, i, EntryAfter(all[i], s, policy.maxCarry).value, normal);
    }
  }

  lemma {:induction false} WithEntryKeepsOrder(entries: seq<SubjectAccounting>, s: SubjectState, normal: bool)
    requires Orderly(entries, normal)
    ensures Orderly(WithEntry(entries, s), normal)
  {
  }

  lemma {:induction false} UpdateKeepsOrder(entries: seq<SubjectAccounting>, i: nat, e: SubjectAccounting, normal: bool)
    requires Orderly(entries, normal) && i < |entries| && e.id == entries[i].id && OrderlyEntry(e, normal)
    ensures Orderly(entries[i := e], normal)
  {
  }

  lemma {:induction false} StatesKeepOrder(policy: FairnessPolicy, entries: seq<SubjectAccounting>, states: seq<SubjectState>, normal: bool)
    requires Orderly(entries, normal) && policy.maxCarry <= MAX_CARRY_UNITS && ApplyStates(policy, entries, states).Ok?
    ensures Orderly(ApplyStates(policy, entries, states).value, normal)
    decreases |states|
  {
    if states != [] {
      StatesKeepOrder(policy, entries, states[..|states| - 1], normal);
      StateKeepsOrder(policy, ApplyStates(policy, entries, states[..|states| - 1]).value, states[|states| - 1], normal);
    }
  }

  lemma {:induction false} StampsKeepOrder(entries: seq<SubjectAccounting>, intents: seq<Intent>, window: u64, normal: bool)
    requires Orderly(entries, normal)
    ensures Orderly(Stamped(entries, intents, window), normal)
    decreases |intents|
  {
    if intents != [] {
      StampsKeepOrder(entries, intents[..|intents| - 1], window, normal);
    }
  }

  /** A commit keeps identities distinct and every carry bounded, and one-sided if they were. */
  lemma {:induction false} CommitKeepsOrder(l: Ledger, d: FairnessDecision, digestOf: Content -> u64, normal: bool)
    requires Orderly(l.accounting.subjects, normal) && l.policy.maxCarry <= MAX_CARRY_UNITS && CommitOutcome(l, d, digestOf).Ok?
    ensures Orderly(CommitOutcome(l, d, digestOf).value.subjects, normal)
  {
    StatesKeepOrder(l.policy, l.accounting.subjects, d.content.subjects, normal);
    StampsKeepOrder(ApplyStates(l.policy, l.accounting.subjects, d.content.subjects).value, d.content.intents, d.content.authority.window, normal);
  }

  // --- Streaks -------------------------------------------------------------------------------------------

  ghost predicate ShortStreaks(entries: seq<SubjectAccounting>) {
    forall i :: 0 <= i < |entries| ==> entries[i].unservedStreak <= MAX_STREAK && entries[i].belowFloorStreak <= MAX_STREAK
  }

  ghost predicate ShortStates(states: seq<SubjectState>) {
    forall i :: 0 <= i < |states| ==> states[i].unservedStreak <= MAX_STREAK && states[i].belowFloorStreak <= MAX_STREAK
  }

  lemma {:induction false} StatesKeepStreaks(policy: FairnessPolicy, entries: seq<SubjectAccounting>, states: seq<SubjectState>)
    requires ShortStreaks(entries) && ShortStates(states) && ApplyStates(policy, entries, states).Ok?
    ensures ShortStreaks(ApplyStates(policy, entries, states).value)
    decreases |states|
  {
    if states != [] {
      var (front, last) := (states[..|states| - 1], states[|states| - 1]);
      StatesKeepStreaks(policy, entries, front);
      var middle := ApplyStates(policy, entries, front).value;
      if last.authority {
        assert ShortStreaks(WithEntry(middle, last));
      }
    }
  }

  lemma {:induction false} StampsKeepStreaks(entries: seq<SubjectAccounting>, intents: seq<Intent>, window: u64)
    requires ShortStreaks(entries)
    ensures ShortStreaks(Stamped(entries, intents, window))
    decreases |intents|
  {
    if intents != [] {
      StampsKeepStreaks(entries, intents[..|intents| - 1], window);
    }
  }

  lemma {:induction false} CommitKeepsStreaks(l: Ledger, d: FairnessDecision, digestOf: Content -> u64)
    requires ShortStreaks(l.accounting.subjects) && ShortStates(d.content.subjects) && CommitOutcome(l, d, digestOf).Ok?
    ensures ShortStreaks(CommitOutcome(l, d, digestOf).value.subjects)
  {
    StatesKeepStreaks(l.policy, l.accounting.subjects, d.content.subjects);
    StampsKeepStreaks(ApplyStates(l.policy, l.accounting.subjects, d.content.subjects).value, d.content.intents, d.content.authority.window);
  }

  // --- What a commit records of a subject ------------------------------------------------------------------

  /** What is on record of a subject; of one never recorded, nothing. */
  function RecordOf(entries: seq<SubjectAccounting>, id: u64): SubjectAccounting {
    match IndexOf(entries, id)
    case None => NEW_ENTRY
    case Some(i) => entries[i]
  }

  /** The states with authority a decision holds for one subject, in order. */
  function Said(states: seq<SubjectState>, id: u64): seq<SubjectState> {
    if states == [] then []
    else
      var front, last := Said(states[..|states| - 1], id), states[|states| - 1];
      if last.authority && last.id == id then front + [last] else front
  }

  function ServedOf(states: seq<SubjectState>): (s: seq<nat>)
    ensures |s| == |states|
  {
    seq(|states|, k requires 0 <= k < |states| => states[k].served)
  }

  /** A record after what was said: a window more for each state, their service
      added, the last one's streaks; who it is and its corrections stand. */
  ghost predicate Follows(before: SubjectAccounting, after: SubjectAccounting, said: seq<SubjectState>) {
    && after.windowsObserved == before.windowsObserved + |said|
    && after.totalServed == before.totalServed + Sum(ServedOf(said))
    && (after.lastCorrectionWindow, after.lastCorrectionGeneration) == (before.lastCorrectionWindow, before.lastCorrectionGeneration)
    && (after.unservedStreak, after.belowFloorStreak) ==
       if said == [] then (before.unservedStreak, before.belowFloorStreak)
       else (said[|said| - 1].unservedStreak % U32_END, said[|said| - 1].belowFloorStreak % U32_END)
  }

  /** A subject on record stays, as who it was; one not on record is entered as the
      first state said of it names it. */
  ghost predicate Enters(before: seq<SubjectAccounting>, after: seq<SubjectAccounting>, id: u64, said: seq<SubjectState>) {
    && (IndexOf(after, id).Some? <==> IndexOf(before, id).Some? || said != [])
    && (IndexOf(before, id).Some? ==> RecordOf(after, id).generation == RecordOf(before, id).generation)
    && (IndexOf(before, id).None? && said != [] ==> RecordOf(after, id).generation == said[0].generation)
  }

  /** What was said of a subject brought its record from one to the other. */
  ghost predicate Records(before: seq<SubjectAccounting>, after: seq<SubjectAccounting>, id: u64, said: seq<SubjectState>) {
    Enters(before, after, id, said) && Follows(RecordOf(before, id), RecordOf(after, id), said)
  }

  lemma {:induction false} StateRecords(policy: FairnessPolicy, entries: seq<SubjectAccounting>, s: SubjectState, id: u64)
    requires ApplyState(policy, entries, s).Ok?
    ensures
      var (after, said) := (ApplyState(policy, entries, s).value, if s.authority && s.id == id then [s] else []);
      Records(entries, after, id, said)
  {
    ServedOfOne(s);
    if s.authority {
      var (all, i) := (WithEntry(entries, s), PlaceOf(entries, s));
      var e := EntryAfter(all[i], s, policy.maxCarry).value;
      if IndexOf(entries, s.id).None? {
        IndexAfterAppend(entries, NewEntry(s), id);
        IndexAfterAppend(entries, NewEntry(s), s.id);
      }
      IndexAfterUpdate(all, i, e, id);
      if s.id != id {
        OtherPlace(all, i, id);
      }
    }
  }

  lemma {:induction false} ServedOfOne(s: SubjectState)
    ensures Sum(ServedOf([s])) == s.served && Sum(ServedOf([])) == 0
  {
    assert ServedOf([]) == [];
    SumStep(ServedOf([s]), 0);
    assert ServedOf([s])[..1] == ServedOf([s]) && ServedOf([s])[..0] == [];
  }

  lemma {:induction false} FollowsOn(a: SubjectAccounting, b: SubjectAccounting, c: SubjectAccounting, said: seq<SubjectState>, more: seq<SubjectState>)
    requires Follows(a, b, said) && Follows(b, c, more)
    ensures Follows(a, c, said + more)
  {
    SumConcat(ServedOf(said), ServedOf(more));
    assert ServedOf(said + more) == ServedOf(said) + ServedOf(more);
  }

  lemma {:induction false} RecordsOn(a: seq<SubjectAccounting>, b: seq<SubjectAccounting>, c: seq<SubjectAccounting>, id: u64,
                                     said: seq<SubjectState>, more: seq<SubjectState>)
    requires Records(a, b, id, said) && Records(b, c, id, more)
    ensures Records(a, c, id, said + more)
  {
    FollowsOn(RecordOf(a, id), RecordOf(b, id), RecordOf(c, id), said, more);
    assert said == [] ==> said + more == more;
    assert more == [] ==> said + more == said;
  }

  lemma {:induction false} StatesRecord(policy: FairnessPolicy, entries: seq<SubjectAccounting>, states: seq<SubjectState>, id: u64)
    requires ApplyStates(policy, entries, states).Ok?
    ensures Records(entries, ApplyStates(policy, entries, states).value, id, Said(states, id))
    decreases |states|
  {
    if states == [] {
      assert ServedOf([]) == [];
    } else {
      var (front, last) := (states[..|states| - 1], states[|states| - 1]);
      var middle := ApplyStates(policy, entries, front).value;
      StatesRecord(policy, entries, front, id);
      StateRecords(policy, middle, last, id);
      RecordsOn(entries, middle, ApplyState(policy, middle, last).value, id,
        Said(front, id), if last.authority && last.id == id then [last] else []);
    }
  }

  // --- Corrections ----------------------------------------------------------------------------------------

  /** The newest generation among the intents for one subject; without any, zero. */
  ghost predicate NewestFor(intents: seq<Intent>, id: u64, newest: u64) {
    && (forall k :: 0 <= k < |intents| && intents[k].subject == id ==> intents[k].generation <= newest)
    && (newest == 0 || exists k :: 0 <= k < |intents| && intents[k].subject == id && intents[k].generation == newest)
  }

  /** A record told of corrections as new as this keeps the newest and the window of
      the decision, if that is newer than what it has, and else what it has. */
  ghost predicate MarkedBy(before: SubjectAccounting, after: SubjectAccounting, window: u64, newest: u64) {
    if newest > before.lastCorrectionGeneration
    then after == before.(lastCorrectionGeneration := newest, lastCorrectionWindow := window)
    else after == before
  }

  lemma {:induction false} StampMarks(entries: seq<SubjectAccounting>, intent: Intent, window: u64, id: u64)
    requires IndexOf(entries, id).Some?
    ensures IndexOf(StampOne(entries, intent, window), id) == IndexOf(entries, id)
    ensures MarkedBy(RecordOf(entries, id), RecordOf(StampOne(entries, intent, window), id), window,
                     if intent.subject == id then intent.generation else 0)
  {
    match IndexOf(entries, intent.subject) {
      case None =>
      case Some(i) =>
        var stamped := entries[i].(lastCorrectionWindow := window, lastCorrectionGeneration := intent.generation);
        IndexAfterUpdate(entries, i, stamped, id);
    }
  }

  lemma {:induction false} StampsMark(entries: seq<SubjectAccounting>, intents: seq<Intent>, window: u64, id: u64) returns (newest: u64)
    requires IndexOf(entries, id).Some?
    ensures NewestFor(intents, id, newest)
    ensures IndexOf(Stamped(entries, intents, window), id) == IndexOf(entries, id)
    ensures MarkedBy(RecordOf(entries, id), RecordOf(Stamped(entries, intents, window), id), window, newest)
    decreases |intents|
  {
    if intents == [] {
      newest := 0;
    } else {
      var (front, last) := (intents[..|intents| - 1], intents[|intents| - 1]);
      newest := StampsMark(entries, front, window, id);
      StampMarks(Stamped(entries, front, window), last, window, id);
      if last.subject == id && last.generation > newest {
        newest := last.generation;
      }
    }
  }

  /** A record after a commit: what was said of the subject is counted, and a
      correction newer than the one on record replaces it. */
  ghost predicate CommittedTo(before: SubjectAccounting, after: SubjectAccounting, said: seq<SubjectState>, window: u64, newest: u64) {
    && after.windowsObserved == before.windowsObserved + |said|
    && after.totalServed == before.totalServed + Sum(ServedOf(said))
    && (said == [] ==> (after.unservedStreak, after.belowFloorStreak) == (before.unservedStreak, before.belowFloorStreak))
    && (said != [] ==>
          var last := said[|said| - 1];
          (after.unservedStreak, after.belowFloorStreak) == (last.unservedStreak % U32_END, last.belowFloorStreak % U32_END))
    && (newest > before.lastCorrectionGeneration ==> (after.lastCorrectionWindow, after.lastCorrectionGeneration) == (window, newest))
    && (newest <= before.lastCorrectionGeneration ==>
          (after.lastCorrectionWindow, after.lastCorrectionGeneration) == (before.lastCorrectionWindow, before.lastCorrectionGeneration))
  }

  /** An accepted commit records of every subject what the decision says of it: its
      window and service, its streaks, and the newest correction proposed for it. */
  lemma {:induction false} CommitRecords(l: Ledger, d: FairnessDecision, digestOf: Content -> u64, id: u64) returns (newest: u64)
    requires CommitOutcome(l, d, digestOf).Ok?
    ensures NewestFor(d.content.intents, id, newest)
    ensures
      var (before, after) := (l.accounting.subjects, CommitOutcome(l, d, digestOf).value.subjects);
      var said := Said(d.content.subjects, id);
      && Enters(before, after, id, said)
      && (IndexOf(after, id).Some? ==>
            CommittedTo(RecordOf(before, id), RecordOf(after, id), said, d.content.authority.window, newest))
  {
    var entries := ApplyStates(l.policy, l.accounting.subjects, d.content.subjects).value;
    StatesRecord(l.policy, l.accounting.subjects, d.content.subjects, id);
    if IndexOf(entries, id).Some? {
      newest := StampsMark(entries, d.content.intents, d.content.authority.window, id);
    } else {
      newest := NewestAmong(d.content.intents, id);
      StampsKeepCarries(entries, d.content.intents, d.content.authority.window, id);
    }
  }

  lemma {:induction false} NewestAmong(intents: seq<Intent>, id: u64) returns (newest: u64)
    ensures NewestFor(intents, id, newest)
    decreases |intents|
  {
    if intents == [] {
      newest := 0;
    } else {
      var (front, last) := (intents[..|intents| - 1], intents[|intents| - 1]);
      newest := NewestAmong(front, id);
      if last.subject == id && last.generation > newest {
        newest := last.generation;
      }
    }
  }

  /** What an accepted commit says of the whole: under whose policy and epoch, by
      whom, for which window, and the newest correction ever proposed. */
  lemma {:induction false} CommitHeads(l: Ledger, d: FairnessDecision, digestOf: Content -> u64)
    requires CommitOutcome(l, d, digestOf).Ok?
    ensures
      var (a, before, c) := (CommitOutcome(l, d, digestOf).value, l.accounting, d.content);
      && (a.policyId, a.policyGeneration, a.epoch) == (l.policy.id, l.policy.generation, l.epoch)
      && a.generation == before.generation + 1 && a.writerBoot == l.governor.boot
      && (a.lastWindow, a.lastWindowGeneration) == (c.authority.window, c.authority.windowGeneration)
      && a.interventionGeneration >= before.interventionGeneration
      && (forall k :: 0 <= k < |c.intents| ==> c.intents[k].generation <= a.interventionGeneration)
      && (a.interventionGeneration == before.interventionGeneration
          || exists k :: 0 <= k < |c.intents| && c.intents[k].generation == a.interventionGeneration)
  {
    NewestIsAttained(d.content.intents, l.accounting.interventionGeneration);
  }

  lemma {:induction false} NewestIsAttained(intents: seq<Intent>, start: u64)
    ensures
      var g := NewestGeneration(intents, start);
      g == start || exists k :: 0 <= k < |intents| && intents[k].generation == g
    decreases |intents|
  {
    if intents != [] {
      var front := intents[..|intents| - 1];
      NewestIsAttained(front, start);
      var g := NewestGeneration(front, start);
      if g != start {
        var k :| 0 <= k < |front| && front[k].generation == g;
        assert intents[k].generation == g;
      }
    }
  }

  // --- Which states apply --------------------------------------------------------------------------------

  /** A signed reading keeps a 64-bit count's residue and lies in the signed range. */
  lemma {:induction false} SignedReading(x: u64)
    ensures AsI64(x) % U64_END == x && FitsI64(AsI64(x))
  {
  }

  /** For counts below the sign bit the net is entitlement less service; a state
      without authority has none. */
  lemma {:induction false} NetIsDifference(s: SubjectState)
    requires s.entitlement <= I64_MAX && s.served <= I64_MAX
    ensures NetOf(s) == if s.authority then s.entitlement - s.served else 0
  {
  }

  /** A state with authority applies exactly if the policy governs its subject at its
      generation, the carry on record has room for its net, and neither count of the
      record would pass 64 bits; a subject the policy does not govern is a conflict,
      and want of room an overflow. */
  lemma {:induction false} StateApplies(policy: FairnessPolicy, entries: seq<SubjectAccounting>, s: SubjectState)
    ensures
      var (subject, e) := (FindSubject(policy.subjects, s.id), RecordOf(entries, s.id));
      var governed := subject.Some? && subject.value.generation == s.generation;
      var room := Applied(e.carry, NetOf(s), policy.maxCarry).Some? && e.windowsObserved + 1 < U64_END && e.totalServed + s.served < U64_END;
      && (!s.authority ==> ApplyState(policy, entries, s) == Ok(entries))
      && (s.authority ==>
            && (ApplyState(policy, entries, s).Ok? <==> governed && room)
            && (ApplyState(policy, entries, s) == Err(Conflict) <==> !governed)
            && (ApplyState(policy, entries, s) == Err(ArithmeticOverflow) <==> governed && !room))
  {
  }

  lemma {:induction false} StatesApplyInTurn(policy: FairnessPolicy, entries: seq<SubjectAccounting>, states: seq<SubjectState>, k: nat)
    requires k <= |states| && ApplyStates(policy, entries, states).Ok?
    ensures ApplyStates(policy, entries, states[..k]).Ok?
    decreases |states|
  {
    if k < |states| {
      assert states[..|states| - 1][..k] == states[..k];
      StatesApplyInTurn(policy, entries, states[..|states| - 1], k);
    } else {
      assert states[..k] == states;
    }
  }

  /** A decision that is let through commits exactly if its states apply one after
      the other and the accounting generation can advance. */
  lemma {:induction false} CommitsExactly(l: Ledger, d: FairnessDecision, digestOf: Content -> u64)
    requires Refused(l, d, digestOf) == Okay
    ensures CommitOutcome(l, d, digestOf).Ok? <==>
      && l.accounting.generation < U64_END - 1
      && forall k :: 0 <= k < |d.content.subjects| ==> AppliesNext(l, d.content.subjects, k)
  {
    var states := d.content.subjects;
    if CommitOutcome(l, d, digestOf).Ok? {
      forall k | 0 <= k < |states|
        ensures AppliesNext(l, states, k)
      {
        StatesApplyInTurn(l.policy, l.accounting.subjects, states, k);
        StatesApplyInTurn(l.policy, l.accounting.subjects, states, k + 1);
        assert states[..k + 1][..k] == states[..k];
      }
    }
    if forall k :: 0 <= k < |states| ==> AppliesNext(l, states, k) {
      EachAppliesSoAll(l, states, |states|);
      assert states[..|states|] == states;
    }
  }

  /** State k applies to what the ones before it left. */
  ghost predicate AppliesNext(l: Ledger, states: seq<SubjectState>, k: nat)
    requires k < |states|
  {
    && ApplyStates(l.policy, l.accounting.subjects, states[..k]).Ok?
    && ApplyState(l.policy, ApplyStates(l.policy, l.accounting.subjects, states[..k]).value, states[k]).Ok?
  }

  lemma {:induction false} EachAppliesSoAll(l: Ledger, states: seq<SubjectState>, k: nat)
    requires k <= |states| && forall j :: 0 <= j < |states| ==> AppliesNext(l, states, j)
    ensures ApplyStates(l.policy, l.accounting.subjects, states[..k]).Ok?
  {
    if k > 0 {
      assert AppliesNext(l, states, k - 1);
      assert states[..k][..k - 1] == states[..k - 1];
    }
  }

  // --- Refusals ---------------------------------------------------------------------------------------------

  /** Nothing moved on since the decision was made. */
  ghost predicate Current(l: Ledger, a: Authority) {
    && a.epoch == l.epoch && (a.policyId, a.policyGeneration) == (l.policy.id, l.policy.generation)
    && a.accountingGeneration == l.accounting.generation
  }

  ghost predicate LaterWindow(l: Ledger, a: Authority) {
    a.window != 0 && a.windowGeneration != 0 && a.window > l.accounting.lastWindow
  }

  /** One state a subject, the digest of this very content, and both sides of the
      correction equal to what the intents add up to. */
  ghost predicate Coherent(l: Ledger, d: FairnessDecision, digestOf: Content -> u64) {
    var (c, intents) := (d.content.correction, d.content.intents);
    && |d.content.subjects| == |l.policy.subjects| && digestOf(d.content) == d.digest
    && Sum(UnitsOf(intents, Augment)) == c.augment == c.reduce == Sum(UnitsOf(intents, Reduce)) < U64_END
  }

  /** A decision is let through exactly when this incarnation made it of the present
      policy, epoch and accounting, for a window yet to commit, and it is coherent
      and within the intent bound. */
  lemma {:induction false} LetThroughExactly(l: Ledger, d: FairnessDecision, digestOf: Content -> u64)
    ensures Refused(l, d, digestOf) == Okay <==>
      && d.governor == l.governor && Current(l, d.content.authority) && LaterWindow(l, d.content.authority)
      && Coherent(l, d, digestOf) && |d.content.intents| <= MAX_INTENTS
  {
  }

  /** And otherwise it is told what failed first. */
  lemma {:induction false} RefusedBecause(l: Ledger, d: FairnessDecision, digestOf: Content -> u64)
    ensures
      var (why, a) := (Refused(l, d, digestOf), d.content.authority);
      var ours := d.governor == l.governor;
      var named := ours && a.epoch == l.epoch && (a.policyId, a.policyGeneration) == (l.policy.id, l.policy.generation);
      && (why == StaleIncarnation <==> !ours)
      && (why == StaleEpoch <==> ours && a.epoch != l.epoch)
      && (why == PolicyGenerationMismatch <==> ours && a.epoch == l.epoch && !named)
      && (why == InvalidArgument <==> named && Current(l, a) && (a.window == 0 || a.windowGeneration == 0))
      && (why == StaleGeneration <==>
            named && (!Current(l, a) || (a.window != 0 && a.windowGeneration != 0 && !LaterWindow(l, a))))
      && (why == LimitExceeded <==> named && Current(l, a) && LaterWindow(l, a) && Coherent(l, d, digestOf) && |d.content.intents| > MAX_INTENTS)
      && (named && Current(l, a) && LaterWindow(l, a) && !Coherent(l, d, digestOf) ==> why in {Conflict, ArithmeticOverflow})
  {
  }

  // --- Decisions without authority --------------------------------------------------------------------------

  lemma {:induction false} NothingApplied(policy: FairnessPolicy, entries: seq<SubjectAccounting>, states: seq<SubjectState>)
    requires forall i :: 0 <= i < |states| ==> !states[i].authority
    ensures ApplyStates(policy, entries, states) == Ok(entries)
    decreases |states|
  {
    if states != [] {
      NothingApplied(policy, entries, states[..|states| - 1]);
    }
  }

  /** A decision without authority over anyone can still be committed: it moves no
      carry, but it uses its window up. */
  lemma {:induction false} UnauthorisedCommit(l: Ledger, d: FairnessDecision, digestOf: Content -> u64)
    requires forall i :: 0 <= i < |d.content.subjects| ==> !d.content.subjects[i].authority
    requires d.content.intents == [] && l.accounting.generation + 1 < U64_END
    ensures CommitOutcome(l, d, digestOf).Ok? <==> Refused(l, d, digestOf) == Okay
    ensures CommitOutcome(l, d, digestOf).Ok? ==>
      && CommitOutcome(l, d, digestOf).value.subjects == l.accounting.subjects
      && CommitOutcome(l, d, digestOf).value.lastWindow == d.content.authority.window > l.accounting.lastWindow
  {
    NothingApplied(l.policy, l.accounting.subjects, d.content.subjects);
  }
}
