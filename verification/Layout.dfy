// The payload formats, byte for byte: which field comes when, and how wide it is.

module Layout {
  import opened Core
  import opened Bytes
  import opened Policy
  import opened Accounting
  import opened Evidence
  import opened Record
  import opened Rows
  import AccountingCodec
  import EvidenceCodec
  import PolicyCodec

  /** Parts one after the other. */
  ghost function Join(parts: seq<seq<byte>>): seq<byte> {
    if parts == [] then [] else Join(parts[..|parts| - 1]) + parts[|parts| - 1]
  }

  ghost function Lengthy(t: seq<byte>): seq<byte> {
    Le(|t|, 4) + t
  }

  ghost function Bit(b: bool): seq<byte> {
    [if b then 1 else 0]
  }

  ghost function Parts(row: seq<Value>): (s: seq<seq<byte>>)
    ensures |s| == |row|
  {
    seq(|row|, i requires 0 <= i < |row| => match row[i] case Word(n, width) => Le(n, width) case Text(t) => Lengthy(t))
  }

  lemma {:induction false} LastPart(b: seq<byte>, row: seq<Value>)
    requires row != []
    ensures PutRow(b, row) == PutRow(b, row[..|row| - 1]) + Parts(row)[|row| - 1]
  {
  }

  lemma {:induction false} RowIsParts(b: seq<byte>, row: seq<Value>)
    ensures PutRow(b, row) == b + Join(Parts(row))
  {
    if row == [] {
      assert b + [] == b;
    } else {
      var n := |row| - 1;
      RowIsParts(b, row[..n]);
      LastPart(b, row);
      assert Join(Parts(row)) == Join(Parts(row[..n])) + Parts(row)[n] by {
        assert Parts(row)[..n] == Parts(row[..n]);
      }
      JoinOneMore(b, Join(Parts(row[..n])), Parts(row)[n]);
    }
  }

  lemma {:induction false} JoinOneMore(b: seq<byte>, front: seq<byte>, last: seq<byte>)
    ensures (b + front) + last == b + (front + last)
  {
  }

  ghost function RowParts(rows: seq<seq<Value>>): (s: seq<seq<byte>>)
    ensures |s| == |rows|
  {
    seq(|rows|, i requires 0 <= i < |rows| => Join(Parts(rows[i])))
  }

  lemma {:induction false} RowsAreParts(b: seq<byte>, rows: seq<seq<Value>>)
    ensures PutRows(b, rows) == b + Join(RowParts(rows))
  {
    if rows == [] {
      assert b + [] == b;
    } else {
      var n := |rows| - 1;
      RowsAreParts(b, rows[..n]);
      RowIsParts(PutRows(b, rows[..n]), rows[n]);
      assert RowParts(rows)[..n] == RowParts(rows[..n]);
      JoinOneMore(b, Join(RowParts(rows[..n])), Join(Parts(rows[n])));
    }
  }

  lemma {:induction false} VersionFirst()
    ensures PutRow([], [Word(FORMAT_VERSION, 2)]) == Le(1, 2)
  {
    RowIsParts([], [Word(FORMAT_VERSION, 2)]);
    assert Parts([Word(FORMAT_VERSION, 2)]) == [Le(1, 2)];
    assert Join([Le(1, 2)]) == Le(1, 2) by {
      assert [Le(1, 2)][..0] == [];
    }
  }

  /** A payload opens with its version and its head. */
  lemma {:induction false} HeadFirst(row: seq<Value>, head: seq<seq<byte>>)
    requires Parts(row) == head
    ensures PutRow(PutRow([], [Word(FORMAT_VERSION, 2)]), row) == Le(1, 2) + Join(head)
  {
    VersionFirst();
    RowIsParts(Le(1, 2), row);
  }

  // --- Accounting --------------------------------------------------------------------------

  ghost function AccountingHead(a: FairnessAccounting): seq<seq<byte>> {
    [Le(a.policyId, 8), Le(a.policyGeneration, 8), Le(a.epoch, 8), Le(a.generation, 8), Le(a.interventionGeneration, 8),
     Le(a.lastWindow, 8), Le(a.lastWindowGeneration, 8), Le(a.writerBoot, 8), Le(|a.subjects|, 4)]
  }

  ghost function EntryParts(e: SubjectAccounting): seq<seq<byte>> {
    [Le(e.id, 8), Le(e.generation, 8), Le(e.carry.deficit, 8), Le(e.carry.surplus, 8), Le(e.carry.discardedDeficit, 8),
     Le(e.carry.discardedSurplus, 8), Le(e.unservedStreak, 4), Le(e.belowFloorStreak, 4), Le(e.windowsObserved, 8),
     Le(e.totalServed, 8), Le(e.lastCorrectionWindow, 8), Le(e.lastCorrectionGeneration, 8)]
  }

  ghost function EntryList(entries: seq<SubjectAccounting>): (s: seq<seq<byte>>)
    ensures |s| == |entries|
  {
    seq(|entries|, i requires 0 <= i < |entries| => Join(EntryParts(entries[i])))
  }

  /** Version, header, then each subject's entry. */
  lemma {:induction false} AccountingLayout(a: FairnessAccounting)
    ensures AccountingCodec.EncodedAccounting(a) == Le(1, 2) + Join(AccountingHead(a)) + Join(EntryList(a.subjects))
  {
    AccountingHeadFirst(a);
    EntriesListed(a.subjects);
    RowsAreParts(AccountingCodec.EncodedHeader(a), AccountingCodec.EntryRows(a.subjects));
  }

  lemma {:induction false} AccountingHeadFirst(a: FairnessAccounting)
    ensures AccountingCodec.EncodedHeader(a) == Le(1, 2) + Join(AccountingHead(a))
  {
    HeadFirst(AccountingCodec.HeaderRow(a), AccountingHead(a));
  }

  lemma {:induction false} EntriesListed(entries: seq<SubjectAccounting>)
    ensures RowParts(AccountingCodec.EntryRows(entries)) == EntryList(entries)
  {
    forall i | 0 <= i < |entries|
      ensures Parts(AccountingCodec.EntryRow(entries[i])) == EntryParts(entries[i])
    {
    }
  }

  // --- Evidence -------------------------------------------------------------------------------

  ghost function SnapshotHead(e: Snapshot): seq<seq<byte>> {
    [Le(e.id, 8), Le(e.generation, 8), Le(e.window, 8), Le(e.windowGeneration, 8), Le(e.epoch, 8), Le(FromI64(e.capturedAt), 8),
     Le(e.sequence, 8), Lengthy(e.producer.name), Le(e.producer.instance, 8), Le(e.producer.version, 8), Le(e.provenance.revision, 8),
     Lengthy(e.provenance.source), Le(e.provenance.sourceDigest, 8), Le(FromI64(e.provenance.capturedAt), 8), Le(e.declaredDigest, 8),
     Le(|e.observations|, 4)]
  }

  ghost function ObservationParts(o: Observation): seq<seq<byte>> {
    [Le(o.id, 8), Le(o.generation, 8), Le(o.served, 8), Le(o.unservedStreak, 4), Le(o.belowFloorStreak, 4),
     Le(o.priority.id, 8), Le(o.priority.generation, 8), Le(o.qos.id, 8), Le(o.qos.generation, 8)]
  }

  ghost function ObservationList(os: seq<Observation>): (s: seq<seq<byte>>)
    ensures |s| == |os|
  {
    seq(|os|, i requires 0 <= i < |os| => Join(ObservationParts(os[i])))
  }

  /** Version, header, then each observation. */
  lemma {:induction false} EvidenceLayout(e: Snapshot)
    ensures EvidenceCodec.EncodedEvidence(e) == Le(1, 2) + Join(SnapshotHead(e)) + Join(ObservationList(e.observations))
  {
    EvidenceHeadFirst(e);
    ObservationsListed(e.observations);
    RowsAreParts(EvidenceCodec.EncodedHead(e), EvidenceCodec.ObservationRows(e.observations));
  }

  lemma {:induction false} EvidenceHeadFirst(e: Snapshot)
    ensures EvidenceCodec.EncodedHead(e) == Le(1, 2) + Join(SnapshotHead(e))
  {
    HeadFirst(EvidenceCodec.SnapshotRow(e), SnapshotHead(e));
  }

  lemma {:induction false} ObservationsListed(os: seq<Observation>)
    ensures RowParts(EvidenceCodec.ObservationRows(os)) == ObservationList(os)
  {
    forall i | 0 <= i < |os|
      ensures Parts(EvidenceCodec.ObservationRow(os[i])) == ObservationParts(os[i])
    {
    }
  }

  // --- Policy -----------------------------------------------------------------------------------

  ghost function PolicyHead(p: FairnessPolicy): seq<seq<byte>> {
    [Le(p.id, 8), Le(p.generation, 8), Le(p.epoch, 8), Le(p.windowUnits, 8), Le(p.fairBand, 8), Le(p.correctionThreshold, 8),
     Le(p.cooldownWindows, 4), Le(p.maxCorrection, 8), Le(p.maxCorrectionBps, 4), Le(p.maxModifierBps, 4), Le(p.maxAgeWindows, 4),
     Le(p.maxAgeNs, 8), Le(p.maxCarry, 8), Bit(p.enforceFloors), Le(p.provenance.revision, 8), Lengthy(p.provenance.source),
     Le(p.provenance.sourceDigest, 8), Le(FromI64(p.provenance.capturedAt), 8), Le(|p.groups|, 4)]
  }

  ghost function GroupParts(g: Group): seq<seq<byte>> {
    [Le(g.id, 8), Le(g.generation, 8), Le(g.parent, 8), Le(g.shareWeight, 4), Le(g.floor, 8), Le(g.rank, 4), Bit(g.isProtected),
     Lengthy(g.labelText)]
  }

  ghost function SubjectParts(s: Subject): seq<seq<byte>> {
    [Le(s.id, 8), Le(s.generation, 8), Le(s.group, 8), Le(s.tenant, 8), Le(s.shareWeight, 4), Le(s.floor, 8),
     Le(s.starvationWindows, 4), Le(s.guaranteeStarvationWindows, 4), Le(s.priority.id, 8), Le(s.priority.generation, 8),
     Le(s.qos.id, 8), Le(s.qos.generation, 8), Le(FromI32(s.modifierBps), 4), Le(s.priorityRank, 4), Le(s.rank, 4),
     Bit(s.isProtected), Le(s.maxReduce, 8), Le(s.maxAugment, 8), Lengthy(s.labelText)]
  }

  ghost function GroupList(groups: seq<Group>): (s: seq<seq<byte>>)
    ensures |s| == |groups|
  {
    seq(|groups|, i requires 0 <= i < |groups| => Join(GroupParts(groups[i])))
  }

  ghost function SubjectList(subjects: seq<Subject>): (s: seq<seq<byte>>)
    ensures |s| == |subjects|
  {
    seq(|subjects|, i requires 0 <= i < |subjects| => Join(SubjectParts(subjects[i])))
  }

  /** Version, header, each group, the number of subjects, each subject. */
  lemma {:induction false} PolicyLayout(p: FairnessPolicy)
    ensures PolicyCodec.EncodedPolicy(p) ==
      Le(1, 2) + Join(PolicyHead(p)) + Join(GroupList(p.groups)) + Le(|p.subjects|, 4) + Join(SubjectList(p.subjects))
  {
    PolicyHeadFirst(p);
    GroupsListed(p.groups);
    RowsAreParts(PolicyCodec.EncodedHead(p), PolicyCodec.GroupRows(p.groups));
    CountLayout(PolicyCodec.EncodedGroups(p), |p.subjects|);
    SubjectsListed(p.subjects);
    RowsAreParts(PolicyCodec.EncodedCount(p), PolicyCodec.SubjectRows(p.subjects));
  }

  lemma {:induction false} PolicyHeadFirst(p: FairnessPolicy)
    ensures PolicyCodec.EncodedHead(p) == Le(1, 2) + Join(PolicyHead(p))
  {
    BitIsByte(p.enforceFloors);
    HeadFirst(PolicyCodec.PolicyRow(p), PolicyHead(p));
  }

  lemma {:induction false} CountLayout(b: seq<byte>, count: nat)
    ensures PutRow(b, [Word(count, 4)]) == b + Le(count, 4)
  {
    assert [Word(count, 4)][..0] == [];
  }

  lemma {:induction false} BitIsByte(b: bool)
    ensures Le(Flag(b), 1) == Bit(b)
  {
    assert Le(Flag(b) / 256, 0) == [];
  }

  lemma {:induction false} GroupInParts(g: Group)
    ensures Parts(PolicyCodec.GroupRow(g)) == GroupParts(g)
  {
    BitIsByte(g.isProtected);
  }

  lemma {:induction false} GroupsListed(groups: seq<Group>)
    ensures RowParts(PolicyCodec.GroupRows(groups)) == GroupList(groups)
  {
    forall i | 0 <= i < |groups|
      ensures Parts(PolicyCodec.GroupRow(groups[i])) == GroupParts(groups[i])
    {
      GroupInParts(groups[i]);
    }
  }

  lemma {:induction false} SubjectInParts(s: Subject)
    ensures Parts(PolicyCodec.SubjectRow(s)) == SubjectParts(s)
  {
    BitIsByte(s.isProtected);
  }

  lemma {:induction false} SubjectsListed(subjects: seq<Subject>)
    ensures RowParts(PolicyCodec.SubjectRows(subjects)) == SubjectList(subjects)
  {
    forall i | 0 <= i < |subjects|
      ensures Parts(PolicyCodec.SubjectRow(subjects[i])) == SubjectParts(subjects[i])
    {
      SubjectInParts(subjects[i]);
    }
  }
}
