// The durable policy payload.

module PolicyCodec {
  import opened Core
  import opened Bytes
  import opened Record
  import opened Policy
  import opened Rows

  const POLICY_SHAPE := [WordOf(8), WordOf(8), WordOf(8), WordOf(8), WordOf(8), WordOf(8), WordOf(4), WordOf(8), WordOf(4),
                         WordOf(4), WordOf(4), WordOf(8), WordOf(8), WordOf(1), WordOf(8), TextOf, WordOf(8), WordOf(8), WordOf(4)]
  const GROUP_SHAPE := [WordOf(8), WordOf(8), WordOf(8), WordOf(4), WordOf(8), WordOf(4), WordOf(1), TextOf]
  const SUBJECT_SHAPE := [WordOf(8), WordOf(8), WordOf(8), WordOf(8), WordOf(4), WordOf(8), WordOf(4), WordOf(4), WordOf(8),
                          WordOf(8), WordOf(8), WordOf(8), WordOf(4), WordOf(4), WordOf(4), WordOf(1), WordOf(8), WordOf(8), TextOf]

  // --- Rows ------------------------------------------------------------------------------------

  function PolicyRow(p: FairnessPolicy): seq<Value> {
    [Word(p.id, 8), Word(p.generation, 8), Word(p.epoch, 8), Word(p.windowUnits, 8), Word(p.fairBand, 8),
     Word(p.correctionThreshold, 8), Word(p.cooldownWindows, 4), Word(p.maxCorrection, 8), Word(p.maxCorrectionBps, 4),
     Word(p.maxModifierBps, 4), Word(p.maxAgeWindows, 4), Word(p.maxAgeNs, 8), Word(p.maxCarry, 8), Word(Flag(p.enforceFloors), 1),
     Word(p.provenance.revision, 8), Text(p.provenance.source), Word(p.provenance.sourceDigest, 8),
     Word(FromI64(p.provenance.capturedAt), 8), Word(|p.groups|, 4)]
  }

  function GroupRow(g: Group): seq<Value> {
    [Word(g.id, 8), Word(g.generation, 8), Word(g.parent, 8), Word(g.shareWeight, 4), Word(g.floor, 8), Word(g.rank, 4),
     Word(Flag(g.isProtected), 1), Text(g.labelText)]
  }

  function SubjectRow(s: Subject): seq<Value> {
    [Word(s.id, 8), Word(s.generation, 8), Word(s.group, 8), Word(s.tenant, 8), Word(s.shareWeight, 4), Word(s.floor, 8),
     Word(s.starvationWindows, 4), Word(s.guaranteeStarvationWindows, 4), Word(s.priority.id, 8), Word(s.priority.generation, 8),
     Word(s.qos.id, 8), Word(s.qos.generation, 8), Word(FromI32(s.modifierBps), 4), Word(s.priorityRank, 4), Word(s.rank, 4),
     Word(Flag(s.isProtected), 1), Word(s.maxReduce, 8), Word(s.maxAugment, 8), Text(s.labelText)]
  }

  function PolicyOf(row: seq<Value>, groups: seq<Group>, subjects: seq<Subject>): FairnessPolicy {
    FairnessPolicy(U64At(row, 0), U64At(row, 1), U64At(row, 2), U64At(row, 3), U64At(row, 4), U64At(row, 5), U32At(row, 6),
      U64At(row, 7), U32At(row, 8), U32At(row, 9), U32At(row, 10), U64At(row, 11), U64At(row, 12), NumberAt(row, 13) != 0,
      Provenance(U64At(row, 14), TextAt(row, 15), U64At(row, 16), ToI64(U64At(row, 17))), groups, subjects)
  }

  function GroupOf(row: seq<Value>): Group {
    Group(U64At(row, 0), U64At(row, 1), U64At(row, 2), U32At(row, 3), U64At(row, 4), U32At(row, 5), NumberAt(row, 6) != 0,
      TextAt(row, 7))
  }

  function SubjectOf(row: seq<Value>): Subject {
    Subject(U64At(row, 0), U64At(row, 1), U64At(row, 2), U64At(row, 3), U32At(row, 4), U64At(row, 5), U32At(row, 6), U32At(row, 7),
      ClassRef(U64At(row, 8), U64At(row, 9)), ClassRef(U64At(row, 10), U64At(row, 11)), ToI32(U32At(row, 12)), U32At(row, 13),
      U32At(row, 14), NumberAt(row, 15) != 0, U64At(row, 16), U64At(row, 17), TextAt(row, 18))
  }

  function GroupRows(groups: seq<Group>): (rows: seq<seq<Value>>)
    ensures |rows| == |groups|
  {
    seq(|groups|, i requires 0 <= i < |groups| => GroupRow(groups[i]))
  }

  function SubjectRows(subjects: seq<Subject>): (rows: seq<seq<Value>>)
    ensures |rows| == |subjects|
  {
    seq(|subjects|, i requires 0 <= i < |subjects| => SubjectRow(subjects[i]))
  }

  function GroupsOf(rows: seq<seq<Value>>): (groups: seq<Group>)
    ensures |groups| == |rows|
  {
    seq(|rows|, i requires 0 <= i < |rows| => GroupOf(rows[i]))
  }

  function SubjectsOf(rows: seq<seq<Value>>): (subjects: seq<Subject>)
    ensures |subjects| == |rows|
  {
    seq(|rows|, i requires 0 <= i < |rows| => SubjectOf(rows[i]))
  }

  // --- Encoding ----------------------------------------------------------------------------------

  function EncodedHead(p: FairnessPolicy): seq<byte> {
    PutRow(PutRow([], [Word(FORMAT_VERSION, 2)]), PolicyRow(p))
  }

  function EncodedGroups(p: FairnessPolicy): seq<byte> {
    PutRows(EncodedHead(p), GroupRows(p.groups))
  }

  function EncodedCount(p: FairnessPolicy): seq<byte> {
    PutRow(EncodedGroups(p), [Word(|p.subjects|, 4)])
  }

  function EncodedPolicy(p: FairnessPolicy): seq<byte> {
    PutRows(EncodedCount(p), SubjectRows(p.subjects))
  }

  method EncodePolicy(p: FairnessPolicy) returns (bytes: seq<byte>)
    ensures bytes == EncodedPolicy(p)
  {
    var writer := new ByteWriter();
    WriteRow(writer, [Word(FORMAT_VERSION, 2)]);
    WriteRow(writer, PolicyRow(p));
    WriteRows(writer, GroupRows(p.groups));
    WriteRow(writer, [Word(|p.subjects|, 4)]);
    WriteRows(writer, SubjectRows(p.subjects));
    bytes := writer.buffer;
  }

  // --- Decoding ------------------------------------------------------------------------------------

  /** What the bytes say, before it is validated as a policy. */
  function ParsedPolicy(data: seq<byte>): (r: Result<FairnessPolicy>)
    ensures r.Err? ==> r.status != Okay
  {
    if |data| > MAX_PAYLOAD_BYTES then Err(OversizedPayload)
    else
      match ReadRow(data, 0, [WordOf(2)])
      case None => Err(Truncated)
      case Some((version, after)) => if NumberAt(version, 0) != FORMAT_VERSION then Err(UnsupportedFormat) else ParsedHead(data, after)
  }

  function ParsedHead(data: seq<byte>, offset: nat): (r: Result<FairnessPolicy>)
    ensures r.Err? ==> r.status != Okay
  {
    match ReadRow(data, offset, POLICY_SHAPE)
    case None => Err(Truncated)
    case Some((head, after)) =>
      if NumberAt(head, 18) > MAX_GROUPS then Err(LimitExceeded)
      else
        match ReadRows(data, after, GROUP_SHAPE, NumberAt(head, 18))
        case None => Err(Truncated)
        case Some((groups, middle)) => ParsedTail(data, middle, head, groups)
  }

  function ParsedTail(data: seq<byte>, offset: nat, head: seq<Value>, groups: seq<seq<Value>>): (r: Result<FairnessPolicy>)
    ensures r.Err? ==> r.status != Okay
  {
    match ReadRow(data, offset, [WordOf(4)])
    case None => Err(Truncated)
    case Some((count, after)) =>
      if NumberAt(count, 0) > MAX_SUBJECTS then Err(LimitExceeded)
      else
        match ReadRows(data, after, SUBJECT_SHAPE, NumberAt(count, 0))
        case None => Err(Truncated)
        case Some((subjects, end)) =>
          if end != |data| then Err(CorruptRecord) else Ok(PolicyOf(head, GroupsOf(groups), SubjectsOf(subjects)))
  }

  method NextTail(reader: ByteReader, head: seq<Value>, groups: seq<seq<Value>>) returns (r: Result<FairnessPolicy>)
    requires reader.Valid()
    modifies reader
    ensures r == ParsedTail(reader.data, old(reader.offset), head, groups)
  {
    var count := NextRow(reader, [WordOf(4)]);
    if count.None? {
      return Err(Truncated);
    }
    if NumberAt(count.value, 0) > MAX_SUBJECTS {
      return Err(LimitExceeded);
    }
    var subjects := NextRows(reader, SUBJECT_SHAPE, NumberAt(count.value, 0));
    if subjects.None? {
      return Err(Truncated);
    }
    if !reader.Empty() {
      return Err(CorruptRecord);
    }
    r := Ok(PolicyOf(head, GroupsOf(groups), SubjectsOf(subjects.value)));
  }

  method NextPolicy(reader: ByteReader) returns (r: Result<FairnessPolicy>)
    requires reader.Valid()
    modifies reader
    ensures r == ParsedHead(reader.data, old(reader.offset))
  {
    var head := NextRow(reader, POLICY_SHAPE);
    if head.None? {
      return Err(Truncated);
    }
    if NumberAt(head.value, 18) > MAX_GROUPS {
      return Err(LimitExceeded);
    }
    var groups := NextRows(reader, GROUP_SHAPE, NumberAt(head.value, 18));
    if groups.None? {
      return Err(Truncated);
    }
    r := NextTail(reader, head.value, groups.value);
  }

  /** Decoding accepts exactly what parses and is valid. */
  method DecodePolicy(data: seq<byte>) returns (r: Result<FairnessPolicy>)
    ensures r.Err? ==> r.status != Okay
    ensures r.Ok? <==> ParsedPolicy(data).Ok? && ValidPolicy(ParsedPolicy(data).value)
    ensures r.Ok? ==> r == ParsedPolicy(data)
    ensures ParsedPolicy(data).Err? ==> r == ParsedPolicy(data)
  {
    if |data| > MAX_PAYLOAD_BYTES {
      return Err(OversizedPayload);
    }
    var reader := new ByteReader(data);
    var version := NextRow(reader, [WordOf(2)]);
    if version.None? {
      return Err(Truncated);
    }
    if NumberAt(version.value, 0) != FORMAT_VERSION {
      return Err(UnsupportedFormat);
    }
    r := NextPolicy(reader);
    if r.Ok? {
      var status := ValidatePolicy(r.value);
      if status != Okay {
        r := Err(status);
      }
    }
  }

  // --- Round trip -----------------------------------------------------------------------------------

  lemma {:induction false} PolicyRowFits(p: FairnessPolicy)
    requires |p.groups| < U32_END && |p.provenance.source| <= MAX_TEXT_BYTES
    ensures RowFits(PolicyRow(p), POLICY_SHAPE)
  {
    WidthsInBytes();
  }

  lemma {:induction false} PolicyRowReads(p: FairnessPolicy)
    ensures NumberAt(PolicyRow(p), 18) == |p.groups| && PolicyOf(PolicyRow(p), p.groups, p.subjects) == p
  {
    SignedRoundTrip(p.provenance.capturedAt, 0);
  }

  lemma {:induction false} GroupRowFits(g: Group)
    requires |g.labelText| <= MAX_TEXT_BYTES
    ensures RowFits(GroupRow(g), GROUP_SHAPE) && GroupOf(GroupRow(g)) == g
  {
    WidthsInBytes();
  }

  lemma {:induction false} SubjectRowFits(s: Subject)
    requires |s.labelText| <= MAX_TEXT_BYTES
    ensures RowFits(SubjectRow(s), SUBJECT_SHAPE)
  {
    WidthsInBytes();
  }

  lemma {:induction false} SubjectRowReads(s: Subject)
    ensures SubjectOf(SubjectRow(s)) == s
  {
    SignedRoundTrip(0, s.modifierBps);
  }

  lemma {:induction false} GroupRowsFit(groups: seq<Group>)
    requires forall i :: 0 <= i < |groups| ==> |groups[i].labelText| <= MAX_TEXT_BYTES
    ensures forall i :: 0 <= i < |groups| ==> RowFits(GroupRows(groups)[i], GROUP_SHAPE)
    ensures GroupsOf(GroupRows(groups)) == groups
  {
    forall i | 0 <= i < |groups|
      ensures RowFits(GroupRow(groups[i]), GROUP_SHAPE) && GroupOf(GroupRow(groups[i])) == groups[i]
    {
      GroupRowFits(groups[i]);
    }
  }

  lemma {:induction false} SubjectRowsFit(subjects: seq<Subject>)
    requires forall i :: 0 <= i < |subjects| ==> |subjects[i].labelText| <= MAX_TEXT_BYTES
    ensures forall i :: 0 <= i < |subjects| ==> RowFits(SubjectRows(subjects)[i], SUBJECT_SHAPE)
    ensures SubjectsOf(SubjectRows(subjects)) == subjects
  {
    forall i | 0 <= i < |subjects|
      ensures RowFits(SubjectRow(subjects[i]), SUBJECT_SHAPE) && SubjectOf(SubjectRow(subjects[i])) == subjects[i]
    {
      SubjectRowFits(subjects[i]);
      SubjectRowReads(subjects[i]);
    }
  }

  /** The domain of the format: what fits its counts and text bounds. */
  ghost predicate Encodable(p: FairnessPolicy) {
    && |p.groups| <= MAX_GROUPS && |p.subjects| <= MAX_SUBJECTS && |p.provenance.source| <= MAX_TEXT_BYTES
    && (forall i :: 0 <= i < |p.groups| ==> |p.groups[i].labelText| <= MAX_TEXT_BYTES)
    && (forall i :: 0 <= i < |p.subjects| ==> |p.subjects[i].labelText| <= MAX_TEXT_BYTES)
  }

  lemma {:induction false} ValidIsEncodable(p: FairnessPolicy)
    requires ValidPolicy(p)
    ensures Encodable(p)
  {
    forall i | 0 <= i < |p.groups|
      ensures |p.groups[i].labelText| <= MAX_TEXT_BYTES
    {
      assert GroupStatus(p.groups[i]) == Okay;
    }
    forall i | 0 <= i < |p.subjects|
      ensures |p.subjects[i].labelText| <= MAX_TEXT_BYTES
    {
      assert SubjectHolds(p, p.subjects[i]);
    }
  }

  lemma {:induction false} GroupsLength(p: FairnessPolicy)
    requires Encodable(p)
    ensures |EncodedGroups(p)| <= 700000
  {
    PolicyRowFits(p);
    RowLength([], [Word(FORMAT_VERSION, 2)]);
    OneValue(Word(FORMAT_VERSION, 2));
    RowLength(PutRow([], [Word(FORMAT_VERSION, 2)]), PolicyRow(p));
    RowBounded(PolicyRow(p), POLICY_SHAPE);
    GroupRowsFit(p.groups);
    forall i | 0 <= i < |p.groups|
      ensures RowSize(GroupRows(p.groups)[i]) <= 2080
    {
      RowBounded(GroupRow(p.groups[i]), GROUP_SHAPE);
    }
    RowsLength(EncodedHead(p), GroupRows(p.groups), 2080);
  }

  lemma {:induction false} SubjectSize(s: Subject)
    requires |s.labelText| <= MAX_TEXT_BYTES
    ensures RowSize(SubjectRow(s)) <= 404
  {
    var row := SubjectRow(s);
    RowSizeConcat(row[..18], row[18..]);
    assert row == row[..18] + row[18..];
    WordsBounded(row[..18]);
    OneValue(row[18]);
    assert row[18..] == [row[18]];
  }

  lemma {:induction false} PolicyFits(p: FairnessPolicy)
    requires Encodable(p)
    ensures |EncodedPolicy(p)| <= MAX_PAYLOAD_BYTES
  {
    GroupsLength(p);
    RowLength(EncodedGroups(p), [Word(|p.subjects|, 4)]);
    OneValue(Word(|p.subjects|, 4));
    forall i | 0 <= i < |p.subjects|
      ensures RowSize(SubjectRows(p.subjects)[i]) <= 404
    {
      SubjectSize(p.subjects[i]);
    }
    RowsLength(EncodedCount(p), SubjectRows(p.subjects), 404);
  }

  /** A valid policy survives being stored and read back. */
  lemma {:induction false} PolicyRoundTrip(p: FairnessPolicy)
    requires ValidPolicy(p)
    ensures ParsedPolicy(EncodedPolicy(p)) == Ok(p)
  {
    ValidIsEncodable(p);
    EncodableParses(p);
  }

  lemma {:induction false} EncodableParses(p: FairnessPolicy)
    requires Encodable(p)
    ensures ParsedPolicy(EncodedPolicy(p)) == Ok(p)
  {
    var data := EncodedPolicy(p);
    var start := PutRow([], [Word(FORMAT_VERSION, 2)]);
    WidthsInBytes();
    PolicyFits(p);
    HeadParses(p, data);
    RowReadBack([], [Word(FORMAT_VERSION, 2)], [WordOf(2)], data);
  }

  lemma {:induction false} HeadParses(p: FairnessPolicy, data: seq<byte>)
    requires Encodable(p) && data == EncodedPolicy(p)
    ensures ParsedHead(data, |PutRow([], [Word(FORMAT_VERSION, 2)])|) == Ok(p)
    ensures PutRow([], [Word(FORMAT_VERSION, 2)]) <= data
  {
    PolicyRowFits(p);
    PolicyRowReads(p);
    GroupRowsFit(p.groups);
    TailParses(p, data);
    RowsReadBack(EncodedHead(p), GroupRows(p.groups), GROUP_SHAPE, data);
    RowReadBack(PutRow([], [Word(FORMAT_VERSION, 2)]), PolicyRow(p), POLICY_SHAPE, data);
  }

  lemma {:induction false} TailParses(p: FairnessPolicy, data: seq<byte>)
    requires Encodable(p) && data == EncodedPolicy(p)
    ensures ParsedTail(data, |EncodedGroups(p)|, PolicyRow(p), GroupRows(p.groups)) == Ok(p)
    ensures EncodedGroups(p) <= data
  {
    PolicyRowReads(p);
    GroupRowsFit(p.groups);
    SubjectRowsFit(p.subjects);
    WidthsInBytes();
    RowsReadBack(EncodedCount(p), SubjectRows(p.subjects), SUBJECT_SHAPE, data);
    RowReadBack(EncodedGroups(p), [Word(|p.subjects|, 4)], [WordOf(4)], data);
  }
}
