// The evidence payload.

module EvidenceCodec {
  import opened Core
  import opened Bytes
  import opened Record
  import opened Policy
  import opened Evidence
  import opened Rows

  const SNAPSHOT_SHAPE := [WordOf(8), WordOf(8), WordOf(8), WordOf(8), WordOf(8), WordOf(8), WordOf(8),
                           TextOf, WordOf(8), WordOf(8), WordOf(8), TextOf, WordOf(8), WordOf(8), WordOf(8), WordOf(4)]
  const OBSERVATION_SHAPE := [WordOf(8), WordOf(8), WordOf(8), WordOf(4), WordOf(4), WordOf(8), WordOf(8), WordOf(8), WordOf(8)]

  function SnapshotRow(e: Snapshot): seq<Value> {
    [Word(e.id, 8), Word(e.generation, 8), Word(e.window, 8), Word(e.windowGeneration, 8), Word(e.epoch, 8),
     Word(FromI64(e.capturedAt), 8), Word(e.sequence, 8),
     Text(e.producer.name), Word(e.producer.instance, 8), Word(e.producer.version, 8),
     Word(e.provenance.revision, 8), Text(e.provenance.source), Word(e.provenance.sourceDigest, 8),
     Word(FromI64(e.provenance.capturedAt), 8), Word(e.declaredDigest, 8), Word(|e.observations|, 4)]
  }

  function ObservationRow(o: Observation): seq<Value> {
    [Word(o.id, 8), Word(o.generation, 8), Word(o.served, 8), Word(o.unservedStreak, 4), Word(o.belowFloorStreak, 4),
     Word(o.priority.id, 8), Word(o.priority.generation, 8), Word(o.qos.id, 8), Word(o.qos.generation, 8)]
  }

  function ObservationRows(os: seq<Observation>): (rows: seq<seq<Value>>)
    ensures |rows| == |os|
  {
    seq(|os|, i requires 0 <= i < |os| => ObservationRow(os[i]))
  }

  function SnapshotOf(row: seq<Value>, os: seq<Observation>): Snapshot {
    Snapshot(U64At(row, 0), U64At(row, 1), U64At(row, 2), U64At(row, 3), U64At(row, 4), ToI64(U64At(row, 5)), U64At(row, 6),
      Producer(TextAt(row, 7), U64At(row, 8), U64At(row, 9)),
      Provenance(U64At(row, 10), TextAt(row, 11), U64At(row, 12), ToI64(U64At(row, 13))), U64At(row, 14), os)
  }

  function ObservationOf(row: seq<Value>): Observation {
    Observation(U64At(row, 0), U64At(row, 1), U64At(row, 2), U32At(row, 3), U32At(row, 4),
      ClassRef(U64At(row, 5), U64At(row, 6)), ClassRef(U64At(row, 7), U64At(row, 8)))
  }

  function ObservationsOf(rows: seq<seq<Value>>): (os: seq<Observation>)
    ensures |os| == |rows|
  {
    seq(|rows|, i requires 0 <= i < |rows| => ObservationOf(rows[i]))
  }

  function EncodedHead(e: Snapshot): seq<byte> {
    PutRow(PutRow([], [Word(FORMAT_VERSION, 2)]), SnapshotRow(e))
  }

  function EncodedEvidence(e: Snapshot): seq<byte> {
    PutRows(EncodedHead(e), ObservationRows(e.observations))
  }

  method EncodeEvidence(e: Snapshot) returns (bytes: seq<byte>)
    ensures bytes == EncodedEvidence(e)
  {
    var writer := new ByteWriter();
    WriteRow(writer, [Word(FORMAT_VERSION, 2)]);
    WriteRow(writer, SnapshotRow(e));
    WriteRows(writer, ObservationRows(e.observations));
    bytes := writer.buffer;
  }

  /** What the bytes say, before they are validated. */
  function ParsedEvidence(data: seq<byte>): (r: Result<Snapshot>)
    ensures r.Err? ==> r.status != Okay
  {
    if |data| > MAX_PAYLOAD_BYTES then Err(OversizedPayload)
    else
      match ReadRow(data, 0, [WordOf(2)])
      case None => Err(Truncated)
      case Some((version, after)) => if NumberAt(version, 0) != FORMAT_VERSION then Err(UnsupportedFormat) else ParsedBody(data, after)
  }

  function ParsedBody(data: seq<byte>, offset: nat): (r: Result<Snapshot>)
    ensures r.Err? ==> r.status != Okay
  {
    match ReadRow(data, offset, SNAPSHOT_SHAPE)
    case None => Err(Truncated)
    case Some((head, after)) =>
      if NumberAt(head, 15) > MAX_EVIDENCE_RECORDS then Err(LimitExceeded)
      else
        match ReadRows(data, after, OBSERVATION_SHAPE, NumberAt(head, 15))
        case None => Err(Truncated)
        case Some((rows, end)) => if end != |data| then Err(CorruptRecord) else Ok(SnapshotOf(head, ObservationsOf(rows)))
  }

  /** Decoding accepts exactly what parses and is valid. */
  method DecodeEvidence(data: seq<byte>) returns (r: Result<Snapshot>)
    ensures r.Err? ==> r.status != Okay
    ensures r.Ok? <==> ParsedEvidence(data).Ok? && ValidEvidence(ParsedEvidence(data).value)
    ensures r.Ok? ==> r == ParsedEvidence(data)
    ensures ParsedEvidence(data).Err? ==> r == ParsedEvidence(data)
  {
    if |data| > MAX_PAYLOAD_BYTES {
      return Err(OversizedPayload);
    }
    var reader := new ByteReader(data);
    var version := NextRow(reader, [WordOf(2)]);
    if version.None? {
      return Err(Truncated);
    }
    if NumberAt(version.value, 0) != FORMAT_VERSION {
      return Err(UnsupportedFormat);
    }
    var head := NextRow(reader, SNAPSHOT_SHAPE);
    if head.None? {
      return Err(Truncated);
    }
    if NumberAt(head.value, 15) > MAX_EVIDENCE_RECORDS {
      return Err(LimitExceeded);
    }
    var rows := NextRows(reader, OBSERVATION_SHAPE, NumberAt(head.value, 15));
    if rows.None? {
      return Err(Truncated);
    }
    if !reader.Empty() {
      return Err(CorruptRecord);
    }
    var e := SnapshotOf(head.value, ObservationsOf(rows.value));
    var status := ValidateEvidence(e);
    r := if status == Okay then Ok(e) else Err(status);
  }

  lemma {:induction false} SnapshotRowFits(e: Snapshot)
    requires |e.observations| < U32_END && |e.producer.name| <= MAX_TEXT_BYTES && |e.provenance.source| <= MAX_TEXT_BYTES
    ensures RowFits(SnapshotRow(e), SNAPSHOT_SHAPE)
  {
    WidthsInBytes();
  }

  lemma {:induction false} SnapshotRowReads(e: Snapshot)
    ensures NumberAt(SnapshotRow(e), 15) == |e.observations| && SnapshotOf(SnapshotRow(e), e.observations) == e
  {
    SignedRoundTrip(e.capturedAt, 0);
    SignedRoundTrip(e.provenance.capturedAt, 0);
  }

  lemma {:induction false} ObservationRowFits(o: Observation)
    ensures RowFits(ObservationRow(o), OBSERVATION_SHAPE) && ObservationOf(ObservationRow(o)) == o
  {
    WidthsInBytes();
  }

  lemma {:induction false} ObservationRowsFit(os: seq<Observation>)
    ensures forall i :: 0 <= i < |os| ==> RowFits(ObservationRows(os)[i], OBSERVATION_SHAPE)
    ensures ObservationsOf(ObservationRows(os)) == os
  {
    forall i | 0 <= i < |os|
      ensures RowFits(ObservationRow(os[i]), OBSERVATION_SHAPE) && ObservationOf(ObservationRow(os[i])) == os[i]
    {
      ObservationRowFits(os[i]);
    }
  }

  lemma {:induction false} ObservationSize(o: Observation)
    ensures RowSize(ObservationRow(o)) == 64
  {
    var row := ObservationRow(o);
    RowSizeConcat(row[..3] + row[3..5], row[5..]);
    RowSizeConcat(row[..3], row[3..5]);
    assert row == row[..3] + row[3..5] + row[5..];
    UniformSize(row[..3], 8);
    UniformSize(row[3..5], 4);
    UniformSize(row[5..], 8);
  }

  lemma {:induction false} EvidenceFits(e: Snapshot)
    requires |e.observations| <= MAX_EVIDENCE_RECORDS && RowFits(SnapshotRow(e), SNAPSHOT_SHAPE)
    ensures |EncodedEvidence(e)| <= MAX_PAYLOAD_BYTES
  {
    RowLength([], [Word(FORMAT_VERSION, 2)]);
    OneValue(Word(FORMAT_VERSION, 2));
    RowLength(PutRow([], [Word(FORMAT_VERSION, 2)]), SnapshotRow(e));
    RowBounded(SnapshotRow(e), SNAPSHOT_SHAPE);
    forall i | 0 <= i < |e.observations|
      ensures RowSize(ObservationRows(e.observations)[i]) == 64
    {
      ObservationSize(e.observations[i]);
    }
    RowsLengthExactly(EncodedHead(e), ObservationRows(e.observations), 64);
  }

  /** Valid evidence survives the wire. */
  lemma {:induction false} EvidenceRoundTrip(e: Snapshot)
    requires ValidEvidence(e)
    ensures ParsedEvidence(EncodedEvidence(e)) == Ok(e)
  {
    var data := EncodedEvidence(e);
    SnapshotRowFits(e);
    SnapshotRowReads(e);
    ObservationRowsFit(e.observations);
    EvidenceFits(e);
    WidthsInBytes();
    RowsReadBack(EncodedHead(e), ObservationRows(e.observations), OBSERVATION_SHAPE, data);
    RowReadBack(PutRow([], [Word(FORMAT_VERSION, 2)]), SnapshotRow(e), SNAPSHOT_SHAPE, data);
    RowReadBack([], [Word(FORMAT_VERSION, 2)], [WordOf(2)], data);
  }
}
