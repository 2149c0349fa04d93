// Durable records: a fixed 64-byte header, then the payload.

module Record {
  import opened Core
  import opened Bytes
  import opened Digest

  const MAGIC: nat := 0x43524746
  const FORMAT_VERSION: nat := 1
  const HEADER_SIZE: nat := 64
  const CHECKSUM_OFFSET: nat := 56

  datatype RecordKind = PolicyRecord | AccountingRecord {
    function Code(): nat {
      if PolicyRecord? then 1 else 2
    }
  }

  datatype Incarnation = Incarnation(boot: u64, ordinal: u64) {
    predicate Live() {
      boot != 0 && ordinal != 0
    }
  }

  datatype Record = Record(generation: u64, writer: Incarnation, payload: seq<byte>)

  /** The header up to, not including, its own checksum. */
  function HeaderFields(kind: RecordKind, r: Record): (h: seq<byte>)
    ensures |h| == CHECKSUM_OFFSET
  {
    Identification(kind) + Le(r.generation, 8) + Le(r.writer.boot, 8) + Le(r.writer.ordinal, 8)
      + Le(|r.payload|, 8) + Le(Checksum(r.payload), 8)
  }

  function Identification(kind: RecordKind): (h: seq<byte>)
    ensures |h| == 16
  {
    Le(MAGIC, 4) + Le(FORMAT_VERSION, 2) + Le(kind.Code(), 2) + Le(0, 4) + Le(0, 4)
  }

  /** The header as its checksum sees it: the checksum field reads as zero. */
  function Masked(fields: seq<byte>): seq<byte> {
    fields + Le(0, 8)
  }

  function Header(kind: RecordKind, r: Record): (h: seq<byte>)
    ensures |h| == HEADER_SIZE
  {
    HeaderFields(kind, r) + Le(Checksum(Masked(HeaderFields(kind, r))), 8)
  }

  function Encoded(kind: RecordKind, r: Record): (b: seq<byte>)
    ensures |b| == HEADER_SIZE + |r.payload|
  {
    Header(kind, r) + r.payload
  }

  method StoreIdentification(record: array<byte>, kind: RecordKind)
    requires record.Length >= HEADER_SIZE
    modifies record
    ensures record[..16] == Identification(kind)
  {
    StoreLe(record, 0, MAGIC, 4);
    assert record[..4] == Le(MAGIC, 4);
    StoreLe(record, 4, FORMAT_VERSION, 2);
    StoreLe(record, 6, kind.Code(), 2);
    StoreLe(record, 8, 0, 4);
    StoreLe(record, 12, 0, 4);
  }

  method StoreFields(record: array<byte>, kind: RecordKind, r: Record)
    requires record.Length >= HEADER_SIZE
    modifies record
    ensures record[..CHECKSUM_OFFSET] == HeaderFields(kind, r)
  {
    StoreIdentification(record, kind);
    StoreLe(record, 16, r.generation, 8);
    StoreLe(record, 24, r.writer.boot, 8);
    StoreLe(record, 32, r.writer.ordinal, 8);
    StoreLe(record, 40, |r.payload|, 8);
    var payloadChecksum := Fnv1a64(r.payload, OFFSET_BASIS);
    StoreLe(record, 48, payloadChecksum, 8);
  }

  /** The header checksum is taken with its own field stored as zero. */
  method SealHeader(record: array<byte>, ghost fields: seq<byte>)
    requires record.Length >= HEADER_SIZE && record[..CHECKSUM_OFFSET] == fields
    modifies record
    ensures record[..HEADER_SIZE] == fields + Le(Checksum(Masked(fields)), 8)
  {
    StoreLe(record, CHECKSUM_OFFSET, 0, 8);
    assert record[..HEADER_SIZE] == Masked(fields);
    var headerChecksum := Fnv1a64(record[..HEADER_SIZE], OFFSET_BASIS);
    assert record[..CHECKSUM_OFFSET] == record[..HEADER_SIZE][..CHECKSUM_OFFSET] == fields;
    StoreLe(record, CHECKSUM_OFFSET, headerChecksum, 8);
  }

  method CopyPayload(record: array<byte>, payload: seq<byte>)
    requires record.Length == HEADER_SIZE + |payload|
    modifies record
    ensures record[..] == old(record[..HEADER_SIZE]) + payload
  {
    for i := 0 to |payload|
      invariant record[..HEADER_SIZE] == old(record[..HEADER_SIZE])
      invariant record[HEADER_SIZE..HEADER_SIZE + i] == payload[..i]
    {
      record[HEADER_SIZE + i] := payload[i];
    }
    assert record[..] == record[..HEADER_SIZE] + record[HEADER_SIZE..HEADER_SIZE + |payload|];
  }

  /** Fills a zeroed buffer in place, header first. */
  method EncodeRecord(kind: RecordKind, r: Record) returns (bytes: seq<byte>)
    ensures bytes == Encoded(kind, r)
  {
    var record := new byte[HEADER_SIZE + |r.payload|](i => 0);
    StoreFields(record, kind, r);
    SealHeader(record, HeaderFields(kind, r));
    CopyPayload(record, r.payload);
    bytes := record[..];
  }

  function Fields(bytes: seq<byte>): Record
    requires |bytes| >= HEADER_SIZE
  {
    WidthsInBytes();
    AtFits(bytes, 16, 8); AtFits(bytes, 24, 8); AtFits(bytes, 32, 8);
    Record(At(bytes, 16, 8), Incarnation(At(bytes, 24, 8), At(bytes, 32, 8)), bytes[HEADER_SIZE..])
  }

  /** Every check of the decoder, in its order. */
  function DecodeRecord(bytes: seq<byte>, kind: RecordKind): (r: Result<Record>)
    ensures r.Err? ==> r.status != Okay
  {
    if |bytes| < HEADER_SIZE then Err(Truncated)
    else if |bytes| > HEADER_SIZE + MAX_PAYLOAD_BYTES then Err(OversizedPayload)
    else if At(bytes, 0, 4) != MAGIC then Err(CorruptRecord)
    else if At(bytes, 4, 2) != FORMAT_VERSION then Err(UnsupportedFormat)
    else if At(bytes, 6, 2) != kind.Code() then Err(CorruptRecord)
    else if At(bytes, 8, 4) != 0 || At(bytes, 12, 4) != 0 then Err(CorruptRecord)
    else if Checksum(Masked(bytes[..56])) != At(bytes, 56, 8) then Err(ChecksumMismatch)
    else if At(bytes, 40, 8) > MAX_PAYLOAD_BYTES then Err(OversizedPayload)
    else if |bytes| != HEADER_SIZE + At(bytes, 40, 8) then Err(Truncated)
    else if Checksum(bytes[64..]) != At(bytes, 48, 8) then Err(ChecksumMismatch)
    else Ok(Fields(bytes))
  }

  lemma {:induction false} IdentificationReads(kind: RecordKind, bytes: seq<byte>)
    requires Identification(kind) <= bytes
    ensures At(bytes, 0, 4) == MAGIC && At(bytes, 4, 2) == FORMAT_VERSION && At(bytes, 6, 2) == kind.Code()
    ensures At(bytes, 8, 4) == 0 && At(bytes, 12, 4) == 0
  {
    WidthsInBytes();
    var b0 := [];
    var b1 := b0 + Le(MAGIC, 4);
    var b2 := b1 + Le(FORMAT_VERSION, 2);
    var b3 := b2 + Le(kind.Code(), 2);
    var b4 := b3 + Le(0, 4);
    assert b1 == Le(MAGIC, 4);
    ReadBack(b4, 0, 4, bytes);
    ReadBack(b3, 0, 4, bytes);
    ReadBack(b2, kind.Code(), 2, bytes);
    ReadBack(b1, FORMAT_VERSION, 2, bytes);
    ReadBack(b0, MAGIC, 4, bytes);
  }

  lemma {:induction false} FieldsRead(kind: RecordKind, r: Record, bytes: seq<byte>)
    requires |r.payload| < U64_END && HeaderFields(kind, r) <= bytes
    ensures Identification(kind) <= bytes
    ensures At(bytes, 16, 8) == r.generation && At(bytes, 24, 8) == r.writer.boot && At(bytes, 32, 8) == r.writer.ordinal
    ensures At(bytes, 40, 8) == |r.payload| && At(bytes, 48, 8) == Checksum(r.payload)
  {
    WidthsInBytes();
    var b0 := Identification(kind);
    var b1 := b0 + Le(r.generation, 8);
    var b2 := b1 + Le(r.writer.boot, 8);
    var b3 := b2 + Le(r.writer.ordinal, 8);
    var b4 := b3 + Le(|r.payload|, 8);
    ReadBack(b4, Checksum(r.payload), 8, bytes);
    ReadBack(b3, |r.payload|, 8, bytes);
    ReadBack(b2, r.writer.ordinal, 8, bytes);
    ReadBack(b1, r.writer.boot, 8, bytes);
    ReadBack(b0, r.generation, 8, bytes);
  }

  /** What every check finds at the head of an encoded record. */
  lemma {:induction false} HeaderReads(kind: RecordKind, r: Record, bytes: seq<byte>)
    requires |r.payload| < U64_END && Header(kind, r) <= bytes
    ensures |bytes| >= 64 && bytes[..56] == HeaderFields(kind, r)
    ensures At(bytes, 56, 8) == Checksum(Masked(HeaderFields(kind, r)))
    ensures Identification(kind) <= bytes
    ensures At(bytes, 16, 8) == r.generation && At(bytes, 24, 8) == r.writer.boot && At(bytes, 32, 8) == r.writer.ordinal
    ensures At(bytes, 40, 8) == |r.payload| && At(bytes, 48, 8) == Checksum(r.payload)
  {
    WidthsInBytes();
    ReadBack(HeaderFields(kind, r), Checksum(Masked(HeaderFields(kind, r))), 8, bytes);
    FieldsRead(kind, r, bytes);
  }

  /** Decoding undoes encoding. */
  lemma {:induction false} RecordRoundTrip(kind: RecordKind, r: Record)
    requires |r.payload| <= MAX_PAYLOAD_BYTES
    ensures DecodeRecord(Encoded(kind, r), kind) == Ok(r)
  {
    var bytes := Encoded(kind, r);
    assert Header(kind, r) <= bytes;
    HeaderReads(kind, r, bytes);
    IdentificationReads(kind, bytes);
    assert bytes[64..] == r.payload;
  }

  /** A record torn to any strict prefix is rejected, by its lengths alone. */
  lemma {:induction false} TornRecordRejected(kind: RecordKind, r: Record, k: nat)
    requires |r.payload| <= MAX_PAYLOAD_BYTES && k < |Encoded(kind, r)|
    ensures DecodeRecord(Encoded(kind, r)[..k], kind).Err?
  {
    var torn := Encoded(kind, r)[..k];
    if k >= 64 {
      assert torn[..64] == Header(kind, r);
      HeaderReads(kind, r, torn);
    }
  }

  /** A record is never taken for one of the other kind. */
  lemma {:induction false} WrongKindRejected(kind: RecordKind, other: RecordKind, r: Record)
    requires |r.payload| <= MAX_PAYLOAD_BYTES && other != kind
    ensures DecodeRecord(Encoded(kind, r), other).Err?
  {
    var bytes := Encoded(kind, r);
    assert Header(kind, r) <= bytes;
    HeaderReads(kind, r, bytes);
    IdentificationReads(kind, bytes);
  }

  lemma {:induction false} ChangedWordDiffers(bytes: seq<byte>, offset: nat, n: nat, i: nat, b: byte)
    requires offset + n <= |bytes| && offset <= i < offset + n && b != bytes[i]
    ensures At(bytes[i := b], offset, n) != At(bytes, offset, n)
  {
    LeOfFromLe(bytes[offset..offset + n]);
    LeOfFromLe(bytes[i := b][offset..offset + n]);
    assert bytes[offset..offset + n][i - offset] != bytes[i := b][offset..offset + n][i - offset];
  }

  lemma {:induction false} UntouchedWord(bytes: seq<byte>, offset: nat, n: nat, i: nat, b: byte)
    requires offset + n <= |bytes| && i < |bytes| && !(offset <= i < offset + n)
    ensures At(bytes[i := b], offset, n) == At(bytes, offset, n)
  {
    assert bytes[i := b][offset..offset + n] == bytes[offset..offset + n];
  }

  lemma {:induction false} CorruptedFieldRejected(kind: RecordKind, bytes: seq<byte>, i: nat, b: byte)
    requires |bytes| >= HEADER_SIZE && i < 56 && b != bytes[i]
    requires At(bytes, 56, 8) == Checksum(Masked(bytes[..56]))
    ensures DecodeRecord(bytes[i := b], kind).Err?
  {
    UntouchedWord(bytes, 56, 8, i, b);
    assert Masked(bytes[i := b][..56]) == Masked(bytes[..56])[i := b];
    SingleByteChangesDigest(OFFSET_BASIS, Masked(bytes[..56]), i, b);
  }

  lemma {:induction false} CorruptedSealRejected(kind: RecordKind, bytes: seq<byte>, i: nat, b: byte)
    requires |bytes| >= HEADER_SIZE && 56 <= i < 64 && b != bytes[i]
    requires At(bytes, 56, 8) == Checksum(Masked(bytes[..56]))
    ensures DecodeRecord(bytes[i := b], kind).Err?
  {
    assert bytes[i := b][..56] == bytes[..56];
    ChangedWordDiffers(bytes, 56, 8, i, b);
  }

  lemma {:induction false} CorruptedPayloadRejected(kind: RecordKind, bytes: seq<byte>, i: nat, b: byte)
    requires 64 <= i < |bytes| && b != bytes[i]
    requires At(bytes, 48, 8) == Checksum(bytes[64..])
    ensures DecodeRecord(bytes[i := b], kind).Err?
  {
    UntouchedWord(bytes, 48, 8, i, b);
    assert bytes[i := b][64..] == bytes[64..][i - 64 := b];
    SingleByteChangesDigest(OFFSET_BASIS, bytes[64..], i - 64, b);
  }

  /** Changing any single byte of an encoded record gets it rejected. */
  lemma {:induction false} CorruptedByteRejected(kind: RecordKind, r: Record, i: nat, b: byte)
    requires |r.payload| <= MAX_PAYLOAD_BYTES && i < |Encoded(kind, r)| && b != Encoded(kind, r)[i]
    ensures DecodeRecord(Encoded(kind, r)[i := b], kind).Err?
  {
    var bytes := Encoded(kind, r);
    assert Header(kind, r) <= bytes;
    HeaderReads(kind, r, bytes);
    assert bytes[64..] == r.payload;
    if i < 56 {
      CorruptedFieldRejected(kind, bytes, i, b);
    } else if i < 64 {
      CorruptedSealRejected(kind, bytes, i, b);
    } else {
      CorruptedPayloadRejected(kind, bytes, i, b);
    }
  }

  lemma {:induction false} IdentificationIsWhatWasRead(bytes: seq<byte>, kind: RecordKind)
    requires DecodeRecord(bytes, kind).Ok?
    ensures Identification(kind) == bytes[..16]
  {
    var b := AppendWord([], bytes, 4);
    assert b == Le(MAGIC, 4);
    b := AppendWord(b, bytes, 2);
    b := AppendWord(b, bytes, 2);
    b := AppendWord(b, bytes, 4);
    b := AppendWord(b, bytes, 4);
  }

  lemma {:induction false} FieldsAreWhatWasRead(bytes: seq<byte>, kind: RecordKind, r: Record)
    requires |bytes| >= HEADER_SIZE && Identification(kind) == bytes[..16]
    requires At(bytes, 16, 8) == r.generation && At(bytes, 24, 8) == r.writer.boot && At(bytes, 32, 8) == r.writer.ordinal
    requires At(bytes, 40, 8) == |r.payload| && At(bytes, 48, 8) == Checksum(r.payload)
    ensures HeaderFields(kind, r) == bytes[..56]
  {
    var b := AppendWord(Identification(kind), bytes, 8);
    b := AppendWord(b, bytes, 8);
    b := AppendWord(b, bytes, 8);
    b := AppendWord(b, bytes, 8);
    b := AppendWord(b, bytes, 8);
  }

  /** A record has exactly one encoding: whatever decodes is it. */
  lemma {:induction false} RecordIsCanonical(bytes: seq<byte>, kind: RecordKind)
    requires DecodeRecord(bytes, kind).Ok?
    ensures bytes == Encoded(kind, DecodeRecord(bytes, kind).value)
    ensures |DecodeRecord(bytes, kind).value.payload| <= MAX_PAYLOAD_BYTES
  {
    var r := DecodeRecord(bytes, kind).value;
    IdentificationIsWhatWasRead(bytes, kind);
    FieldsAreWhatWasRead(bytes, kind, r);
    SealIsWhatWasRead(bytes, kind, r);
    assert bytes == bytes[..64] + bytes[64..];
  }

  lemma {:induction false} SealIsWhatWasRead(bytes: seq<byte>, kind: RecordKind, r: Record)
    requires |bytes| >= HEADER_SIZE && HeaderFields(kind, r) == bytes[..56]
    requires At(bytes, 56, 8) == Checksum(Masked(bytes[..56]))
    ensures Header(kind, r) == bytes[..64]
  {
    var b := AppendWord(HeaderFields(kind, r), bytes, 8);
  }
}
