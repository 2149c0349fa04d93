// Transport frames: a fixed 80-byte header whose checksum covers its first 64
// bytes and then the payload.

module Frame {
  import opened Core
  import opened Bytes
  import opened Digest

  const FRAME_MAGIC: nat := 0x4B4C4746
  const PROTOCOL_VERSION: nat := 1
  const FRAME_HEADER_SIZE: nat := 80
  const COVERED: nat := 64

  const FLAG_REQUEST_SHUTDOWN: nat := 1
  const FLAG_UNSUPPORTED_ENCODING: nat := 2

  datatype FrameHeader = FrameHeader(
    kind: u16, flags: u16, payloadLength: u32, session: u64, epoch: u64,
    publisher: u64, publisherBoot: u64, publisherOrdinal: u64, sequence: u64, checksum: u64)

  predicate KnownKind(kind: nat) {
    1 <= kind <= 6
  }

  // --- Encoding -------------------------------------------------------------------

  function Preamble(h: FrameHeader): (b: seq<byte>)
    ensures |b| == 16
  {
    Le(FRAME_MAGIC, 4) + Le(PROTOCOL_VERSION, 2) + Le(h.kind, 2) + Le(h.flags, 2) + Le(0, 2) + Le(h.payloadLength, 4)
  }

  /** The header bytes the checksum covers. */
  function Covered(h: FrameHeader): (b: seq<byte>)
    ensures |b| == COVERED
  {
    Preamble(h) + Le(h.session, 8) + Le(h.epoch, 8) + Le(h.publisher, 8)
      + Le(h.publisherBoot, 8) + Le(h.publisherOrdinal, 8) + Le(h.sequence, 8)
  }

  function FrameChecksum(h: FrameHeader, payload: seq<byte>): u64 {
    DigestOf(Checksum(Covered(h)), payload)
  }

  function Encoded(h: FrameHeader, payload: seq<byte>): seq<byte>
    requires |payload| < U32_END
  {
    var effective := h.(payloadLength := |payload|);
    Covered(effective) + Le(FrameChecksum(effective, payload), 8) + Le(0, 8) + payload
  }

  method StorePreamble(frame: array<byte>, h: FrameHeader)
    requires frame.Length >= FRAME_HEADER_SIZE && frame[10] == frame[11] == 0
    modifies frame
    ensures frame[..16] == Preamble(h)
    ensures forall k :: 16 <= k < frame.Length ==> frame[k] == old(frame[k])
  {
    StoreLe(frame, 0, FRAME_MAGIC, 4);
    assert frame[..4] == Le(FRAME_MAGIC, 4);
    StoreLe(frame, 4, PROTOCOL_VERSION, 2);
    StoreLe(frame, 6, h.kind, 2);
    StoreLe(frame, 8, h.flags, 2);
    ZeroBytes(2);
    assert frame[..12] == frame[..10] + Le(0, 2);
    StoreLe(frame, 12, h.payloadLength, 4);
  }

  method StoreHeader(frame: array<byte>, h: FrameHeader)
    requires frame.Length >= FRAME_HEADER_SIZE && frame[10] == frame[11] == 0
    modifies frame
    ensures frame[..COVERED] == Covered(h)
    ensures forall k :: COVERED <= k < frame.Length ==> frame[k] == old(frame[k])
  {
    StorePreamble(frame, h);
    StoreLe(frame, 16, h.session, 8);
    StoreLe(frame, 24, h.epoch, 8);
    StoreLe(frame, 32, h.publisher, 8);
    StoreLe(frame, 40, h.publisherBoot, 8);
    StoreLe(frame, 48, h.publisherOrdinal, 8);
    StoreLe(frame, 56, h.sequence, 8);
  }

  method CopyPayload(frame: array<byte>, payload: seq<byte>)
    requires frame.Length == FRAME_HEADER_SIZE + |payload|
    modifies frame
    ensures frame[..FRAME_HEADER_SIZE] == old(frame[..FRAME_HEADER_SIZE])
    ensures frame[FRAME_HEADER_SIZE..] == payload
  {
    for i := 0 to |payload|
      invariant frame[..FRAME_HEADER_SIZE] == old(frame[..FRAME_HEADER_SIZE])
      invariant frame[FRAME_HEADER_SIZE..FRAME_HEADER_SIZE + i] == payload[..i]
    {
      frame[FRAME_HEADER_SIZE + i] := payload[i];
    }
    assert payload[..|payload|] == payload;
  }

  method EncodeFrame(h: FrameHeader, payload: seq<byte>) returns (bytes: seq<byte>)
    requires |payload| < U32_END
    ensures bytes == Encoded(h, payload)
  {
    var frame := new byte[FRAME_HEADER_SIZE + |payload|](i => 0);
    var effective := h.(payloadLength := |payload|);
    FillFrame(frame, effective, payload);
    var hash := Fnv1a64(frame[..COVERED], OFFSET_BASIS);
    hash := Fnv1a64(payload, hash);
    SealFrame(frame, hash, Le(0, 8) + payload);
    bytes := frame[..];
    Reassociate(Covered(effective) + Le(hash, 8), Le(0, 8), payload);
  }

  /** Header fields, then the payload; the checksum stays zero for now. */
  method FillFrame(frame: array<byte>, h: FrameHeader, payload: seq<byte>)
    requires frame.Length == FRAME_HEADER_SIZE + |payload| && forall k :: 0 <= k < frame.Length ==> frame[k] == 0
    modifies frame
    ensures frame[..COVERED] == Covered(h) && frame[72..] == Le(0, 8) + payload
  {
    StoreHeader(frame, h);
    ZeroBytes(8);
    ghost var head := frame[..FRAME_HEADER_SIZE];
    assert head[..COVERED] == frame[..COVERED];
    assert head[72..] == Le(0, 8);
    CopyPayload(frame, payload);
    assert frame[..COVERED] == head[..COVERED];
    assert frame[72..] == head[72..] + frame[FRAME_HEADER_SIZE..] == Le(0, 8) + payload;
  }

  method SealFrame(frame: array<byte>, hash: u64, ghost tail: seq<byte>)
    requires frame.Length >= FRAME_HEADER_SIZE && frame[72..] == tail
    modifies frame
    ensures frame[..] == old(frame[..COVERED]) + Le(hash, 8) + tail
  {
    StoreLe(frame, COVERED, hash, 8);
    assert frame[..] == frame[..72] + frame[72..];
  }

  lemma {:induction false} Reassociate(a: seq<byte>, b: seq<byte>, c: seq<byte>)
    ensures a + (b + c) == a + b + c
  {
  }

  lemma {:induction false} ZeroBytes(n: nat)
    ensures forall i :: 0 <= i < n ==> Le(0, n)[i] == 0
  {
    if n > 0 {
      ZeroBytes(n - 1);
    }
  }

  // --- Decoding -------------------------------------------------------------------

  function DecodeHeader(data: seq<byte>, maxPayload: u32): Result<FrameHeader> {
    if |data| != FRAME_HEADER_SIZE then Err(FrameInvalid)
    else if At(data, 0, 4) != FRAME_MAGIC then Err(FrameInvalid)
    else if At(data, 4, 2) != PROTOCOL_VERSION then Err(UnsupportedFormat)
    else if !KnownKind(At(data, 6, 2)) then Err(FrameInvalid)
    else if At(data, 8, 2) >= 4 then Err(FrameInvalid)
    else if At(data, 8, 2) >= FLAG_UNSUPPORTED_ENCODING then Err(Unsupported)
    else if At(data, 10, 2) != 0 || At(data, 72, 8) != 0 then Err(FrameInvalid)
    else if At(data, 12, 4) > maxPayload then Err(FrameTooLarge)
    else Ok(HeaderAt(data))
  }

  function HeaderAt(data: seq<byte>): FrameHeader
    requires |data| == FRAME_HEADER_SIZE
  {
    WidthsInBytes();
    AtFits(data, 6, 2); AtFits(data, 8, 2); AtFits(data, 12, 4); AtFits(data, 16, 8); AtFits(data, 24, 8);
    AtFits(data, 32, 8); AtFits(data, 40, 8); AtFits(data, 48, 8); AtFits(data, 56, 8); AtFits(data, 64, 8);
    FrameHeader(At(data, 6, 2), At(data, 8, 2), At(data, 12, 4), At(data, 16, 8), At(data, 24, 8),
                At(data, 32, 8), At(data, 40, 8), At(data, 48, 8), At(data, 56, 8), At(data, 64, 8))
  }

  function VerifyPayload(h: FrameHeader, payload: seq<byte>): Status {
    if |payload| != h.payloadLength then Truncated
    else if FrameChecksum(h, payload) != h.checksum then ChecksumMismatch
    else Okay
  }

  /** A frame is accepted when its header decodes and its payload verifies. */
  predicate Accepted(frame: seq<byte>, maxPayload: u32) {
    && |frame| >= FRAME_HEADER_SIZE
    && DecodeHeader(frame[..FRAME_HEADER_SIZE], maxPayload).Ok?
    && VerifyPayload(DecodeHeader(frame[..FRAME_HEADER_SIZE], maxPayload).value, frame[FRAME_HEADER_SIZE..]) == Okay
  }

  predicate Legal(h: FrameHeader) {
    KnownKind(h.kind) && h.flags < FLAG_UNSUPPORTED_ENCODING
  }

  // --- Round trip ------------------------------------------------------------------

  lemma {:induction false} PreambleReads(h: FrameHeader, data: seq<byte>)
    requires Preamble(h) <= data
    ensures At(data, 0, 4) == FRAME_MAGIC && At(data, 4, 2) == PROTOCOL_VERSION && At(data, 6, 2) == h.kind
    ensures At(data, 8, 2) == h.flags && At(data, 10, 2) == 0 && At(data, 12, 4) == h.payloadLength
  {
    WidthsInBytes();
    var b1 := [] + Le(FRAME_MAGIC, 4);
    var b2 := b1 + Le(PROTOCOL_VERSION, 2);
    var b3 := b2 + Le(h.kind, 2);
    var b4 := b3 + Le(h.flags, 2);
    var b5 := b4 + Le(0, 2);
    assert b1 == Le(FRAME_MAGIC, 4);
    ReadBack(b5, h.payloadLength, 4, data);
    ReadBack(b4, 0, 2, data);
    ReadBack(b3, h.flags, 2, data);
    ReadBack(b2, h.kind, 2, data);
    ReadBack(b1, PROTOCOL_VERSION, 2, data);
    ReadBack([], FRAME_MAGIC, 4, data);
  }

  lemma {:induction false} CoveredReads(h: FrameHeader, data: seq<byte>)
    requires Covered(h) <= data
    ensures Preamble(h) <= data
    ensures At(data, 16, 8) == h.session && At(data, 24, 8) == h.epoch && At(data, 32, 8) == h.publisher
    ensures At(data, 40, 8) == h.publisherBoot && At(data, 48, 8) == h.publisherOrdinal && At(data, 56, 8) == h.sequence
  {
    WidthsInBytes();
    var b1 := Preamble(h) + Le(h.session, 8);
    var b2 := b1 + Le(h.epoch, 8);
    var b3 := b2 + Le(h.publisher, 8);
    var b4 := b3 + Le(h.publisherBoot, 8);
    var b5 := b4 + Le(h.publisherOrdinal, 8);
    ReadBack(b5, h.sequence, 8, data);
    ReadBack(b4, h.publisherOrdinal, 8, data);
    ReadBack(b3, h.publisherBoot, 8, data);
    ReadBack(b2, h.publisher, 8, data);
    ReadBack(b1, h.epoch, 8, data);
    ReadBack(Preamble(h), h.session, 8, data);
  }

  /** The header half of an encoded frame reads back as it was written. */
  lemma {:induction false} HeaderReads(h: FrameHeader, checksum: u64, data: seq<byte>)
    requires data == Covered(h) + Le(checksum, 8) + Le(0, 8)
    ensures |data| == FRAME_HEADER_SIZE && HeaderAt(data) == h.(checksum := checksum)
    ensures At(data, 0, 4) == FRAME_MAGIC && At(data, 4, 2) == PROTOCOL_VERSION
    ensures At(data, 10, 2) == 0 && At(data, 72, 8) == 0
  {
    WidthsInBytes();
    ReadBack(Covered(h) + Le(checksum, 8), 0, 8, data);
    ReadBack(Covered(h), checksum, 8, data);
    CoveredReads(h, data);
    PreambleReads(h, data);
  }

  /** A legal frame is accepted and its header and payload come back. */
  lemma {:induction false} FrameRoundTrip(h: FrameHeader, payload: seq<byte>, maxPayload: u32)
    requires Legal(h) && |payload| <= maxPayload
    ensures
      var frame := Encoded(h, payload);
      && |frame| == FRAME_HEADER_SIZE + |payload|
      && Accepted(frame, maxPayload) && frame[FRAME_HEADER_SIZE..] == payload
      && DecodeHeader(frame[..FRAME_HEADER_SIZE], maxPayload).value
         == h.(payloadLength := |payload|, checksum := FrameChecksum(h.(payloadLength := |payload|), payload))
  {
    var effective := h.(payloadLength := |payload|);
    var checksum := FrameChecksum(effective, payload);
    var head := Covered(effective) + Le(checksum, 8) + Le(0, 8);
    assert Encoded(h, payload)[..80] == head && Encoded(h, payload)[80..] == payload;
    LegalHeaderDecodes(effective, checksum, head, maxPayload);
    assert Covered(effective.(checksum := checksum)) == Covered(effective);
  }

  lemma {:induction false} LegalHeaderDecodes(h: FrameHeader, checksum: u64, head: seq<byte>, maxPayload: u32)
    requires Legal(h) && h.payloadLength <= maxPayload && head == Covered(h) + Le(checksum, 8) + Le(0, 8)
    ensures DecodeHeader(head, maxPayload) == Ok(h.(checksum := checksum))
  {
    HeaderReads(h, checksum, head);
    var read := HeaderAt(head);
    assert read.kind == At(head, 6, 2) && read.flags == At(head, 8, 2) && read.payloadLength == At(head, 12, 4);
  }

  // --- Corruption --------------------------------------------------------------------

  /** An accepted frame's checksum field is the digest of the bytes it covers. */
  lemma {:induction false} AcceptedMeansDigest(frame: seq<byte>, maxPayload: u32)
    requires Accepted(frame, maxPayload)
    ensures At(frame, 64, 8) == DigestOf(Checksum(frame[..64]), frame[80..])
    ensures At(frame, 12, 4) == |frame| - 80 && At(frame, 72, 8) == 0
  {
    var data := frame[..80];
    CoveredIsWhatWasRead(data, maxPayload);
    assert data[..64] == frame[..64];
    assert data[64..72] == frame[64..72] && data[12..16] == frame[12..16] && data[72..80] == frame[72..80];
  }

  /** Rebuilding the covered bytes from the decoded fields gives the bytes read. */
  lemma {:induction false} CoveredIsWhatWasRead(data: seq<byte>, maxPayload: u32)
    requires DecodeHeader(data, maxPayload).Ok?
    ensures Covered(HeaderAt(data)) == data[..64]
  {
    var h := HeaderAt(data);
    PreambleIsWhatWasRead(data, h);
    var b := AppendWord(Preamble(h), data, 8);
    b := AppendWord(b, data, 8);
    b := AppendWord(b, data, 8);
    b := AppendWord(b, data, 8);
    b := AppendWord(b, data, 8);
    b := AppendWord(b, data, 8);
  }

  lemma {:induction false} PreambleIsWhatWasRead(data: seq<byte>, h: FrameHeader)
    requires |data| >= 16 && At(data, 0, 4) == FRAME_MAGIC && At(data, 4, 2) == PROTOCOL_VERSION
    requires At(data, 6, 2) == h.kind && At(data, 8, 2) == h.flags && At(data, 10, 2) == 0 && At(data, 12, 4) == h.payloadLength
    ensures Preamble(h) == data[..16]
  {
    var b := AppendWord([], data, 4);
    assert b == Le(FRAME_MAGIC, 4);
    b := AppendWord(b, data, 2);
    b := AppendWord(b, data, 2);
    b := AppendWord(b, data, 2);
    b := AppendWord(b, data, 2);
    b := AppendWord(b, data, 4);
  }

  /** The relation between an accepted frame's fields and its contents. */
  ghost predicate Sealed(frame: seq<byte>)
    requires |frame| >= FRAME_HEADER_SIZE
  {
    At(frame, 64, 8) == DigestOf(Checksum(frame[..64]), frame[80..]) && At(frame, 72, 8) == 0
  }

  lemma {:induction false} CorruptedHeaderUnseals(frame: seq<byte>, i: nat, b: byte)
    requires |frame| >= FRAME_HEADER_SIZE && Sealed(frame) && i < 64 && b != frame[i]
    ensures !Sealed(frame[i := b])
  {
    var bad := frame[i := b];
    assert bad[..64] == frame[..64][i := b] && bad[80..] == frame[80..] && bad[64..72] == frame[64..72];
    SingleByteChangesDigest(OFFSET_BASIS, frame[..64], i, b);
    if Sealed(bad) {
      DigestInjectiveInSeed(Checksum(frame[..64]), Checksum(bad[..64]), frame[80..]);
    }
  }

  lemma {:induction false} CorruptedTailUnseals(frame: seq<byte>, i: nat, b: byte)
    requires |frame| >= FRAME_HEADER_SIZE && Sealed(frame) && 64 <= i < 80 && b != frame[i]
    ensures !Sealed(frame[i := b])
  {
    var bad := frame[i := b];
    assert bad[..64] == frame[..64] && bad[80..] == frame[80..];
    var offset := if i < 72 then 64 else 72;
    LeOfFromLe(frame[offset..offset + 8]);
    LeOfFromLe(bad[offset..offset + 8]);
    assert frame[offset..offset + 8][i - offset] != bad[offset..offset + 8][i - offset];
  }

  lemma {:induction false} CorruptedPayloadUnseals(frame: seq<byte>, i: nat, b: byte)
    requires 80 <= i < |frame| && Sealed(frame) && b != frame[i]
    ensures !Sealed(frame[i := b])
  {
    var bad := frame[i := b];
    assert bad[..64] == frame[..64] && bad[80..] == frame[80..][i - 80 := b] && bad[64..72] == frame[64..72];
    SingleByteChangesDigest(Checksum(frame[..64]), frame[80..], i - 80, b);
  }

  /** Changing any single byte of an accepted frame gets it rejected. */
  lemma {:induction false} CorruptedByteRejected(frame: seq<byte>, maxPayload: u32, i: nat, b: byte)
    requires Accepted(frame, maxPayload) && i < |frame| && b != frame[i]
    ensures !Accepted(frame[i := b], maxPayload)
  {
    AcceptedMeansDigest(frame, maxPayload);
    if i < 64 {
      CorruptedHeaderUnseals(frame, i, b);
    } else if i < 80 {
      CorruptedTailUnseals(frame, i, b);
    } else {
      CorruptedPayloadUnseals(frame, i, b);
    }
    if Accepted(frame[i := b], maxPayload) {
      AcceptedMeansDigest(frame[i := b], maxPayload);
    }
  }
}
