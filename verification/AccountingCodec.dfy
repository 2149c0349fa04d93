// The durable accounting payload.

module AccountingCodec {
  import opened Core
  import opened Bytes
  import opened Record
  import opened Accounting
  import opened Rows

  const MAX_ENCODED_RECORDS: nat := 65536
  const ACCOUNTING_HEADER := [WordOf(8), WordOf(8), WordOf(8), WordOf(8), WordOf(8), WordOf(8), WordOf(8), WordOf(8), WordOf(4)]
  const ENTRY_SHAPE := [WordOf(8), WordOf(8), WordOf(8), WordOf(8), WordOf(8), WordOf(8), WordOf(4), WordOf(4),
                        WordOf(8), WordOf(8), WordOf(8), WordOf(8)]

  // --- Encoding ----------------------------------------------------------------------------

  function HeaderRow(a: FairnessAccounting): seq<Value> {
    [Word(a.policyId, 8), Word(a.policyGeneration, 8), Word(a.epoch, 8), Word(a.generation, 8), Word(a.interventionGeneration, 8),
     Word(a.lastWindow, 8), Word(a.lastWindowGeneration, 8), Word(a.writerBoot, 8), Word(|a.subjects|, 4)]
  }

  function EntryRow(e: SubjectAccounting): seq<Value> {
    [Word(e.id, 8), Word(e.generation, 8), Word(e.carry.deficit, 8), Word(e.carry.surplus, 8),
     Word(e.carry.discardedDeficit, 8), Word(e.carry.discardedSurplus, 8), Word(e.unservedStreak, 4), Word(e.belowFloorStreak, 4),
     Word(e.windowsObserved, 8), Word(e.totalServed, 8), Word(e.lastCorrectionWindow, 8), Word(e.lastCorrectionGeneration, 8)]
  }

  function EntryRows(entries: seq<SubjectAccounting>): (rows: seq<seq<Value>>)
    ensures |rows| == |entries|
  {
    seq(|entries|, i requires 0 <= i < |entries| => EntryRow(entries[i]))
  }

  function EncodedHeader(a: FairnessAccounting): seq<byte> {
    PutRow(PutRow([], [Word(FORMAT_VERSION, 2)]), HeaderRow(a))
  }

  function EncodedAccounting(a: FairnessAccounting): seq<byte> {
    PutRows(EncodedHeader(a), EntryRows(a.subjects))
  }

  method EncodeAccounting(a: FairnessAccounting) returns (bytes: seq<byte>)
    ensures bytes == EncodedAccounting(a)
  {
    var writer := new ByteWriter();
    WriteRow(writer, [Word(FORMAT_VERSION, 2)]);
    WriteRow(writer, HeaderRow(a));
    for i := 0 to |a.subjects|
      invariant writer.buffer == PutRows(EncodedHeader(a), EntryRows(a.subjects)[..i])
    {
      assert EntryRows(a.subjects)[..i + 1][..i] == EntryRows(a.subjects)[..i];
      WriteRow(writer, EntryRow(a.subjects[i]));
    }
    assert EntryRows(a.subjects)[..|a.subjects|] == EntryRows(a.subjects);
    bytes := writer.buffer;
  }

  // --- Decoding ----------------------------------------------------------------------------

  function EntryOf(row: seq<Value>): SubjectAccounting {
    SubjectAccounting(U64At(row, 0), U64At(row, 1), Carry(U64At(row, 2), U64At(row, 3), U64At(row, 4), U64At(row, 5)),
      U32At(row, 6), U32At(row, 7), U64At(row, 8), U64At(row, 9), U64At(row, 10), U64At(row, 11))
  }

  function AccountingOf(row: seq<Value>, entries: seq<SubjectAccounting>): FairnessAccounting {
    FairnessAccounting(U64At(row, 0), U64At(row, 1), U64At(row, 2), U64At(row, 3), U64At(row, 4), U64At(row, 5), U64At(row, 6),
      U64At(row, 7), entries)
  }

  function EntryStatus(e: SubjectAccounting): Status {
    if e.carry.deficit > MAX_CARRY_UNITS || e.carry.surplus > MAX_CARRY_UNITS then OutOfRange
    else if e.unservedStreak > MAX_STREAK || e.belowFloorStreak > MAX_STREAK then OutOfRange
    else Okay
  }

  predicate Mentions(entries: seq<SubjectAccounting>, id: u64) {
    exists i :: 0 <= i < |entries| && entries[i].id == id
  }

  /** The first count entries found at an offset, and the offset after them. */
  function DecodeEntries(data: seq<byte>, offset: nat, count: nat): (r: Result<(seq<SubjectAccounting>, nat)>)
    ensures r.Err? ==> r.status != Okay
    ensures r.Ok? ==> |r.value.0| == count
  {
    if count == 0 then Ok(([], offset))
    else
      match DecodeEntries(data, offset, count - 1)
      case Err(e) => Err(e)
      case Ok((front, middle)) =>
        match ReadRow(data, middle, ENTRY_SHAPE)
        case None => Err(Truncated)
        case Some((row, after)) =>
          var entry := EntryOf(row);
          if EntryStatus(entry) != Okay then Err(EntryStatus(entry))
          else if Mentions(front, entry.id) then Err(Duplicate)
          else Ok((front + [entry], after))
  }

  function DecodeBody(data: seq<byte>, offset: nat): (r: Result<FairnessAccounting>)
    ensures r.Err? ==> r.status != Okay
  {
    match ReadRow(data, offset, ACCOUNTING_HEADER)
    case None => Err(Truncated)
    case Some((header, after)) =>
      if NumberAt(header, 8) > MAX_ENCODED_RECORDS then Err(LimitExceeded)
      else
        match DecodeEntries(data, after, NumberAt(header, 8))
        case Err(e) => Err(e)
        case Ok((entries, end)) => if end != |data| then Err(CorruptRecord) else Ok(AccountingOf(header, entries))
  }

  function DecodedAccounting(data: seq<byte>): (r: Result<FairnessAccounting>)
    ensures r.Err? ==> r.status != Okay
  {
    if |data| > MAX_PAYLOAD_BYTES then Err(OversizedPayload)
    else
      match ReadRow(data, 0, [WordOf(2)])
      case None => Err(Truncated)
      case Some((version, after)) => if NumberAt(version, 0) != FORMAT_VERSION then Err(UnsupportedFormat) else DecodeBody(data, after)
  }

  /** Reads and checks one entry. */
  method NextEntry(reader: ByteReader, ghost offset: nat, ghost front: seq<SubjectAccounting>, seen: set<u64>)
    returns (r: Result<SubjectAccounting>)
    requires reader.Valid() && DecodeEntries(reader.data, offset, |front|) == Ok((front, reader.offset))
    requires forall id :: id in seen <==> Mentions(front, id)
    modifies reader
    ensures reader.Valid()
    ensures r.Err? ==> DecodeEntries(reader.data, offset, |front| + 1) == Err(r.status)
    ensures r.Ok? ==> DecodeEntries(reader.data, offset, |front| + 1) == Ok((front + [r.value], reader.offset))
  {
    var row := NextRow(reader, ENTRY_SHAPE);
    if row.None? {
      return Err(Truncated);
    }
    var entry := EntryOf(row.value);
    if EntryStatus(entry) != Okay {
      return Err(EntryStatus(entry));
    }
    r := if entry.id in seen then Err(Duplicate) else Ok(entry);
  }

  method NextEntries(reader: ByteReader, count: nat) returns (r: Result<seq<SubjectAccounting>>)
    requires reader.Valid()
    modifies reader
    ensures reader.Valid()
    ensures r.Err? ==> DecodeEntries(reader.data, old(reader.offset), count) == Err(r.status)
    ensures r.Ok? ==> DecodeEntries(reader.data, old(reader.offset), count) == Ok((r.value, reader.offset))
  {
    var entries := [];
    var seen: set<u64> := {};
    for i := 0 to count
      invariant reader.Valid() && |entries| == i
      invariant DecodeEntries(reader.data, old(reader.offset), i) == Ok((entries, reader.offset))
      invariant forall id :: id in seen <==> Mentions(entries, id)
    {
      var entry := NextEntry(reader, old(reader.offset), entries, seen);
      if entry.Err? {
        NoEntriesPast(reader.data, old(reader.offset), i + 1, count);
        return Err(entry.status);
      }
      MentionsOneMore(entries, entry.value);
      seen := seen + {entry.value.id};
      entries := entries + [entry.value];
    }
    r := Ok(entries);
  }

  lemma {:induction false} MentionsOneMore(entries: seq<SubjectAccounting>, e: SubjectAccounting)
    ensures forall id :: Mentions(entries + [e], id) <==> Mentions(entries, id) || id == e.id
  {
    forall id
      ensures Mentions(entries + [e], id) <==> Mentions(entries, id) || id == e.id
    {
      assert (entries + [e])[|entries|] == e;
      if Mentions(entries, id) {
        var i :| 0 <= i < |entries| && entries[i].id == id;
        assert (entries + [e])[i].id == id;
      }
    }
  }

  lemma {:induction false} NoEntriesPast(data: seq<byte>, offset: nat, i: nat, count: nat)
    requires i <= count && DecodeEntries(data, offset, i).Err?
    ensures DecodeEntries(data, offset, count) == DecodeEntries(data, offset, i)
    decreases count
  {
    if i < count {
      NoEntriesPast(data, offset, i, count - 1);
    }
  }

  method DecodeAccounting(data: seq<byte>) returns (r: Result<FairnessAccounting>)
    ensures r == DecodedAccounting(data)
  {
    if |data| > MAX_PAYLOAD_BYTES {
      return Err(OversizedPayload);
    }
    var reader := new ByteReader(data);
    var version := NextRow(reader, [WordOf(2)]);
    if version.None? {
      return Err(Truncated);
    }
    if NumberAt(version.value, 0) != FORMAT_VERSION {
      return Err(UnsupportedFormat);
    }
    var header := NextRow(reader, ACCOUNTING_HEADER);
    if header.None? {
      return Err(Truncated);
    }
    if NumberAt(header.value, 8) > MAX_ENCODED_RECORDS {
      return Err(LimitExceeded);
    }
    var entries := NextEntries(reader, NumberAt(header.value, 8));
    if entries.Err? {
      return Err(entries.status);
    }
    if !reader.Empty() {
      return Err(CorruptRecord);
    }
    r := Ok(AccountingOf(header.value, entries.value));
  }

  // --- Round trip ----------------------------------------------------------------------------

  ghost predicate DistinctEntries(entries: seq<SubjectAccounting>) {
    forall i, j :: 0 <= i < j < |entries| ==> entries[i].id != entries[j].id
  }

  ghost predicate StorableEntries(entries: seq<SubjectAccounting>) {
    DistinctEntries(entries) && forall i :: 0 <= i < |entries| ==> EntryStatus(entries[i]) == Okay
  }

  lemma {:induction false} EntryRowFits(e: SubjectAccounting)
    ensures RowFits(EntryRow(e), ENTRY_SHAPE) && EntryOf(EntryRow(e)) == e
  {
    WidthsInBytes();
  }

  lemma {:induction false} HeaderRowFits(a: FairnessAccounting)
    requires |a.subjects| < U32_END
    ensures RowFits(HeaderRow(a), ACCOUNTING_HEADER)
    ensures NumberAt(HeaderRow(a), 8) == |a.subjects| && AccountingOf(HeaderRow(a), a.subjects) == a
  {
    WidthsInBytes();
  }

  /** One more entry after those already decoded. */
  lemma {:induction false} EntryDecodes(data: seq<byte>, offset: nat, front: seq<SubjectAccounting>, middle: nat, e: SubjectAccounting, after: nat)
    requires DecodeEntries(data, offset, |front|) == Ok((front, middle))
    requires ReadRow(data, middle, ENTRY_SHAPE) == Some((EntryRow(e), after))
    requires EntryStatus(e) == Okay && !Mentions(front, e.id)
    ensures DecodeEntries(data, offset, |front| + 1) == Ok((front + [e], after))
  {
    EntryRowFits(e);
  }

  lemma {:induction false} LastEntryRow(front: seq<byte>, entries: seq<SubjectAccounting>)
    requires entries != []
    ensures
      var k := |entries| - 1;
      PutRows(front, EntryRows(entries)) == PutRow(PutRows(front, EntryRows(entries[..k])), EntryRow(entries[k]))
  {
    var k := |entries| - 1;
    assert EntryRows(entries)[..k] == EntryRows(entries[..k]);
  }

  lemma {:induction false} FrontStorable(entries: seq<SubjectAccounting>)
    requires entries != [] && StorableEntries(entries)
    ensures
      var k := |entries| - 1;
      StorableEntries(entries[..k]) && EntryStatus(entries[k]) == Okay && !Mentions(entries[..k], entries[k].id)
  {
  }

  lemma {:induction false} EntriesReadBack(front: seq<byte>, entries: seq<SubjectAccounting>, data: seq<byte>)
    requires StorableEntries(entries) && PutRows(front, EntryRows(entries)) <= data
    ensures DecodeEntries(data, |front|, |entries|) == Ok((entries, |PutRows(front, EntryRows(entries))|)) && front <= data
    decreases |entries|
  {
    if entries != [] {
      var (k, e) := (|entries| - 1, entries[|entries| - 1]);
      var before := PutRows(front, EntryRows(entries[..k]));
      LastEntryRow(front, entries);
      EntryRowFits(e);
      RowReadBack(before, EntryRow(e), ENTRY_SHAPE, data);
      FrontStorable(entries);
      EntriesReadBack(front, entries[..k], data);
      EntryDecodes(data, |front|, entries[..k], |before|, e, |PutRow(before, EntryRow(e))|);
      assert entries == entries[..k] + [e];
    }
  }

  lemma {:induction false} OneMoreStorable(front: seq<SubjectAccounting>, e: SubjectAccounting)
    requires StorableEntries(front) && EntryStatus(e) == Okay && !Mentions(front, e.id)
    ensures StorableEntries(front + [e])
  {
  }

  /** Only storable entries decode. */
  lemma {:induction false} DecodedEntriesStorable(data: seq<byte>, offset: nat, count: nat)
    requires DecodeEntries(data, offset, count).Ok?
    ensures StorableEntries(DecodeEntries(data, offset, count).value.0)
    decreases count
  {
    if count > 0 {
      DecodedEntriesStorable(data, offset, count - 1);
      var (front, middle) := DecodeEntries(data, offset, count - 1).value;
      OneMoreStorable(front, EntryOf(ReadRow(data, middle, ENTRY_SHAPE).value.0));
    }
  }

  lemma {:induction false} HeaderSize(a: FairnessAccounting)
    ensures RowSize(HeaderRow(a)) == 68
  {
    var row := HeaderRow(a);
    RowSizeConcat(row[..8], row[8..]);
    assert row == row[..8] + row[8..];
    UniformSize(row[..8], 8);
    UniformSize(row[8..], 4);
  }

  lemma {:induction false} EntrySize(e: SubjectAccounting)
    ensures RowSize(EntryRow(e)) == 88
  {
    var row := EntryRow(e);
    RowSizeConcat(row[..6] + row[6..8], row[8..]);
    RowSizeConcat(row[..6], row[6..8]);
    assert row == row[..6] + row[6..8] + row[8..];
    UniformSize(row[..6], 8);
    UniformSize(row[6..8], 4);
    UniformSize(row[8..], 8);
  }

  lemma {:induction false} EncodedSize(a: FairnessAccounting)
    ensures |EncodedAccounting(a)| == 70 + |a.subjects| * 88
  {
    RowLength([], [Word(FORMAT_VERSION, 2)]);
    OneValue(Word(FORMAT_VERSION, 2));
    RowLength(PutRow([], [Word(FORMAT_VERSION, 2)]), HeaderRow(a));
    HeaderSize(a);
    forall i | 0 <= i < |a.subjects|
      ensures RowSize(EntryRows(a.subjects)[i]) == 88
    {
      EntrySize(a.subjects[i]);
    }
    RowsLengthExactly(EncodedHeader(a), EntryRows(a.subjects), 88);
  }

  /** Decoding recovers the accounting exactly when its entries are storable and
      the payload is within the durable bound. */
  lemma {:induction false} AccountingRoundTrip(a: FairnessAccounting)
    ensures DecodedAccounting(EncodedAccounting(a)) == Ok(a) <==>
      StorableEntries(a.subjects) && |EncodedAccounting(a)| <= MAX_PAYLOAD_BYTES
  {
    if StorableEntries(a.subjects) && |EncodedAccounting(a)| <= MAX_PAYLOAD_BYTES {
      StorableDecodes(a);
    }
    if DecodedAccounting(EncodedAccounting(a)) == Ok(a) {
      DecodedIsStorable(EncodedAccounting(a));
    }
  }

  lemma {:induction false} DecodedIsStorable(data: seq<byte>)
    requires DecodedAccounting(data).Ok?
    ensures StorableEntries(DecodedAccounting(data).value.subjects) && |data| <= MAX_PAYLOAD_BYTES
  {
    var after := ReadRow(data, 0, [WordOf(2)]).value.1;
    var (header, next) := ReadRow(data, after, ACCOUNTING_HEADER).value;
    DecodedEntriesStorable(data, next, NumberAt(header, 8));
  }

  lemma {:induction false} StorableDecodes(a: FairnessAccounting)
    requires StorableEntries(a.subjects) && |EncodedAccounting(a)| <= MAX_PAYLOAD_BYTES
    ensures DecodedAccounting(EncodedAccounting(a)) == Ok(a)
  {
    EncodedSize(a);
    EntriesReadBack(EncodedHeader(a), a.subjects, EncodedAccounting(a));
    HeaderReadsBack(a, EncodedAccounting(a));
  }

  lemma {:induction false} HeaderReadsBack(a: FairnessAccounting, data: seq<byte>)
    requires |a.subjects| < U32_END && EncodedHeader(a) <= data
    ensures
      var version := PutRow([], [Word(FORMAT_VERSION, 2)]);
      && ReadRow(data, 0, [WordOf(2)]) == Some(([Word(FORMAT_VERSION, 2)], |version|))
      && ReadRow(data, |version|, ACCOUNTING_HEADER) == Some((HeaderRow(a), |EncodedHeader(a)|))
    ensures NumberAt(HeaderRow(a), 8) == |a.subjects| && AccountingOf(HeaderRow(a), a.subjects) == a
  {
    HeaderRowFits(a);
    WidthsInBytes();
    RowReadBack(PutRow([], [Word(FORMAT_VERSION, 2)]), HeaderRow(a), ACCOUNTING_HEADER, data);
    RowReadBack([], [Word(FORMAT_VERSION, 2)], [WordOf(2)], data);
  }
}
