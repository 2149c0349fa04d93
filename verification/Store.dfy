// The crash-safe record store: write .tmp, write .jnl, keep .prev, replace the
// record, drop the companions; and the recovery that runs before anything is
// loaded. Each step may be the process's last.

module Store {
  import opened Core
  import opened Bytes
  import opened Digest
  import opened Record
  import opened Disk

  datatype Loaded = Absent | Unusable(status: Status) | Present(record: Record)

  /** What a load reports for a kind. */
  function LoadFrom(files: Files, kind: RecordKind): Loaded {
    if Path(kind, Main) !in files then Absent
    else
      match DecodeRecord(files[Path(kind, Main)], kind)
      case Err(e) => Unusable(e)
      case Ok(r) => Present(r)
  }

  datatype Standing = Nothing | Kept(record: Record) | Ruined

  /** What recovery will find standing: the record file, or, where a replace was
      torn, the backup that the journal vouches for. */
  ghost function StandingOf(files: Files, kind: RecordKind): Standing {
    match LoadFrom(files, kind)
    case Absent => Nothing
    case Present(r) => Kept(r)
    case Unusable(_) =>
      if Path(kind, Journal) in files && Path(kind, Backup) in files
        && DecodeRecord(files[Path(kind, Backup)], kind).Ok?
      then Kept(DecodeRecord(files[Path(kind, Backup)], kind).value)
      else Ruined
  }

  /** No usable record file, and no journalled backup to put in its place: this
      kind will never load again. */
  ghost predicate Sunk(files: Files, kind: RecordKind) {
    LoadFrom(files, kind).Unusable? && !(Path(kind, Journal) in files && Path(kind, Backup) in files)
  }

  /** A backup is only ever taken of a record file. */
  ghost predicate Tidy(files: Files, kind: RecordKind) {
    Path(kind, Backup) in files ==> Path(kind, Main) in files
  }

  /** No companion file is left. */
  ghost predicate Clean(files: Files, kind: RecordKind) {
    Path(kind, Temp) !in files && Path(kind, Journal) !in files && Path(kind, Backup) !in files
  }

  ghost predicate OtherKindsKept(before: Files, after: Files, kind: RecordKind) {
    forall p: Path :: p.kind != kind ==> (p in after <==> p in before) && (p in before ==> after[p] == before[p])
  }

  lemma {:induction false} OtherKindStands(before: Files, after: Files, kind: RecordKind, other: RecordKind)
    requires OtherKindsKept(before, after, kind) && other != kind
    ensures LoadFrom(after, other) == LoadFrom(before, other)
    ensures StandingOf(after, other) == StandingOf(before, other)
    ensures Tidy(before, other) ==> Tidy(after, other)
    ensures Sunk(before, other) ==> Sunk(after, other)
  {
  }

  /** Nothing done beside a sound (or absent) record file changes what stands. */
  lemma {:induction false} CompanionsDoNotMatter(before: Files, after: Files, kind: RecordKind, role: Role)
    requires SameElsewhere(before, after, Path(kind, role)) && role != Main
    ensures OtherKindsKept(before, after, kind) && LoadFrom(after, kind) == LoadFrom(before, kind)
    ensures !LoadFrom(before, kind).Unusable? ==> StandingOf(after, kind) == StandingOf(before, kind)
    ensures Tidy(before, kind) && (role != Backup || Path(kind, Main) in before) ==> Tidy(after, kind)
  {
  }

  lemma {:induction false} PartialWriteStaysBeside(before: Files, after: Files, path: Path, data: seq<byte>)
    requires PartlyWritten(before, after, path, data)
    ensures SameElsewhere(before, after, path)
  {
  }

  /** Renaming a sound encoded record over the record file installs it. */
  lemma {:induction false} RenameInstalls(before: Files, kind: RecordKind, source: Role, r: Record)
    requires source == Temp || source == Backup
    requires Path(kind, source) in before && DecodeRecord(before[Path(kind, source)], kind) == Ok(r)
    ensures
      var after := Renamed(before, Path(kind, source), Path(kind, Main));
      LoadFrom(after, kind) == Present(r) && OtherKindsKept(before, after, kind) && Tidy(after, kind)
  {
  }

  /** A torn replace leaves no usable record file; what then stands is what the
      journalled backup holds. */
  lemma {:induction false} TornReplace(before: Files, after: Files, kind: RecordKind, source: Role, r: Record)
    requires source == Temp || source == Backup
    requires Path(kind, source) in before && DecodeRecord(before[Path(kind, source)], kind) == Ok(r)
    requires TornRename(before, after, Path(kind, source), Path(kind, Main)) && Path(kind, Journal) in before
    ensures LoadFrom(after, kind).Unusable? && OtherKindsKept(before, after, kind) && Tidy(after, kind)
    ensures StandingOf(after, kind) ==
      if Path(kind, Backup) in before && DecodeRecord(before[Path(kind, Backup)], kind).Ok?
      then Kept(DecodeRecord(before[Path(kind, Backup)], kind).value) else Ruined
  {
    var k :| 0 <= k < |before[Path(kind, source)]| && after == before[Path(kind, Main) := before[Path(kind, source)][..k]];
    TornBytesRejected(before[Path(kind, source)], kind, k);
    assert after[Path(kind, Main)] == before[Path(kind, source)][..k];
  }

  lemma {:induction false} TornBytesRejected(bytes: seq<byte>, kind: RecordKind, k: nat)
    requires DecodeRecord(bytes, kind).Ok? && k < |bytes|
    ensures DecodeRecord(bytes[..k], kind).Err?
  {
    RecordIsCanonical(bytes, kind);
    TornRecordRejected(kind, DecodeRecord(bytes, kind).value, k);
  }

  datatype Exit = Returned(status: Status) | Died

  datatype Notes = Notes(journalCleared: bool, backupRecovered: bool, attemptDiscarded: bool, corruption: bool, tempDiscarded: bool)

  /** Why a commit is refused before anything is written, if it is. */
  function Refusal(current: Loaded, expected: u64, next: u64, payload: seq<byte>, writer: Incarnation): Status {
    if |payload| > MAX_PAYLOAD_BYTES then OversizedPayload
    else if !writer.Live() then InvalidArgument
    else if next <= expected then CommitRejected
    else if current.Unusable? then CommitRejected
    else if current.Present? && current.record.generation != expected then CommitRejected
    else if current.Absent? && expected != 0 then CommitRejected
    else Okay
  }

  /** A commit goes ahead exactly for a payload within the bound, a live writer, a
      generation past the expected one, and a record, or none, of just the expected
      generation; else it is told what failed first. */
  lemma {:induction false} RefusalTells(current: Loaded, expected: u64, next: u64, payload: seq<byte>, writer: Incarnation)
    ensures
      var (why, fits) := (Refusal(current, expected, next, payload, writer), |payload| <= 0x40_0000);
      var matches := (current.Absent? && expected == 0) || (current.Present? && current.record.generation == expected);
      && (why == Okay <==> fits && writer.Live() && expected < next && matches)
      && (why == OversizedPayload <==> !fits) && (why == InvalidArgument <==> fits && !writer.Live())
      && (why == CommitRejected <==> fits && writer.Live() && !(expected < next && matches))
  {
  }

  /** What a crash inside a commit leaves standing: the old state or the new
      record. Only where renames tear can the record file itself be lost; that
      costs nothing unless there was no record to keep a backup of. */
  ghost predicate CrashLeaves(before: Files, after: Files, kind: RecordKind, r: Record, atomicRename: bool) {
    && (|| StandingOf(after, kind) == StandingOf(before, kind)
        || StandingOf(after, kind) == Kept(r)
        || (!atomicRename && LoadFrom(before, kind).Absent? && Sunk(after, kind)))
    && (atomicRename && !LoadFrom(before, kind).Unusable? ==> !LoadFrom(after, kind).Unusable?)
  }

  /** Nothing but companions named here has gone, and nothing has come. */
  ghost predicate OnlyDropped(before: Files, after: Files, kind: RecordKind, roles: seq<Role>) {
    && (forall p: Path :: p in after ==> p in before && after[p] == before[p])
    && (forall p: Path :: p in before && !(p.kind == kind && p.role in roles) ==> p in after)
  }

  lemma {:induction false} DroppedBeside(before: Files, after: Files, kind: RecordKind, roles: seq<Role>)
    requires OnlyDropped(before, after, kind, roles) && Main !in roles
    ensures LoadFrom(after, kind) == LoadFrom(before, kind) && OtherKindsKept(before, after, kind)
    ensures Tidy(before, kind) ==> Tidy(after, kind)
    ensures Sunk(before, kind) ==> Sunk(after, kind)
  {
  }

  function JournalBytes(next: u64, payload: seq<byte>, writer: Incarnation): seq<byte> {
    Le(next, 8) + Le(Checksum(payload), 8) + Le(writer.boot, 8) + Le(writer.ordinal, 8)
  }

  class DurableStore {
    const disk: Volume

    constructor (disk: Volume)
      ensures this.disk == disk
    {
      this.disk := disk;
    }

    method Load(kind: RecordKind) returns (r: Loaded)
      ensures r == LoadFrom(disk.files, kind)
    {
      r := LoadFrom(disk.files, kind);
    }

    /** Drops a companion file; whether that worked is not looked at. */
    method Drop(kind: RecordKind, role: Role) returns (alive: bool)
      modifies disk
      ensures OnlyDropped(old(disk.files), disk.files, kind, [role])
      ensures disk.faults >= old(disk.faults) && (disk.faults == old(disk.faults) ==> alive && Path(kind, role) !in disk.files)
    {
      var outcome := disk.Remove(Path(kind, role));
      alive := outcome != Crashed;
    }

    /** Writes a companion file. */
    method Put(kind: RecordKind, role: Role, data: seq<byte>) returns (outcome: Outcome)
      requires role != Main
      modifies disk
      ensures SameElsewhere(old(disk.files), disk.files, Path(kind, role))
      ensures outcome == Done ==> disk.files == old(disk.files)[Path(kind, role) := data]
      ensures disk.faults >= old(disk.faults) && (disk.faults == old(disk.faults) ==> outcome == Done)
    {
      outcome := disk.Write(Path(kind, role), data);
      if outcome != Done {
        PartialWriteStaysBeside(old(disk.files), disk.files, Path(kind, role), data);
      }
    }

    /** Drops several companions in turn. */
    method DropAll(kind: RecordKind, roles: seq<Role>) returns (alive: bool)
      modifies disk
      ensures OnlyDropped(old(disk.files), disk.files, kind, roles)
      ensures disk.faults >= old(disk.faults) && (disk.faults == old(disk.faults) ==>
        alive && forall role :: role in roles ==> Path(kind, role) !in disk.files)
    {
      alive := true;
      for i := 0 to |roles|
        invariant OnlyDropped(old(disk.files), disk.files, kind, roles)
        invariant disk.faults >= old(disk.faults)
        invariant disk.faults == old(disk.faults) ==> alive && forall role :: role in roles[..i] ==> Path(kind, role) !in disk.files
      {
        alive := Drop(kind, roles[i]);
        if !alive {
          return;
        }
      }
    }

    /** Replaces the record of a kind. Returning Okay means the new record is
        durable; any other return, that nothing durable changed; and a crash
        leaves one of the two standing. */
    method Commit(kind: RecordKind, expected: u64, next: u64, payload: seq<byte>, writer: Incarnation)
      returns (exit: Exit)
      requires Tidy(disk.files, kind)
      modifies disk
      ensures Tidy(disk.files, kind) && OtherKindsKept(old(disk.files), disk.files, kind)
      ensures Refusal(LoadFrom(old(disk.files), kind), expected, next, payload, writer) != Okay ==>
        disk.files == old(disk.files) && exit == Returned(Refusal(LoadFrom(old(disk.files), kind), expected, next, payload, writer))
      ensures exit == Returned(Okay) ==> LoadFrom(disk.files, kind) == Present(Record(next, writer, payload))
      ensures exit.Returned? && exit.status != Okay ==> LoadFrom(disk.files, kind) == LoadFrom(old(disk.files), kind)
      ensures exit.Returned? && exit.status != Okay && Refusal(LoadFrom(old(disk.files), kind), expected, next, payload, writer) == Okay ==>
        exit.status == IoError
      ensures exit.Died? ==> CrashLeaves(old(disk.files), disk.files, kind, Record(next, writer, payload), disk.atomicRename)
      ensures disk.faults >= old(disk.faults)
      ensures disk.faults == old(disk.faults) && Refusal(LoadFrom(old(disk.files), kind), expected, next, payload, writer) == Okay ==>
        exit == Returned(Okay) && Clean(disk.files, kind)
    {
      var current := Load(kind);
      var refusal := Refusal(current, expected, next, payload, writer);
      if refusal != Okay {
        return Returned(refusal);
      }
      var r := Record(next, writer, payload);
      var encoded := EncodeRecord(kind, r);
      var journal := JournalBytes(next, payload, writer);
      var ready;
      ready, exit := Prepare(kind, encoded, journal);
      if ready {
        exit := Replace(kind, r);
      }
    }

    /** Everything before the replace: temporary, journal, and a copy of the
        record about to be replaced. Nothing durable changes yet. */
    method Prepare(kind: RecordKind, encoded: seq<byte>, journal: seq<byte>) returns (ready: bool, exit: Exit)
      requires Tidy(disk.files, kind) && !LoadFrom(disk.files, kind).Unusable?
      modifies disk
      ensures Tidy(disk.files, kind) && OtherKindsKept(old(disk.files), disk.files, kind)
      ensures LoadFrom(disk.files, kind) == LoadFrom(old(disk.files), kind)
      ensures ready ==>
        && Path(kind, Temp) in disk.files && disk.files[Path(kind, Temp)] == encoded
        && Path(kind, Journal) in disk.files
        && (LoadFrom(disk.files, kind).Present? ==>
            Path(kind, Backup) in disk.files && disk.files[Path(kind, Backup)] == disk.files[Path(kind, Main)])
      ensures !ready ==> exit in {Died, Returned(IoError)}
      ensures disk.faults >= old(disk.faults) && (disk.faults == old(disk.faults) ==> ready)
    {
      ready, exit := false, Died;
      ghost var files0 := disk.files;
      var outcome := Put(kind, Temp, encoded);
      CompanionsDoNotMatter(files0, disk.files, kind, Temp);
      if outcome != Done {
        exit := Abandon(kind, [Temp], outcome);
        return;
      }
      ghost var files1 := disk.files;
      outcome := Put(kind, Journal, journal);
      CompanionsDoNotMatter(files1, disk.files, kind, Journal);
      if outcome != Done {
        exit := Abandon(kind, [Temp], outcome);
        return;
      }
      var current := Load(kind);
      if current.Present? {
        outcome := Snapshot(kind);
        if outcome != Done {
          exit := Abandon(kind, [Journal, Temp], outcome);
          return;
        }
      }
      ready := true;
    }

    /** After a step that did not complete: nothing more if the process died,
        otherwise drop what the attempt wrote and report the failure. */
    method Abandon(kind: RecordKind, roles: seq<Role>, outcome: Outcome) returns (exit: Exit)
      requires Main !in roles && Tidy(disk.files, kind) && outcome != Done
      modifies disk
      ensures exit in {Died, Returned(IoError)}
      ensures LoadFrom(disk.files, kind) == LoadFrom(old(disk.files), kind)
      ensures Tidy(disk.files, kind) && OtherKindsKept(old(disk.files), disk.files, kind)
      ensures disk.faults >= old(disk.faults)
    {
      if outcome == Crashed {
        return Died;
      }
      exit := GiveUp(kind, roles, IoError);
    }

    /** Drops an attempt's files and reports how it went. */
    method GiveUp(kind: RecordKind, roles: seq<Role>, status: Status) returns (exit: Exit)
      requires Main !in roles && Tidy(disk.files, kind)
      modifies disk
      ensures exit.Died? || exit == Returned(status)
      ensures OnlyDropped(old(disk.files), disk.files, kind, roles)
      ensures LoadFrom(disk.files, kind) == LoadFrom(old(disk.files), kind)
      ensures Tidy(disk.files, kind) && OtherKindsKept(old(disk.files), disk.files, kind)
      ensures disk.faults >= old(disk.faults) && (disk.faults == old(disk.faults) ==>
        exit == Returned(status) && forall role :: role in roles ==> Path(kind, role) !in disk.files)
    {
      var alive := DropAll(kind, roles);
      DroppedBeside(old(disk.files), disk.files, kind, roles);
      exit := if alive then Returned(status) else Died;
    }

    /** Copies the record file aside before it is replaced. */
    method Snapshot(kind: RecordKind) returns (outcome: Outcome)
      requires LoadFrom(disk.files, kind).Present? && Tidy(disk.files, kind)
      modifies disk
      ensures Tidy(disk.files, kind) && OtherKindsKept(old(disk.files), disk.files, kind)
      ensures SameElsewhere(old(disk.files), disk.files, Path(kind, Backup))
      ensures LoadFrom(disk.files, kind) == LoadFrom(old(disk.files), kind)
      ensures outcome == Done ==> Path(kind, Backup) in disk.files && disk.files[Path(kind, Backup)] == disk.files[Path(kind, Main)]
      ensures disk.faults >= old(disk.faults) && (disk.faults == old(disk.faults) ==> outcome == Done)
    {
      outcome := disk.Copy(Path(kind, Main), Path(kind, Backup));
      if outcome != Done {
        PartialWriteStaysBeside(old(disk.files), disk.files, Path(kind, Backup), old(disk.files)[Path(kind, Main)]);
      }
      CompanionsDoNotMatter(old(disk.files), disk.files, kind, Backup);
    }

    /** The replace itself, and what follows it. */
    method Replace(kind: RecordKind, r: Record) returns (exit: Exit)
      requires Tidy(disk.files, kind) && !LoadFrom(disk.files, kind).Unusable?
      requires |r.payload| <= MAX_PAYLOAD_BYTES
      requires Path(kind, Temp) in disk.files && disk.files[Path(kind, Temp)] == Encoded(kind, r)
      requires Path(kind, Journal) in disk.files
      requires LoadFrom(disk.files, kind).Present? ==>
        Path(kind, Backup) in disk.files && disk.files[Path(kind, Backup)] == disk.files[Path(kind, Main)]
      modifies disk
      ensures Tidy(disk.files, kind) && OtherKindsKept(old(disk.files), disk.files, kind)
      ensures exit == Returned(Okay) ==> LoadFrom(disk.files, kind) == Present(r)
      ensures exit.Returned? && exit.status != Okay ==>
        exit.status == IoError && LoadFrom(disk.files, kind) == LoadFrom(old(disk.files), kind)
      ensures exit.Died? ==> CrashLeaves(old(disk.files), disk.files, kind, r, disk.atomicRename)
      ensures disk.faults >= old(disk.faults) && (disk.faults == old(disk.faults) ==> exit == Returned(Okay) && Clean(disk.files, kind))
    {
      RecordRoundTrip(kind, r);
      RenameInstalls(disk.files, kind, Temp, r);
      var replaced := disk.Rename(Path(kind, Temp), Path(kind, Main));
      if replaced == Crashed {
        if !disk.atomicRename && TornRename(old(disk.files), disk.files, Path(kind, Temp), Path(kind, Main)) {
          TornReplace(old(disk.files), disk.files, kind, Temp, r);
        }
        return Died;
      }
      if replaced == Failed {
        exit := GiveUp(kind, [Journal, Temp], IoError);
        return;
      }
      exit := GiveUp(kind, [Journal, Backup], Okay);
    }

    /** Recovery: whatever stands is loadable once it returns Okay, and still
        stands wherever it is cut short. What happens when putting the backup
        back is refused, restoreFailed, is stated with the rest. */
    method Recover(kind: RecordKind) returns (exit: Exit, notes: Notes, restoreFailed: bool)
      requires Tidy(disk.files, kind)
      modifies disk
      ensures Tidy(disk.files, kind) && OtherKindsKept(old(disk.files), disk.files, kind)
      ensures RecoveryLeaves(old(disk.files), disk.files, kind, exit, restoreFailed)
      ensures exit.Returned? ==> Noted(old(disk.files), kind, exit, restoreFailed, notes)
      ensures exit == Returned(Okay) ==> !Unsound(old(disk.files), kind)
      ensures disk.faults >= old(disk.faults) && (disk.faults == old(disk.faults) ==>
        exit.Returned? && !restoreFailed && Clean(disk.files, kind))
    {
      notes := Notes(false, false, false, false, false);
      restoreFailed := false;
      var journalPresent := Path(kind, Journal) in disk.files;
      var backupPresent := Path(kind, Backup) in disk.files;
      var tempPresent := Path(kind, Temp) in disk.files;
      if journalPresent {
        notes := notes.(journalCleared := true);
        var main := Load(kind);
        if main.Present? {
          exit := GiveUp(kind, [Journal, Backup, Temp], Okay);
          return;
        }
        if backupPresent {
          exit, restoreFailed := RestoreBackup(kind);
          notes := notes.(backupRecovered := exit.Returned? && !restoreFailed, corruption := exit != Returned(Okay));
          return;
        }
        notes := notes.(attemptDiscarded := true, corruption := !main.Absent?);
        exit := GiveUp(kind, [Journal, Temp], Okay);
        return;
      }
      if tempPresent {
        notes := notes.(tempDiscarded := true, attemptDiscarded := true);
      }
      exit := GiveUp(kind, (if tempPresent then [Temp] else []) + (if backupPresent then [Backup] else []), Okay);
    }

    /** Puts the backup back in place of an unusable record file. A refused rename
        loses nothing exactly when the journal outlives it. */
    method RestoreBackup(kind: RecordKind) returns (exit: Exit, restoreFailed: bool)
      requires Tidy(disk.files, kind) && LoadFrom(disk.files, kind).Unusable?
      requires Path(kind, Journal) in disk.files && Path(kind, Backup) in disk.files
      modifies disk
      ensures Tidy(disk.files, kind) && OtherKindsKept(old(disk.files), disk.files, kind)
      ensures RecoveryLeaves(old(disk.files), disk.files, kind, exit, restoreFailed)
      ensures exit == Returned(Okay) ==> StandingOf(old(disk.files), kind).Kept? && !restoreFailed
      ensures exit.Returned? && exit.status != Okay && !restoreFailed ==>
        DecodeRecord(old(disk.files)[Path(kind, Backup)], kind) == Err(exit.status)
      ensures disk.faults >= old(disk.faults) && (disk.faults == old(disk.faults) ==>
        exit.Returned? && !restoreFailed && Clean(disk.files, kind))
    {
      ghost var before := disk.files;
      ghost var backup := DecodeRecord(before[Path(kind, Backup)], kind);
      restoreFailed := false;
      var restored := disk.Rename(Path(kind, Backup), Path(kind, Main));
      if restored == Crashed {
        if TornRename(before, disk.files, Path(kind, Backup), Path(kind, Main)) && backup.Ok? {
          TornReplace(before, disk.files, kind, Backup, backup.value);
        }
        return Died, restoreFailed;
      }
      ghost var middle := disk.files;
      var alive := DropAll(kind, [Journal, Temp]);
      DroppedBeside(middle, disk.files, kind, [Journal, Temp]);
      if restored == Failed {
        restoreFailed := true;
        exit := if alive then Returned(IoError) else Died;
        return;
      }
      if !alive {
        return Died, restoreFailed;
      }
      var again := Load(kind);
      exit := if again.Unusable? then Returned(again.status) else Returned(Okay);
    }
  }

  /** Neither the record file nor the backup the journal vouches for is usable. */
  ghost predicate Unsound(files: Files, kind: RecordKind) {
    && LoadFrom(files, kind).Unusable? && Path(kind, Journal) in files && Path(kind, Backup) in files
    && DecodeRecord(files[Path(kind, Backup)], kind).Err?
  }

  /** What recovery reports having found and done. */
  ghost predicate Noted(before: Files, kind: RecordKind, exit: Exit, restoreFailed: bool, notes: Notes) {
    var (journal, backup, sound) := (Path(kind, Journal) in before, Path(kind, Backup) in before, LoadFrom(before, kind).Present?);
    && (notes.journalCleared <==> journal)
    && (notes.backupRecovered <==> journal && !sound && backup && !restoreFailed)
    && (notes.tempDiscarded <==> !journal && Path(kind, Temp) in before)
    && (notes.attemptDiscarded <==> notes.tempDiscarded || (journal && !sound && !backup))
    && (notes.corruption <==> journal && LoadFrom(before, kind).Unusable? && (backup ==> exit != Returned(Okay)))
  }

  /** What recovery promises about each kind of standing. */
  ghost predicate RecoveryLeaves(before: Files, after: Files, kind: RecordKind, exit: Exit, restoreFailed: bool) {
    && (!LoadFrom(before, kind).Unusable? ==> LoadFrom(after, kind) == LoadFrom(before, kind))
    && (!LoadFrom(before, kind).Unusable? || Sunk(before, kind) ==> exit in {Died, Returned(Okay)} && !restoreFailed)
    && (Sunk(before, kind) ==> Sunk(after, kind))
    && (StandingOf(before, kind).Kept? && !restoreFailed ==>
        && StandingOf(after, kind) == StandingOf(before, kind)
        && (exit.Returned? ==> exit.status == Okay && LoadFrom(after, kind) == Present(StandingOf(before, kind).record)))
    && (StandingOf(before, kind).Kept? && restoreFailed ==>
        && LoadFrom(after, kind).Unusable? && exit in {Died, Returned(IoError)}
        && (StandingOf(after, kind) == StandingOf(before, kind) <==> Path(kind, Journal) in after)
        && (Sunk(after, kind) <==> Path(kind, Journal) !in after))
  }

  /** How a record is lost: the new one torn in place, its backup refused by the
      restoring rename, the journal dropped all the same. Until then the old one
      stood; from then on nothing stands, and the next recovery takes the backup
      away as a leftover. */
  lemma {:induction false} RefusedRestoreLoses(kind: RecordKind, older: Record, newer: Record, k: nat)
    requires |older.payload| <= MAX_PAYLOAD_BYTES && |newer.payload| <= MAX_PAYLOAD_BYTES && k < |Encoded(kind, newer)|
    ensures
      var torn: Files := map[Path(kind, Main) := Encoded(kind, newer)[..k], Path(kind, Backup) := Encoded(kind, older),
                             Path(kind, Journal) := JournalBytes(newer.generation, newer.payload, newer.writer)];
      var refused := torn - {Path(kind, Journal)};
      var next := refused - {Path(kind, Backup)};
      && StandingOf(torn, kind) == Kept(older) && StandingOf(refused, kind) == Ruined && Sunk(refused, kind)
      && forall p: Path :: p in next ==> DecodeRecord(next[p], kind).Err?
  {
    RecordRoundTrip(kind, older);
    TornRecordRejected(kind, newer, k);
  }

  /** Recovery, complete or not, has lost nothing that stood. */
  ghost predicate Survives(before: Files, after: Files, kind: RecordKind) {
    && (!LoadFrom(before, kind).Unusable? ==> LoadFrom(after, kind) == LoadFrom(before, kind))
    && (StandingOf(before, kind).Kept? ==> StandingOf(after, kind) == StandingOf(before, kind))
  }

  /** Either that, or a record that only its backup still held is lost for good. */
  ghost predicate SurvivesOrSinks(before: Files, after: Files, kind: RecordKind) {
    && (!LoadFrom(before, kind).Unusable? ==> LoadFrom(after, kind) == LoadFrom(before, kind))
    && (StandingOf(before, kind).Kept? ==> StandingOf(after, kind) == StandingOf(before, kind) || Sunk(after, kind))
    && (Sunk(before, kind) ==> Sunk(after, kind))
  }

  lemma {:induction false} RecoverySettles(before: Files, after: Files, kind: RecordKind, exit: Exit, restoreFailed: bool)
    requires RecoveryLeaves(before, after, kind, exit, restoreFailed)
    ensures SurvivesOrSinks(before, after, kind)
    ensures Sunk(after, kind) && StandingOf(before, kind).Kept? ==> restoreFailed
    ensures !restoreFailed ==> Survives(before, after, kind)
    ensures exit.Returned? && StandingOf(before, kind).Kept? && (exit.status == Okay || !restoreFailed) ==>
      exit.status == Okay && LoadFrom(after, kind) == Present(StandingOf(before, kind).record)
  {
  }

  lemma {:induction false} SettlesTwice(f0: Files, f1: Files, f2: Files, kind: RecordKind)
    requires SurvivesOrSinks(f0, f1, kind) && SurvivesOrSinks(f1, f2, kind)
    ensures SurvivesOrSinks(f0, f2, kind)
  {
  }

  /** Recovery interrupted any number of times. What stood still stands exactly
      unless the kind has sunk, which only a refused restore can bring about. */
  method RecoverRepeatedly(store: DurableStore, kind: RecordKind, interruptions: nat)
    returns (recovered: Exit, restoreFailed: bool)
    requires Tidy(store.disk.files, kind)
    modifies store.disk
    ensures Tidy(store.disk.files, kind) && SurvivesOrSinks(old(store.disk.files), store.disk.files, kind)
    ensures !LoadFrom(old(store.disk.files), kind).Unusable? ==> !restoreFailed
    ensures StandingOf(old(store.disk.files), kind).Kept? ==>
      && (Sunk(store.disk.files, kind) ==> restoreFailed)
      && (StandingOf(store.disk.files, kind) == StandingOf(old(store.disk.files), kind) <==> !Sunk(store.disk.files, kind))
      && (recovered == Returned(Okay) && !Sunk(store.disk.files, kind) ==>
          LoadFrom(store.disk.files, kind) == Present(StandingOf(old(store.disk.files), kind).record))
      && (recovered.Returned? && !restoreFailed ==> recovered == Returned(Okay))
  {
    ghost var start := store.disk.files;
    var notes, failed;
    recovered, notes, restoreFailed := store.Recover(kind);
    RecoverySettles(start, store.disk.files, kind, recovered, restoreFailed);
    for i := 0 to interruptions
      invariant Tidy(store.disk.files, kind) && SurvivesOrSinks(start, store.disk.files, kind)
      invariant !LoadFrom(start, kind).Unusable? ==> !restoreFailed
      invariant StandingOf(start, kind).Kept? && Sunk(store.disk.files, kind) ==> restoreFailed
      invariant StandingOf(start, kind).Kept? && recovered == Returned(Okay) && !Sunk(store.disk.files, kind) ==>
        LoadFrom(store.disk.files, kind) == Present(StandingOf(start, kind).record)
      invariant StandingOf(start, kind).Kept? && recovered.Returned? && !restoreFailed ==> recovered == Returned(Okay)
    {
      ghost var before := store.disk.files;
      recovered, notes, failed := store.Recover(kind);
      restoreFailed := restoreFailed || failed;
      RecoverySettles(before, store.disk.files, kind, recovered, failed);
      SettlesTwice(start, before, store.disk.files, kind);
    }
  }

  /** A commit cut short anywhere, then recovery cut short any number of times.
      Where renames are atomic, what loads is exactly the old record or exactly the
      new one, whether or not the last recovery completed. Where they tear, that
      holds once a recovery returns Okay, unless the kind has sunk; and that takes a
      crash inside the commit, and either no earlier record or a refused restore.
      An acknowledged record always loads, and so does the old one after a refusal. */
  method CommitThenRecover(store: DurableStore, kind: RecordKind, expected: u64, next: u64, payload: seq<byte>,
                           writer: Incarnation, interruptions: nat)
    returns (exit: Exit, recovered: Exit, loaded: Loaded, restoreFailed: bool)
    requires Tidy(store.disk.files, kind) && !LoadFrom(store.disk.files, kind).Unusable?
    modifies store.disk
    ensures exit == Returned(Okay) ==> loaded == Present(Record(next, writer, payload))
    ensures exit.Returned? && exit.status != Okay ==> loaded == LoadFrom(old(store.disk.files), kind)
    ensures store.disk.atomicRename ==> loaded in {LoadFrom(old(store.disk.files), kind), Present(Record(next, writer, payload))}
    ensures recovered == Returned(Okay) ==>
      loaded in {LoadFrom(old(store.disk.files), kind), Present(Record(next, writer, payload))} || Sunk(store.disk.files, kind)
    ensures Sunk(store.disk.files, kind) ==>
      exit.Died? && !store.disk.atomicRename && (LoadFrom(old(store.disk.files), kind).Absent? || restoreFailed)
    ensures restoreFailed ==> exit.Died? && !store.disk.atomicRename
    ensures recovered.Returned? && !restoreFailed && !LoadFrom(old(store.disk.files), kind).Absent? ==> recovered == Returned(Okay)
  {
    exit := store.Commit(kind, expected, next, payload, writer);
    recovered, restoreFailed := RecoverRepeatedly(store, kind, interruptions);
    loaded := store.Load(kind);
  }
}
