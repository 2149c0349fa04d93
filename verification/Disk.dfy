// The file system under the store. Every operation may complete, fail and say
// so, or be the last thing the process does. A write that does not complete can
// leave any prefix of its data; a rename is atomic unless the volume is not.

module Disk {
  import opened Core
  import opened Bytes
  import opened Record

  datatype Role = Main | Temp | Journal | Backup

  datatype Path = Path(kind: RecordKind, role: Role)

  type Files = map<Path, seq<byte>>

  datatype Outcome = Done | Failed | Crashed

  ghost predicate SameElsewhere(before: Files, after: Files, path: Path) {
    forall p: Path :: p != path ==> (p in after <==> p in before) && (p in before ==> after[p] == before[p])
  }

  /** At most a prefix of the data has replaced the file. */
  ghost predicate PartlyWritten(before: Files, after: Files, path: Path, data: seq<byte>) {
    after == before || exists k :: 0 <= k <= |data| && after == before[path := data[..k]]
  }

  /** The target holds a strict prefix of the source, which is still there. */
  ghost predicate TornRename(before: Files, after: Files, source: Path, target: Path) {
    source in before && exists k :: 0 <= k < |before[source]| && after == before[target := before[source][..k]]
  }

  ghost function Renamed(before: Files, source: Path, target: Path): Files
    requires source in before
  {
    before[target := before[source]] - {source}
  }

  class Volume {
    var files: Files
    const atomicRename: bool
    /** How many operations have not completed so far. */
    ghost var faults: nat

    constructor (atomicRename: bool)
      ensures files == map[] && this.atomicRename == atomicRename
    {
      this.files := map[];
      this.atomicRename := atomicRename;
      faults := 0;
    }

    method Write(path: Path, data: seq<byte>) returns (outcome: Outcome)
      modifies this
      ensures outcome == Done ==> files == old(files)[path := data]
      ensures outcome != Done ==> PartlyWritten(old(files), files, path, data)
      ensures faults == old(faults) + if outcome == Done then 0 else 1
    {
      if * {
        files := files[path := data];
        return Done;
      }
      faults := faults + 1;
      if * {
        var k :| 0 <= k <= |data|;
        files := files[path := data[..k]];
      }
      if * {
        outcome := Failed;
      } else {
        outcome := Crashed;
      }
    }

    method Remove(path: Path) returns (outcome: Outcome)
      modifies this
      ensures outcome == Done ==> files == old(files) - {path}
      ensures outcome == Failed ==> files == old(files)
      ensures outcome == Crashed ==> files == old(files) || files == old(files) - {path}
      ensures faults == old(faults) + if outcome == Done then 0 else 1
    {
      if * {
        files := files - {path};
        return Done;
      }
      faults := faults + 1;
      if * {
        return Failed;
      }
      if * {
        files := files - {path};
      }
      outcome := Crashed;
    }

    method Rename(source: Path, target: Path) returns (outcome: Outcome)
      requires source != target && source in files
      modifies this
      ensures outcome == Done ==> files == Renamed(old(files), source, target)
      ensures outcome == Failed ==> files == old(files)
      ensures outcome == Crashed ==>
        || files == old(files) || files == Renamed(old(files), source, target)
        || (!atomicRename && TornRename(old(files), files, source, target))
      ensures faults == old(faults) + if outcome == Done then 0 else 1
    {
      if * {
        files := files[target := files[source]] - {source};
        return Done;
      }
      faults := faults + 1;
      if * {
        return Failed;
      }
      if !atomicRename && files[source] != [] {
        var k :| 0 <= k < |files[source]|;
        files := files[target := files[source][..k]];
      } else if * {
        files := files[target := files[source]] - {source};
      }
      outcome := Crashed;
    }

    method Copy(source: Path, target: Path) returns (outcome: Outcome)
      requires source in files
      modifies this
      ensures outcome == Done ==> files == old(files)[target := old(files)[source]]
      ensures outcome != Done ==> PartlyWritten(old(files), files, target, old(files)[source])
      ensures faults == old(faults) + if outcome == Done then 0 else 1
    {
      outcome := Write(target, files[source]);
    }
  }
}
