// QuarantineManager, its repository and its file operations as the source runs them, each
// call proved equal to the operation on the store.
module QuarantineManagement {
  import opened Options
  import opened ByteStrings
  import opened QuarantineStore
  import opened QuarantineCrashes
  import opened QuarantineSafety

  class FileSystem {
    var files: Files

    constructor (files: Files)
      ensures this.files == files
    {
      this.files := files;
    }

    method Rename(source: Bytes, destination: Bytes, fails: bool) returns (ok: bool)
      modifies this
      ensures ok <==> source in old(files) && !fails
      ensures files == if ok then (old(files) - {source})[destination := old(files)[source]] else old(files)
    {
      if source !in files || fails { return false; }
      files := (files - {source})[destination := files[source]];
      return true;
    }

    method CopyFile(source: Bytes, destination: Bytes, fails: bool, copiedMode: nat) returns (ok: bool)
      modifies this
      ensures ok <==> source in old(files) && destination !in old(files) && !fails
      ensures files ==
              if ok then old(files)[destination := FileObject(old(files)[source].contents, copiedMode)] else old(files)
    {
      if source !in files || destination in files || fails { return false; }
      files := files[destination := FileObject(files[source].contents, copiedMode)];
      return true;
    }

    method Delete(path: Bytes, fails: bool) returns (ok: bool)
      modifies this
      ensures ok == !fails && files == if fails then old(files) else old(files) - {path}
    {
      if fails { return false; }
      files := files - {path};
      return true;
    }

    method SetMode(path: Bytes, mode: nat, fails: bool) returns (ok: bool)
      modifies this
      ensures ok <==> path in old(files) && !fails
      ensures files == if ok then old(files)[path := FileObject(old(files)[path].contents, mode)] else old(files)
    {
      if path !in files || fails { return false; }
      files := files[path := FileObject(files[path].contents, mode)];
      return true;
    }

    method Move(source: Bytes, destination: Bytes, f: MoveFaults) returns (ok: bool)
      modifies this
      ensures (files, ok) == MoveFile(old(files), source, destination, f)
    {
      ok := Rename(source, destination, f.renameFails);
      if ok { return true; }
      ok := CopyFile(source, destination, f.copyFails, f.copiedMode);
      if !ok { return false; }
      ok := Delete(source, f.removeFails);
    }

    method MoveOut(quarantinePath: Bytes, originalPath: Bytes, parentFails: bool, f: MoveFaults) returns (ok: bool)
      modifies this
      ensures (files, ok) ==
              if parentFails then (old(files), false) else MoveFile(old(files), quarantinePath, originalPath, f)
    {
      if parentFails { return false; }
      ok := Move(quarantinePath, originalPath, f);
    }
  }

  class QuarantineRepository {
    var entries: seq<QuarantineEntry>
    var metadata: seq<QuarantineEntry>

    constructor (metadata: seq<QuarantineEntry>)
      ensures this.metadata == metadata && entries == []
    {
      this.metadata, entries := metadata, [];
    }

    /** Reads the metadata file; one that is corrupt leaves no records. */
    method LoadEntries(corrupt: bool) returns (ok: bool)
      modifies this`entries
      ensures ok == !corrupt && entries == if corrupt then [] else metadata
    {
      entries := [];
      if corrupt { return false; }
      entries := metadata;
      return true;
    }

    method SaveEntries(fails: bool) returns (ok: bool)
      modifies this`metadata
      ensures ok == !fails && metadata == if ok then entries else old(metadata)
    {
      if fails { return false; }
      metadata := entries;
      return true;
    }

    method Add(entry: QuarantineEntry)
      modifies this`entries
      ensures entries == old(entries) + [entry]
    {
      entries := entries + [entry];
    }

    /** Erases every record with the id; reports whether there was one. */
    method Drop(id: Bytes) returns (found: bool)
      modifies this`entries
      ensures entries == RemoveById(old(entries), id)
      ensures forall e :: e in entries <==> e in old(entries) && e.id != id
      ensures found <==> exists i :: 0 <= i < |old(entries)| && old(entries)[i].id == id
    {
      var kept: seq<QuarantineEntry> := [];
      found := false;
      assert entries[..0] == [];
      for i := 0 to |entries|
        invariant entries == old(entries)
        invariant kept == RemoveById(entries[..i], id)
        invariant found <==> exists j :: 0 <= j < i && entries[j].id == id
      {
        assert entries[..i + 1] == entries[..i] + [entries[i]];
        RemoveConcat(entries[..i], [entries[i]], id);
        if entries[i].id == id { found := true; } else { kept := kept + [entries[i]]; }
      }
      assert entries[..|entries|] == entries;
      RemoveKeepsOthers(entries, id);
      entries := kept;
    }

    method FindById(id: Bytes) returns (r: Option<QuarantineEntry>)
      ensures r == Find(entries, id)
      ensures r.None? ==> forall i :: 0 <= i < |entries| ==> entries[i].id != id
      ensures r.Some? ==> exists i :: 0 <= i < |entries| && entries[i] == r.value && r.value.id == id &&
                                      forall j :: 0 <= j < i ==> entries[j].id != id
    {
      assert entries[0..] == entries;
      for i := 0 to |entries|
        invariant Find(entries, id) == Find(entries[i..], id)
        invariant forall j :: 0 <= j < i ==> entries[j].id != id
      {
        if entries[i].id == id { return Some(entries[i]); }
        assert entries[i..][1..] == entries[i + 1..];
      }
      return None;
    }
  }

  lemma {:induction false} RemoveConcat(x: seq<QuarantineEntry>, y: seq<QuarantineEntry>, id: Bytes)
    ensures RemoveById(x + y, id) == RemoveById(x, id) + RemoveById(y, id)
  {
    if x == [] {
      assert x + y == y;
    } else {
      assert (x + y)[1..] == x[1..] + y;
      RemoveConcat(x[1..], y, id);
    }
  }

  class QuarantineManager {
    const fileSystem: FileSystem
    const repository: QuarantineRepository

    constructor (fileSystem: FileSystem, repository: QuarantineRepository)
      ensures this.fileSystem == fileSystem && this.repository == repository
    {
      this.fileSystem, this.repository := fileSystem, repository;
    }

    function Contents(): Store
      reads fileSystem, repository
    {
      Store(fileSystem.files, repository.entries, repository.metadata)
    }

    /** The start of a process: the records are those on disk, however the last process ended. */
    method LoadRecords(prepareFails: bool, corrupt: bool) returns (ok: bool)
      modifies repository`entries
      ensures ok <==> !prepareFails && !corrupt
      ensures ok ==> Contents() == Reload(DiskOf(old(Contents())))
      ensures repository.entries ==
              if prepareFails then old(repository.entries) else if corrupt then [] else repository.metadata
      ensures fileSystem.files == old(fileSystem.files) && repository.metadata == old(repository.metadata)
    {
      if prepareFails { return false; }
      ok := repository.LoadEntries(corrupt);
    }

    method QuarantineFile(file: Bytes, id: Bytes, destination: Bytes, signatures: seq<Bytes>, known: bool,
                          move: MoveFaults, saveFails: bool, rollback: MoveFaults)
      returns (ok: bool)
      modifies fileSystem, repository
      ensures (Contents(), ok) ==
              Quarantine(old(Contents()), file, id, destination, signatures, known, move, saveFails, rollback)
    {
      if file !in fileSystem.files { return false; }
      var mode := if known then Some(fileSystem.files[file].mode) else None;
      ok := fileSystem.Move(file, destination, move);
      if !ok { return false; }
      repository.Add(QuarantineEntry(id, file, destination, signatures, mode));
      ok := repository.SaveEntries(saveFails);
      if !ok {
        var rolledBack := fileSystem.Move(destination, file, rollback);
        var dropped := repository.Drop(id);
        return false;
      }
      return true;
    }

    method RestoreEntry(id: Bytes, f: RestoreFaults) returns (ok: bool)
      modifies fileSystem, repository`entries
      ensures (Contents(), ok) == RestoreOne(old(Contents()), id, f)
    {
      var entry := repository.FindById(id);
      if entry.None? { return false; }
      if entry.value.originalPath in fileSystem.files { return false; }
      ok := fileSystem.MoveOut(entry.value.quarantinePath, entry.value.originalPath, f.parentFails, f.move);
      if !ok { return false; }
      if entry.value.mode.Some? {
        var applied := fileSystem.SetMode(entry.value.originalPath, entry.value.mode.value, f.modeFails);
      }
      var dropped := repository.Drop(id);
      return true;
    }

    method RestoreFile(id: Bytes, f: RestoreFaults, saveFails: bool) returns (ok: bool)
      modifies fileSystem, repository
      ensures (Contents(), ok) == Restore(old(Contents()), id, f, saveFails)
    {
      ok := RestoreEntry(id, f);
      if !ok { return false; }
      ok := repository.SaveEntries(saveFails);
    }

    /** Goes through a snapshot of the records and goes on after individual failures. */
    method RestoreEverything(faults: seq<RestoreFaults>, saveFails: bool) returns (ok: bool)
      requires |faults| == |repository.entries|
      modifies fileSystem, repository
      ensures (Contents(), ok) == RestoreAll(old(Contents()), faults, saveFails)
    {
      var snapshot := repository.entries;
      ghost var start, ids := Contents(), Ids(snapshot);
      var allOk := true;
      ghost var oks: seq<bool> := [];
      assert ids[..0] == [] && faults[..0] == [];
      for i := 0 to |snapshot|
        invariant |faults| == |snapshot| == |ids|
        invariant (Contents(), oks) == RestoreEach(start, ids[..i], faults[..i])
        invariant allOk <==> false !in oks
      {
        var one := RestoreEntry(snapshot[i].id, faults[i]);
        assert ids[..i + 1] == ids[..i] + [ids[i]] && faults[..i + 1] == faults[..i] + [faults[i]];
        RestoreEachConcat(start, ids[..i], ids[i], faults[..i], faults[i]);
        oks := oks + [one];
        allOk := one && allOk;
      }
      assert ids[..|ids|] == ids && faults[..|faults|] == faults;
      ok := repository.SaveEntries(saveFails);
      ok := ok && allOk;
    }

    method RemoveFile(id: Bytes, fails: bool, saveFails: bool) returns (ok: bool)
      modifies fileSystem, repository
      ensures (Contents(), ok) == Remove(old(Contents()), id, fails, saveFails)
    {
      var entry := repository.FindById(id);
      if entry.None? { return false; }
      ok := fileSystem.Delete(entry.value.quarantinePath, fails);
      if !ok { return false; }
      var dropped := repository.Drop(id);
      ok := repository.SaveEntries(saveFails);
    }
  }

  lemma {:induction false} RestoreEachConcat(s: Store, ids: seq<Bytes>, id: Bytes, faults: seq<RestoreFaults>,
                                             f: RestoreFaults)
    requires |ids| == |faults|
    ensures var (before, oks) := RestoreEach(s, ids, faults);
            var (after, ok) := RestoreOne(before, id, f);
            RestoreEach(s, ids + [id], faults + [f]) == (after, oks + [ok])
    decreases |ids|
  {
    if ids == [] {
      var (after, ok) := RestoreOne(s, id, f);
      assert [] + [id] == [id] && [] + [f] == [f] && [id][1..] == [] && [f][1..] == [];
      assert RestoreEach(after, [], []) == (after, []);
      assert [ok] + [] == [] + [ok];
    } else {
      assert (ids + [id])[1..] == ids[1..] + [id] && (faults + [f])[1..] == faults[1..] + [f];
      var (first, ok0) := RestoreOne(s, ids[0], faults[0]);
      RestoreEachConcat(first, ids[1..], id, faults[1..], f);
      var (before, oks) := RestoreEach(first, ids[1..], faults[1..]);
      var (after, ok) := RestoreOne(before, id, f);
      assert [ok0] + (oks + [ok]) == [ok0] + oks + [ok];
    }
  }
}
