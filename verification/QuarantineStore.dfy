// Quarantine on an abstract file map in which every primitive may fail. Each operation is a
// function of the store and of the faults it meets.
module QuarantineStore {
  import opened Options
  import opened ByteStrings

  datatype FileObject = FileObject(contents: Bytes, mode: nat)

  type Files = map<Bytes, FileObject>

  /** mode is the permission value recorded before the move, when it could be read. */
  datatype QuarantineEntry = QuarantineEntry(
    id: Bytes,
    originalPath: Bytes,
    quarantinePath: Bytes,
    signatures: seq<Bytes>,
    mode: Option<nat>)

  /** The files, the records in memory, and the records last written to the metadata file. */
  datatype Store = Store(files: Files, entries: seq<QuarantineEntry>, saved: seq<QuarantineEntry>)

  /** copiedMode is whatever mode the copying fallback leaves on the new file. */
  datatype MoveFaults = MoveFaults(renameFails: bool, copyFails: bool, removeFails: bool, copiedMode: nat)

  datatype RestoreFaults = RestoreFaults(parentFails: bool, move: MoveFaults, modeFails: bool)

  // ----- file operations -----

  /** rename, which would replace the destination; else copy, which would not, and delete. */
  function MoveFile(files: Files, source: Bytes, destination: Bytes, f: MoveFaults): (Files, bool) {
    if source in files && !f.renameFails then ((files - {source})[destination := files[source]], true)
    else if source !in files || destination in files || f.copyFails then (files, false)
    else
      var copied := files[destination := FileObject(files[source].contents, f.copiedMode)];
      if f.removeFails then (copied, false) else (copied - {source}, true)
  }

  function ReapplyMode(files: Files, path: Bytes, mode: Option<nat>, fails: bool): Files {
    if mode.None? || fails || path !in files then files
    else files[path := FileObject(files[path].contents, mode.value)]
  }

  // ----- records -----

  function Find(entries: seq<QuarantineEntry>, id: Bytes): Option<QuarantineEntry> {
    if entries == [] then None
    else if entries[0].id == id then Some(entries[0])
    else Find(entries[1..], id)
  }

  function RemoveById(entries: seq<QuarantineEntry>, id: Bytes): seq<QuarantineEntry> {
    if entries == [] then []
    else (if entries[0].id == id then [] else [entries[0]]) + RemoveById(entries[1..], id)
  }

  function Save(s: Store, fails: bool): (Store, bool) {
    if fails then (s, false) else (s.(saved := s.entries), true)
  }

  // ----- operations -----

  /** The record of a file about to be quarantined; known: its mode could be read. */
  function NewEntry(s: Store, file: Bytes, id: Bytes, destination: Bytes, signatures: seq<Bytes>, known: bool)
    : QuarantineEntry
    requires file in s.files
  {
    QuarantineEntry(id, file, destination, signatures, if known then Some(s.files[file].mode) else None)
  }

  /** id and destination are what reserveDestination found free. */
  function Quarantine(s: Store, file: Bytes, id: Bytes, destination: Bytes, signatures: seq<Bytes>, known: bool,
                      move: MoveFaults, saveFails: bool, rollback: MoveFaults): (Store, bool)
  {
    if file !in s.files then (s, false)
    else
      var (moved, ok) := MoveFile(s.files, file, destination, move);
      if !ok then (s.(files := moved), false)
      else
        var entry := NewEntry(s, file, id, destination, signatures, known);
        var (stored, saved) := Save(Store(moved, s.entries + [entry], s.saved), saveFails);
        if saved then (stored, true)
        else
          (Store(MoveFile(moved, destination, file, rollback).0, RemoveById(s.entries + [entry], id), s.saved), false)
  }

  function RestoreOne(s: Store, id: Bytes, f: RestoreFaults): (Store, bool) {
    match Find(s.entries, id)
    case None => (s, false)
    case Some(entry) =>
      if entry.originalPath in s.files || f.parentFails then (s, false)
      else
        var (moved, ok) := MoveFile(s.files, entry.quarantinePath, entry.originalPath, f.move);
        if !ok then (s.(files := moved), false)
        else
          (s.(files := ReapplyMode(moved, entry.originalPath, entry.mode, f.modeFails),
              entries := RemoveById(s.entries, id)), true)
  }

  function Restore(s: Store, id: Bytes, f: RestoreFaults, saveFails: bool): (Store, bool) {
    var (restored, ok) := RestoreOne(s, id, f);
    if !ok then (restored, false) else Save(restored, saveFails)
  }

  /** The loop of restoreAll over the ids of a snapshot; results are kept per id. */
  function RestoreEach(s: Store, ids: seq<Bytes>, faults: seq<RestoreFaults>): (r: (Store, seq<bool>))
    requires |ids| == |faults|
    ensures |r.1| == |ids|
    decreases |ids|
  {
    if ids == [] then (s, [])
    else
      var (first, ok) := RestoreOne(s, ids[0], faults[0]);
      var (rest, oks) := RestoreEach(first, ids[1..], faults[1..]);
      (rest, [ok] + oks)
  }

  function Ids(entries: seq<QuarantineEntry>): (r: seq<Bytes>)
    ensures |r| == |entries|
    ensures forall i :: 0 <= i < |r| ==> r[i] == entries[i].id
  {
    if entries == [] then [] else [entries[0].id] + Ids(entries[1..])
  }

  function RestoreAll(s: Store, faults: seq<RestoreFaults>, saveFails: bool): (Store, bool)
    requires |faults| == |s.entries|
  {
    var (restored, oks) := RestoreEach(s, Ids(s.entries), faults);
    var (saved, ok) := Save(restored, saveFails);
    (saved, ok && false !in oks)
  }

  function RemoveOne(s: Store, id: Bytes, fails: bool): (Store, bool) {
    match Find(s.entries, id)
    case None => (s, false)
    case Some(entry) =>
      if fails then (s, false)
      else (s.(files := s.files - {entry.quarantinePath}, entries := RemoveById(s.entries, id)), true)
  }

  function Remove(s: Store, id: Bytes, fails: bool, saveFails: bool): (Store, bool) {
    var (removed, ok) := RemoveOne(s, id, fails);
    if !ok then (removed, false) else Save(removed, saveFails)
  }
}
