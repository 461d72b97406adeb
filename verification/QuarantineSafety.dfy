// What quarantine promises under any faults: no contents are lost or overwritten, records
// and files stay in step, and a round trip puts everything back.
module QuarantineSafety {
  import opened Options
  import opened ByteStrings
  import opened QuarantineStore

  // ----- conservation of contents -----

  /** h gives every old file a place of its own that still holds its contents. */
  ghost predicate Embeds(a: Files, b: Files, h: map<Bytes, Bytes>) {
    && h.Keys == a.Keys
    && (forall p {:trigger h[p]} :: p in a ==> h[p] in b && b[h[p]].contents == a[p].contents)
    && (forall p, q {:trigger h[p], h[q]} :: p in a && q in a && p != q ==> h[p] != h[q])
  }

  ghost predicate Kept(a: Files, b: Files) {
    exists h :: Embeds(a, b, h)
  }

  lemma SameKept(a: Files, b: Files)
    requires forall p :: p in a ==> p in b && b[p].contents == a[p].contents
    ensures Kept(a, b)
  {
    assert Embeds(a, b, map p | p in a :: p);
  }

  function Compose(h: map<Bytes, Bytes>, k: map<Bytes, Bytes>): map<Bytes, Bytes>
    requires forall p :: p in h ==> h[p] in k
  {
    map p | p in h :: k[h[p]]
  }

  lemma EmbedsCompose(a: Files, b: Files, c: Files, h: map<Bytes, Bytes>, k: map<Bytes, Bytes>)
    requires Embeds(a, b, h) && Embeds(b, c, k)
    ensures forall p :: p in h ==> h[p] in k
    ensures Embeds(a, c, Compose(h, k))
  {
    assert forall p :: p in h ==> h[p] in k;
    var both := Compose(h, k);
    forall p, q | p in a && q in a && p != q ensures both[p] != both[q] {
      assert h[p] != h[q] && h[p] in b && h[q] in b;
    }
  }

  lemma KeptTransitive(a: Files, b: Files, c: Files)
    requires Kept(a, b) && Kept(b, c)
    ensures Kept(a, c)
  {
    var h :| Embeds(a, b, h);
    var k :| Embeds(b, c, k);
    EmbedsCompose(a, b, c, h, k);
  }

  lemma MoveKeeps(files: Files, source: Bytes, destination: Bytes, f: MoveFaults)
    requires destination !in files
    ensures Kept(files, MoveFile(files, source, destination, f).0)
  {
    var moved := MoveFile(files, source, destination, f).0;
    if source in files && source !in moved {
      assert Embeds(files, moved, map p | p in files :: if p == source then destination else p);
    } else {
      SameKept(files, moved);
    }
  }

  lemma QuarantineKeeps(s: Store, file: Bytes, id: Bytes, destination: Bytes, signatures: seq<Bytes>, known: bool,
                        move: MoveFaults, saveFails: bool, rollback: MoveFaults)
    requires destination !in s.files
    ensures Kept(s.files, Quarantine(s, file, id, destination, signatures, known, move, saveFails, rollback).0.files)
  {
    var (moved, ok) := MoveFile(s.files, file, destination, move);
    if file !in s.files {
      SameKept(s.files, s.files);
    } else if ok && saveFails {
      MoveAndBackKeeps(s.files, file, destination, move, rollback);
    } else {
      MoveKeeps(s.files, file, destination, move);
    }
  }

  lemma MoveAndBackKeeps(files: Files, file: Bytes, destination: Bytes, move: MoveFaults, rollback: MoveFaults)
    requires file in files && destination !in files && MoveFile(files, file, destination, move).1
    ensures Kept(files, MoveFile(MoveFile(files, file, destination, move).0, destination, file, rollback).0)
  {
    var moved := MoveFile(files, file, destination, move).0;
    assert file !in moved;
    MoveKeeps(files, file, destination, move);
    MoveKeeps(moved, destination, file, rollback);
    KeptTransitive(files, moved, MoveFile(moved, destination, file, rollback).0);
  }

  lemma RestoreOneKeeps(s: Store, id: Bytes, f: RestoreFaults)
    ensures Kept(s.files, RestoreOne(s, id, f).0.files)
  {
    var found := Find(s.entries, id);
    if found.None? || found.value.originalPath in s.files || f.parentFails {
      SameKept(s.files, s.files);
    } else {
      MoveOutKeeps(s.files, found.value, f);
    }
  }

  lemma MoveOutKeeps(files: Files, entry: QuarantineEntry, f: RestoreFaults)
    requires entry.originalPath !in files
    ensures var moved := MoveFile(files, entry.quarantinePath, entry.originalPath, f.move).0;
            Kept(files, moved) && Kept(files, ReapplyMode(moved, entry.originalPath, entry.mode, f.modeFails))
  {
    var moved := MoveFile(files, entry.quarantinePath, entry.originalPath, f.move).0;
    var final := ReapplyMode(moved, entry.originalPath, entry.mode, f.modeFails);
    MoveKeeps(files, entry.quarantinePath, entry.originalPath, f.move);
    SameKept(moved, final);
    KeptTransitive(files, moved, final);
  }

  lemma {:induction false} RestoreEachKeeps(s: Store, ids: seq<Bytes>, faults: seq<RestoreFaults>)
    requires |ids| == |faults|
    ensures Kept(s.files, RestoreEach(s, ids, faults).0.files)
    decreases |ids|
  {
    if ids == [] {
      SameKept(s.files, s.files);
    } else {
      var first := RestoreOne(s, ids[0], faults[0]).0;
      RestoreOneKeeps(s, ids[0], faults[0]);
      RestoreEachKeeps(first, ids[1..], faults[1..]);
      KeptTransitive(s.files, first.files, RestoreEach(first, ids[1..], faults[1..]).0.files);
    }
  }

  // ----- records and files in step -----

  ghost predicate Quarantined(entries: seq<QuarantineEntry>, path: Bytes) {
    exists i :: 0 <= i < |entries| && entries[i].quarantinePath == path
  }

  ghost predicate UniqueIds(entries: seq<QuarantineEntry>) {
    forall i, j :: 0 <= i < j < |entries| ==> entries[i].id != entries[j].id
  }

  ghost predicate InStep(files: Files, entries: seq<QuarantineEntry>) {
    && (forall i :: 0 <= i < |entries| ==> entries[i].quarantinePath in files)
    && (forall i, j :: 0 <= i < j < |entries| ==> entries[i].quarantinePath != entries[j].quarantinePath)
  }

  /** Every record has its file, no two share one, and ids are unique. */
  ghost predicate Consistent(s: Store) {
    UniqueIds(s.entries) && InStep(s.files, s.entries)
  }

  ghost predicate FreshId(entries: seq<QuarantineEntry>, id: Bytes) {
    forall i :: 0 <= i < |entries| ==> entries[i].id != id
  }

  lemma {:induction false} RemoveFresh(entries: seq<QuarantineEntry>, id: Bytes)
    requires FreshId(entries, id)
    ensures RemoveById(entries, id) == entries
  {
    if entries == [] {
    } else {
      RemoveFresh(entries[1..], id);
    }
  }

  lemma {:induction false} RemoveLast(entries: seq<QuarantineEntry>, last: QuarantineEntry)
    requires FreshId(entries, last.id)
    ensures RemoveById(entries + [last], last.id) == entries
  {
    if entries == [] {
      assert [last][1..] == [] && [] + [last] == [last];
    } else {
      assert (entries + [last])[1..] == entries[1..] + [last];
      RemoveLast(entries[1..], last);
    }
  }

  /** With unique ids, finding and removing by id concern one position. */
  lemma {:induction false} FindPosition(entries: seq<QuarantineEntry>, id: Bytes) returns (k: nat)
    requires UniqueIds(entries) && Find(entries, id).Some?
    ensures k < |entries| && entries[k].id == id && Find(entries, id) == Some(entries[k])
    ensures RemoveById(entries, id) == entries[..k] + entries[k + 1..]
  {
    if entries[0].id == id {
      k := 0;
      RemoveFresh(entries[1..], id);
    } else {
      k := FindPosition(entries[1..], id);
      assert entries[1..][..k] == entries[1..k + 1] && entries[1..][k + 1..] == entries[k + 2..];
      assert [entries[0]] + entries[1..k + 1] == entries[..k + 1];
      k := k + 1;
    }
  }

  lemma DropKeepsInStep(files: Files, after: Files, entries: seq<QuarantineEntry>, k: nat)
    requires k < |entries| && UniqueIds(entries) && InStep(files, entries)
    requires forall p :: p in files && p != entries[k].quarantinePath ==> p in after
    ensures var rest := entries[..k] + entries[k + 1..]; UniqueIds(rest) && InStep(after, rest)
  {
    var rest := entries[..k] + entries[k + 1..];
    forall i | 0 <= i < |rest| ensures rest[i] == entries[if i < k then i else i + 1] { }
  }

  predicate MoveSucceeds(f: MoveFaults) {
    !f.renameFails || (!f.copyFails && !f.removeFails)
  }

  /** A rollback that at least copies the file back. */
  predicate PutsBack(f: MoveFaults) {
    !f.renameFails || !f.copyFails
  }

  /**
   * Consistency survives quarantining a file, unless it is a record's own file and goes away
   * for good: the move succeeds and no rollback brings it back.
   */
  lemma QuarantineKeepsConsistentIff(s: Store, file: Bytes, id: Bytes, destination: Bytes, signatures: seq<Bytes>,
                                     known: bool, move: MoveFaults, saveFails: bool, rollback: MoveFaults)
    requires Consistent(s) && FreshId(s.entries, id) && destination !in s.files
    ensures Consistent(Quarantine(s, file, id, destination, signatures, known, move, saveFails, rollback).0) <==>
              !Quarantined(s.entries, file) || !MoveSucceeds(move) || (saveFails && PutsBack(rollback))
  {
    var s' := Quarantine(s, file, id, destination, signatures, known, move, saveFails, rollback).0;
    if file in s.files {
      StaysInPlaceIff(s, file, id, destination, signatures, known, move, saveFails, rollback);
      var entry := NewEntry(s, file, id, destination, signatures, known);
      RemoveLast(s.entries, entry);
      QuarantineOutcome(s, file, id, destination, signatures, known, move, saveFails, rollback);
      if s'.entries == s.entries {
        AfterLosing(s, s'.files, file);
      } else {
        AfterLosing(s, s'.files, file);
        OneMoreRecord(s, s'.files, entry);
      }
    } else {
      NotQuarantined(s, file);
    }
  }

  lemma StaysInPlaceIff(s: Store, file: Bytes, id: Bytes, destination: Bytes, signatures: seq<Bytes>,
                        known: bool, move: MoveFaults, saveFails: bool, rollback: MoveFaults)
    requires destination !in s.files && file in s.files
    ensures file in Quarantine(s, file, id, destination, signatures, known, move, saveFails, rollback).0.files <==>
              !MoveSucceeds(move) || (saveFails && PutsBack(rollback))
  {
  }

  /** Whatever fails, records and files stay in step exactly if the file is not a record's own. */
  lemma QuarantineAlwaysConsistentIff(s: Store, file: Bytes, id: Bytes, destination: Bytes, signatures: seq<Bytes>,
                                      known: bool)
    requires Consistent(s) && FreshId(s.entries, id) && destination !in s.files
    ensures (forall move, saveFails, rollback ::
               Consistent(Quarantine(s, file, id, destination, signatures, known, move, saveFails, rollback).0)) <==>
            !Quarantined(s.entries, file)
  {
    forall move, saveFails, rollback
      ensures Consistent(Quarantine(s, file, id, destination, signatures, known, move, saveFails, rollback).0) <==>
                !Quarantined(s.entries, file) || !MoveSucceeds(move) || (saveFails && PutsBack(rollback))
    {
      QuarantineKeepsConsistentIff(s, file, id, destination, signatures, known, move, saveFails, rollback);
    }
    var smooth := MoveFaults(false, false, false, 0);
    assert MoveSucceeds(smooth) && (Quarantined(s.entries, file) ==>
      !Consistent(Quarantine(s, file, id, destination, signatures, known, smooth, false, smooth).0));
  }

  /** Quarantining the file of the only record leaves that record without one. */
  lemma QuarantinedAgainIsLost(path: Bytes, moved: Bytes, again: Bytes, contents: FileObject, signatures: seq<Bytes>)
    requires again != moved
    ensures var record := QuarantineEntry([1], path, moved, [], None);
            var s := Store(map[moved := contents], [record], [record]);
            var smooth := MoveFaults(false, false, false, 0);
            var (s', ok) := Quarantine(s, moved, [2], again, signatures, true, smooth, false, smooth);
            Consistent(s) && FreshId(s.entries, [2]) && ok && !Consistent(s')
  {
    var record := QuarantineEntry([1], path, moved, [], None);
    var s := Store(map[moved := contents], [record], [record]);
    var smooth := MoveFaults(false, false, false, 0);
    assert Consistent(s) && s.entries[0].quarantinePath == moved && record.id != [2];
    QuarantineKeepsConsistentIff(s, moved, [2], again, signatures, true, smooth, false, smooth);
  }

  lemma NotQuarantined(s: Store, path: Bytes)
    requires Consistent(s) && path !in s.files
    ensures !Quarantined(s.entries, path)
  {
  }

  lemma OneMoreRecord(s: Store, after: Files, entry: QuarantineEntry)
    requires Consistent(s) && FreshId(s.entries, entry.id)
    requires entry.quarantinePath !in s.files && entry.quarantinePath in after
    ensures Consistent(Store(after, s.entries + [entry], s.saved)) <==> Consistent(Store(after, s.entries, s.saved))
  {
    var more := s.entries + [entry];
    assert forall i :: 0 <= i < |s.entries| ==> more[i] == s.entries[i];
  }

  /** What quarantining can do to the key set and the records. */
  lemma QuarantineOutcome(s: Store, file: Bytes, id: Bytes, destination: Bytes, signatures: seq<Bytes>,
                          known: bool, move: MoveFaults, saveFails: bool, rollback: MoveFaults)
    requires FreshId(s.entries, id) && destination !in s.files && file in s.files
    ensures var s' := Quarantine(s, file, id, destination, signatures, known, move, saveFails, rollback).0;
            var entry := NewEntry(s, file, id, destination, signatures, known);
            && (forall p :: p in s.files && p != file ==> p in s'.files)
            && (s'.entries == s.entries ||
                (s'.entries == s.entries + [entry] && destination in s'.files && file !in s'.files))
  {
    RemoveLast(s.entries, NewEntry(s, file, id, destination, signatures, known));
  }

  lemma AfterLosing(s: Store, after: Files, file: Bytes)
    requires Consistent(s) && forall p :: p in s.files && p != file ==> p in after
    ensures Consistent(Store(after, s.entries, s.saved)) <==> file in after || !Quarantined(s.entries, file)
  {
    if Quarantined(s.entries, file) {
      var i :| 0 <= i < |s.entries| && s.entries[i].quarantinePath == file;
    }
  }

  lemma RestoreOneKeepsConsistent(s: Store, id: Bytes, f: RestoreFaults)
    requires Consistent(s)
    ensures Consistent(RestoreOne(s, id, f).0)
  {
    var s' := RestoreOne(s, id, f).0;
    if Find(s.entries, id).Some? {
      var k := FindPosition(s.entries, id);
      if s'.entries != s.entries {
        DropKeepsInStep(s.files, s'.files, s.entries, k);
      }
    }
  }

  lemma {:induction false} RestoreEachKeepsConsistent(s: Store, ids: seq<Bytes>, faults: seq<RestoreFaults>)
    requires Consistent(s) && |ids| == |faults|
    ensures Consistent(RestoreEach(s, ids, faults).0)
    decreases |ids|
  {
    if ids == [] {
    } else {
      RestoreOneKeepsConsistent(s, ids[0], faults[0]);
      RestoreEachKeepsConsistent(RestoreOne(s, ids[0], faults[0]).0, ids[1..], faults[1..]);
    }
  }

  /** Deleting gives up exactly the one quarantined file and its record, or nothing. */
  lemma RemoveGivesUpOne(s: Store, id: Bytes, fails: bool, saveFails: bool)
    requires Consistent(s)
    ensures var (s', ok) := Remove(s, id, fails, saveFails);
            && Consistent(s') && (ok <==> !FreshId(s.entries, id) && !fails && !saveFails)
            && (FreshId(s.entries, id) || fails ==> s' == s) && (s'.saved == if ok then s'.entries else s.saved)
            && (forall k :: 0 <= k < |s.entries| && s.entries[k].id == id && !fails ==>
                              s'.files == s.files - {s.entries[k].quarantinePath} &&
                              s'.entries == s.entries[..k] + s.entries[k + 1..])
  {
    FindsUnlessFresh(s.entries, id);
    if Find(s.entries, id).Some? && !fails {
      var k := FindPosition(s.entries, id);
      DropKeepsInStep(s.files, s.files - {s.entries[k].quarantinePath}, s.entries, k);
    }
  }

  lemma {:induction false} FindsUnlessFresh(entries: seq<QuarantineEntry>, id: Bytes)
    ensures Find(entries, id).None? <==> FreshId(entries, id)
  {
    if entries == [] {
    } else {
      FindsUnlessFresh(entries[1..], id);
      assert forall i :: 0 < i < |entries| ==> entries[i] == entries[1..][i - 1];
      assert forall i :: 0 <= i < |entries[1..]| ==> entries[1..][i] == entries[i + 1];
    }
  }

  // ----- whole histories -----

  datatype Operation =
    | DoQuarantine(file: Bytes, id: Bytes, destination: Bytes, signatures: seq<Bytes>, known: bool,
                   move: MoveFaults, saveFails: bool, rollback: MoveFaults)
    | DoRestore(rid: Bytes, fault: RestoreFaults, restoreSaveFails: bool)
    | DoRestoreAll(faults: seq<RestoreFaults>, allSaveFails: bool)

  ghost predicate Possible(s: Store, op: Operation) {
    match op
    case DoQuarantine(_, _, destination, _, _, _, _, _) => destination !in s.files
    case DoRestore(_, _, _) => true
    case DoRestoreAll(faults, _) => |faults| == |s.entries|
  }

  function Perform(s: Store, op: Operation): Store
    requires Possible(s, op)
  {
    match op
    case DoQuarantine(file, id, destination, signatures, known, move, saveFails, rollback) =>
      Quarantine(s, file, id, destination, signatures, known, move, saveFails, rollback).0
    case DoRestore(id, f, saveFails) => Restore(s, id, f, saveFails).0
    case DoRestoreAll(faults, saveFails) => RestoreAll(s, faults, saveFails).0
  }

  ghost predicate IsHistory(stores: seq<Store>, ops: seq<Operation>) {
    && |stores| == |ops| + 1
    && forall k :: 0 <= k < |ops| ==> Possible(stores[k], ops[k]) && stores[k + 1] == Perform(stores[k], ops[k])
  }

  lemma PerformKeeps(s: Store, op: Operation)
    requires Possible(s, op)
    ensures Kept(s.files, Perform(s, op).files)
  {
    match op
    case DoQuarantine(file, id, destination, signatures, known, move, saveFails, rollback) =>
      QuarantineKeeps(s, file, id, destination, signatures, known, move, saveFails, rollback);
    case DoRestore(id, f, saveFails) => RestoreOneKeeps(s, id, f);
    case DoRestoreAll(faults, saveFails) => RestoreEachKeeps(s, Ids(s.entries), faults);
  }

  /** Over any history of quarantines and restores with any faults, no contents are lost. */
  lemma {:induction false} HistoryKeeps(stores: seq<Store>, ops: seq<Operation>, k: nat)
    requires IsHistory(stores, ops) && k < |stores|
    ensures Kept(stores[0].files, stores[k].files)
  {
    if k == 0 {
      SameKept(stores[0].files, stores[0].files);
    } else {
      HistoryKeeps(stores, ops, k - 1);
      PerformKeeps(stores[k - 1], ops[k - 1]);
      KeptTransitive(stores[0].files, stores[k - 1].files, stores[k].files);
    }
  }

  /** Fresh ids, and no record's own file is ever quarantined again. */
  ghost predicate Careful(s: Store, op: Operation) {
    op.DoQuarantine? ==> FreshId(s.entries, op.id) && !Quarantined(s.entries, op.file)
  }

  lemma {:induction false} HistoryStaysConsistent(stores: seq<Store>, ops: seq<Operation>, k: nat)
    requires IsHistory(stores, ops) && k < |stores| && Consistent(stores[0])
    requires forall j :: 0 <= j < |ops| ==> Careful(stores[j], ops[j])
    ensures Consistent(stores[k])
  {
    if k == 0 {
    } else {
      HistoryStaysConsistent(stores, ops, k - 1);
      var s := stores[k - 1];
      assert Careful(s, ops[k - 1]);
      match ops[k - 1]
      case DoQuarantine(file, id, destination, signatures, known, move, saveFails, rollback) =>
        QuarantineKeepsConsistentIff(s, file, id, destination, signatures, known, move, saveFails, rollback);
      case DoRestore(id, f, saveFails) => RestoreOneKeepsConsistent(s, id, f);
      case DoRestoreAll(faults, saveFails) => RestoreEachKeepsConsistent(s, Ids(s.entries), faults);
    }
  }

  /** No record wants its file back at a place where a quarantined file lies. */
  ghost predicate Apart(entries: seq<QuarantineEntry>) {
    forall i :: 0 <= i < |entries| ==> !Quarantined(entries, entries[i].originalPath)
  }

  /** The reserved destination is nobody's original path. */
  ghost predicate Unwanted(s: Store, op: Operation) {
    op.DoQuarantine? ==> forall i :: 0 <= i < |s.entries| ==> s.entries[i].originalPath != op.destination
  }

  lemma OneMoreStaysApart(entries: seq<QuarantineEntry>, entry: QuarantineEntry)
    requires Apart(entries) && !Quarantined(entries, entry.originalPath) && entry.originalPath != entry.quarantinePath
    requires forall i :: 0 <= i < |entries| ==> entries[i].originalPath != entry.quarantinePath
    ensures Apart(entries + [entry])
  {
    var more := entries + [entry];
    forall i, j | 0 <= i < |more| && 0 <= j < |more| ensures more[j].quarantinePath != more[i].originalPath {
      if i < |entries| { assert !Quarantined(entries, entries[i].originalPath); }
      if j < |entries| { assert entries[j].quarantinePath == more[j].quarantinePath; }
    }
  }

  lemma FewerStayApart(entries: seq<QuarantineEntry>, fewer: seq<QuarantineEntry>)
    requires Apart(entries) && forall e :: e in fewer ==> e in entries
    ensures Apart(fewer)
  {
    forall i, j | 0 <= i < |fewer| && 0 <= j < |fewer| ensures fewer[j].quarantinePath != fewer[i].originalPath {
      assert fewer[i] in entries && fewer[j] in entries;
      var k :| 0 <= k < |entries| && entries[k] == fewer[i];
      assert !Quarantined(entries, entries[k].originalPath);
    }
  }

  /** Every record with the id goes, and no other. */
  lemma {:induction false} RemoveKeepsOthers(entries: seq<QuarantineEntry>, id: Bytes)
    ensures forall e :: e in RemoveById(entries, id) <==> e in entries && e.id != id
  {
    if entries == [] {
    } else {
      RemoveKeepsOthers(entries[1..], id);
    }
  }

  lemma {:induction false} RestoreEachKeepsApart(s: Store, ids: seq<Bytes>, faults: seq<RestoreFaults>)
    requires Apart(s.entries) && |ids| == |faults|
    ensures Apart(RestoreEach(s, ids, faults).0.entries)
    decreases |ids|
  {
    if ids == [] {
    } else {
      RemoveKeepsOthers(s.entries, ids[0]);
      FewerStayApart(s.entries, RestoreOne(s, ids[0], faults[0]).0.entries);
      RestoreEachKeepsApart(RestoreOne(s, ids[0], faults[0]).0, ids[1..], faults[1..]);
    }
  }

  lemma QuarantineKeepsApart(s: Store, file: Bytes, id: Bytes, destination: Bytes, signatures: seq<Bytes>,
                             known: bool, move: MoveFaults, saveFails: bool, rollback: MoveFaults)
    requires Apart(s.entries) && FreshId(s.entries, id) && destination !in s.files && !Quarantined(s.entries, file)
    requires forall i :: 0 <= i < |s.entries| ==> s.entries[i].originalPath != destination
    ensures Apart(Quarantine(s, file, id, destination, signatures, known, move, saveFails, rollback).0.entries)
  {
    if file in s.files {
      var entry := NewEntry(s, file, id, destination, signatures, known);
      QuarantineOutcome(s, file, id, destination, signatures, known, move, saveFails, rollback);
      OneMoreStaysApart(s.entries, entry);
    }
  }

  lemma {:induction false} HistoryStaysApart(stores: seq<Store>, ops: seq<Operation>, k: nat)
    requires IsHistory(stores, ops) && k < |stores| && Apart(stores[0].entries)
    requires forall j :: 0 <= j < |ops| ==> Careful(stores[j], ops[j]) && Unwanted(stores[j], ops[j])
    ensures Apart(stores[k].entries)
  {
    if k == 0 {
    } else {
      HistoryStaysApart(stores, ops, k - 1);
      var s := stores[k - 1];
      assert Careful(s, ops[k - 1]) && Unwanted(s, ops[k - 1]);
      match ops[k - 1]
      case DoQuarantine(file, id, destination, signatures, known, move, saveFails, rollback) =>
        QuarantineKeepsApart(s, file, id, destination, signatures, known, move, saveFails, rollback);
      case DoRestore(id, f, saveFails) =>
        RemoveKeepsOthers(s.entries, id);
        FewerStayApart(s.entries, stores[k].entries);
      case DoRestoreAll(faults, saveFails) => RestoreEachKeepsApart(s, Ids(s.entries), faults);
    }
  }

  // ----- success and rollback -----

  /**
   * Quarantining succeeds iff the file exists, can be moved, and the record can be saved. Then
   * the records in memory and on disk are the old ones followed by the file's, found under its
   * id; otherwise both are as they were.
   */
  lemma QuarantineSucceedsIff(s: Store, file: Bytes, id: Bytes, destination: Bytes, signatures: seq<Bytes>,
                              known: bool, move: MoveFaults, saveFails: bool, rollback: MoveFaults)
    requires FreshId(s.entries, id) && destination !in s.files
    ensures var (s', ok) := Quarantine(s, file, id, destination, signatures, known, move, saveFails, rollback);
            && (ok <==> file in s.files && MoveSucceeds(move) && !saveFails)
            && (ok ==>
                  var record := QuarantineEntry(id, file, destination, signatures,
                                                if known then Some(s.files[file].mode) else None);
                  && s'.entries == s.entries + [record] && s'.saved == s.entries + [record]
                  && Find(s'.entries, id) == Some(record)
                  && file !in s'.files && destination in s'.files
                  && s'.files[destination].contents == s.files[file].contents)
            && (!ok ==> s'.entries == s.entries && s'.saved == s.saved)
  {
    if file in s.files {
      FindLast(s.entries, NewEntry(s, file, id, destination, signatures, known));
      RemoveLast(s.entries, NewEntry(s, file, id, destination, signatures, known));
    }
  }

  /**
   * A restore succeeds iff the record exists, its place is free, the file can be moved and the
   * records can be saved. The records on disk change only then, to those without it.
   */
  lemma RestoreSucceedsIff(s: Store, id: Bytes, f: RestoreFaults, saveFails: bool)
    requires Consistent(s)
    ensures var (s', ok) := Restore(s, id, f, saveFails);
            && (ok ==> !FreshId(s.entries, id))
            && (s'.saved == if ok then s'.entries else s.saved)
            && (forall k :: 0 <= k < |s.entries| && s.entries[k].id == id ==>
                              var moved := s.entries[k].originalPath !in s.files && !f.parentFails &&
                                           MoveSucceeds(f.move);
                              && (ok <==> moved && !saveFails)
                              && s'.entries == if moved then s.entries[..k] + s.entries[k + 1..] else s.entries)
  {
    FindsUnlessFresh(s.entries, id);
    if Find(s.entries, id).Some? {
      var k := FindPosition(s.entries, id);
    }
  }

  /** When the record cannot be saved the file goes back, and nothing else has changed. */
  lemma FailedSaveRollsBack(s: Store, file: Bytes, id: Bytes, destination: Bytes, signatures: seq<Bytes>,
                            known: bool, move: MoveFaults, rollback: MoveFaults)
    requires FreshId(s.entries, id) && destination !in s.files
    requires MoveSucceeds(rollback)
    ensures var (s', ok) := Quarantine(s, file, id, destination, signatures, known, move, true, rollback);
            && !ok && s'.entries == s.entries && s'.saved == s.saved
            && s.files.Keys <= s'.files.Keys
            && (forall p :: p in s.files ==> s'.files[p].contents == s.files[p].contents)
            && (MoveSucceeds(move) ==> s'.files.Keys == s.files.Keys)
            && (!move.renameFails && !rollback.renameFails ==> s' == s)
  {
    if file in s.files {
      RemoveLast(s.entries, NewEntry(s, file, id, destination, signatures, known));
    }
  }

  // ----- round trip -----

  lemma {:induction false} FindLast(entries: seq<QuarantineEntry>, last: QuarantineEntry)
    requires FreshId(entries, last.id)
    ensures Find(entries + [last], last.id) == Some(last)
  {
    if entries == [] {
      assert [] + [last] == [last];
    } else {
      assert (entries + [last])[1..] == entries[1..] + [last];
      FindLast(entries[1..], last);
    }
  }

  /** A file moved away, moved back and given its mode again. */
  lemma ThereAndBack(files: Files, file: Bytes, destination: Bytes, move: MoveFaults, back: MoveFaults,
                     mode: Option<nat>, modeFails: bool)
    requires file in files && destination !in files && MoveFile(files, file, destination, move).1
    ensures var there := MoveFile(files, file, destination, move).0;
            var (again, ok) := MoveFile(there, destination, file, back);
            var final := ReapplyMode(again, file, mode, modeFails);
            && file !in there && destination in there && there[destination].contents == files[file].contents
            && (ok <==> MoveSucceeds(back))
            && (ok ==>
                  && final.Keys == files.Keys && final[file].contents == files[file].contents
                  && (forall p :: p in files && p != file ==> final[p] == files[p])
                  && (mode == Some(files[file].mode) && !modeFails ==> final[file] == files[file]))
  {
  }

  /** Quarantine, then restore: same paths, contents and records, and the mode if reapplied. */
  lemma RoundTrip(s: Store, file: Bytes, id: Bytes, destination: Bytes, signatures: seq<Bytes>, known: bool,
                  move: MoveFaults, rollback: MoveFaults, f: RestoreFaults)
    requires FreshId(s.entries, id) && destination !in s.files
    requires Quarantine(s, file, id, destination, signatures, known, move, false, rollback).1
    ensures var s1 := Quarantine(s, file, id, destination, signatures, known, move, false, rollback).0;
            var (s2, ok) := RestoreOne(s1, id, f);
            && file !in s1.files && destination in s1.files && s1.files[destination].contents == s.files[file].contents
            && (ok <==> !f.parentFails && MoveSucceeds(f.move))
            && (ok ==>
                  && s2.entries == s.entries && s2.files.Keys == s.files.Keys
                  && (forall p :: p in s.files ==> s2.files[p].contents == s.files[p].contents)
                  && (forall p :: p in s.files && p != file ==> s2.files[p] == s.files[p])
                  && (known && !f.modeFails ==> s2.files == s.files))
  {
    var entry := NewEntry(s, file, id, destination, signatures, known);
    FindLast(s.entries, entry);
    RemoveLast(s.entries, entry);
    ThereAndBack(s.files, file, destination, move, f.move, entry.mode, f.modeFails);
  }

  // ----- restoreAll -----

  /** The records whose restore failed. */
  function Failed(entries: seq<QuarantineEntry>, oks: seq<bool>): seq<QuarantineEntry>
    requires |entries| == |oks|
  {
    if entries == [] then []
    else (if oks[0] then [] else [entries[0]]) + Failed(entries[1..], oks[1..])
  }

  lemma FoundInTheMiddle(kept: seq<QuarantineEntry>, left: seq<QuarantineEntry>)
    requires UniqueIds(kept + left) && left != []
    ensures Find(kept + left, left[0].id) == Some(left[0])
    ensures RemoveById(kept + left, left[0].id) == kept + left[1..]
  {
    var all := kept + left;
    assert all[|kept|] == left[0];
    FindSome(all, |kept|);
    var k := FindPosition(all, left[0].id);
    assert k == |kept|;
    assert all[..k] == kept && all[k + 1..] == left[1..];
  }

  lemma {:induction false} FindSome(entries: seq<QuarantineEntry>, k: nat)
    requires k < |entries|
    ensures Find(entries, entries[k].id).Some?
  {
    if k == 0 {
    } else {
      FindSome(entries[1..], k - 1);
    }
  }

  lemma {:induction false} RestoreEachKeepsFailures(s: Store, kept: seq<QuarantineEntry>, left: seq<QuarantineEntry>,
                                                    faults: seq<RestoreFaults>)
    requires s.entries == kept + left && UniqueIds(s.entries) && |faults| == |left|
    ensures var (s', oks) := RestoreEach(s, Ids(left), faults);
            s'.entries == kept + Failed(left, oks)
    decreases |left|
  {
    if left == [] {
    } else {
      var (first, ok) := RestoreOne(s, left[0].id, faults[0]);
      var kept' := AfterOneRestore(s, kept, left, faults[0]);
      assert Ids(left)[1..] == Ids(left[1..]);
      RestoreEachKeepsFailures(first, kept', left[1..], faults[1..]);
      var (last, oks) := RestoreEach(first, Ids(left[1..]), faults[1..]);
      assert RestoreEach(s, Ids(left), faults) == (last, [ok] + oks);
      OneMoreFailed(kept, left, ok, oks);
    }
  }

  lemma OneMoreFailed(kept: seq<QuarantineEntry>, left: seq<QuarantineEntry>, ok: bool, oks: seq<bool>)
    requires left != [] && |oks| == |left| - 1
    ensures (if ok then kept else kept + [left[0]]) + Failed(left[1..], oks) == kept + Failed(left, [ok] + oks)
  {
    assert ([ok] + oks)[1..] == oks;
  }

  lemma UniqueRest(kept: seq<QuarantineEntry>, left: seq<QuarantineEntry>)
    requires UniqueIds(kept + left) && left != []
    ensures UniqueIds(kept + left[1..])
  {
    var all, rest := kept + left, kept + left[1..];
    forall i, j | 0 <= i < j < |rest| ensures rest[i].id != rest[j].id {
      assert rest[i] == all[if i < |kept| then i else i + 1];
      assert rest[j] == all[if j < |kept| then j else j + 1];
    }
  }

  lemma NothingBefore(left: seq<QuarantineEntry>) returns (kept: seq<QuarantineEntry>)
    ensures kept + left == left && |kept| == 0
  {
    kept := left[..0];
  }

  lemma AllFailuresKept(s: Store, ids: seq<Bytes>, faults: seq<RestoreFaults>)
    requires UniqueIds(s.entries) && |faults| == |s.entries| && ids == Ids(s.entries)
    ensures RestoreEach(s, ids, faults).0.entries == Failed(s.entries, RestoreEach(s, ids, faults).1)
  {
    var kept := NothingBefore(s.entries);
    RestoreEachKeepsFailures(s, kept, s.entries, faults);
  }

  /** restoreAll keeps exactly the records whose restore failed, in order. */
  lemma RestoreAllKeepsFailures(s: Store, faults: seq<RestoreFaults>, saveFails: bool)
    requires UniqueIds(s.entries) && |faults| == |s.entries|
    ensures var oks := RestoreEach(s, Ids(s.entries), faults).1;
            var (s', ok) := RestoreAll(s, faults, saveFails);
            && s'.entries == Failed(s.entries, oks) && (ok <==> !saveFails && s'.entries == [])
            && s'.saved == if saveFails then s.saved else s'.entries
  {
    var ids := Ids(s.entries);
    AllFailuresKept(s, ids, faults);
    NoneFailed(s.entries, RestoreEach(s, ids, faults).1);
    RestoreEachSavesNothing(s, ids, faults);
  }

  lemma {:induction false} RestoreEachSavesNothing(s: Store, ids: seq<Bytes>, faults: seq<RestoreFaults>)
    requires |ids| == |faults|
    ensures RestoreEach(s, ids, faults).0.saved == s.saved
    decreases |ids|
  {
    if ids == [] {
    } else {
      RestoreEachSavesNothing(RestoreOne(s, ids[0], faults[0]).0, ids[1..], faults[1..]);
    }
  }

  lemma {:induction false} NoneFailed(entries: seq<QuarantineEntry>, oks: seq<bool>)
    requires |entries| == |oks|
    ensures Failed(entries, oks) == [] <==> false !in oks
  {
    if entries == [] {
    } else {
      NoneFailed(entries[1..], oks[1..]);
    }
  }

  const NO_FAULTS: RestoreFaults := RestoreFaults(false, MoveFaults(false, false, false, 0), false)

  ghost predicate Faultless(faults: seq<RestoreFaults>) {
    forall i :: 0 <= i < |faults| ==> faults[i] == NO_FAULTS
  }

  /** The place is free, and no earlier record of the list wants it too. */
  ghost predicate FirstForFreePath(files: Files, left: seq<QuarantineEntry>, i: nat)
    requires i < |left|
  {
    left[i].originalPath !in files && forall j :: 0 <= j < i ==> left[j].originalPath != left[i].originalPath
  }

  lemma {:induction false} FaultlessRestores(s: Store, kept: seq<QuarantineEntry>, left: seq<QuarantineEntry>,
                                             faults: seq<RestoreFaults>)
    requires s.entries == kept + left && UniqueIds(s.entries) && InStep(s.files, left)
    requires |faults| == |left| && Faultless(faults)
    requires forall i :: 0 <= i < |left| ==> !Quarantined(left, left[i].originalPath)
    ensures var oks := RestoreEach(s, Ids(left), faults).1;
            forall i :: 0 <= i < |left| ==> (oks[i] <==> FirstForFreePath(s.files, left, i))
    decreases |left|
  {
    if left == [] {
    } else {
      var (first, ok) := RestoreOne(s, left[0].id, faults[0]);
      var rest := left[1..];
      var kept' := AfterOneRestore(s, kept, left, faults[0]);
      assert Ids(left)[1..] == Ids(rest);
      assert faults[0] == NO_FAULTS;
      AfterFaultlessRestore(s, left, first);
      FaultlessRestores(first, kept', rest, faults[1..]);
      var oks := RestoreEach(first, Ids(rest), faults[1..]).1;
      assert RestoreEach(s, Ids(left), faults).1 == [ok] + oks;
      OneMoreForFreePath(s.files, first.files, left, ok, oks);
    }
  }

  /** The records after one restore of the loop: the restored one is gone, the others as before. */
  lemma AfterOneRestore(s: Store, kept: seq<QuarantineEntry>, left: seq<QuarantineEntry>, f: RestoreFaults)
    returns (kept': seq<QuarantineEntry>)
    requires s.entries == kept + left && UniqueIds(s.entries) && left != []
    ensures var (first, ok) := RestoreOne(s, left[0].id, f);
            && Find(s.entries, left[0].id) == Some(left[0])
            && first.entries == kept' + left[1..] && UniqueIds(first.entries)
            && kept' == if ok then kept else kept + [left[0]]
  {
    FoundInTheMiddle(kept, left);
    UniqueRest(kept, left);
    kept' := if RestoreOne(s, left[0].id, f).1 then kept else kept + [left[0]];
    assert kept + left == kept + [left[0]] + left[1..];
  }

  /** What one faultless restore changes for the records still to come. */
  lemma AfterFaultlessRestore(s: Store, left: seq<QuarantineEntry>, first: Store)
    requires left != [] && InStep(s.files, left)
    requires Find(s.entries, left[0].id) == Some(left[0]) && first == RestoreOne(s, left[0].id, NO_FAULTS).0
    requires forall i :: 0 <= i < |left| ==> !Quarantined(left, left[i].originalPath)
    ensures RestoreOne(s, left[0].id, NO_FAULTS).1 <==> left[0].originalPath !in s.files
    ensures left[0].originalPath in s.files ==> first == s
    ensures var rest := left[1..];
            && InStep(first.files, rest)
            && (forall i :: 0 <= i < |rest| ==> !Quarantined(rest, rest[i].originalPath))
            && (forall i :: 0 <= i < |rest| ==>
                              (rest[i].originalPath in first.files <==>
                               rest[i].originalPath in s.files || rest[i].originalPath == left[0].originalPath))
  {
    var rest := left[1..];
    forall i | 0 <= i < |rest|
      ensures rest[i] == left[i + 1] && !Quarantined(rest, rest[i].originalPath)
      ensures rest[i].originalPath != left[0].quarantinePath
    {
      assert !Quarantined(left, left[i + 1].originalPath);
      assert forall j :: 0 <= j < |rest| ==> rest[j].quarantinePath == left[j + 1].quarantinePath;
    }
  }

  lemma OneMoreForFreePath(files: Files, after: Files, left: seq<QuarantineEntry>, ok: bool, oks: seq<bool>)
    requires left != [] && |oks| == |left| - 1
    requires ok <==> left[0].originalPath !in files
    requires forall i :: 0 <= i < |left[1..]| ==>
                           (left[1..][i].originalPath in after <==>
                            left[1..][i].originalPath in files || left[1..][i].originalPath == left[0].originalPath)
    requires forall i :: 0 <= i < |left[1..]| ==> (oks[i] <==> FirstForFreePath(after, left[1..], i))
    ensures forall i :: 0 <= i < |left| ==> (([ok] + oks)[i] <==> FirstForFreePath(files, left, i))
  {
    var rest := left[1..];
    forall i | 0 < i < |left|
      ensures FirstForFreePath(files, left, i) <==> FirstForFreePath(after, rest, i - 1)
    {
      assert rest[i - 1] == left[i];
      if FirstForFreePath(after, rest, i - 1) {
        forall j | 0 <= j < i ensures left[j].originalPath != left[i].originalPath {
          if j > 0 { assert rest[j - 1] == left[j]; }
        }
      }
    }
  }

  /** When nothing fails, restoreAll restores the first record for each path that was free. */
  lemma RestoreAllWithoutFaults(s: Store, faults: seq<RestoreFaults>)
    requires Consistent(s) && Apart(s.entries) && |faults| == |s.entries| && Faultless(faults)
    ensures var oks := RestoreEach(s, Ids(s.entries), faults).1;
            forall i :: 0 <= i < |s.entries| ==> (oks[i] <==> FirstForFreePath(s.files, s.entries, i))
  {
    var kept := NothingBefore(s.entries);
    FaultlessRestores(s, kept, s.entries, faults);
  }

  /** So it does after any history that began with no records. */
  lemma {:induction false} RestoreAllAfterHistory(stores: seq<Store>, ops: seq<Operation>, k: nat,
                                                  faults: seq<RestoreFaults>)
    requires IsHistory(stores, ops) && k < |stores| && stores[0].entries == []
    requires forall j :: 0 <= j < |ops| ==> Careful(stores[j], ops[j]) && Unwanted(stores[j], ops[j])
    requires |faults| == |stores[k].entries| && Faultless(faults)
    ensures var s := stores[k];
            var oks := RestoreEach(s, Ids(s.entries), faults).1;
            forall i :: 0 <= i < |s.entries| ==> (oks[i] <==> FirstForFreePath(s.files, s.entries, i))
  {
    HistoryStaysConsistent(stores, ops, k);
    HistoryStaysApart(stores, ops, k);
    RestoreAllWithoutFaults(stores[k], faults);
  }

  /** A restore whose metadata cannot be saved leaves a record on disk without its file. */
  lemma UnsavedRestoreIsStale(s: Store, id: Bytes, f: RestoreFaults)
    requires Consistent(s) && s.saved == s.entries && RestoreOne(s, id, f).1
    ensures var (s', ok) := Restore(s, id, f, true);
            !ok && Consistent(s') && !Consistent(Store(s'.files, s'.saved, s'.saved))
  {
    RestoreOneKeepsConsistent(s, id, f);
    var k := FindPosition(s.entries, id);
    var entry := s.entries[k];
    assert entry.originalPath != entry.quarantinePath;
    assert s.saved[k].quarantinePath !in RestoreOne(s, id, f).0.files;
  }
}
