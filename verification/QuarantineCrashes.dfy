// What a process death between two primitives of a quarantine operation leaves behind. The
// operations are spelled out as the changes they make on disk; dying after some of them is
// the same as everything after them failing, and the next start reads the records on disk.
module QuarantineCrashes {
  import opened Options
  import opened ByteStrings
  import opened QuarantineStore
  import opened QuarantineSafety

  /** One change that reaches the disk; attempts that fail make none. */
  datatype Primitive =
    | Rename(source: Bytes, destination: Bytes)
    | Copy(source: Bytes, destination: Bytes, mode: nat)
    | Delete(path: Bytes)
    | SetMode(path: Bytes, mode: nat)
    | ReplaceRecords(records: seq<QuarantineEntry>)

  datatype Disk = Disk(files: Files, saved: seq<QuarantineEntry>)

  function Do(d: Disk, p: Primitive): Disk {
    match p
    case Rename(source, destination) =>
      if source in d.files then d.(files := (d.files - {source})[destination := d.files[source]]) else d
    case Copy(source, destination, mode) =>
      if source in d.files then d.(files := d.files[destination := FileObject(d.files[source].contents, mode)]) else d
    case Delete(path) => d.(files := d.files - {path})
    case SetMode(path, mode) =>
      if path in d.files then d.(files := d.files[path := FileObject(d.files[path].contents, mode)]) else d
    case ReplaceRecords(records) => d.(saved := records)
  }

  function DoAll(d: Disk, ps: seq<Primitive>): Disk
    decreases |ps|
  {
    if ps == [] then d else DoAll(Do(d, ps[0]), ps[1..])
  }

  lemma {:induction false} DoAllConcat(d: Disk, x: seq<Primitive>, y: seq<Primitive>)
    ensures DoAll(d, x + y) == DoAll(DoAll(d, x), y)
    decreases |x|
  {
    if x == [] {
      assert x + y == y;
    } else {
      assert (x + y)[1..] == x[1..] + y;
      DoAllConcat(Do(d, x[0]), x[1..], y);
    }
  }

  lemma DoOne(d: Disk, p: Primitive)
    ensures DoAll(d, [p]) == Do(d, p)
  {
    assert [p][1..] == [];
  }

  function DiskOf(s: Store): Disk {
    Disk(s.files, s.saved)
  }

  /** The store of the next process: it reads the records back from disk. */
  function Reload(d: Disk): Store {
    Store(d.files, d.saved, d.saved)
  }

  // ----- the operations, change by change -----

  function MoveTrace(files: Files, source: Bytes, destination: Bytes, f: MoveFaults): seq<Primitive> {
    if source in files && !f.renameFails then [Rename(source, destination)]
    else if source !in files || destination in files || f.copyFails then []
    else if f.removeFails then [Copy(source, destination, f.copiedMode)]
    else [Copy(source, destination, f.copiedMode), Delete(source)]
  }

  /** After the move in: the records with the new one, or the rollback. */
  function RecordTrace(s: Store, file: Bytes, id: Bytes, destination: Bytes, signatures: seq<Bytes>, known: bool,
                       moved: Files, saveFails: bool, rollback: MoveFaults): seq<Primitive>
    requires file in s.files
  {
    if saveFails then MoveTrace(moved, destination, file, rollback)
    else
      [ReplaceRecords(s.entries + [NewEntry(s, file, id, destination, signatures, known)])]
  }

  function QuarantineTrace(s: Store, file: Bytes, id: Bytes, destination: Bytes, signatures: seq<Bytes>, known: bool,
                           move: MoveFaults, saveFails: bool, rollback: MoveFaults): seq<Primitive>
  {
    if file !in s.files then []
    else
      var (moved, ok) := MoveFile(s.files, file, destination, move);
      MoveTrace(s.files, file, destination, move) +
      if ok then RecordTrace(s, file, id, destination, signatures, known, moved, saveFails, rollback) else []
  }

  function ModeTrace(entry: QuarantineEntry, f: RestoreFaults): seq<Primitive> {
    if entry.mode.None? || f.modeFails then [] else [SetMode(entry.originalPath, entry.mode.value)]
  }

  function RestoreOneTrace(s: Store, id: Bytes, f: RestoreFaults): seq<Primitive> {
    match Find(s.entries, id)
    case None => []
    case Some(entry) =>
      if entry.originalPath in s.files || f.parentFails then []
      else
        var ok := MoveFile(s.files, entry.quarantinePath, entry.originalPath, f.move).1;
        MoveTrace(s.files, entry.quarantinePath, entry.originalPath, f.move) +
        if ok then ModeTrace(entry, f) else []
  }

  function SaveTrace(entries: seq<QuarantineEntry>, saveFails: bool): seq<Primitive> {
    if saveFails then [] else [ReplaceRecords(entries)]
  }

  function RestoreTrace(s: Store, id: Bytes, f: RestoreFaults, saveFails: bool): seq<Primitive> {
    var (restored, ok) := RestoreOne(s, id, f);
    RestoreOneTrace(s, id, f) + SaveTrace(restored.entries, saveFails || !ok)
  }

  function RestoreEachTrace(s: Store, ids: seq<Bytes>, faults: seq<RestoreFaults>): seq<Primitive>
    requires |ids| == |faults|
    decreases |ids|
  {
    if ids == [] then []
    else
      RestoreOneTrace(s, ids[0], faults[0]) +
      RestoreEachTrace(RestoreOne(s, ids[0], faults[0]).0, ids[1..], faults[1..])
  }

  function Trace(s: Store, op: Operation): seq<Primitive>
    requires Possible(s, op)
  {
    match op
    case DoQuarantine(file, id, destination, signatures, known, move, saveFails, rollback) =>
      QuarantineTrace(s, file, id, destination, signatures, known, move, saveFails, rollback)
    case DoRestore(id, f, saveFails) => RestoreTrace(s, id, f, saveFails)
    case DoRestoreAll(faults, saveFails) =>
      RestoreEachTrace(s, Ids(s.entries), faults) +
      SaveTrace(RestoreEach(s, Ids(s.entries), faults).0.entries, saveFails)
  }

  // ----- a cut trace is a trace with later failures -----

  const STUCK: MoveFaults := MoveFaults(true, true, true, 0)

  /** A move cut short is a move that failed, or one not begun. */
  lemma MoveCut(d: Disk, source: Bytes, destination: Bytes, f: MoveFaults, n: nat) returns (f': MoveFaults)
    requires destination !in d.files && n <= |MoveTrace(d.files, source, destination, f)|
    ensures DoAll(d, MoveTrace(d.files, source, destination, f)[..n]) ==
            d.(files := MoveFile(d.files, source, destination, f').0)
    ensures n < |MoveTrace(d.files, source, destination, f)| ==> !MoveFile(d.files, source, destination, f').1
    ensures n == |MoveTrace(d.files, source, destination, f)| ==> f' == f
  {
    var trace := MoveTrace(d.files, source, destination, f);
    if n == |trace| {
      f' := f;
      assert trace[..n] == trace;
      MoveWhole(d, source, destination, f);
    } else if n == 0 {
      f' := STUCK;
    } else {
      f' := f.(removeFails := true);
      assert trace[..n] == [trace[0]];
      DoOne(d, trace[0]);
    }
  }

  lemma MoveWhole(d: Disk, source: Bytes, destination: Bytes, f: MoveFaults)
    requires destination !in d.files
    ensures DoAll(d, MoveTrace(d.files, source, destination, f)) ==
            d.(files := MoveFile(d.files, source, destination, f).0)
  {
    var trace := MoveTrace(d.files, source, destination, f);
    if |trace| == 1 {
      assert trace == [trace[0]];
      DoOne(d, trace[0]);
    } else if |trace| == 2 {
      assert trace == [trace[0]] + [trace[1]];
      DoAllConcat(d, [trace[0]], [trace[1]]);
      DoOne(d, trace[0]);
      DoOne(Do(d, trace[0]), trace[1]);
    }
  }

  /** Where a cut falls in a trace of two parts. */
  lemma CutOfConcat(d: Disk, x: seq<Primitive>, y: seq<Primitive>, n: nat)
    requires n <= |x + y|
    ensures n <= |x| ==> DoAll(d, (x + y)[..n]) == DoAll(d, x[..n])
    ensures n >= |x| ==> DoAll(d, (x + y)[..n]) == DoAll(DoAll(d, x), y[..n - |x|])
  {
    if n <= |x| { assert (x + y)[..n] == x[..n]; }
    if n >= |x| {
      assert (x + y)[..n] == x + y[..n - |x|];
      DoAllConcat(d, x, y[..n - |x|]);
    }
  }

  lemma QuarantineCut(s: Store, file: Bytes, id: Bytes, destination: Bytes, signatures: seq<Bytes>, known: bool,
                      move: MoveFaults, saveFails: bool, rollback: MoveFaults, n: nat)
    returns (move': MoveFaults, saveFails': bool, rollback': MoveFaults)
    requires destination !in s.files
    requires n <= |QuarantineTrace(s, file, id, destination, signatures, known, move, saveFails, rollback)|
    ensures DoAll(DiskOf(s),
                  QuarantineTrace(s, file, id, destination, signatures, known, move, saveFails, rollback)[..n]) ==
            DiskOf(Quarantine(s, file, id, destination, signatures, known, move', saveFails', rollback').0)
    ensures n == |QuarantineTrace(s, file, id, destination, signatures, known, move, saveFails, rollback)| ==>
              move' == move && saveFails' == saveFails && rollback' == rollback
  {
    move', saveFails', rollback' := move, saveFails, rollback;
    if file in s.files {
      var d := DiskOf(s);
      var (moved, ok) := MoveFile(s.files, file, destination, move);
      var x := MoveTrace(s.files, file, destination, move);
      var y := if ok then RecordTrace(s, file, id, destination, signatures, known, moved, saveFails, rollback) else [];
      CutOfConcat(d, x, y, n);
      if n < |x| {
        move' := MoveCut(d, file, destination, move, n);
      } else {
        MoveWhole(d, file, destination, move);
        if ok && saveFails {
          rollback' := MoveCut(d.(files := moved), destination, file, rollback, n - |x|);
        } else if ok && n == |x| {
          saveFails', rollback' := true, STUCK;
        } else if ok {
          assert y[..1] == y;
          DoOne(d.(files := moved), y[0]);
        }
      }
    }
  }

  lemma RestoreOneCut(s: Store, id: Bytes, f: RestoreFaults, n: nat) returns (f': RestoreFaults)
    requires n <= |RestoreOneTrace(s, id, f)|
    ensures DoAll(DiskOf(s), RestoreOneTrace(s, id, f)[..n]) == DiskOf(RestoreOne(s, id, f').0)
    ensures n == |RestoreOneTrace(s, id, f)| ==> f' == f
  {
    f' := f;
    if RestoreOneTrace(s, id, f) != [] {
      var entry := Find(s.entries, id).value;
      var d := DiskOf(s);
      var (moved, ok) := MoveFile(s.files, entry.quarantinePath, entry.originalPath, f.move);
      var x := MoveTrace(s.files, entry.quarantinePath, entry.originalPath, f.move);
      var y := if ok then ModeTrace(entry, f) else [];
      CutOfConcat(d, x, y, n);
      if n < |x| {
        var move := MoveCut(d, entry.quarantinePath, entry.originalPath, f.move, n);
        f' := f.(move := move);
      } else {
        MoveWhole(d, entry.quarantinePath, entry.originalPath, f.move);
        if n == |x| && y != [] {
          f' := f.(modeFails := true);
        } else if y != [] {
          assert y[..1] == y;
          DoOne(d.(files := moved), y[0]);
        }
      }
    }
  }

  lemma RestoreCut(s: Store, id: Bytes, f: RestoreFaults, saveFails: bool, n: nat)
    returns (f': RestoreFaults, saveFails': bool)
    requires n <= |RestoreTrace(s, id, f, saveFails)|
    ensures DoAll(DiskOf(s), RestoreTrace(s, id, f, saveFails)[..n]) == DiskOf(Restore(s, id, f', saveFails').0)
    ensures n == |RestoreTrace(s, id, f, saveFails)| ==> f' == f && saveFails' == saveFails
  {
    var (restored, ok) := RestoreOne(s, id, f);
    var x, y := RestoreOneTrace(s, id, f), SaveTrace(restored.entries, saveFails || !ok);
    CutOfConcat(DiskOf(s), x, y, n);
    if n <= |x| {
      f' := RestoreOneCut(s, id, f, n);
      saveFails' := saveFails || y != [];
    } else {
      f', saveFails' := f, saveFails;
      var whole := RestoreOneCut(s, id, f, |x|);
      assert x[..|x|] == x && y[..n - |x|] == y;
      DoOne(DoAll(DiskOf(s), x), y[0]);
    }
  }

  /** Faults that keep every restore of the loop from beginning. */
  function Blocked(n: nat): (r: seq<RestoreFaults>)
    ensures |r| == n
  {
    if n == 0 then [] else [RestoreFaults(true, STUCK, true)] + Blocked(n - 1)
  }

  lemma {:induction false} NothingRestored(s: Store, ids: seq<Bytes>)
    ensures RestoreEach(s, ids, Blocked(|ids|)).0 == s
    decreases |ids|
  {
    if ids == [] {
    } else {
      assert Blocked(|ids|)[1..] == Blocked(|ids[1..]|);
      NothingRestored(s, ids[1..]);
    }
  }

  lemma {:induction false} RestoreEachCut(s: Store, ids: seq<Bytes>, faults: seq<RestoreFaults>, n: nat)
    returns (faults': seq<RestoreFaults>)
    requires |ids| == |faults| && n <= |RestoreEachTrace(s, ids, faults)|
    ensures |faults'| == |faults|
    ensures DoAll(DiskOf(s), RestoreEachTrace(s, ids, faults)[..n]) == DiskOf(RestoreEach(s, ids, faults').0)
    ensures n == |RestoreEachTrace(s, ids, faults)| ==> faults' == faults
    decreases |ids|
  {
    faults' := faults;
    if ids != [] {
      var first := RestoreOne(s, ids[0], faults[0]).0;
      var x, y := RestoreOneTrace(s, ids[0], faults[0]), RestoreEachTrace(first, ids[1..], faults[1..]);
      CutOfConcat(DiskOf(s), x, y, n);
      if n < |x| {
        var cut := RestoreOneCut(s, ids[0], faults[0], n);
        faults' := [cut] + Blocked(|ids[1..]|);
        NothingRestored(RestoreOne(s, ids[0], cut).0, ids[1..]);
        assert faults'[1..] == Blocked(|ids[1..]|);
      } else {
        var whole := RestoreOneCut(s, ids[0], faults[0], |x|);
        assert x[..|x|] == x;
        var rest := RestoreEachCut(first, ids[1..], faults[1..], n - |x|);
        faults' := [faults[0]] + rest;
        assert faults'[1..] == rest;
      }
    }
  }

  lemma RestoreAllCut(s: Store, faults: seq<RestoreFaults>, saveFails: bool, n: nat)
    returns (faults': seq<RestoreFaults>, saveFails': bool)
    requires |faults| == |s.entries| && n <= |Trace(s, DoRestoreAll(faults, saveFails))|
    ensures |faults'| == |faults|
    ensures DoAll(DiskOf(s), Trace(s, DoRestoreAll(faults, saveFails))[..n]) ==
            DiskOf(RestoreAll(s, faults', saveFails').0)
    ensures n == |Trace(s, DoRestoreAll(faults, saveFails))| ==> faults' == faults && saveFails' == saveFails
  {
    var ids := Ids(s.entries);
    var x := RestoreEachTrace(s, ids, faults);
    var y := SaveTrace(RestoreEach(s, ids, faults).0.entries, saveFails);
    CutOfConcat(DiskOf(s), x, y, n);
    if n <= |x| {
      faults' := RestoreEachCut(s, ids, faults, n);
      saveFails' := saveFails || y != [];
    } else {
      faults', saveFails' := faults, saveFails;
      var whole := RestoreEachCut(s, ids, faults, |x|);
      assert x[..|x|] == x && y[..n - |x|] == y;
      DoOne(DoAll(DiskOf(s), x), y[0]);
    }
  }

  // ----- what a crash can and cannot lose -----

  /** What is on disk after the process died having made n changes of the operation. */
  function DiskAfterCrash(s: Store, op: Operation, n: nat): Disk
    requires Possible(s, op) && n <= |Trace(s, op)|
  {
    DoAll(DiskOf(s), Trace(s, op)[..n])
  }

  /** Dying in the middle is the same, on disk, as everything from there on failing. */
  lemma CrashIsAFault(s: Store, op: Operation, n: nat) returns (op': Operation)
    requires Possible(s, op) && n <= |Trace(s, op)|
    ensures Possible(s, op') && DiskAfterCrash(s, op, n) == DiskOf(Perform(s, op'))
    ensures n == |Trace(s, op)| ==> op' == op
  {
    match op
    case DoQuarantine(file, id, destination, signatures, known, move, saveFails, rollback) =>
      var m, v, b := QuarantineCut(s, file, id, destination, signatures, known, move, saveFails, rollback, n);
      op' := DoQuarantine(file, id, destination, signatures, known, m, v, b);
    case DoRestore(id, f, saveFails) =>
      var f', v := RestoreCut(s, id, f, saveFails, n);
      op' := DoRestore(id, f', v);
    case DoRestoreAll(faults, saveFails) =>
      var faults', v := RestoreAllCut(s, faults, saveFails, n);
      op' := DoRestoreAll(faults', v);
  }

  /** The trace in full is the operation. */
  lemma TraceIsOperation(s: Store, op: Operation)
    requires Possible(s, op)
    ensures DoAll(DiskOf(s), Trace(s, op)) == DiskOf(Perform(s, op))
  {
    var op' := CrashIsAFault(s, op, |Trace(s, op)|);
    assert Trace(s, op)[..|Trace(s, op)|] == Trace(s, op);
  }

  /** No contents are lost, wherever the process dies. */
  lemma CrashKeeps(s: Store, op: Operation, n: nat)
    requires Possible(s, op) && n <= |Trace(s, op)|
    ensures Kept(s.files, DiskAfterCrash(s, op, n).files)
  {
    var op' := CrashIsAFault(s, op, n);
    PerformKeeps(s, op');
  }

  /** The store of a process that could not read the records, and goes on without them. */
  function Forgotten(d: Disk): Store {
    Store(d.files, [], d.saved)
  }

  /** An operation that returned, or one during which the process died and was started again. */
  datatype Occurrence = Returned(op: Operation) | Died(op: Operation, changes: nat, corrupt: bool)

  ghost predicate CanOccur(s: Store, o: Occurrence) {
    Possible(s, o.op) && (o.Died? ==> o.changes <= |Trace(s, o.op)|)
  }

  function Next(s: Store, o: Occurrence): Store
    requires CanOccur(s, o)
  {
    match o
    case Returned(op) => Perform(s, op)
    case Died(op, changes, corrupt) =>
      var d := DiskAfterCrash(s, op, changes);
      if corrupt then Forgotten(d) else Reload(d)
  }

  ghost predicate IsLife(stores: seq<Store>, occurrences: seq<Occurrence>) {
    && |stores| == |occurrences| + 1
    && forall k :: 0 <= k < |occurrences| ==>
                     CanOccur(stores[k], occurrences[k]) && stores[k + 1] == Next(stores[k], occurrences[k])
  }

  /** Over any history of operations, faults, crashes and unreadable records no contents are lost. */
  lemma {:induction false} LifeKeeps(stores: seq<Store>, occurrences: seq<Occurrence>, k: nat)
    requires IsLife(stores, occurrences) && k < |stores|
    ensures Kept(stores[0].files, stores[k].files)
  {
    if k == 0 {
      SameKept(stores[0].files, stores[0].files);
    } else {
      LifeKeeps(stores, occurrences, k - 1);
      var s, o := stores[k - 1], occurrences[k - 1];
      if o.Died? { CrashKeeps(s, o.op, o.changes); } else { PerformKeeps(s, o.op); }
      KeptTransitive(stores[0].files, s.files, stores[k].files);
    }
  }

  /**
   * After unreadable records, quarantining one file successfully replaces all records on disk
   * by its own; every other file stays where it is, on record no longer.
   */
  lemma UnreadableThenQuarantine(s: Store, file: Bytes, id: Bytes, destination: Bytes, signatures: seq<Bytes>,
                                 known: bool, move: MoveFaults, saveFails: bool, rollback: MoveFaults)
    requires s.entries == [] && destination !in s.files
    ensures var (s', ok) := Quarantine(s, file, id, destination, signatures, known, move, saveFails, rollback);
            && (ok <==> file in s.files && MoveSucceeds(move) && !saveFails)
            && s'.saved == (if !ok then s.saved
                            else [QuarantineEntry(id, file, destination, signatures,
                                                  if known then Some(s.files[file].mode) else None)])
            && (forall p :: p in s.files && p != file ==> p in s'.files && s'.files[p] == s.files[p])
  {
    QuarantineSucceedsIff(s, file, id, destination, signatures, known, move, saveFails, rollback);
    if file in s.files {
      var entry := QuarantineEntry(id, file, destination, signatures,
                                   if known then Some(s.files[file].mode) else None);
      assert s.entries + [entry] == [entry];
    }
  }

  /** Restores find nothing then, and restoreAll empties the records on disk and reports success. */
  lemma UnreadableThenRestore(s: Store, id: Bytes, f: RestoreFaults, saveFails: bool)
    requires s.entries == []
    ensures Restore(s, id, f, saveFails) == (s, false)
    ensures RestoreAll(s, [], saveFails) == (if saveFails then s else s.(saved := []), !saveFails)
  {
    assert Ids(s.entries) == [];
  }

  /**
   * Dying while a file is quarantined leaves records and files in step; the file is neither
   * in place nor on record exactly between the completed move and the next change.
   */
  lemma CrashInQuarantine(s: Store, op: Operation, n: nat)
    requires Consistent(s) && s.saved == s.entries && Careful(s, op)
    requires op.DoQuarantine? && Possible(s, op) && op.file in s.files && n < |Trace(s, op)|
    ensures var next := Reload(DiskAfterCrash(s, op, n));
            && Consistent(next) && next.entries == s.entries
            && (op.file !in next.files <==>
                  MoveSucceeds(op.move) && n == |MoveTrace(s.files, op.file, op.destination, op.move)|)
            && (op.file !in next.files ==> op.destination in next.files && !Quarantined(next.entries, op.destination)
                                           && next.files[op.destination].contents == s.files[op.file].contents)
  {
    var d := DiskOf(s);
    var (moved, ok) := MoveFile(s.files, op.file, op.destination, op.move);
    var x := MoveTrace(s.files, op.file, op.destination, op.move);
    var y := if !ok then []
             else RecordTrace(s, op.file, op.id, op.destination, op.signatures, op.known, moved, op.saveFails,
                              op.rollback);
    CutOfConcat(d, x, y, n);
    if n < |x| {
      var f := MoveCut(d, op.file, op.destination, op.move, n);
    } else {
      MoveWhole(d, op.file, op.destination, op.move);
      if op.saveFails {
        var f := MoveCut(d.(files := moved), op.destination, op.file, op.rollback, n - |x|);
      }
    }
    AfterLosing(s, DiskAfterCrash(s, op, n).files, op.file);
  }

  /** The moved file, and all others, after a restore cut short before its records are saved. */
  lemma AfterCutRestore(s: Store, id: Bytes, f: RestoreFaults, n: nat)
    requires Find(s.entries, id).Some? && n <= |RestoreOneTrace(s, id, f)| && RestoreOneTrace(s, id, f) != []
    requires Find(s.entries, id).value.quarantinePath in s.files
    ensures var entry := Find(s.entries, id).value;
            var d := DoAll(DiskOf(s), RestoreOneTrace(s, id, f)[..n]);
            && d.saved == s.saved
            && (forall p :: p in s.files && p != entry.quarantinePath ==> p in d.files)
            && (entry.quarantinePath in d.files <==>
                  n < |MoveTrace(s.files, entry.quarantinePath, entry.originalPath, f.move)| || !MoveSucceeds(f.move))
  {
    var entry := Find(s.entries, id).value;
    var d := DiskOf(s);
    var (moved, ok) := MoveFile(s.files, entry.quarantinePath, entry.originalPath, f.move);
    var x := MoveTrace(s.files, entry.quarantinePath, entry.originalPath, f.move);
    var y := if ok then ModeTrace(entry, f) else [];
    CutOfConcat(d, x, y, n);
    if n < |x| {
      var g := MoveCut(d, entry.quarantinePath, entry.originalPath, f.move, n);
    } else {
      MoveWhole(d, entry.quarantinePath, entry.originalPath, f.move);
      if n > |x| {
        assert y[..1] == y;
        DoOne(d.(files := moved), y[0]);
      }
    }
  }

  /** Dying while a file is restored leaves its record stale exactly once the move out is done. */
  lemma CrashInRestore(s: Store, id: Bytes, f: RestoreFaults, saveFails: bool, n: nat)
    requires Consistent(s) && s.saved == s.entries && n < |RestoreTrace(s, id, f, saveFails)|
    ensures Find(s.entries, id).Some?
    ensures var entry := Find(s.entries, id).value;
            var next := Reload(DiskAfterCrash(s, DoRestore(id, f, saveFails), n));
            && next.entries == s.entries
            && (Consistent(next) <==>
                  n < |MoveTrace(s.files, entry.quarantinePath, entry.originalPath, f.move)| || !MoveSucceeds(f.move))
  {
    var (restored, ok) := RestoreOne(s, id, f);
    var x, y := RestoreOneTrace(s, id, f), SaveTrace(restored.entries, saveFails || !ok);
    var k := FindPosition(s.entries, id);
    assert Quarantined(s.entries, s.entries[k].quarantinePath);
    CutOfConcat(DiskOf(s), x, y, n);
    AfterCutRestore(s, id, f, n);
    AfterLosing(s, DoAll(DiskOf(s), x[..n]).files, s.entries[k].quarantinePath);
  }
}
