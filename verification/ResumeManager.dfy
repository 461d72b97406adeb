// ResumeManager: the class as the source writes it, each call proved equal to a function
// on its state, the checkpoint file and what the environment does to the write.
module ResumeManagement {
  import opened Options
  import opened ByteStrings
  import opened OrderedBytes
  import opened Checkpoint

  /** The temporary file cannot be opened or renamed, or `kept` bytes of the text arrive. */
  datatype WriteOutcome = Failed | Written(kept: nat)

  datatype Manager = Manager(
    root: Bytes,
    next: Bytes,
    unfinished: seq<Bytes>,
    discoveryFinished: bool,
    sinceLastSave: nat)

  datatype Effect = Effect(manager: Manager, disk: Option<Bytes>, ok: bool)

  function Cut(text: Bytes, kept: nat): Bytes {
    if kept < |text| then text[..kept] else text
  }

  function Save(m: Manager, disk: Option<Bytes>, status: Bytes, io: WriteOutcome): Effect {
    match io
    case Failed => Effect(m, disk, false)
    case Written(kept) =>
      Effect(m.(sinceLastSave := 0), Some(Cut(Text(Record(m.root, status, m.next)), kept)), true)
  }

  function MaybeSave(interval: nat, m: Manager, disk: Option<Bytes>, status: Bytes, io: WriteOutcome): Effect {
    var counted := m.(sinceLastSave := m.sinceLastSave + 1);
    if counted.sinceLastSave < interval then Effect(counted, disk, true)
    else Save(counted, disk, status, io)
  }

  /** The checkpoint a scan of this root picks up, if any. */
  function Resumable(disk: Option<Bytes>, root: Bytes): Option<Bytes> {
    if disk.None? then None
    else
      match Load(disk.value)
      case Some(Record(savedRoot, status, next)) =>
        if status == RUNNING && savedRoot == root then Some(next) else None
      case None => None
  }

  function Begin(m: Manager, disk: Option<Bytes>, root: Bytes, io: WriteOutcome): Effect {
    var cleared := Manager(root, [], [], false, m.sinceLastSave);
    match Resumable(disk, root)
    case Some(next) => Effect(cleared.(next := next), disk, true)
    case None => Save(cleared, disk, RUNNING, io)
  }

  function AddFile(m: Manager, file: Bytes): Manager {
    var unfinished := SetInsert(m.unfinished, file);
    m.(unfinished := unfinished, next := unfinished[0])
  }

  function FileCompleted(interval: nat, m: Manager, disk: Option<Bytes>, file: Bytes, io: WriteOutcome): Effect {
    var erased := m.(unfinished := SetErase(m.unfinished, file));
    if erased.unfinished == [] then
      if erased.discoveryFinished then Save(erased.(next := []), disk, COMPLETED, io)
      else Effect(erased, disk, true)
    else MaybeSave(interval, erased.(next := erased.unfinished[0]), disk, RUNNING, io)
  }

  function DiscoveryFinished(m: Manager, disk: Option<Bytes>, io: WriteOutcome): Effect {
    var finished := m.(discoveryFinished := true);
    if finished.unfinished == [] then Save(finished.(next := []), disk, COMPLETED, io)
    else Save(finished, disk, RUNNING, io)
  }

  // ----- each call in plain terms -----

  /** The checkpoint on disk is a running one of this root, at this path. */
  predicate RunningAt(disk: Option<Bytes>, root: Bytes, next: Bytes) {
    disk.Some? && Load(disk.value) == Some(Record(root, RUNNING, next))
  }

  /** The disk after an attempt to write a record, of which some bytes may not arrive. */
  function Attempt(disk: Option<Bytes>, root: Bytes, status: Bytes, next: Bytes, io: WriteOutcome): Option<Bytes> {
    match io
    case Failed => disk
    case Written(kept) =>
      var text := root + [NEWLINE] + status + [NEWLINE] + next + [NEWLINE];
      Some(if kept < |text| then text[..kept] else text)
  }

  /** begin takes up a running checkpoint of its root and writes nothing, or starts one afresh. */
  lemma BeginIsExact(m: Manager, disk: Option<Bytes>, root: Bytes, io: WriteOutcome)
    ensures var e := Begin(m, disk, root, io);
            && e.manager.root == root && e.manager.unfinished == [] && !e.manager.discoveryFinished
            && (forall next :: RunningAt(disk, root, next) ==>
                                 e.manager.next == next && e.disk == disk && e.ok
                                 && e.manager.sinceLastSave == m.sinceLastSave)
            && (!(exists next :: RunningAt(disk, root, next)) ==>
                  e.manager.next == [] && e.disk == Attempt(disk, root, RUNNING, [], io) && e.ok == io.Written?)
  {
    if Resumable(disk, root).Some? {
      assert RunningAt(disk, root, Resumable(disk, root).value);
    }
  }

  /**
   * A completion that leaves files writes the least of them when it is the interval-th since
   * the last save; one that leaves none writes only after the end of discovery, and before it
   * changes nothing but the set.
   */
  lemma CompletionIsExact(interval: nat, m: Manager, disk: Option<Bytes>, file: Bytes, io: WriteOutcome)
    requires StrictlySorted(m.unfinished)
    ensures var e := FileCompleted(interval, m, disk, file, io);
            var left := e.manager.unfinished;
            && e.manager.root == m.root && e.manager.discoveryFinished == m.discoveryFinished
            && StrictlySorted(left) && (forall t :: t in left <==> t in m.unfinished && t != file)
            && (left == [] && !m.discoveryFinished ==>
                  e.disk == disk && e.ok && e.manager.next == m.next && e.manager.sinceLastSave == m.sinceLastSave)
            && (left == [] && m.discoveryFinished ==>
                  && e.manager.next == [] && e.ok == io.Written? && e.disk == Attempt(disk, m.root, COMPLETED, [], io)
                  && e.manager.sinceLastSave == if io.Written? then 0 else m.sinceLastSave)
            && (left != [] ==>
                  && e.manager.next in left && (forall t :: t in left ==> AtMost(e.manager.next, t))
                  && var due := m.sinceLastSave + 1 >= interval;
                  && e.ok == (!due || io.Written?)
                  && e.disk == (if due then Attempt(disk, m.root, RUNNING, e.manager.next, io) else disk)
                  && e.manager.sinceLastSave == if due && io.Written? then 0 else m.sinceLastSave + 1)
  {
    SetEraseKeeps(m.unfinished, file);
    var left := SetErase(m.unfinished, file);
    forall t | t in left ensures AtMost(left[0], t) { FirstIsLeast(left, t); }
  }

  /** The end of discovery writes: completed when nothing is left, else the least file left. */
  lemma DiscoveryFinishedIsExact(m: Manager, disk: Option<Bytes>, io: WriteOutcome)
    ensures var e := DiscoveryFinished(m, disk, io);
            && e.manager.root == m.root && e.manager.unfinished == m.unfinished && e.manager.discoveryFinished
            && e.ok == io.Written? && e.manager.sinceLastSave == (if io.Written? then 0 else m.sinceLastSave)
            && e.manager.next == (if m.unfinished == [] then [] else m.next)
            && e.disk == Attempt(disk, m.root, if m.unfinished == [] then COMPLETED else RUNNING, e.manager.next, io)
  {
  }

  /** Adding a file changes the set and the next file, which is the least. */
  lemma AddIsExact(m: Manager, file: Bytes)
    requires StrictlySorted(m.unfinished)
    ensures var after := AddFile(m, file);
            && after == m.(unfinished := after.unfinished, next := after.next)
            && StrictlySorted(after.unfinished)
            && (forall t :: t in after.unfinished <==> t in m.unfinished || t == file)
            && after.next in after.unfinished && (forall t :: t in after.unfinished ==> AtMost(after.next, t))
  {
    SetInsertKeeps(m.unfinished, file);
    var unfinished := SetInsert(m.unfinished, file);
    assert unfinished[0] in unfinished;
    forall t | t in unfinished ensures AtMost(unfinished[0], t) { FirstIsLeast(unfinished, t); }
  }

  /** Completions one after another, each write arriving up to `kept` bytes. */
  function CompleteEach(interval: nat, m: Manager, disk: Option<Bytes>, files: seq<Bytes>, kept: nat): Effect
    decreases |files|
  {
    if files == [] then Effect(m, disk, true)
    else
      var e := FileCompleted(interval, m, disk, files[0], Written(kept));
      CompleteEach(interval, e.manager, e.disk, files[1..], kept)
  }

  lemma {:induction false} EraseShrinksByOne(s: seq<Bytes>, x: Bytes)
    ensures |SetErase(s, x)| >= |s| - 1
  {
    if s == [] {
    } else {
      EraseShrinksByOne(s[1..], x);
    }
  }

  /** Every interval-th completion writes the state of that moment, and none before it does. */
  lemma {:induction false} EveryIntervalSaves(interval: nat, m: Manager, disk: Option<Bytes>, files: seq<Bytes>,
                                              kept: nat)
    requires files != [] && m.sinceLastSave + |files| <= interval && |m.unfinished| > |files|
    ensures var e := CompleteEach(interval, m, disk, files, kept);
            && e.manager.unfinished != [] && e.manager.next == e.manager.unfinished[0]
            && if m.sinceLastSave + |files| == interval
               then e.disk == Some(Cut(Text(Record(m.root, RUNNING, e.manager.next)), kept))
                    && e.manager.sinceLastSave == 0
               else e.disk == disk && e.manager.sinceLastSave == m.sinceLastSave + |files|
    decreases |files|
  {
    EraseShrinksByOne(m.unfinished, files[0]);
    var e := FileCompleted(interval, m, disk, files[0], Written(kept));
    if |files| > 1 {
      EveryIntervalSaves(interval, e.manager, e.disk, files[1..], kept);
    } else {
      assert files[1..] == [];
    }
  }

  class CheckpointFile {
    var text: Option<Bytes>

    constructor (text: Option<Bytes>)
      ensures this.text == text
    {
      this.text := text;
    }
  }

  class ResumeManager {
    const interval: nat
    const file: CheckpointFile
    var root: Bytes
    var nextFile: Bytes
    var unfinishedFiles: seq<Bytes>
    var discoveryFinished: bool
    var sinceLastSave: nat

    constructor (file: CheckpointFile, interval: nat)
      requires interval > 0
      ensures this.file == file && this.interval == interval
      ensures State() == Manager([], [], [], false, 0)
    {
      this.file, this.interval := file, interval;
      root, nextFile, unfinishedFiles, discoveryFinished, sinceLastSave := [], [], [], false, 0;
    }

    function State(): Manager
      reads this
    {
      Manager(root, nextFile, unfinishedFiles, discoveryFinished, sinceLastSave)
    }

    method SaveStatus(status: Bytes, io: WriteOutcome) returns (ok: bool)
      modifies this, file
      ensures Effect(State(), file.text, ok) == Save(old(State()), old(file.text), status, io)
    {
      if io == Failed { return false; }
      file.text := Some(Cut(Text(Record(root, status, nextFile)), io.kept));
      sinceLastSave := 0;
      return true;
    }

    method MaybeSaveStatus(status: Bytes, io: WriteOutcome) returns (ok: bool)
      modifies this, file
      ensures Effect(State(), file.text, ok) == MaybeSave(interval, old(State()), old(file.text), status, io)
    {
      sinceLastSave := sinceLastSave + 1;
      if sinceLastSave < interval { return true; }
      ok := SaveStatus(status, io);
    }

    method BeginScan(scanRoot: Bytes, io: WriteOutcome) returns (ok: bool, resumed: bool)
      modifies this, file
      ensures Effect(State(), file.text, ok) == Begin(old(State()), old(file.text), scanRoot, io)
      ensures resumed == Resumable(old(file.text), scanRoot).Some?
    {
      unfinishedFiles, discoveryFinished, resumed := [], false, false;
      root := scanRoot;
      if file.text.Some? {
        var loaded := Load(file.text.value);
        if loaded.Some? {
          nextFile := loaded.value.next;
          if loaded.value.status == RUNNING && loaded.value.root == root {
            return true, true;
          }
        }
      }
      nextFile := [];
      ok := SaveStatus(RUNNING, io);
    }

    method Add(path: Bytes) returns (ok: bool)
      modifies this
      ensures ok && State() == AddFile(old(State()), path)
    {
      unfinishedFiles := SetInsert(unfinishedFiles, path);
      nextFile := unfinishedFiles[0];
      return true;
    }

    method Complete(path: Bytes, io: WriteOutcome) returns (ok: bool)
      modifies this, file
      ensures Effect(State(), file.text, ok) == FileCompleted(interval, old(State()), old(file.text), path, io)
    {
      unfinishedFiles := SetErase(unfinishedFiles, path);
      if unfinishedFiles == [] {
        if discoveryFinished {
          nextFile := [];
          ok := SaveStatus(COMPLETED, io);
          return;
        }
        return true;
      }
      nextFile := unfinishedFiles[0];
      ok := MaybeSaveStatus(RUNNING, io);
    }

    method FinishDiscovery(io: WriteOutcome) returns (ok: bool)
      modifies this, file
      ensures Effect(State(), file.text, ok) ==
              DiscoveryFinished(old(State()), old(file.text), io)
    {
      discoveryFinished := true;
      if unfinishedFiles == [] {
        nextFile := [];
        ok := SaveStatus(COMPLETED, io);
        return;
      }
      ok := SaveStatus(RUNNING, io);
    }
  }
}
