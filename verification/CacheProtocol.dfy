// The write-behind cache over many runs: updates reach the in-memory map first, a queue
// second and the table last, in batches that may fail; generations tell completed full
// scans what to prune. Any run may be cut off between two steps.
module CacheProtocol {
  import opened Options
  import opened ByteStrings
  import opened Tries
  import opened CacheStore
  import Scanning

  /**
   * The assumption the cache rests on, as functions: a path with its modification time and
   * size determines the contents, the signature file's time determines the signatures.
   */
  datatype Ground = Ground(contents: (Bytes, int, nat) -> Bytes, signatures: int -> seq<Bytes>)

  /** The verdict a fresh scan computes. */
  ghost function Truth(g: Ground, path: Bytes, m: FileMetadata): FileVerdict {
    if Infected(g.signatures(m.signaturesLastModified), g.contents(path, m.lastModified, m.size))
    then Malicious else Clean
  }

  /** The pipeline's verdict on a scan report is that verdict. */
  lemma ReportGivesTruth(g: Ground, path: Bytes, m: FileMetadata, report: seq<Bytes>)
    requires Scanning.IsReport(g.signatures(m.signaturesLastModified), g.contents(path, m.lastModified, m.size), report)
    ensures (if report == [] then Clean else Malicious) == Truth(g, path, m)
  {
    Scanning.ReportIsExact(g.signatures(m.signaturesLastModified), g.contents(path, m.lastModified, m.size), report);
  }

  /** CacheManager::cachedVerdict. */
  function CachedVerdict(memory: map<Bytes, CacheEntry>, path: Bytes, m: FileMetadata): Option<FileVerdict> {
    if path in memory && memory[path].metadata == m then Some(memory[path].verdict) else None
  }

  datatype WriterPc = Waiting | Writing(batch: seq<CacheEntry>, last: bool) | Returned

  datatype Phase = Scanning | Draining | Pruning | Promoting | Committed

  /**
   * unsubmitted: entries in memory that their thread has not handed to the writer yet.
   * lost: paths with an entry in a batch that failed, or dropped because the writer stopped.
   * unread: paths whose rows could not be read at the start, and not updated since.
   */
  datatype Run = Run(
    full: bool,
    generation: nat,
    memory: map<Bytes, CacheEntry>,
    unsubmitted: map<Bytes, CacheEntry>,
    queue: seq<CacheEntry>,
    stop: bool,
    writer: WriterPc,
    phase: Phase,
    lost: set<Bytes>,
    unread: set<Bytes>)

  datatype World = World(rows: map<Bytes, CacheEntry>, lastCompleted: nat, run: Option<Run>)

  datatype Event =
    | Load(full: bool, readFails: bool)
    | Hit(path: Bytes, metadata: FileMetadata)
    | Scanned(path: Bytes, metadata: FileMetadata)
    | Submit(path: Bytes)
    | WriterTakes
    | WriterWrites(ok: bool)
    | Finish
    | Joined
    | Prune(ok: bool)
    | Promote(ok: bool)
    | Stop

  // ----- steps -----

  function Update(run: Run, path: Bytes, m: FileMetadata, v: FileVerdict): Run {
    var e := CacheEntry(path, m, v, run.generation);
    run.(memory := run.memory[path := e], unsubmitted := run.unsubmitted[path := e],
         unread := run.unread - {path})
  }

  ghost predicate Enabled(batchSize: nat, w: World, e: Event) {
    match e
    case Load(_, _) => w.run.None? && w.lastCompleted + 1 < TWO_63
    case Hit(path, m) => Updatable(w, path) && CachedVerdict(w.run.value.memory, path, m).Some?
    case Scanned(path, m) => Updatable(w, path)
    case Submit(path) => w.run.Some? && path in w.run.value.unsubmitted
    case WriterTakes =>
      && w.run.Some? && w.run.value.writer.Waiting?
      && (w.run.value.stop || |w.run.value.queue| >= batchSize)
    case WriterWrites(ok) => w.run.Some? && w.run.value.writer.Writing?
    case Finish => w.run.Some? && w.run.value.phase.Scanning?
    case Joined => w.run.Some? && w.run.value.phase.Draining? && w.run.value.writer.Returned?
    case Prune(ok) => w.run.Some? && w.run.value.phase.Pruning?
    case Promote(ok) => w.run.Some? && w.run.value.phase.Promoting?
    case Stop => true
  }

  /** No other update of this path is under way. */
  predicate Updatable(w: World, path: Bytes) {
    w.run.Some? && w.run.value.phase.Scanning? && path !in w.run.value.unsubmitted
  }

  function SubmitEntry(run: Run, path: Bytes): Run
    requires path in run.unsubmitted
  {
    var rest := run.unsubmitted - {path};
    if run.stop then run.(unsubmitted := rest, lost := run.lost + {path})
    else run.(unsubmitted := rest, queue := run.queue + [run.unsubmitted[path]])
  }

  function WriteBatch(w: World, ok: bool): World
    requires w.run.Some? && w.run.value.writer.Writing?
  {
    var run := w.run.value;
    var batch := run.writer.batch;
    var next := if run.writer.last then Returned else Waiting;
    if ok then World(Apply(w.rows, batch), w.lastCompleted, Some(run.(writer := next)))
    else w.(run := Some(run.(writer := next, lost := run.lost + set e | e in batch :: e.path)))
  }

  ghost function Step(g: Ground, batchSize: nat, w: World, e: Event): World
    requires Enabled(batchSize, w, e)
  {
    match e
    case Load(full, readFails) =>
      var memory := if readFails then map[] else w.rows;
      w.(run := Some(Run(full, w.lastCompleted + 1, memory, map[], [], false, Waiting, Scanning, {},
                         w.rows.Keys - memory.Keys)))
    case Hit(path, m) =>
      w.(run := Some(Update(w.run.value, path, m, CachedVerdict(w.run.value.memory, path, m).value)))
    case Scanned(path, m) => w.(run := Some(Update(w.run.value, path, m, Truth(g, path, m))))
    case Submit(path) => w.(run := Some(SubmitEntry(w.run.value, path)))
    case WriterTakes =>
      w.(run := Some(w.run.value.(queue := [], writer := Writing(w.run.value.queue, w.run.value.stop))))
    case WriterWrites(ok) => WriteBatch(w, ok)
    case Finish => w.(run := Some(w.run.value.(stop := true, phase := Draining)))
    case Joined => w.(run := Some(w.run.value.(phase := if w.run.value.full then Pruning else Promoting)))
    case Prune(ok) =>
      World(if ok then Recent(w.rows, w.run.value.generation) else w.rows, w.lastCompleted,
            Some(w.run.value.(phase := Promoting)))
    case Promote(ok) =>
      World(w.rows, if ok then w.run.value.generation else w.lastCompleted, Some(w.run.value.(phase := Committed)))
    case Stop => w.(run := None)
  }

  // ----- invariants -----

  /** The two maps hold the same entries outside the given paths. */
  ghost predicate Agree(a: map<Bytes, CacheEntry>, b: map<Bytes, CacheEntry>, apart: set<Bytes>) {
    forall p :: p !in apart ==> (p in a <==> p in b) && (p in a ==> a[p] == b[p])
  }

  function InFlight(w: WriterPc): seq<CacheEntry> {
    if w.Writing? then w.batch else []
  }

  /** The table as it will be once everything on its way has arrived. */
  function Arriving(rows: map<Bytes, CacheEntry>, run: Run): map<Bytes, CacheEntry> {
    Apply(Apply(rows, InFlight(run.writer)), run.queue) + run.unsubmitted
  }

  /** Paths on which memory and table may have gone different ways. */
  function Parted(run: Run): set<Bytes> {
    run.lost + run.unread
  }

  predicate Unpruned(phase: Phase) {
    phase.Scanning? || phase.Draining? || phase.Pruning?
  }

  /** Write-behind: memory is the table plus what is in flight, queued and unsubmitted. */
  ghost predicate Refines(w: World) {
    w.run.Some? ==>
      var run := w.run.value;
      && run.unread !! run.memory.Keys
      && (Unpruned(run.phase) ==> Agree(run.memory, Arriving(w.rows, run), Parted(run)))
  }

  /** The writer returns with nothing left behind, and only a full scan goes on to prune. */
  ghost predicate Drained(w: World) {
    w.run.Some? ==>
      var run := w.run.value;
      && (run.stop <==> !run.phase.Scanning?)
      && (run.writer.Returned? ==> run.queue == [] && run.stop)
      && (run.writer.Writing? && run.writer.last ==> run.queue == [] && run.stop)
      && (run.phase.Pruning? || run.phase.Promoting? || run.phase.Committed? ==> run.writer.Returned?)
      && (run.phase.Pruning? ==> run.full)
  }

  /** Entries sit under their own path and were stamped no later than `generation`. */
  ghost predicate Stamped(entries: map<Bytes, CacheEntry>, generation: nat) {
    forall p :: p in entries ==> entries[p].path == p && entries[p].generation <= generation
  }

  ghost predicate AllStamped(batch: seq<CacheEntry>, generation: nat) {
    forall e :: e in batch ==> e.generation == generation
  }

  ghost predicate Generations(w: World) {
    && Stamped(w.rows, w.lastCompleted + 1)
    && (w.run.Some? ==>
          var run := w.run.value;
          && (run.generation == w.lastCompleted + 1 || (run.phase.Committed? && run.generation == w.lastCompleted))
          && Stamped(w.rows, run.generation) && Stamped(run.memory, run.generation)
          && Stamped(run.unsubmitted, run.generation)
          && (forall p :: p in run.unsubmitted ==> run.unsubmitted[p].generation == run.generation)
          && AllStamped(run.queue, run.generation) && AllStamped(InFlight(run.writer), run.generation))
  }

  /** Every entry anywhere carries the verdict a fresh scan would give. */
  ghost predicate Honest(g: Ground, e: CacheEntry) {
    e.verdict == Truth(g, e.path, e.metadata)
  }

  ghost predicate AllHonest(g: Ground, entries: map<Bytes, CacheEntry>) {
    forall p :: p in entries ==> entries[p].path == p && Honest(g, entries[p])
  }

  ghost predicate BatchHonest(g: Ground, batch: seq<CacheEntry>) {
    forall e :: e in batch ==> Honest(g, e)
  }

  ghost predicate Transparent(g: Ground, w: World) {
    && AllHonest(g, w.rows)
    && (w.run.Some? ==>
          var run := w.run.value;
          && AllHonest(g, run.memory) && AllHonest(g, run.unsubmitted)
          && BatchHonest(g, run.queue) && BatchHonest(g, InFlight(run.writer)))
  }

  ghost predicate Inv(g: Ground, w: World) {
    Refines(w) && Drained(w) && Generations(w) && Transparent(g, w)
  }

  // ----- preservation -----

  lemma {:induction false} ApplyAgree(a: map<Bytes, CacheEntry>, b: map<Bytes, CacheEntry>, batch: seq<CacheEntry>,
                                      apart: set<Bytes>)
    requires Agree(a, b, apart)
    ensures Agree(Apply(a, batch), Apply(b, batch), apart)
    decreases |batch|
  {
    if batch == [] {
    } else {
      ApplyAgree(a[batch[0].path := batch[0]], b[batch[0].path := batch[0]], batch[1..], apart);
    }
  }

  lemma ApplyTouches(a: map<Bytes, CacheEntry>, batch: seq<CacheEntry>, apart: set<Bytes>)
    requires forall e :: e in batch ==> e.path in apart
    ensures Agree(Apply(a, batch), a, apart)
  {
    forall p | p !in apart
      ensures (p in Apply(a, batch) <==> p in a) && (p in a ==> Apply(a, batch)[p] == a[p])
    {
      ApplyOrigin(a, batch, p);
    }
  }

  lemma SubmitKeepsRefines(rows: map<Bytes, CacheEntry>, run: Run, path: Bytes)
    requires path in run.unsubmitted && run.unsubmitted[path].path == path
    ensures Arriving(rows, run.(unsubmitted := run.unsubmitted - {path},
                                queue := run.queue + [run.unsubmitted[path]])) ==
            Arriving(rows, run)
  {
    ApplyOne(Apply(rows, InFlight(run.writer)), run.queue, run.unsubmitted[path]);
  }

  lemma AgreeAcross(a: map<Bytes, CacheEntry>, b: map<Bytes, CacheEntry>, c: map<Bytes, CacheEntry>,
                    apart: set<Bytes>, more: set<Bytes>)
    requires Agree(a, b, apart) && Agree(b, c, more)
    ensures Agree(a, c, apart + more)
  {
  }

  lemma FailedWriteKeepsRefines(rows: map<Bytes, CacheEntry>, run: Run, lost: set<Bytes>)
    requires Agree(run.memory, Arriving(rows, run), Parted(run)) && run.lost <= lost
    requires forall e :: e in InFlight(run.writer) ==> e.path in lost
    ensures Agree(run.memory, Apply(rows, run.queue) + run.unsubmitted, lost + run.unread)
  {
    ApplyTouches(rows, InFlight(run.writer), lost);
    ApplyAgree(Apply(rows, InFlight(run.writer)), rows, run.queue, lost);
    AgreeAcross(run.memory, Arriving(rows, run), Apply(rows, run.queue) + run.unsubmitted, Parted(run), lost);
  }

  lemma WriteKeepsRefines(w: World, ok: bool)
    requires Refines(w) && w.run.Some? && w.run.value.writer.Writing?
    ensures Refines(WriteBatch(w, ok))
  {
    var w' := WriteBatch(w, ok);
    if !ok && Unpruned(w.run.value.phase) {
      FailedWriteKeepsRefines(w.rows, w.run.value, w'.run.value.lost);
    }
  }

  lemma StepKeepsRefines(g: Ground, batchSize: nat, w: World, e: Event)
    requires Refines(w) && Generations(w) && Enabled(batchSize, w, e)
    ensures Refines(Step(g, batchSize, w, e))
  {
    match e
    case Submit(path) =>
      if !w.run.value.stop { SubmitKeepsRefines(w.rows, w.run.value, path); }
    case WriterWrites(ok) => WriteKeepsRefines(w, ok);
    case _ =>
  }

  lemma StepKeepsDrained(g: Ground, batchSize: nat, w: World, e: Event)
    requires Drained(w) && Enabled(batchSize, w, e)
    ensures Drained(Step(g, batchSize, w, e))
  {
  }

  lemma ApplyStamped(rows: map<Bytes, CacheEntry>, batch: seq<CacheEntry>, generation: nat)
    requires Stamped(rows, generation) && AllStamped(batch, generation)
    ensures Stamped(Apply(rows, batch), generation)
  {
    forall p | p in Apply(rows, batch)
      ensures Apply(rows, batch)[p].path == p && Apply(rows, batch)[p].generation <= generation
    {
      ApplyOrigin(rows, batch, p);
    }
  }

  lemma StepKeepsGenerations(g: Ground, batchSize: nat, w: World, e: Event)
    requires Drained(w) && Generations(w) && Enabled(batchSize, w, e)
    ensures Generations(Step(g, batchSize, w, e))
  {
    if e.WriterWrites? && e.ok {
      ApplyStamped(w.rows, w.run.value.writer.batch, w.run.value.generation);
    }
  }

  lemma ApplyHonest(g: Ground, rows: map<Bytes, CacheEntry>, batch: seq<CacheEntry>)
    requires AllHonest(g, rows) && BatchHonest(g, batch)
    ensures AllHonest(g, Apply(rows, batch))
  {
    forall p | p in Apply(rows, batch)
      ensures Apply(rows, batch)[p].path == p && Honest(g, Apply(rows, batch)[p])
    {
      ApplyOrigin(rows, batch, p);
    }
  }

  lemma StepKeepsTransparent(g: Ground, batchSize: nat, w: World, e: Event)
    requires Transparent(g, w) && Enabled(batchSize, w, e)
    ensures Transparent(g, Step(g, batchSize, w, e))
  {
    if e.WriterWrites? && e.ok {
      ApplyHonest(g, w.rows, w.run.value.writer.batch);
    }
  }

  lemma StepKeepsInv(g: Ground, batchSize: nat, w: World, e: Event)
    requires Inv(g, w) && Enabled(batchSize, w, e)
    ensures Inv(g, Step(g, batchSize, w, e))
  {
    StepKeepsRefines(g, batchSize, w, e);
    StepKeepsDrained(g, batchSize, w, e);
    StepKeepsGenerations(g, batchSize, w, e);
    StepKeepsTransparent(g, batchSize, w, e);
  }

  /**
   * Why no path may have two updates under way: memory took them in one order and the queue
   * in the other, and the two maps then agree only if the paths or the entries do not clash.
   */
  lemma SubmitOrderMatters(entries: map<Bytes, CacheEntry>, a: CacheEntry, b: CacheEntry)
    ensures Apply(entries, [a, b]) == Apply(entries, [b, a]) <==> a.path != b.path || a == b
  {
    assert [a, b] == [a] + [b] && [b, a] == [b] + [a];
    ApplyOne(entries, [a], b);
    ApplyOne(entries, [b], a);
    assert Apply(entries, [] + [a]) == entries[a.path := a] by { ApplyOne(entries, [], a); }
    assert Apply(entries, [] + [b]) == entries[b.path := b] by { ApplyOne(entries, [], b); }
    assert [] + [a] == [a] && [] + [b] == [b];
    if a.path == b.path {
      assert Apply(entries, [a, b])[a.path] == b && Apply(entries, [b, a])[a.path] == a;
    } else {
      assert entries[a.path := a][b.path := b] == entries[b.path := b][a.path := a];
    }
  }

  // ----- runs -----

  const EMPTY: World := World(map[], 0, None)

  /** Any number of runs, one after another, each cut off or complete. */
  ghost predicate IsHistory(g: Ground, batchSize: nat, worlds: seq<World>, events: seq<Event>) {
    && |worlds| == |events| + 1
    && forall k :: 0 <= k < |events| ==>
                     && Enabled(batchSize, worlds[k], events[k])
                     && worlds[k + 1] == Step(g, batchSize, worlds[k], events[k])
  }

  lemma {:induction false} HistoryInv(g: Ground, batchSize: nat, worlds: seq<World>, events: seq<Event>, k: nat)
    requires IsHistory(g, batchSize, worlds, events) && Inv(g, worlds[0]) && k < |worlds|
    ensures Inv(g, worlds[k])
  {
    if k == 0 {
    } else {
      HistoryInv(g, batchSize, worlds, events, k - 1);
      StepKeepsInv(g, batchSize, worlds[k - 1], events[k - 1]);
    }
  }

  /** A state some history of runs leads to, from the first start on. */
  ghost predicate Reached(g: Ground, batchSize: nat, w: World) {
    exists worlds, events ::
      IsHistory(g, batchSize, worlds, events) && worlds[0] == EMPTY && worlds[|events|] == w
  }

  lemma EmptyInv(g: Ground)
    ensures Inv(g, EMPTY)
  {
  }

  lemma ReachedInv(g: Ground, batchSize: nat, w: World)
    requires Reached(g, batchSize, w)
    ensures Inv(g, w)
  {
    var worlds, events :| IsHistory(g, batchSize, worlds, events) && worlds[0] == EMPTY && worlds[|events|] == w;
    EmptyInv(g);
    HistoryInv(g, batchSize, worlds, events, |events|);
  }

  // ----- what it means -----

  /** The writer has returned and the table is still as it left it. */
  predicate Settled(run: Run) {
    run.writer.Returned? && (run.phase.Draining? || run.phase.Pruning?) && run.unsubmitted == map[]
  }

  lemma SettledAgrees(g: Ground, w: World)
    requires Inv(g, w) && w.run.Some? && Settled(w.run.value)
    ensures Agree(w.run.value.memory, w.rows, Parted(w.run.value))
  {
    assert Arriving(w.rows, w.run.value) == w.rows;
  }

  /** After finish() with nothing unsubmitted, table and memory differ at most on the parted paths. */
  lemma FinishedMeansDurable(g: Ground, batchSize: nat, w: World)
    requires Reached(g, batchSize, w) && w.run.Some? && Settled(w.run.value)
    ensures Agree(w.run.value.memory, w.rows, Parted(w.run.value))
    ensures Parted(w.run.value) == {} ==> w.run.value.memory == w.rows
  {
    ReachedInv(g, batchSize, w);
    SettledAgrees(g, w);
    if Parted(w.run.value) == {} {
      assert forall p :: p in w.run.value.memory <==> p in w.rows;
    }
  }

  /** A hit, on any run, is the verdict a fresh scan would give, and never an error. */
  lemma CacheIsTransparent(g: Ground, batchSize: nat, w: World, path: Bytes, m: FileMetadata)
    requires Reached(g, batchSize, w) && w.run.Some?
    ensures var hit := CachedVerdict(w.run.value.memory, path, m);
            hit.Some? ==> hit.value == Truth(g, path, m) && hit.value != Error
  {
    ReachedInv(g, batchSize, w);
  }

  /** An entry of the settled run, durable, and the run that no longer touches it. */
  ghost predicate Kept(w: World, e: CacheEntry) {
    && e.path in w.rows && w.rows[e.path] == e
    && (w.run.Some? ==>
          && w.run.value.generation == e.generation && w.run.value.unsubmitted == map[]
          && w.run.value.writer.Returned? && !w.run.value.phase.Scanning?)
  }

  lemma {:induction false} SettledStaysKept(g: Ground, batchSize: nat, worlds: seq<World>, events: seq<Event>, k: nat,
                                            e: CacheEntry)
    requires IsHistory(g, batchSize, worlds, events) && k < |worlds| && Kept(worlds[0], e)
    requires forall j :: 0 <= j < k ==> !events[j].Load?
    ensures Kept(worlds[k], e)
  {
    if k == 0 {
    } else {
      SettledStaysKept(g, batchSize, worlds, events, k - 1, e);
      assert Enabled(batchSize, worlds[k - 1], events[k - 1]);
    }
  }

  /**
   * A file that a scan of any kind has seen by the time its writer has returned, its entry
   * not lost, is a hit for the next run, with or without pruning in between and however the
   * scan ends: it is not scanned again while unchanged.
   */
  lemma SeenFilesHitNextRun(g: Ground, batchSize: nat, worlds: seq<World>, events: seq<Event>, k: nat,
                            path: Bytes, m: FileMetadata)
    requires IsHistory(g, batchSize, worlds, events) && Reached(g, batchSize, worlds[0])
    requires worlds[0].run.Some? && Settled(worlds[0].run.value)
    requires var run := worlds[0].run.value;
             && path in run.memory && path !in run.lost
             && run.memory[path].metadata == m && run.memory[path].generation == run.generation
    requires k < |events| && events[k].Load? && !events[k].readFails && forall j :: 0 <= j < k ==> !events[j].Load?
    ensures CachedVerdict(worlds[k + 1].run.value.memory, path, m) == Some(Truth(g, path, m))
  {
    ReachedInv(g, batchSize, worlds[0]);
    SettledAgrees(g, worlds[0]);
    var e := worlds[0].run.value.memory[path];
    assert worlds[0].rows[path] == e;
    SettledStaysKept(g, batchSize, worlds, events, k, e);
  }

  predicate Updates(e: Event, path: Bytes) {
    (e.Hit? || e.Scanned?) && e.path == path
  }

  /** From an update until the next one of its path, lookups hit iff the metadata is the same. */
  lemma {:induction false} UpdatedStaysHit(g: Ground, batchSize: nat, worlds: seq<World>, events: seq<Event>, k: nat,
                                           path: Bytes, m: FileMetadata, other: FileMetadata)
    requires IsHistory(g, batchSize, worlds, events) && Reached(g, batchSize, worlds[0]) && 0 < k < |worlds|
    requires events[0] == Scanned(path, m) || events[0] == Hit(path, m)
    requires forall j :: 0 < j < k ==> !events[j].Stop? && !Updates(events[j], path)
    ensures worlds[k].run.Some?
    ensures CachedVerdict(worlds[k].run.value.memory, path, other) ==
            if other == m then Some(Truth(g, path, m)) else None
  {
    if k == 1 {
      ReachedInv(g, batchSize, worlds[0]);
    } else {
      UpdatedStaysHit(g, batchSize, worlds, events, k - 1, path, m, other);
      assert Enabled(batchSize, worlds[k - 1], events[k - 1]);
    }
  }

  lemma OnlyPruningShrinks(g: Ground, batchSize: nat, w: World, e: Event)
    requires Inv(g, w) && Enabled(batchSize, w, e)
    ensures !(w.rows.Keys <= Step(g, batchSize, w, e).rows.Keys) ==>
              e == Prune(true) && w.run.value.full && w.run.value.phase.Pruning? && w.run.value.writer.Returned?
  {
    if e.WriterWrites? && e.ok {
      forall p | p in w.rows ensures p in Apply(w.rows, w.run.value.writer.batch) {
        ApplyOrigin(w.rows, w.run.value.writer.batch, p);
      }
    }
  }

  /** Only the prune step of a full scan, its writer returned, removes rows. */
  lemma OnlyPruningRemoves(g: Ground, batchSize: nat, w: World, e: Event)
    requires Reached(g, batchSize, w) && Enabled(batchSize, w, e)
    ensures !(w.rows.Keys <= Step(g, batchSize, w, e).rows.Keys) ==>
              e == Prune(true) && w.run.value.full && w.run.value.phase.Pruning? && w.run.value.writer.Returned?
  {
    ReachedInv(g, batchSize, w);
    OnlyPruningShrinks(g, batchSize, w, e);
  }

  /**
   * A completed full scan leaves exactly the rows stamped with its generation, and these are
   * the paths memory has stamped with it, whichever run of that generation did the stamping.
   */
  lemma PruneLeavesExactly(g: Ground, batchSize: nat, w: World)
    requires Reached(g, batchSize, w) && w.run.Some? && Settled(w.run.value) && w.run.value.phase.Pruning?
    ensures var run, left := w.run.value, Recent(w.rows, w.run.value.generation);
            && (forall p :: p in left <==> p in w.rows && w.rows[p].generation == run.generation)
            && (forall p :: p in left ==> left[p] == w.rows[p])
            && (forall p :: p !in Parted(run) ==>
                              (p in left <==> p in run.memory && run.memory[p].generation == run.generation))
  {
    ReachedInv(g, batchSize, w);
    SettledAgrees(g, w);
  }

  // ----- which paths memory and table part on -----

  /** The step gives up an entry of the path: its batch fails, or the writer is stopping. */
  ghost predicate Loses(w: World, e: Event, p: Bytes) {
    w.run.Some? &&
    ((e == Submit(p) && w.run.value.stop) ||
     (e == WriterWrites(false) && w.run.value.writer.Writing? &&
      exists x :: x in w.run.value.writer.batch && x.path == p))
  }

  lemma LostStep(g: Ground, batchSize: nat, w: World, e: Event, p: Bytes)
    requires Enabled(batchSize, w, e) && w.run.Some? && !e.Load? && !e.Stop?
    ensures var run, run' := w.run.value, Step(g, batchSize, w, e).run;
            && run'.Some?
            && (p in run'.value.lost <==> p in run.lost || Loses(w, e, p))
            && (p in run'.value.unread <==> p in run.unread && !Updates(e, p))
  {
  }

  /** An entry of the path was given up in the steps between the first and the k-th. */
  ghost predicate LostBefore(worlds: seq<World>, events: seq<Event>, k: nat, p: Bytes)
    requires k < |worlds| == |events| + 1
  {
    exists j :: 0 < j < k && Loses(worlds[j], events[j], p)
  }

  ghost predicate UpdatedBefore(events: seq<Event>, k: nat, p: Bytes)
    requires k <= |events|
  {
    exists j :: 0 < j < k && Updates(events[j], p)
  }

  lemma BeforeOneMore(worlds: seq<World>, events: seq<Event>, k: nat, p: Bytes)
    requires 1 < k < |worlds| == |events| + 1
    ensures LostBefore(worlds, events, k, p) <==>
              LostBefore(worlds, events, k - 1, p) || Loses(worlds[k - 1], events[k - 1], p)
    ensures UpdatedBefore(events, k, p) <==> UpdatedBefore(events, k - 1, p) || Updates(events[k - 1], p)
  {
  }

  lemma LoadParts(g: Ground, batchSize: nat, w: World, e: Event, p: Bytes)
    requires Enabled(batchSize, w, e) && e.Load?
    ensures var run' := Step(g, batchSize, w, e).run;
            run'.Some? && run'.value.lost == {} && (p in run'.value.unread <==> e.readFails && p in w.rows)
  {
  }

  /**
   * Within a run exactly those paths are lost of which an entry was given up, and exactly those
   * unread whose rows were there when reading failed at the start, and that no update has met.
   */
  lemma {:induction false} PartedExactly(g: Ground, batchSize: nat, worlds: seq<World>, events: seq<Event>, k: nat,
                                         p: Bytes)
    requires IsHistory(g, batchSize, worlds, events) && 0 < k < |worlds| && events[0].Load?
    requires forall j :: 0 < j < k ==> !events[j].Load? && !events[j].Stop?
    ensures worlds[k].run.Some?
    ensures p in worlds[k].run.value.lost <==> LostBefore(worlds, events, k, p)
    ensures p in worlds[k].run.value.unread <==>
              events[0].readFails && p in worlds[0].rows && !UpdatedBefore(events, k, p)
  {
    if k == 1 {
      LoadParts(g, batchSize, worlds[0], events[0], p);
    } else {
      PartedExactly(g, batchSize, worlds, events, k - 1, p);
      LostStep(g, batchSize, worlds[k - 1], events[k - 1], p);
      BeforeOneMore(worlds, events, k, p);
    }
  }

  /** A row stamped for the generation under way. */
  ghost predicate CurrentRow(w: World, p: Bytes) {
    p in w.rows && w.rows[p].generation == w.lastCompleted + 1
  }

  /** The step writes a batch that holds an entry for the path. */
  ghost predicate Writes(w: World, e: Event, p: Bytes) {
    && e == WriterWrites(true) && w.run.Some? && w.run.value.writer.Writing?
    && exists x :: x in w.run.value.writer.batch && x.path == p
  }

  /** Only a batch stamps a row, and only completing the generation ends that. */
  lemma CurrentRowStep(g: Ground, batchSize: nat, w: World, e: Event, p: Bytes)
    requires Inv(g, w) && Enabled(batchSize, w, e)
    ensures CurrentRow(Step(g, batchSize, w, e), p) <==> e != Promote(true) && (CurrentRow(w, p) || Writes(w, e, p))
  {
    if e.WriterWrites? && e.ok {
      ApplyOrigin(w.rows, w.run.value.writer.batch, p);
    }
  }

  /** Pruning keeps exactly the rows stamped for the generation under way. */
  lemma PruneKeepsCurrent(g: Ground, batchSize: nat, w: World, p: Bytes)
    requires Inv(g, w) && Enabled(batchSize, w, Prune(true)) && p in w.rows
    ensures p in Step(g, batchSize, w, Prune(true)).rows <==> CurrentRow(w, p)
  {
  }

  /** Rows stamped by interrupted runs last until their generation is completed. */
  lemma {:induction false} StampsSurviveRuns(g: Ground, batchSize: nat, worlds: seq<World>, events: seq<Event>, k: nat,
                                             p: Bytes)
    requires IsHistory(g, batchSize, worlds, events) && Reached(g, batchSize, worlds[0]) && k < |worlds|
    requires CurrentRow(worlds[0], p)
    requires forall j :: 0 <= j < k ==> events[j] != Promote(true)
    ensures CurrentRow(worlds[k], p)
  {
    if k == 0 {
    } else {
      StampsSurviveRuns(g, batchSize, worlds, events, k - 1, p);
      ReachedInv(g, batchSize, worlds[0]);
      HistoryInv(g, batchSize, worlds, events, k - 1);
      CurrentRowStep(g, batchSize, worlds[k - 1], events[k - 1], p);
    }
  }
}
