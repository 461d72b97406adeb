// Histories of the whole scanner built act by act, with a note of what they ask of the
// environment: whether every write arrives and every read succeeds, and how often a process dies.
module Trails {
  import opened Options
  import opened ByteStrings
  import opened Paths
  import opened CacheStore
  import opened ResumeManagement
  import opened Pipeline = ScanPipeline
  import opened WholeScan
  import opened WholeScanTheorems
  import Scanning
  import Cache = CacheProtocol
  import Resume = ResumeProtocol

  /** The environment does what is asked of it: all reads and writes succeed. */
  ghost predicate SmoothAct(c: Setting, act: Act) {
    match act
    case Start(_, _, readFails, io) => !readFails && Resume.Ample(ConfigFor(c), io)
    case Proceed(e) =>
      && !e.TaskFails?
      && (e.HitCompletes? || e.TaskCloses? || e.WalkEnds? ==> Resume.Ample(ConfigFor(c), e.io))
    case Background(e) => e.WriterWrites? || e.Prune? || e.Promote? ==> e.ok
    case _ => true
  }

  ghost predicate AllSmooth(c: Setting, acts: seq<Act>) {
    forall i :: 0 <= i < |acts| ==> SmoothAct(c, acts[i])
  }

  function Deaths(acts: seq<Act>): nat {
    if acts == [] then 0 else Deaths(acts[..|acts| - 1]) + if acts[|acts| - 1].Stop? then 1 else 0
  }

  datatype Trail = Trail(states: seq<System>, acts: seq<Act>)

  /** A history that ends in s; smooth where that is wanted, with so many deaths at most. */
  ghost predicate LeadsTo(c: Setting, t: Trail, s: System, smooth: bool, deaths: nat) {
    && IsHistory(c, t.states, t.acts) && t.states[|t.acts|] == s
    && (smooth ==> AllSmooth(c, t.acts)) && Deaths(t.acts) <= deaths
  }

  const BEGINNING: Trail := Trail([FIRST], [])

  lemma BeginningLeads(c: Setting)
    ensures LeadsTo(c, BEGINNING, FIRST, true, 0)
  {
  }

  lemma Append(c: Setting, t: Trail, act: Act, next: System)
    requires IsHistory(c, t.states, t.acts) && IsStep(c, t.states[|t.acts|], act, next)
    ensures IsHistory(c, t.states + [next], t.acts + [act])
  {
    var states, acts := t.states + [next], t.acts + [act];
    forall k | 0 <= k < |acts| ensures IsStep(c, states[k], acts[k], states[k + 1]) {
      if k < |t.acts| { assert IsStep(c, t.states[k], t.acts[k], t.states[k + 1]); }
    }
  }

  lemma Extend(c: Setting, t: Trail, s: System, act: Act, next: System, smooth: bool, deaths: nat) returns (t': Trail)
    requires LeadsTo(c, t, s, smooth, deaths) && IsStep(c, s, act, next) && (smooth ==> SmoothAct(c, act))
    ensures LeadsTo(c, t', next, smooth, if act.Stop? then deaths + 1 else deaths)
  {
    Append(c, t, act, next);
    t' := Trail(t.states + [next], t.acts + [act]);
    assert t'.acts[..|t'.acts| - 1] == t.acts;
  }

  lemma LastInv(c: Setting, t: Trail, s: System, smooth: bool, deaths: nat)
    requires ValidSetting(c) && LeadsTo(c, t, s, smooth, deaths)
    ensures WholeScan.Inv(c, s)
  {
    HistoryInv(c, t.states, t.acts, |t.acts|);
  }

  // ----- steps of the pipeline -----

  lemma ProceedOnce(c: Setting, t: Trail, s: System, e: Pipeline.Step, smooth: bool, deaths: nat)
    returns (t': Trail, s': System)
    requires LeadsTo(c, t, s, smooth, deaths) && Possible(c, s, Proceed(e)) && (smooth ==> SmoothAct(c, Proceed(e)))
    ensures LeadsTo(c, t', s', smooth, deaths)
    ensures s' == Saved(s, s.session.value.(scan := Take(s.session.value.scan, e)))
  {
    s' := Next(c, s, Proceed(e));
    t' := Extend(c, t, s, Proceed(e), s', smooth, deaths);
  }

  /** A task has judged its file by a scan, and done all but stamping and reporting it. */
  ghost predicate Scanned(scan: Scan, scan': Scan, i: nat, j: Judgement) {
    && i < |scan.tasks| && scan'.tasks == scan.tasks[i := Task(scan.tasks[i].file, Closing)]
    && scan'.log == scan.log + [j] && j.file == scan.tasks[i].file && !CouldNotScan(j)
    && j.metadata == scan.gathered(j.file)
    && scan'.main == scan.main && scan'.left == scan.left && scan'.gathered == scan.gathered
    && scan'.manager == scan.manager && scan'.disk == scan.disk && scan'.interval == scan.interval
  }

  lemma CleanScan(scan: Scan, i: nat)
    requires i < |scan.tasks| && scan.tasks[i].pc.Queued?
    ensures var scan' := Take(scan, TaskScans(i, false)); Scanned(scan, scan', i, scan'.log[|scan.log|])
  {
  }

  lemma MaliciousScan(scan: Scan, i: nat)
    requires i < |scan.tasks| && scan.tasks[i].pc.Queued?
    ensures var scan1 := Take(scan, TaskScans(i, true));
            && Pipeline.Enabled(scan1, TaskFlags(i)) && scan1.disk == scan.disk
            && var scan2 := Take(scan1, TaskFlags(i));
            && Pipeline.Enabled(scan2, TaskMoves(i, false)) && scan2.disk == scan.disk
            && var scan3 := Take(scan2, TaskMoves(i, false));
            && Scanned(scan, scan3, i, scan3.log[|scan.log|])
  {
    var scan3 := Take(Take(Take(scan, TaskScans(i, true)), TaskFlags(i)), TaskMoves(i, false));
    assert scan3.tasks == scan.tasks[i := Task(scan.tasks[i].file, Closing)];
  }

  /** Some report the scanner may give for a file decides the step. */
  lemma ReportOf(c: Setting, key: Bytes, m: FileMetadata) returns (malicious: bool)
    ensures Reported(c, key, m, malicious)
  {
    var report := Scanning.ReportExists(c.ground.signatures(m.signaturesLastModified),
                                        c.ground.contents(key, m.lastModified, m.size));
    malicious := report != [];
  }

  /** A queued task scans its file; it may be malicious, and then is not moved away. */
  lemma ScanTask(c: Setting, t: Trail, s: System, i: nat, smooth: bool, deaths: nat)
    returns (t': Trail, s': System, scan': Scan, j: Judgement)
    requires LeadsTo(c, t, s, smooth, deaths) && Running(c, s) && s.session.value.scan.disk == s.disk
    requires i < |s.session.value.scan.tasks| && s.session.value.scan.tasks[i].pc.Queued?
    ensures LeadsTo(c, t', s', smooth, deaths) && Scanned(s.session.value.scan, scan', i, j)
    ensures s' == s.(session := Some(s.session.value.(scan := scan')))
  {
    var session, scan := s.session.value, s.session.value.scan;
    var f := scan.tasks[i].file;
    var malicious := ReportOf(c, Key(c, session.root, f), scan.gathered(f));
    t', s' := ProceedOnce(c, t, s, TaskScans(i, malicious), smooth, deaths);
    if malicious {
      MaliciousScan(scan, i);
      t', s' := ProceedOnce(c, t', s', TaskFlags(i), smooth, deaths);
      t', s' := ProceedOnce(c, t', s', TaskMoves(i, false), smooth, deaths);
    } else {
      CleanScan(scan, i);
    }
    scan' := s'.session.value.scan;
    j := scan'.log[|scan.log|];
  }

  // ----- updates of the cache -----

  /** An update of one path, in memory and in the queue, and nothing else. */
  ghost predicate Updated(w: Cache.World, w': Cache.World, e: CacheEntry) {
    && w.run.Some?
    && w' == w.(run := Some(w.run.value.(memory := w.run.value.memory[e.path := e],
                                         queue := w.run.value.queue + [e],
                                         unread := w.run.value.unread - {e.path})))
  }

  lemma UpdateAndSubmit(c: Setting, w: Cache.World, key: Bytes, m: FileMetadata, v: FileVerdict)
    requires w.run.Some? && key !in w.run.value.unsubmitted && !w.run.value.stop
    ensures var w1 := w.(run := Some(Cache.Update(w.run.value, key, m, v)));
            && Cache.Enabled(c.batchSize, w1, Cache.Submit(key))
            && Updated(w, Cache.Step(c.ground, c.batchSize, w1, Cache.Submit(key)),
                       CacheEntry(key, m, v, w.run.value.generation))
  {
    var unsubmitted := w.run.value.unsubmitted;
    var e := CacheEntry(key, m, v, w.run.value.generation);
    assert unsubmitted[key := e] - {key} == unsubmitted;
  }

  /** The verdict a stamping puts into the cache. */
  ghost function StampedVerdict(c: Setting, s: System, act: Act): FileVerdict
    requires Running(c, s) && Stampable(s.session.value, act)
    requires Cache.Enabled(c.batchSize, s.cache, Stamping(c, s, act))
  {
    match Stamping(c, s, act)
    case Hit(path, m) => Cache.CachedVerdict(s.cache.run.value.memory, path, m).value
    case Scanned(path, m) => Cache.Truth(c.ground, path, m)
    case _ => Error
  }

  /** update() from its beginning to its return. */
  lemma Stamp(c: Setting, t: Trail, s: System, act: Act, smooth: bool, deaths: nat)
    returns (t': Trail, s': System, e: CacheEntry)
    requires ValidSetting(c) && LeadsTo(c, t, s, smooth, deaths) && Running(c, s) && Stampable(s.session.value, act)
    ensures LeadsTo(c, t', s', smooth, deaths)
    ensures var session, f := s.session.value, StampedFile(s.session.value, act);
            && e.path == Key(c, session.root, f) && e.metadata == session.scan.gathered(f)
            && e.generation == s.cache.run.value.generation && Updated(s.cache, s'.cache, e)
            && e.path !in s'.cache.run.value.unsubmitted
            && s' == s.(cache := s'.cache, session := Some(session.(stamped := session.stamped + {f})))
  {
    UpdatesNeverCollide(c, t.states, t.acts, |t.acts|, act);
    LastInv(c, t, s, smooth, deaths);
    var event, v := Stamping(c, s, act), StampedVerdict(c, s, act);
    UpdateAndSubmit(c, s.cache, event.path, event.metadata, v);
    var s1 := Next(c, s, act);
    StampingUpdates(c, s, act);
    var t1 := Extend(c, t, s, act, s1, smooth, deaths);
    e := CacheEntry(event.path, event.metadata, v, s.cache.run.value.generation);
    var submit := Background(Cache.Submit(event.path));
    s' := Next(c, s1, submit);
    t' := Extend(c, t1, s1, submit, s', smooth, deaths);
  }

  lemma StampingUpdates(c: Setting, s: System, act: Act)
    requires Possible(c, s, act) && (act.StampHit? || act.StampScan?)
    ensures var event := Stamping(c, s, act);
            && Next(c, s, act).cache ==
               s.cache.(run := Some(Cache.Update(s.cache.run.value, event.path, event.metadata,
                                                 StampedVerdict(c, s, act))))
            && var session := s.session.value;
            Next(c, s, act) == s.(cache := Next(c, s, act).cache,
                                  session := Some(session.(stamped := session.stamped + {StampedFile(session, act)})))
  {
  }

  /** A file queued, hence not judged yet, can be stamped once a scan has judged it. */
  lemma ScannedIsStampable(session: Session, scan': Scan, i: nat, j: Judgement)
    requires Logged(session.scan, session.files) && Scanned(session.scan, scan', i, j)
    requires session.scan.tasks[i].pc.Queued?
    requires forall f :: f in session.stamped ==> Decided(session.scan.log, f)
    ensures Stampable(session.(scan := scan'), StampScan(i))
  {
    var f := session.scan.tasks[i].file;
    assert Undecided(session.scan, f) && !Decided(session.scan.log, f);
    CouldNotReadAppend(session.scan.log, j, f);
  }

  lemma QueuedIsStampable(c: Setting, s: System, scan': Scan, i: nat, j: Judgement)
    requires WholeScan.Inv(c, s) && s.session.Some? && Scanned(s.session.value.scan, scan', i, j)
    requires s.session.value.scan.tasks[i].pc.Queued?
    ensures Stampable(s.session.value.(scan := scan'), StampScan(i))
  {
    ScannedIsStampable(s.session.value, scan', i, j);
  }

  /** A queued task scans its file and puts the verdict into the cache. */
  lemma ScanAndStamp(c: Setting, t: Trail, s: System, i: nat, smooth: bool, deaths: nat)
    returns (t': Trail, s': System, scan': Scan, j: Judgement, e: CacheEntry)
    requires ValidSetting(c) && LeadsTo(c, t, s, smooth, deaths) && Running(c, s) && s.session.value.scan.disk == s.disk
    requires i < |s.session.value.scan.tasks| && s.session.value.scan.tasks[i].pc.Queued?
    ensures LeadsTo(c, t', s', smooth, deaths) && Scanned(s.session.value.scan, scan', i, j)
    ensures var session, f := s.session.value, s.session.value.scan.tasks[i].file;
            && e.path == Key(c, session.root, f) && e.metadata == session.scan.gathered(f)
            && e.generation == s.cache.run.value.generation && Updated(s.cache, s'.cache, e)
            && e.path !in s'.cache.run.value.unsubmitted
            && s' == s.(cache := s'.cache,
                        session := Some(session.(scan := scan', stamped := session.stamped + {f})))
  {
    LastInv(c, t, s, smooth, deaths);
    t', s', scan', j := ScanTask(c, t, s, i, smooth, deaths);
    QueuedIsStampable(c, s, scan', i, j);
    t', s', e := Stamp(c, t', s', StampScan(i), smooth, deaths);
  }

  // ----- one file from its discovery to its completion -----

  /** Between two events: the walk is not inside its handler, and no task is half done. */
  ghost predicate AtRest(scan: Scan) {
    && (scan.main.Walking? || scan.main.Waiting?)
    && forall i :: 0 <= i < |scan.tasks| ==> scan.tasks[i].pc.Queued? || scan.tasks[i].pc.Finished?
  }

  lemma TakeNext(scan: Scan)
    requires AtRest(scan) && scan.main.Walking? && scan.left != []
    ensures var scan1 := Take(scan, Pipeline.Discover);
            && Pipeline.Enabled(scan1, CacheMiss) && scan1.main.file == scan.left[0]
            && var scan2 := Take(scan1, CacheMiss);
            && Pipeline.Enabled(scan2, Enqueue)
            && var scan3 := Take(scan2, Enqueue);
            && AtRest(scan3) && scan3.log == scan.log && scan1.gathered == scan.gathered
            && scan1.disk == scan.disk && scan2.disk == scan.disk && scan3.disk == scan.disk
  {
  }

  /** A file is discovered, not found in the cache, and queued. */
  lemma QueueNext(c: Setting, t: Trail, s: System, smooth: bool, deaths: nat) returns (t': Trail, s': System)
    requires LeadsTo(c, t, s, smooth, deaths) && Running(c, s) && s.session.value.scan.disk == s.disk
    requires var scan := s.session.value.scan; AtRest(scan) && scan.main.Walking? && scan.left != []
    requires Answer(c, s, s.session.value.scan.left[0]) == None
    ensures LeadsTo(c, t', s', smooth, deaths)
    ensures var scan1 := Take(s.session.value.scan, Pipeline.Discover);
            && Pipeline.Enabled(scan1, CacheMiss) && Pipeline.Enabled(Take(scan1, CacheMiss), Enqueue)
            && s' == Saved(s, s.session.value.(scan := Take(Take(scan1, CacheMiss), Enqueue)))
  {
    TakeNext(s.session.value.scan);
    t', s' := ProceedOnce(c, t, s, Pipeline.Discover, smooth, deaths);
    t', s' := ProceedOnce(c, t', s', CacheMiss, smooth, deaths);
    t', s' := ProceedOnce(c, t', s', Enqueue, smooth, deaths);
  }

  /** A stamped file is reported as completed. */
  lemma CloseTask(c: Setting, t: Trail, s: System, i: nat, io: WriteOutcome, smooth: bool, deaths: nat)
    returns (t': Trail, s': System)
    requires LeadsTo(c, t, s, smooth, deaths) && Running(c, s) && (smooth ==> Resume.Ample(ConfigFor(c), io))
    requires Pipeline.Enabled(s.session.value.scan, TaskCloses(i, io))
    requires Handed(c, s, s.session.value.scan.tasks[i].file)
    ensures LeadsTo(c, t', s', smooth, deaths)
    ensures s' == Saved(s, s.session.value.(scan := Take(s.session.value.scan, TaskCloses(i, io))))
  {
    t', s' := ProceedOnce(c, t, s, TaskCloses(i, io), smooth, deaths);
  }

  /** A queued task scans its file, stamps it, and reports it as completed. */
  lemma ScanThenClose(c: Setting, t: Trail, s: System, i: nat, io: WriteOutcome, smooth: bool, deaths: nat)
    returns (t': Trail, s': System, scan': Scan, j: Judgement, stamped: set<Path>, cache: Cache.World, e: CacheEntry)
    requires ValidSetting(c) && LeadsTo(c, t, s, smooth, deaths) && Running(c, s) && s.session.value.scan.disk == s.disk
    requires smooth ==> Resume.Ample(ConfigFor(c), io)
    requires i < |s.session.value.scan.tasks| && s.session.value.scan.tasks[i].pc.Queued?
    ensures LeadsTo(c, t', s', smooth, deaths) && Scanned(s.session.value.scan, scan', i, j)
    ensures Updated(s.cache, cache, e) && e.path == Key(c, s.session.value.root, s.session.value.scan.tasks[i].file)
    ensures e.metadata == s.session.value.scan.gathered(s.session.value.scan.tasks[i].file)
    ensures e.generation == s.cache.run.value.generation
    ensures Pipeline.Enabled(scan', TaskCloses(i, io))
    ensures s' == Saved(s.(cache := cache),
                        s.session.value.(scan := Take(scan', TaskCloses(i, io)), stamped := stamped))
  {
    t', s', scan', j, e := ScanAndStamp(c, t, s, i, smooth, deaths);
    stamped, cache := s'.session.value.stamped, s'.cache;
    t', s' := CloseTask(c, t', s', i, io, smooth, deaths);
  }
}
