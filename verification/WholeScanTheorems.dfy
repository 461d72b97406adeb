// What the parts promise together, over any number of runs of the whole scanner.
module WholeScanTheorems {
  import opened Options
  import opened ByteStrings
  import opened Counting
  import opened Tries
  import opened Paths
  import opened Exclusion
  import opened CacheStore
  import opened Checkpoint
  import opened ResumeManagement
  import opened ResumeTheorems
  import opened Pipeline = ScanPipeline
  import opened WholeScan
  import Cache = CacheProtocol
  import Resume = ResumeProtocol

  const FIRST: System := System(None, [], Cache.EMPTY, None)

  ghost predicate IsStep(c: Setting, s: System, act: Act, s': System) {
    Possible(c, s, act) && s' == Next(c, s, act)
  }

  /** Any number of runs, one after another, each cut off or complete. */
  ghost predicate IsHistory(c: Setting, states: seq<System>, acts: seq<Act>) {
    && |states| == |acts| + 1 && states[0] == FIRST
    && forall k :: 0 <= k < |acts| ==> IsStep(c, states[k], acts[k], states[k + 1])
  }

  lemma {:induction false} HistoryInv(c: Setting, states: seq<System>, acts: seq<Act>, k: nat)
    requires ValidSetting(c) && IsHistory(c, states, acts) && k < |states|
    ensures WholeScan.Inv(c, states[k])
  {
    if k == 0 {
      Cache.EmptyInv(c.ground);
    } else {
      HistoryInv(c, states, acts, k - 1);
      assert IsStep(c, states[k - 1], acts[k - 1], states[k]);
      WholeScan.StepKeepsInv(c, states[k - 1], acts[k - 1]);
    }
  }

  // ----- verdicts -----

  /** The file, as it was when it was listed, holds a signature of that time. */
  ghost predicate HoldsSignature(c: Setting, root: Bytes, j: Judgement)
    requires root in c.sites
  {
    Infected(c.ground.signatures(j.metadata.signaturesLastModified),
             c.ground.contents(Key(c, root, j.file), j.metadata.lastModified, j.metadata.size))
  }

  /** Malicious exactly if infected, from the cache or from a scan; or counted as failed. */
  ghost predicate Sound(c: Setting, root: Bytes, j: Judgement)
    requires root in c.sites
  {
    CouldNotScan(j) || (!j.verdict.Error? && (j.verdict.Malicious? <==> HoldsSignature(c, root, j)))
  }

  /**
   * When the wait for the pool is over, in any run of any history: each file that the walk
   * handed over has exactly one judgement, which is sound, and the counters count them.
   */
  lemma ScanJudgesEachFile(c: Setting, states: seq<System>, acts: seq<Act>, k: nat)
    requires ValidSetting(c) && IsHistory(c, states, acts) && k < |states|
    requires states[k].session.Some? && states[k].session.value.scan.main.Done?
    ensures var session, scan := states[k].session.value, states[k].session.value.scan;
            && session.root in c.sites && JudgesEach(scan.log, session.files)
            && (forall i :: 0 <= i < |scan.log| ==> Sound(c, session.root, scan.log[i]))
            && (forall i :: 0 <= i < |scan.log| ==> scan.log[i].metadata == scan.gathered(scan.log[i].file))
            && scan.summary.discovered == |session.files|
            && scan.summary.malicious == Count(scan.log, IsMalicious)
            && scan.summary.failed == Count(scan.log, CouldNotScan)
  {
    HistoryInv(c, states, acts, k);
    var session := states[k].session.value;
    DoneJudgesEach(session.scan, session.files);
    forall i | 0 <= i < |session.scan.log| ensures Sound(c, session.root, session.scan.log[i]) {
      assert Right(c, session.root, session.scan.log[i]);
    }
  }

  // ----- the cache, as the pipeline uses it -----

  lemma StampingMeetsNoOther(c: Setting, s: System, f: Path)
    requires ValidSetting(c) && WholeScan.Inv(c, s) && s.session.Some?
    requires f in s.session.value.files && f !in s.session.value.stamped
    ensures Key(c, s.session.value.root, f) !in s.cache.run.value.unsubmitted
  {
    var session := s.session.value;
    var key := Key(c, session.root, f);
    if key in s.cache.run.value.unsubmitted {
      var g :| g in session.stamped && InHand(session.scan, g) && Key(c, session.root, g) == key;
      assert Decided(session.scan.log, g);
      KeyInjective(c, session.root, f, g);
    }
  }

  /**
   * An update the pipeline is about to make is never in the way of another update of the same
   * path: what the cache's own histories assume, the pipeline sees to.
   */
  lemma UpdatesNeverCollide(c: Setting, states: seq<System>, acts: seq<Act>, k: nat, act: Act)
    requires ValidSetting(c) && IsHistory(c, states, acts) && k < |states|
    requires Running(c, states[k]) && Stampable(states[k].session.value, act)
    ensures Cache.Enabled(c.batchSize, states[k].cache, Stamping(c, states[k], act))
    ensures Possible(c, states[k], act)
  {
    HistoryInv(c, states, acts, k);
    var session := states[k].session.value;
    StampableFile(session, act);
    StampingMeetsNoOther(c, states[k], StampedFile(session, act));
  }

  /** At the end of a scan nothing is left unsubmitted, and every judgement is stamped. */
  lemma DoneIsStamped(c: Setting, s: System)
    requires WholeScan.Inv(c, s) && s.session.Some? && s.session.value.scan.main.Done?
    ensures s.cache.run.value.unsubmitted == map[]
    ensures forall i :: 0 <= i < |s.session.value.scan.log| ==>
                          var j := s.session.value.scan.log[i]; CouldNotScan(j) || j.file in s.session.value.stamped
  {
    var session := s.session.value;
    assert forall f :: !InHand(session.scan, f) && !Pending(session.scan, f);
    assert forall p :: p !in s.cache.run.value.unsubmitted;
  }

  /** The row a judgement leaves in the table. */
  function RowOf(c: Setting, root: Bytes, generation: nat, j: Judgement): CacheEntry
    requires root in c.sites
  {
    CacheEntry(Key(c, root, j.file), j.metadata, j.verdict, generation)
  }

  /**
   * Once the writer has returned, the table holds the judgement of every file of the scan that
   * could be read, except those whose batch failed: the next run need not scan them again.
   */
  lemma JudgementsAreDurable(c: Setting, states: seq<System>, acts: seq<Act>, k: nat)
    requires ValidSetting(c) && IsHistory(c, states, acts) && k < |states|
    requires Running(c, states[k]) && states[k].cache.run.value.writer.Returned?
    requires states[k].cache.run.value.phase.Draining? || states[k].cache.run.value.phase.Pruning?
    ensures var session, run := states[k].session.value, states[k].cache.run.value;
            && session.scan.main.Done?
            && forall i :: 0 <= i < |session.scan.log| ==>
                 var row := RowOf(c, session.root, run.generation, session.scan.log[i]);
                 CouldNotScan(session.scan.log[i]) || row.path in run.lost ||
                 (row.path in states[k].cache.rows && states[k].cache.rows[row.path] == row)
  {
    HistoryInv(c, states, acts, k);
    var s, session, run := states[k], states[k].session.value, states[k].cache.run.value;
    DoneIsStamped(c, s);
    Cache.SettledAgrees(c.ground, s.cache);
    forall i | 0 <= i < |session.scan.log| && !CouldNotScan(session.scan.log[i])
      ensures var row := RowOf(c, session.root, run.generation, session.scan.log[i]);
              row.path in run.memory && run.memory[row.path] == row
    {
      var j := session.scan.log[i];
      assert InMemory(c, session, run, j.file) && Right(c, session.root, j);
      assert Cache.Honest(c.ground, run.memory[Key(c, session.root, j.file)]);
    }
  }

  /** The cache's part of a step, if it has one. */
  ghost function CacheStep(c: Setting, s: System, act: Act): Option<Cache.Event>
    requires Possible(c, s, act)
  {
    match act
    case Start(root, _, readFails, _) => Some(Cache.Load(root == ROOT_TEXT, readFails))
    case Proceed(_) => None
    case Background(e) => Some(e)
    case Stop => Some(Cache.Event.Stop)
    case _ => Some(Stamping(c, s, act))
  }

  lemma CacheFollows(c: Setting, s: System, act: Act)
    requires Possible(c, s, act) && (s.session.Some? <==> s.cache.run.Some?)
    ensures match CacheStep(c, s, act)
            case None => Next(c, s, act).cache == s.cache
            case Some(e) =>
              && Cache.Enabled(c.batchSize, s.cache, e)
              && Next(c, s, act).cache == Cache.Step(c.ground, c.batchSize, s.cache, e)
  {
  }

  // ----- what the cache loses -----

  predicate FailedWrite(act: Act) {
    act == Background(Cache.WriterWrites(false))
  }

  /** Nothing is handed to a writer that is stopping, so only failed batches lose entries. */
  lemma LossNeedsFailure(c: Setting, s: System, act: Act, s': System)
    requires WholeScan.Inv(c, s) && IsStep(c, s, act, s') && !FailedWrite(act)
    requires s'.cache.run.Some? && s'.cache.run.value.lost != {}
    ensures s.cache.run.Some? && s.cache.run.value.lost != {}
  {
    CacheFollows(c, s, act);
    var p :| p in s'.cache.run.value.lost;
    match CacheStep(c, s, act)
    case None =>
    case Some(e) =>
      if e.Load? {
        Cache.LoadParts(c.ground, c.batchSize, s.cache, e, p);
      } else if !e.Stop? {
        if e.Submit? { SubmittedWhileScanning(c, s, e.path); }
        Cache.LostStep(c.ground, c.batchSize, s.cache, e, p);
      }
  }

  lemma SubmittedWhileScanning(c: Setting, s: System, p: Bytes)
    requires WholeScan.Inv(c, s) && s.session.Some? && p in s.cache.run.value.unsubmitted
    ensures !s.cache.run.value.stop
  {
    var session := s.session.value;
    var f :| f in session.stamped && InHand(session.scan, f) && Key(c, session.root, f) == p;
  }

  /** As long as no batch fails nothing is lost. */
  lemma {:induction false} NothingLostWithoutFailure(c: Setting, states: seq<System>, acts: seq<Act>, k: nat)
    requires ValidSetting(c) && IsHistory(c, states, acts) && k < |states|
    requires forall j :: 0 <= j < k ==> !FailedWrite(acts[j])
    ensures states[k].cache.run.Some? ==> states[k].cache.run.value.lost == {}
  {
    if k == 0 {
    } else {
      NothingLostWithoutFailure(c, states, acts, k - 1);
      HistoryInv(c, states, acts, k - 1);
      assert IsStep(c, states[k - 1], acts[k - 1], states[k]);
      if states[k].cache.run.Some? && states[k].cache.run.value.lost != {} {
        LossNeedsFailure(c, states[k - 1], acts[k - 1], states[k]);
      }
    }
  }

  // ----- what pruning removes -----

  /** Rows are removed only when a scan of "/" prunes, its walk and all its tasks done. */
  lemma OnlyFullScansRemoveRows(c: Setting, states: seq<System>, acts: seq<Act>, k: nat)
    requires ValidSetting(c) && IsHistory(c, states, acts) && k < |acts|
    requires !(states[k].cache.rows.Keys <= states[k + 1].cache.rows.Keys)
    ensures acts[k] == Background(Cache.Prune(true)) && states[k].session.Some?
    ensures states[k].session.value.root == ROOT_TEXT && states[k].session.value.scan.main.Done?
  {
    HistoryInv(c, states, acts, k);
    var s, act := states[k], acts[k];
    assert IsStep(c, s, act, states[k + 1]);
    CacheFollows(c, s, act);
    Cache.OnlyPruningShrinks(c.ground, c.batchSize, s.cache, CacheStep(c, s, act).value);
  }

  /** A batch with an entry for the path has been written in the generation under way. */
  ghost predicate WrittenNow(states: seq<System>, acts: seq<Act>, k: nat, p: Bytes)
    requires k < |states| == |acts| + 1
  {
    exists j :: 0 <= j < k && WritesRow(states[j], acts[j], p) &&
                states[j].cache.lastCompleted == states[k].cache.lastCompleted
  }

  ghost predicate WritesRow(s: System, act: Act, p: Bytes) {
    act.Background? && Cache.Writes(s.cache, act.event, p)
  }

  predicate Promotes(act: Act) {
    act == Background(Cache.Promote(true))
  }

  lemma CurrentRowAct(c: Setting, s: System, act: Act, s': System, p: Bytes)
    requires WholeScan.Inv(c, s) && IsStep(c, s, act, s')
    ensures Cache.CurrentRow(s'.cache, p) <==>
              !Promotes(act) && (Cache.CurrentRow(s.cache, p) || WritesRow(s, act, p))
  {
    CacheFollows(c, s, act);
    match CacheStep(c, s, act)
    case None =>
    case Some(e) => Cache.CurrentRowStep(c.ground, c.batchSize, s.cache, e, p);
  }

  lemma CompletedAct(c: Setting, s: System, act: Act, s': System)
    requires WholeScan.Inv(c, s) && IsStep(c, s, act, s')
    ensures s'.cache.lastCompleted == if Promotes(act) then s.cache.lastCompleted + 1 else s.cache.lastCompleted
  {
    CacheFollows(c, s, act);
  }

  /** One step of a history, as far as generations and the row of a path go. */
  lemma OneAct(c: Setting, states: seq<System>, acts: seq<Act>, k: nat, p: Bytes)
    requires ValidSetting(c) && IsHistory(c, states, acts) && 0 < k < |states|
    ensures var before, after, act := states[k - 1].cache, states[k].cache, acts[k - 1];
            && after.lastCompleted == (if Promotes(act) then before.lastCompleted + 1 else before.lastCompleted)
            && (Cache.CurrentRow(after, p) <==>
                  !Promotes(act) && (Cache.CurrentRow(before, p) || WritesRow(states[k - 1], act, p)))
  {
    HistoryInv(c, states, acts, k - 1);
    assert IsStep(c, states[k - 1], acts[k - 1], states[k]);
    CompletedAct(c, states[k - 1], acts[k - 1], states[k]);
    CurrentRowAct(c, states[k - 1], acts[k - 1], states[k], p);
  }

  lemma {:induction false} CompletedGrows(c: Setting, states: seq<System>, acts: seq<Act>, j: nat, k: nat, p: Bytes)
    requires ValidSetting(c) && IsHistory(c, states, acts) && j <= k < |states|
    ensures states[j].cache.lastCompleted <= states[k].cache.lastCompleted
    decreases k
  {
    if j == k {
    } else {
      CompletedGrows(c, states, acts, j, k - 1, p);
      OneAct(c, states, acts, k, p);
    }
  }

  lemma WrittenOneMore(states: seq<System>, acts: seq<Act>, k: nat, p: Bytes)
    requires |states| == |acts| + 1 && 0 < k < |states|
    requires forall j :: 0 <= j < k ==> states[j].cache.lastCompleted <= states[k - 1].cache.lastCompleted
    requires states[k].cache.lastCompleted ==
             states[k - 1].cache.lastCompleted + if Promotes(acts[k - 1]) then 1 else 0
    ensures WrittenNow(states, acts, k, p) <==>
              !Promotes(acts[k - 1]) && (WrittenNow(states, acts, k - 1, p) || WritesRow(states[k - 1], acts[k - 1], p))
  {
  }

  lemma {:induction false} CurrentRowIffWritten(c: Setting, states: seq<System>, acts: seq<Act>, k: nat, p: Bytes)
    requires ValidSetting(c) && IsHistory(c, states, acts) && k < |states|
    ensures Cache.CurrentRow(states[k].cache, p) <==> WrittenNow(states, acts, k, p)
  {
    if k == 0 {
    } else {
      CurrentRowIffWritten(c, states, acts, k - 1, p);
      OneAct(c, states, acts, k, p);
      forall j | 0 <= j < k ensures states[j].cache.lastCompleted <= states[k - 1].cache.lastCompleted {
        CompletedGrows(c, states, acts, j, k - 1, p);
      }
      WrittenOneMore(states, acts, k, p);
    }
  }

  /**
   * Exactly which rows the pruning of a full scan removes: those of paths that no batch written
   * in its generation held. That a run of the generation has judged the file does not matter.
   */
  lemma PruningRemovesIff(c: Setting, states: seq<System>, acts: seq<Act>, k: nat, p: Bytes)
    requires ValidSetting(c) && IsHistory(c, states, acts) && k < |acts|
    requires acts[k] == Background(Cache.Prune(true)) && p in states[k].cache.rows
    ensures p !in states[k + 1].cache.rows <==> !WrittenNow(states, acts, k, p)
  {
    HistoryInv(c, states, acts, k);
    CurrentRowIffWritten(c, states, acts, k, p);
    assert IsStep(c, states[k], acts[k], states[k + 1]);
    Cache.PruneKeepsCurrent(c.ground, c.batchSize, states[k].cache, p);
  }

  /** It keeps the rows of all files its own run has judged, except those whose batch failed. */
  lemma PruningKeepsItsOwn(c: Setting, states: seq<System>, acts: seq<Act>, k: nat, i: nat)
    requires ValidSetting(c) && IsHistory(c, states, acts) && k < |acts|
    requires acts[k] == Background(Cache.Prune(true)) && states[k].session.Some?
    requires i < |states[k].session.value.scan.log| && !CouldNotScan(states[k].session.value.scan.log[i])
    ensures states[k].session.value.root in c.sites && states[k].cache.run.Some?
    ensures var key := Key(c, states[k].session.value.root, states[k].session.value.scan.log[i].file);
            key in states[k].cache.run.value.lost || key in states[k + 1].cache.rows
  {
    HistoryInv(c, states, acts, k);
    assert IsStep(c, states[k], acts[k], states[k + 1]);
    JudgementsAreDurable(c, states, acts, k);
    var session, run := states[k].session.value, states[k].cache.run.value;
    var row := RowOf(c, session.root, run.generation, session.scan.log[i]);
    if row.path !in run.lost {
      Cache.PruneKeepsCurrent(c.ground, c.batchSize, states[k].cache, row.path);
    }
  }

  // ----- the checkpoint, as the pipeline drives it -----

  /** Files the walk has or will hand over that the resume manager has not been told about. */
  function Ahead(scan: Scan): seq<Path> {
    (if scan.main.Looking? || scan.main.HitCounted? then [scan.main.file] else []) + scan.left
  }

  /** A state of the resume protocol that says of the checkpoint what the whole system does. */
  ghost predicate Mirror(s: System, w: Resume.World) {
    && w.disk == s.disk && (forall f :: f in w.credit ==> Decided(s.credit, f))
    && (s.session.Some? <==> w.run.Some?)
    && (s.session.Some? ==>
          var session, run := s.session.value, w.run.value;
          && run.manager == session.scan.manager && run.open == Open(session.scan) && run.todo == Ahead(session.scan)
          && forall f :: f in run.done ==> Decided(session.earlier + session.scan.log, f))
  }

  function ConfigFor(c: Setting): Resume.Config {
    ConfigOf(c.sites, c.excluded, c.interval)
  }

  lemma ExecuteOne(config: Resume.Config, w: Resume.World, e: Resume.Event)
    ensures Resume.Execute(config, w, [e]) == Resume.Step(config, w, e)
  {
    assert [e][1..] == [];
  }

  lemma DecidedConcat(x: seq<Judgement>, y: seq<Judgement>, f: Path)
    ensures Decided(x + y, f) <==> Decided(x, f) || Decided(y, f)
  {
    if i :| 0 <= i < |x| && x[i].file == f { assert (x + y)[i].file == f; }
    if i :| 0 <= i < |y| && y[i].file == f { assert (x + y)[|x| + i].file == f; }
  }

  /** The protocol's event for a step of the pipeline, if the resume manager hears of it. */
  function EventsOf(scan: Scan, e: Pipeline.Step): seq<Resume.Event>
    requires e.HitCompletes? ==> scan.main.HitAdded?
    requires e.TaskCloses? ==> e.i < |scan.tasks|
  {
    match e
    case HitAdds => [Resume.Discover]
    case CacheMiss => [Resume.Discover]
    case HitCompletes(io) => [Resume.Finish(scan.main.file, io)]
    case TaskCloses(i, io) => [Resume.Finish(scan.tasks[i].file, io)]
    case WalkEnds(io) => [Resume.EndDiscovery(io)]
    case _ => []
  }

  /** The files the manager has been told about, after a step. */
  lemma OpenAfter(scan: Scan, e: Pipeline.Step)
    requires DistinctFiles(scan) && Pipeline.Enabled(scan, e)
    ensures Open(Take(scan, e)) ==
            match e
            case HitAdds => Open(scan) + {scan.main.file}
            case CacheMiss => Open(scan) + {scan.main.file}
            case HitCompletes(_) => Open(scan) - {scan.main.file}
            case TaskCloses(i, _) => Open(scan) - {scan.tasks[i].file}
            case _ => Open(scan)
  {
    if ByTask(e) {
      OpenAfterTask(scan, e.i, Take(scan, e).tasks[e.i].pc);
      assert Open(Take(scan, e)) == Open(SetTask(scan, e.i, Take(scan, e).tasks[e.i].pc));
    } else if e.Enqueue? {
      OpenAfterEnqueue(scan);
    } else if e.HitCompletes? {
      assert forall t :: t in scan.tasks ==> t.file != scan.main.file;
    }
  }

  lemma AheadAfter(scan: Scan, e: Pipeline.Step)
    requires Pipeline.Enabled(scan, e)
    ensures Ahead(Take(scan, e)) == if e.HitAdds? || e.CacheMiss? then Ahead(scan)[1..] else Ahead(scan)
    ensures e.HitAdds? || e.CacheMiss? ==> Ahead(scan) != [] && Ahead(scan)[0] == scan.main.file
    ensures e.WalkEnds? ==> Ahead(scan) == []
  {
    if e.Discover? { assert [scan.left[0]] + scan.left[1..] == scan.left; }
  }

  /** What a completed file was judged to be is in the log by then. */
  lemma CompletedIsDecided(scan: Scan, e: Pipeline.Step)
    requires Judged(scan) && Pipeline.Enabled(scan, e) && Completes(e)
    ensures Decided(scan.log, CompletedFile(scan, e))
  {
    if e.TaskCloses? { assert Pending(scan, scan.tasks[e.i].file); }
  }

  /** The process side of Mirror: manager, open and coming files. */
  ghost predicate RunMirrors(scan: Scan, w: Resume.World) {
    && w.run.Some? && w.disk == scan.disk && w.run.value.manager == scan.manager
    && w.run.value.open == Open(scan) && w.run.value.todo == Ahead(scan)
  }

  predicate Completes(e: Pipeline.Step) {
    e.HitCompletes? || e.TaskCloses?
  }

  function CompletedFile(scan: Scan, e: Pipeline.Step): Path
    requires e.HitCompletes? ==> scan.main.HitAdded?
    requires e.TaskCloses? ==> e.i < |scan.tasks|
  {
    match e
    case HitCompletes(_) => scan.main.file
    case TaskCloses(i, _) => scan.tasks[i].file
    case _ => []
  }

  lemma DiscoveryMirrors(config: Resume.Config, scan: Scan, w: Resume.World, e: Pipeline.Step)
    requires DistinctFiles(scan) && Pipeline.Enabled(scan, e) && RunMirrors(scan, w)
    requires e.HitAdds? || e.CacheMiss?
    ensures var w' := Resume.Step(config, w, Resume.Discover);
            RunMirrors(Take(scan, e), w') && w'.run.value.done == w.run.value.done && w'.credit == w.credit
  {
    OpenAfter(scan, e);
    AheadAfter(scan, e);
    DiscoveryTellsManager(scan, e);
  }

  lemma DiscoveryTellsManager(scan: Scan, e: Pipeline.Step)
    requires Pipeline.Enabled(scan, e) && (e.HitAdds? || e.CacheMiss?)
    ensures Take(scan, e).manager == AddFile(scan.manager, Join(scan.main.file)) && Take(scan, e).disk == scan.disk
  {
  }

  lemma CompletionMirrors(config: Resume.Config, scan: Scan, w: Resume.World, e: Pipeline.Step)
    requires DistinctFiles(scan) && Pipeline.Enabled(scan, e) && RunMirrors(scan, w) && Completes(e)
    requires config.interval == scan.interval
    ensures var w' := Resume.Step(config, w, Resume.Finish(CompletedFile(scan, e), e.io));
            && RunMirrors(Take(scan, e), w')
            && w'.run.value.done == w.run.value.done + {CompletedFile(scan, e)}
            && w'.credit == if w'.disk == w.disk then w.credit else w'.run.value.done
  {
    OpenAfter(scan, e);
    AheadAfter(scan, e);
    CompletedIsOpen(scan, e);
    CompletionTellsManager(scan, e);
  }

  lemma CompletedIsOpen(scan: Scan, e: Pipeline.Step)
    requires Pipeline.Enabled(scan, e) && Completes(e)
    ensures CompletedFile(scan, e) in Open(scan)
  {
    if e.TaskCloses? { assert scan.tasks[e.i] in scan.tasks; }
  }

  lemma CompletionTellsManager(scan: Scan, e: Pipeline.Step)
    requires Pipeline.Enabled(scan, e) && Completes(e)
    ensures var told := FileCompleted(scan.interval, scan.manager, scan.disk, Join(CompletedFile(scan, e)), e.io);
            Take(scan, e).manager == told.manager && Take(scan, e).disk == told.disk
  {
  }

  lemma WalkEndMirrors(config: Resume.Config, scan: Scan, w: Resume.World, e: Pipeline.Step)
    requires DistinctFiles(scan) && Tracked(scan) && Pipeline.Enabled(scan, e) && RunMirrors(scan, w) && e.WalkEnds?
    ensures var w' := Resume.Step(config, w, Resume.EndDiscovery(e.io));
            && RunMirrors(Take(scan, e), w') && w'.run.value.done == w.run.value.done
            && w'.credit == if w'.disk == w.disk then w.credit else w'.run.value.done
  {
    OpenAfter(scan, e);
    AheadAfter(scan, e);
  }

  lemma QuietMirrors(scan: Scan, w: Resume.World, e: Pipeline.Step)
    requires DistinctFiles(scan) && Pipeline.Enabled(scan, e) && RunMirrors(scan, w) && EventsOf(scan, e) == []
    ensures RunMirrors(Take(scan, e), w)
  {
    OpenAfter(scan, e);
    AheadAfter(scan, e);
  }

  /** A step of the pipeline and its event, if any, agree on the manager and the file. */
  lemma StepMirrorsRun(config: Resume.Config, scan: Scan, w: Resume.World, e: Pipeline.Step)
    requires DistinctFiles(scan) && Tracked(scan) && Pipeline.Enabled(scan, e) && RunMirrors(scan, w)
    requires config.interval == scan.interval
    ensures var w' := Resume.Execute(config, w, EventsOf(scan, e));
            && RunMirrors(Take(scan, e), w')
            && w'.run.value.done == w.run.value.done + (if Completes(e) then {CompletedFile(scan, e)} else {})
            && w'.credit == if w'.disk == w.disk then w.credit else w'.run.value.done
  {
    if EventsOf(scan, e) == [] {
      QuietMirrors(scan, w, e);
    } else {
      ExecuteOne(config, w, EventsOf(scan, e)[0]);
      assert EventsOf(scan, e) == [EventsOf(scan, e)[0]];
      if e.WalkEnds? {
        WalkEndMirrors(config, scan, w, e);
      } else if Completes(e) {
        CompletionMirrors(config, scan, w, e);
      } else {
        DiscoveryMirrors(config, scan, w, e);
      }
    }
  }

  /** Judgements are only ever added. */
  lemma JudgedStays(session: Session, e: Pipeline.Step, f: Path)
    requires Logged(session.scan, session.files) && Pipeline.Enabled(session.scan, e)
    requires Decided(session.earlier + session.scan.log, f)
    ensures Decided(session.earlier + Take(session.scan, e).log, f)
  {
    DecidedConcat(session.earlier, session.scan.log, f);
    if Decided(session.scan.log, f) { DecidedStays(session.scan, session.files, e, f); }
    DecidedConcat(session.earlier, Take(session.scan, e).log, f);
  }

  /** Everything completed by now has been judged by now. */
  lemma DoneIsJudged(session: Session, e: Pipeline.Step, done: set<Path>)
    requires Logged(session.scan, session.files) && Judged(session.scan) && Pipeline.Enabled(session.scan, e)
    requires forall f :: f in done ==> Decided(session.earlier + session.scan.log, f)
    ensures forall f :: f in done + (if Completes(e) then {CompletedFile(session.scan, e)} else {}) ==>
                          Decided(session.earlier + Take(session.scan, e).log, f)
  {
    forall f | f in done || (Completes(e) && f == CompletedFile(session.scan, e))
      ensures Decided(session.earlier + Take(session.scan, e).log, f)
    {
      if Completes(e) && f == CompletedFile(session.scan, e) {
        CompletedIsDecided(session.scan, e);
        DecidedConcat(session.earlier, session.scan.log, f);
      }
      JudgedStays(session, e, f);
    }
  }

  lemma ProceedMirrors(c: Setting, s: System, w: Resume.World, e: Pipeline.Step)
    requires ValidSetting(c) && WholeScan.Inv(c, s) && Possible(c, s, Proceed(e)) && Mirror(s, w)
    ensures Mirror(Next(c, s, Proceed(e)), Resume.Execute(ConfigFor(c), w, EventsOf(s.session.value.scan, e)))
  {
    StepMirrorsRun(ConfigFor(c), s.session.value.scan, w, e);
    DoneIsJudged(s.session.value, e, w.run.value.done);
  }

  lemma StartMirrors(c: Setting, s: System, w: Resume.World, act: Act)
    requires ValidSetting(c) && WholeScan.Inv(c, s) && act.Start? && Possible(c, s, act) && Mirror(s, w)
    ensures Mirror(Next(c, s, act), Resume.Step(ConfigFor(c), w, Resume.Start(act.root, act.io)))
  {
    var session := Begun(c, s, act.root, act.gathered, act.io);
    StartWalksTheTree(c.sites, c.excluded, c.interval, w, act.root, act.io);
    assert Open(session.scan) == {};
    assert [] + session.scan.left == session.scan.left;
    assert session.earlier + [] == session.earlier;
  }

  lemma StopMirrors(c: Setting, s: System, w: Resume.World)
    requires Possible(c, s, Act.Stop) && Mirror(s, w)
    ensures Mirror(Next(c, s, Act.Stop), Resume.Step(ConfigFor(c), w, Resume.Event.Stop))
  {
  }

  predicate OfTheCache(act: Act) {
    act.StampHit? || act.StampScan? || act.Background?
  }

  /** The manager does not hear of what happens in the cache. */
  lemma CacheActsSpare(c: Setting, s: System, act: Act)
    requires Possible(c, s, act) && OfTheCache(act)
    ensures var s' := Next(c, s, act);
            && s'.disk == s.disk && s'.credit == s.credit && s'.session.Some?
            && s'.session.value.scan == s.session.value.scan && s'.session.value.earlier == s.session.value.earlier
  {
  }

  lemma StepMirrors(c: Setting, s: System, w: Resume.World, act: Act) returns (events: seq<Resume.Event>)
    requires ValidSetting(c) && WholeScan.Inv(c, s) && Possible(c, s, act) && Mirror(s, w)
    ensures Mirror(Next(c, s, act), Resume.Execute(ConfigFor(c), w, events))
  {
    if act.Start? {
      StartMirrors(c, s, w, act);
      events := [Resume.Start(act.root, act.io)];
      ExecuteOne(ConfigFor(c), w, events[0]);
    } else if act.Proceed? {
      ProceedMirrors(c, s, w, act.step);
      events := EventsOf(s.session.value.scan, act.step);
    } else if act.Stop? {
      StopMirrors(c, s, w);
      events := [Resume.Event.Stop];
      ExecuteOne(ConfigFor(c), w, events[0]);
    } else {
      CacheActsSpare(c, s, act);
      events := [];
    }
  }

  lemma MirrorOnce(c: Setting, s: System, act: Act, s': System, w: Resume.World) returns (events: seq<Resume.Event>)
    requires ValidSetting(c) && WholeScan.Inv(c, s) && IsStep(c, s, act, s') && Mirror(s, w)
    ensures Mirror(s', Resume.Execute(ConfigFor(c), w, events))
  {
    events := StepMirrors(c, s, w, act);
  }

  /** The manager and the checkpoint of every history are those of an execution of the protocol. */
  lemma {:induction false} HistoryIsExecution(c: Setting, states: seq<System>, acts: seq<Act>, k: nat)
    returns (events: seq<Resume.Event>)
    requires ValidSetting(c) && IsHistory(c, states, acts) && k < |states|
    ensures Mirror(states[k], Resume.Execute(ConfigFor(c), Resume.FIRST_START, events))
  {
    if k == 0 {
      events := [];
    } else {
      var before := HistoryIsExecution(c, states, acts, k - 1);
      HistoryInv(c, states, acts, k - 1);
      assert IsStep(c, states[k - 1], acts[k - 1], states[k]);
      var w := Resume.Execute(ConfigFor(c), Resume.FIRST_START, before);
      var last := MirrorOnce(c, states[k - 1], acts[k - 1], states[k], w);
      events := before + last;
      Resume.ExecuteConcat(ConfigFor(c), Resume.FIRST_START, before, last);
    }
  }

  // ----- end to end -----

  /** The file has a sound judgement among those behind the checkpoint. */
  ghost predicate SoundlyJudged(c: Setting, root: Bytes, credit: seq<Judgement>, f: Path)
    requires root in c.sites
  {
    exists i :: 0 <= i < |credit| && credit[i].file == f && Sound(c, root, credit[i])
  }

  /** The checkpoint reports a root as completed of which some file was never judged. */
  ghost predicate LosesAFile(c: Setting, s: System) {
    && s.disk.Some? && Load(s.disk.value).Some?
    && var r := Load(s.disk.value).value;
       r.root in c.sites && r.status == COMPLETED &&
       exists f :: f in ConfigFor(c).files[r.root] && !SoundlyJudged(c, r.root, s.credit, f)
  }

  /**
   * From the first start on, over any number of runs and crashes, with files that tolerate the
   * text order: when the checkpoint reads completed for a root, every file that a walk of that
   * root hands over has been judged soundly in one of the runs.
   */
  lemma CompletedScanJudgedEveryFile(c: Setting, states: seq<System>, acts: seq<Act>, k: nat)
    requires ValidSetting(c) && IsHistory(c, states, acts) && k < |states|
    requires Resume.AllTolerant(ConfigFor(c))
    ensures !LosesAFile(c, states[k])
  {
    var config, s := ConfigFor(c), states[k];
    ConfigIsValid(c.sites, c.excluded, c.interval);
    var events := HistoryIsExecution(c, states, acts, k);
    Resume.TolerantIsSafe(config, events);
    Resume.StatusWords();
    HistoryInv(c, states, acts, k);
    if s.disk.Some? && Load(s.disk.value).Some? && Load(s.disk.value).value.root in c.sites &&
       Load(s.disk.value).value.status == COMPLETED
    {
      var root := Load(s.disk.value).value.root;
      forall f | f in config.files[root] ensures SoundlyJudged(c, root, s.credit, f) {
        assert f in Resume.Execute(config, Resume.FIRST_START, events).credit;
        CreditIsSound(c, s, root, f);
      }
    }
  }

  lemma CreditIsSound(c: Setting, s: System, root: Bytes, f: Path)
    requires root in c.sites && AllRight(c, root, s.credit) && Decided(s.credit, f)
    ensures SoundlyJudged(c, root, s.credit, f)
  {
    var i :| 0 <= i < |s.credit| && s.credit[i].file == f;
    assert Right(c, root, s.credit[i]);
    assert Sound(c, root, s.credit[i]);
  }
}
