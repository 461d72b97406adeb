// One scan through the pipeline: the walking thread and the worker tasks, interleaved at
// every counter update and every call to the resume manager.
module ScanPipeline {
  import opened Options
  import opened ByteStrings
  import opened Counting
  import opened Paths
  import opened Checkpoint
  import opened ResumeManagement
  import opened ResumeProtocol
  import opened CacheStore

  /** Where the walking thread stands with the file it was handed. */
  datatype MainPc =
    | Walking
    | Looking(file: Path)                 // counted as discovered, cache not asked yet
    | HitCounted(file: Path, malicious: bool) // counted as cached; malicious not counted yet
    | HitAdded(file: Path)
    | MissAdded(file: Path)               // added to the resume set, not enqueued yet
    | Waiting
    | Done

  datatype TaskPc =
    | Queued
    | Flagged  // counted as scanned, malicious not counted yet
    | Moving   // counted as malicious, quarantine not tried yet
    | Closing  // everything counted, not reported as completed yet
    | Finished

  datatype Task = Task(file: Path, pc: TaskPc)

  datatype Summary = Summary(discovered: nat, scanned: nat, cached: nat, malicious: nat, quarantined: nat, failed: nat)

  /** What a scan decided about one file, and whether the cache or the worker said so. */
  datatype Judgement = Judgement(file: Path, metadata: FileMetadata, verdict: FileVerdict, cached: bool)

  /**
   * gathered: the metadata the walker collects for each file. log: the judgements so far.
   * reliable: every checkpoint write so far arrived in full.
   */
  datatype Scan = Scan(
    interval: nat,
    gathered: Path -> FileMetadata,
    left: seq<Path>,
    main: MainPc,
    tasks: seq<Task>,
    summary: Summary,
    log: seq<Judgement>,
    manager: Manager,
    disk: Option<Bytes>,
    reliable: bool)

  datatype Step =
    | Discover
    | CacheHit(verdict: FileVerdict)
    | HitIsMalicious
    | HitAdds
    | HitCompletes(io: WriteOutcome)
    | CacheMiss
    | Enqueue
    | WalkEnds(io: WriteOutcome)
    | WaitReturns
    | TaskFails(i: nat)
    | TaskScans(i: nat, malicious: bool)
    | TaskFlags(i: nat)
    | TaskMoves(i: nat, quarantined: bool)
    | TaskCloses(i: nat, io: WriteOutcome)

  ghost predicate Enabled(s: Scan, e: Step) {
    match e
    case Discover => s.main.Walking? && s.left != []
    case CacheHit(_) => s.main.Looking?
    case HitIsMalicious => s.main.HitCounted? && s.main.malicious
    case HitAdds => s.main.HitCounted? && !s.main.malicious
    case HitCompletes(_) => s.main.HitAdded?
    case CacheMiss => s.main.Looking?
    case Enqueue => s.main.MissAdded?
    case WalkEnds(_) => s.main.Walking? && s.left == []
    case WaitReturns => s.main.Waiting? && forall i :: 0 <= i < |s.tasks| ==> s.tasks[i].pc.Finished?
    case TaskFails(i) => i < |s.tasks| && s.tasks[i].pc.Queued?
    case TaskScans(i, _) => i < |s.tasks| && s.tasks[i].pc.Queued?
    case TaskFlags(i) => i < |s.tasks| && s.tasks[i].pc.Flagged?
    case TaskMoves(i, _) => i < |s.tasks| && s.tasks[i].pc.Moving?
    case TaskCloses(i, _) => i < |s.tasks| && s.tasks[i].pc.Closing?
  }

  predicate Arrives(io: WriteOutcome, m: Manager) {
    io.Written? && io.kept >= |Text(Record(m.root, COMPLETED, []))|
  }

  /** The manager's answer, and whether the write could be relied on. */
  function Told(s: Scan, e: Effect, io: WriteOutcome): Scan {
    s.(manager := e.manager, disk := e.disk, reliable := s.reliable && Arrives(io, s.manager))
  }

  function SetTask(s: Scan, i: nat, pc: TaskPc): Scan
    requires i < |s.tasks|
  {
    s.(tasks := s.tasks[i := s.tasks[i].(pc := pc)])
  }

  function Judge(s: Scan, file: Path, verdict: FileVerdict, cached: bool): Scan {
    s.(log := s.log + [Judgement(file, s.gathered(file), verdict, cached)])
  }

  function Take(s: Scan, e: Step): Scan
    requires Enabled(s, e)
  {
    var c := s.summary;
    match e
    case Discover =>
      s.(summary := c.(discovered := c.discovered + 1), main := Looking(s.left[0]), left := s.left[1..])
    case CacheHit(verdict) =>
      Judge(s, s.main.file, verdict, true).(
        summary := c.(cached := c.cached + 1), main := HitCounted(s.main.file, verdict.Malicious?))
    case HitIsMalicious => s.(summary := c.(malicious := c.malicious + 1), main := HitCounted(s.main.file, false))
    case HitAdds => s.(manager := AddFile(s.manager, Join(s.main.file)), main := HitAdded(s.main.file))
    case HitCompletes(io) =>
      Told(s, FileCompleted(s.interval, s.manager, s.disk, Join(s.main.file), io), io).(main := Walking)
    case CacheMiss => s.(manager := AddFile(s.manager, Join(s.main.file)), main := MissAdded(s.main.file))
    case Enqueue => s.(tasks := s.tasks + [Task(s.main.file, Queued)], main := Walking)
    case WalkEnds(io) => Told(s, DiscoveryFinished(s.manager, s.disk, io), io).(main := Waiting)
    case WaitReturns => s.(main := Done)
    case TaskFails(i) =>
      SetTask(Judge(s, s.tasks[i].file, Error, false), i, Closing).(summary := c.(failed := c.failed + 1))
    case TaskScans(i, malicious) =>
      SetTask(Judge(s, s.tasks[i].file, if malicious then Malicious else Clean, false), i,
              if malicious then Flagged else Closing).(summary := c.(scanned := c.scanned + 1))
    case TaskFlags(i) => SetTask(s, i, Moving).(summary := c.(malicious := c.malicious + 1))
    case TaskMoves(i, quarantined) =>
      SetTask(s, i, Closing).(summary := if quarantined then c.(quarantined := c.quarantined + 1) else c)
    case TaskCloses(i, io) =>
      SetTask(Told(s, FileCompleted(s.interval, s.manager, s.disk, Join(s.tasks[i].file), io), io), i, Finished)
  }

  // ----- invariants -----

  predicate IsQueued(t: Task) { t.pc.Queued? }
  predicate IsFlagged(t: Task) { t.pc.Flagged? }
  predicate IsMoving(t: Task) { t.pc.Moving? }
  predicate FromCache(j: Judgement) { j.cached }
  predicate FromScan(j: Judgement) { !j.cached && !j.verdict.Error? }
  predicate CouldNotScan(j: Judgement) { !j.cached && j.verdict.Error? }
  predicate IsMalicious(j: Judgement) { j.verdict.Malicious? }

  /** The counters are those of the log, up to what is still on its way to be counted. */
  ghost predicate Balanced(s: Scan) {
    var c := s.summary;
    && c.discovered == |s.log| + Count(s.tasks, IsQueued) + One(s.main.Looking? || s.main.MissAdded?)
    && c.cached == Count(s.log, FromCache) && c.scanned == Count(s.log, FromScan)
    && c.failed == Count(s.log, CouldNotScan)
    && Count(s.log, IsMalicious) ==
       c.malicious + Count(s.tasks, IsFlagged) + One(s.main.HitCounted? && s.main.malicious)
    && c.quarantined + Count(s.tasks, IsMoving) <= c.malicious
  }

  ghost predicate Decided(log: seq<Judgement>, f: Path) {
    exists i :: 0 <= i < |log| && log[i].file == f
  }

  /** Discovered, and neither looked up nor scanned yet. */
  ghost predicate Undecided(s: Scan, f: Path) {
    || ((s.main.Looking? || s.main.MissAdded?) && f == s.main.file)
    || exists i :: 0 <= i < |s.tasks| && s.tasks[i].pc.Queued? && s.tasks[i].file == f
  }

  /** Each file of the walk is ahead, undecided, or decided; no file is decided twice. */
  ghost predicate Logged(s: Scan, files: seq<Path>) {
    && s.summary.discovered + |s.left| == |files|
    && (forall f :: f in files <==> f in s.left || Undecided(s, f) || Decided(s.log, f))
    && (forall f :: Decided(s.log, f) ==> f !in s.left && !Undecided(s, f))
    && (forall i, j :: 0 <= i < j < |s.log| ==> s.log[i].file != s.log[j].file)
    && (forall i :: 0 <= i < |s.log| ==> s.log[i].metadata == s.gathered(s.log[i].file))
  }

  /** Files the resume manager has been told about but not told to be complete. */
  ghost function Open(s: Scan): set<Path> {
    (set t | t in s.tasks && !t.pc.Finished? :: t.file) +
    if s.main.HitAdded? || s.main.MissAdded? then {s.main.file} else {}
  }

  /** All files of the scan are different, whether walked, in hand, or with a task. */
  ghost predicate DistinctFiles(s: Scan) {
    && (forall i, j :: 0 <= i < j < |s.left| ==> s.left[i] != s.left[j])
    && (forall i, j :: 0 <= i < j < |s.tasks| ==> s.tasks[i].file != s.tasks[j].file)
    && (forall f :: f in s.left ==> ValidPath(f) && forall i :: 0 <= i < |s.tasks| ==> s.tasks[i].file != f)
    && (s.main.Looking? || s.main.HitCounted? || s.main.HitAdded? || s.main.MissAdded? ==>
          && ValidPath(s.main.file) && s.main.file !in s.left
          && forall i :: 0 <= i < |s.tasks| ==> s.tasks[i].file != s.main.file)
  }

  ghost predicate Tracked(s: Scan) {
    && Mirrors(s.manager.unfinished, Open(s))
    && (s.manager.discoveryFinished <==> s.main.Waiting? || s.main.Done?)
    && (s.main.Waiting? || s.main.Done? ==> s.left == [])
    && (s.main.Done? ==> forall i :: 0 <= i < |s.tasks| ==> s.tasks[i].pc.Finished?)
    && (s.reliable && s.manager.discoveryFinished && s.manager.unfinished == [] ==>
          s.disk == Some(Text(Record(s.manager.root, COMPLETED, []))))
  }

  // ----- preservation -----

  lemma TaskCounts(tasks: seq<Task>, i: nat, t: Task)
    requires i < |tasks|
    ensures Count(tasks[i := t], IsQueued) == Count(tasks, IsQueued) - One(IsQueued(tasks[i])) + One(IsQueued(t))
    ensures Count(tasks[i := t], IsFlagged) == Count(tasks, IsFlagged) - One(IsFlagged(tasks[i])) + One(IsFlagged(t))
    ensures Count(tasks[i := t], IsMoving) == Count(tasks, IsMoving) - One(IsMoving(tasks[i])) + One(IsMoving(t))
  {
    CountUpdate(tasks, i, t, IsQueued);
    CountUpdate(tasks, i, t, IsFlagged);
    CountUpdate(tasks, i, t, IsMoving);
  }

  lemma {:induction false} CountAppend<T>(s: seq<T>, x: T, p: T -> bool)
    ensures Count(s + [x], p) == Count(s, p) + One(p(x))
  {
    if s == [] {
      assert [] + [x] == [x];
    } else {
      assert (s + [x])[1..] == s[1..] + [x];
      CountAppend(s[1..], x, p);
    }
  }

  lemma LogCounts(log: seq<Judgement>, j: Judgement)
    ensures Count(log + [j], FromCache) == Count(log, FromCache) + One(FromCache(j))
    ensures Count(log + [j], FromScan) == Count(log, FromScan) + One(FromScan(j))
    ensures Count(log + [j], CouldNotScan) == Count(log, CouldNotScan) + One(CouldNotScan(j))
    ensures Count(log + [j], IsMalicious) == Count(log, IsMalicious) + One(IsMalicious(j))
  {
    CountAppend(log, j, FromCache);
    CountAppend(log, j, FromScan);
    CountAppend(log, j, CouldNotScan);
    CountAppend(log, j, IsMalicious);
  }

  /** Every judgement is of one of three kinds, and only two of them can be malicious. */
  lemma {:induction false} LogSplits(log: seq<Judgement>)
    ensures |log| == Count(log, FromCache) + Count(log, FromScan) + Count(log, CouldNotScan)
    ensures Count(log, IsMalicious) <= Count(log, FromCache) + Count(log, FromScan)
  {
    if log == [] {
    } else {
      LogSplits(log[1..]);
    }
  }

  predicate ByTask(e: Step) {
    e.TaskFails? || e.TaskScans? || e.TaskFlags? || e.TaskMoves? || e.TaskCloses?
  }

  predicate Judges(e: Step) {
    e.TaskFails? || e.TaskScans?
  }

  lemma JudgingKeepsBalanced(s: Scan, e: Step)
    requires Balanced(s) && Enabled(s, e) && Judges(e)
    ensures Balanced(Take(s, e))
  {
    var s' := Take(s, e);
    TaskCounts(s.tasks, e.i, s'.tasks[e.i]);
    LogCounts(s.log, s'.log[|s.log|]);
  }

  lemma TaskKeepsBalanced(s: Scan, e: Step)
    requires Balanced(s) && Enabled(s, e) && ByTask(e)
    ensures Balanced(Take(s, e))
  {
    if Judges(e) {
      JudgingKeepsBalanced(s, e);
    } else {
      TaskCounts(s.tasks, e.i, Take(s, e).tasks[e.i]);
    }
  }

  lemma MainKeepsBalanced(s: Scan, e: Step)
    requires Balanced(s) && Enabled(s, e) && !ByTask(e)
    ensures Balanced(Take(s, e))
  {
    if e.CacheHit? {
      LogCounts(s.log, Take(s, e).log[|s.log|]);
    } else if e.Enqueue? {
      CountAppend(s.tasks, Task(s.main.file, Queued), IsQueued);
      CountAppend(s.tasks, Task(s.main.file, Queued), IsFlagged);
      CountAppend(s.tasks, Task(s.main.file, Queued), IsMoving);
    }
  }

  lemma DecidedAppend(log: seq<Judgement>, j: Judgement, f: Path)
    ensures Decided(log + [j], f) <==> Decided(log, f) || f == j.file
  {
    var longer := log + [j];
    assert forall i :: 0 <= i < |log| ==> longer[i] == log[i];
    assert longer[|log|] == j;
  }

  /** A file of the undecided moves to the log. */
  lemma JudgingKeepsLogged(s: Scan, s': Scan, files: seq<Path>, j: Judgement)
    requires Logged(s, files) && Undecided(s, j.file) && j.metadata == s.gathered(j.file) && j.file !in s.left
    requires s'.log == s.log + [j] && s'.left == s.left && s'.gathered == s.gathered
    requires s'.summary.discovered == s.summary.discovered
    requires forall f :: Undecided(s', f) <==> Undecided(s, f) && f != j.file
    ensures Logged(s', files)
  {
    forall f ensures Decided(s'.log, f) <==> Decided(s.log, f) || f == j.file { DecidedAppend(s.log, j, f); }
    assert !Decided(s.log, j.file);
  }

  lemma TaskKeepsLogged(s: Scan, e: Step, files: seq<Path>)
    requires DistinctFiles(s) && Logged(s, files) && Enabled(s, e) && ByTask(e)
    ensures Logged(Take(s, e), files)
  {
    var s' := Take(s, e);
    forall f ensures Undecided(s', f) <==>
                       Undecided(s, f) && (Judges(e) ==> f != s.tasks[e.i].file)
    {
      TaskUndecided(s, e, f);
    }
    if Judges(e) {
      JudgingKeepsLogged(s, s', files, s'.log[|s.log|]);
    }
  }

  lemma TaskUndecided(s: Scan, e: Step, f: Path)
    requires DistinctFiles(s) && Enabled(s, e) && ByTask(e)
    ensures Undecided(Take(s, e), f) <==>
              Undecided(s, f) && (Judges(e) ==> f != s.tasks[e.i].file)
  {
    var s' := Take(s, e);
    if i :| 0 <= i < |s.tasks| && s.tasks[i].pc.Queued? && s.tasks[i].file == f && (Judges(e) ==> i != e.i) {
      assert s'.tasks[i] == s.tasks[i];
    }
    if i :| 0 <= i < |s'.tasks| && s'.tasks[i].pc.Queued? && s'.tasks[i].file == f {
      assert s.tasks[i] == s'.tasks[i];
    }
  }

  lemma MainKeepsLogged(s: Scan, e: Step, files: seq<Path>)
    requires DistinctFiles(s) && Logged(s, files) && Enabled(s, e) && !ByTask(e)
    ensures Logged(Take(s, e), files)
  {
    var s' := Take(s, e);
    if e.Enqueue? {
      forall f ensures Undecided(s', f) <==> Undecided(s, f) { EnqueueUndecided(s, f); }
    } else if e.CacheHit? {
      JudgingKeepsLogged(s, s', files, s'.log[|s.log|]);
    } else if e.Discover? {
      assert forall f :: f in s.left <==> f == s.left[0] || f in s'.left;
      assert s.left[0] in s.left;
    }
  }

  lemma EnqueueUndecided(s: Scan, f: Path)
    requires s.main.MissAdded?
    ensures Undecided(Take(s, Enqueue), f) <==> Undecided(s, f)
  {
    var s' := Take(s, Enqueue);
    assert s'.tasks[|s.tasks|] == Task(s.main.file, Queued);
    assert forall i :: 0 <= i < |s.tasks| ==> s'.tasks[i] == s.tasks[i];
  }

  lemma KeepsDistinct(s: Scan, e: Step)
    requires DistinctFiles(s) && Enabled(s, e)
    ensures DistinctFiles(Take(s, e))
  {
    if e.Discover? {
      assert s.left[0] in s.left;
    }
  }

  lemma OpenAfterTask(s: Scan, i: nat, pc: TaskPc)
    requires DistinctFiles(s) && i < |s.tasks| && !s.tasks[i].pc.Finished?
    ensures Open(SetTask(s, i, pc)) == if pc.Finished? then Open(s) - {s.tasks[i].file} else Open(s)
  {
    var s' := SetTask(s, i, pc);
    forall f | f in Open(s) && (pc.Finished? ==> f != s.tasks[i].file) ensures f in Open(s') {
      if t :| t in s.tasks && !t.pc.Finished? && t.file == f {
        var j :| 0 <= j < |s.tasks| && s.tasks[j] == t;
        assert s'.tasks[j].file == f && s'.tasks[j] in s'.tasks;
      }
    }
    forall f | f in Open(s') ensures f in Open(s) && (pc.Finished? ==> f != s.tasks[i].file) {
      if t :| t in s'.tasks && !t.pc.Finished? && t.file == f {
        var j :| 0 <= j < |s.tasks| && s'.tasks[j] == t;
        assert s.tasks[j].file == f && s.tasks[j] in s.tasks;
      }
    }
  }

  lemma OpenAfterEnqueue(s: Scan)
    requires s.main.MissAdded?
    ensures Open(Take(s, Enqueue)) == Open(s)
  {
    var s' := Take(s, Enqueue);
    assert forall t :: t in s'.tasks <==> t in s.tasks || t == Task(s.main.file, Queued);
    assert Task(s.main.file, Queued) in s'.tasks;
  }

  lemma AddKeepsTracked(s: Scan, e: Step)
    requires DistinctFiles(s) && Tracked(s) && Enabled(s, e) && (e.HitAdds? || e.CacheMiss?)
    ensures Tracked(Take(s, e))
  {
    MirrorsAdd(s.manager.unfinished, Open(s), s.main.file);
    assert Open(Take(s, e)) == Open(s) + {s.main.file};
  }

  lemma HitCompletesKeepsTracked(s: Scan, io: WriteOutcome)
    requires DistinctFiles(s) && Tracked(s) && Enabled(s, HitCompletes(io))
    ensures Tracked(Take(s, HitCompletes(io)))
  {
    MirrorsErase(s.manager.unfinished, Open(s), s.main.file);
    assert Open(Take(s, HitCompletes(io))) == Open(s) - {s.main.file};
  }

  lemma TaskClosesKeepsTracked(s: Scan, i: nat, io: WriteOutcome)
    requires DistinctFiles(s) && Tracked(s) && Enabled(s, TaskCloses(i, io))
    ensures Tracked(Take(s, TaskCloses(i, io)))
  {
    OpenAfterTask(s, i, Finished);
    assert s.tasks[i] in s.tasks;
    MirrorsErase(s.manager.unfinished, Open(s), s.tasks[i].file);
    assert Open(Take(s, TaskCloses(i, io))) == Open(s) - {s.tasks[i].file};
  }

  lemma TaskKeepsTracked(s: Scan, e: Step)
    requires DistinctFiles(s) && Tracked(s) && Enabled(s, e) && ByTask(e) && !e.TaskCloses?
    ensures Tracked(Take(s, e))
  {
    OpenAfterTask(s, e.i, Take(s, e).tasks[e.i].pc);
    assert Open(Take(s, e)) == Open(s);
  }

  lemma MainKeepsTracked(s: Scan, e: Step)
    requires DistinctFiles(s) && Tracked(s) && Enabled(s, e)
    requires !ByTask(e) && !e.HitAdds? && !e.CacheMiss? && !e.HitCompletes?
    ensures Tracked(Take(s, e))
  {
    if e.Enqueue? { OpenAfterEnqueue(s); }
    assert Open(Take(s, e)) == Open(s);
  }

  lemma KeepsTracked(s: Scan, e: Step)
    requires DistinctFiles(s) && Tracked(s) && Enabled(s, e)
    ensures Tracked(Take(s, e))
  {
    match e
    case HitAdds => AddKeepsTracked(s, e);
    case CacheMiss => AddKeepsTracked(s, e);
    case HitCompletes(io) => HitCompletesKeepsTracked(s, io);
    case TaskCloses(i, io) => TaskClosesKeepsTracked(s, i, io);
    case _ => if ByTask(e) { TaskKeepsTracked(s, e); } else { MainKeepsTracked(s, e); }
  }

  ghost predicate Inv(s: Scan, files: seq<Path>) {
    Balanced(s) && DistinctFiles(s) && Tracked(s) && Logged(s, files)
  }

  lemma StepKeepsInv(s: Scan, e: Step, files: seq<Path>)
    requires Inv(s, files) && Enabled(s, e)
    ensures Inv(Take(s, e), files)
  {
    if ByTask(e) {
      TaskKeepsBalanced(s, e);
      TaskKeepsLogged(s, e, files);
    } else {
      MainKeepsBalanced(s, e);
      MainKeepsLogged(s, e, files);
    }
    KeepsDistinct(s, e);
    KeepsTracked(s, e);
  }

  // ----- results -----

  /** A scan of these files about to start, its checkpoint begun. */
  ghost predicate Fresh(s: Scan) {
    && s.main.Walking? && s.tasks == [] && s.summary == Summary(0, 0, 0, 0, 0, 0) && s.log == []
    && s.manager.unfinished == [] && !s.manager.discoveryFinished
    && (forall i, j :: 0 <= i < j < |s.left| ==> s.left[i] != s.left[j])
    && (forall f :: f in s.left ==> ValidPath(f))
  }

  lemma FreshInv(s: Scan)
    requires Fresh(s)
    ensures Inv(s, s.left)
  {
    assert Open(s) == {};
  }

  ghost predicate IsScan(states: seq<Scan>, steps: seq<Step>) {
    && |states| == |steps| + 1 && Fresh(states[0])
    && forall k :: 0 <= k < |steps| ==> Enabled(states[k], steps[k]) && states[k + 1] == Take(states[k], steps[k])
  }

  lemma {:induction false} ScanInv(states: seq<Scan>, steps: seq<Step>, k: nat)
    requires IsScan(states, steps) && k < |states|
    ensures Inv(states[k], states[0].left)
  {
    if k == 0 {
      FreshInv(states[0]);
    } else {
      ScanInv(states, steps, k - 1);
      StepKeepsInv(states[k - 1], steps[k - 1], states[0].left);
    }
  }

  /** At any moment of any interleaving. */
  lemma CountersAgree(states: seq<Scan>, steps: seq<Step>, k: nat)
    requires IsScan(states, steps) && k < |states|
    ensures var s := states[k];
            && s.summary.discovered == s.summary.cached + s.summary.scanned + s.summary.failed +
                                       Count(s.tasks, IsQueued) + One(s.main.Looking? || s.main.MissAdded?)
            && s.summary.discovered + |s.left| == |states[0].left|
            && s.summary.quarantined == Quarantines(steps, k)
            && s.summary.quarantined <= s.summary.malicious <= s.summary.cached + s.summary.scanned
  {
    ScanInv(states, steps, k);
    LogSplits(states[k].log);
    QuarantinedAreCounted(states, steps, k);
  }

  /** Exactly one judgement of each file. */
  ghost predicate JudgesEach(log: seq<Judgement>, files: seq<Path>) {
    && |log| == |files|
    && (forall f :: f in files <==> Decided(log, f))
    && (forall i, j :: 0 <= i < j < |log| ==> log[i].file != log[j].file)
  }

  lemma DoneJudgesEach(s: Scan, files: seq<Path>)
    requires Inv(s, files) && s.main.Done?
    ensures JudgesEach(s.log, files)
    ensures Count(s.tasks, IsQueued) == 0 && Count(s.tasks, IsFlagged) == 0
  {
    CountZero(s.tasks, IsQueued);
    CountZero(s.tasks, IsFlagged);
    assert forall f :: !Undecided(s, f);
  }

  // ----- moving to quarantine -----

  /** How often, among the first k steps, task i tried to move its file to quarantine. */
  function MovesOf(steps: seq<Step>, k: nat, i: nat): nat
    requires k <= |steps|
  {
    if k == 0 then 0
    else MovesOf(steps, k - 1, i) + One(steps[k - 1].TaskMoves? && steps[k - 1].i == i)
  }

  /** How many of the first k steps moved a file to quarantine. */
  function Quarantines(steps: seq<Step>, k: nat): nat
    requires k <= |steps|
  {
    if k == 0 then 0
    else Quarantines(steps, k - 1) + One(steps[k - 1].TaskMoves? && steps[k - 1].quarantined)
  }

  ghost predicate FoundMalicious(log: seq<Judgement>, f: Path) {
    exists i :: 0 <= i < |log| && log[i].file == f && !log[i].cached && log[i].verdict.Malicious?
  }

  lemma FoundMaliciousAppend(log: seq<Judgement>, j: Judgement, f: Path)
    ensures FoundMalicious(log + [j], f) <==>
              FoundMalicious(log, f) || (f == j.file && !j.cached && j.verdict.Malicious?)
    ensures FoundMalicious(log, f) ==> Decided(log, f)
  {
    var longer := log + [j];
    assert forall i :: 0 <= i < |log| ==> longer[i] == log[i];
    assert longer[|log|] == j;
  }

  /** The task is past the point where a malicious file is moved. */
  ghost predicate Moved(s: Scan, i: nat) {
    i < |s.tasks| && (s.tasks[i].pc.Closing? || s.tasks[i].pc.Finished?) && FoundMalicious(s.log, s.tasks[i].file)
  }

  /** Tasks on their way to quarantine have found their file malicious. */
  ghost predicate MovingIsMalicious(s: Scan) {
    forall i :: 0 <= i < |s.tasks| && (s.tasks[i].pc.Flagged? || s.tasks[i].pc.Moving?) ==>
                  FoundMalicious(s.log, s.tasks[i].file)
  }

  /** What a step logs, if anything, is about a file not judged before. */
  lemma JudgedAnew(s: Scan, e: Step, files: seq<Path>)
    requires Logged(s, files) && Enabled(s, e)
    ensures var log' := Take(s, e).log;
            log' == s.log ||
            (|log'| == |s.log| + 1 && log' == s.log + [log'[|s.log|]] && !Decided(s.log, log'[|s.log|].file))
  {
  }

  /** What was found of a file that is judged stays what was found. */
  lemma FoundStays(s: Scan, e: Step, files: seq<Path>, f: Path)
    requires Logged(s, files) && Enabled(s, e) && Decided(s.log, f)
    ensures FoundMalicious(Take(s, e).log, f) <==> FoundMalicious(s.log, f)
  {
    JudgedAnew(s, e, files);
    if Take(s, e).log != s.log { FoundMaliciousAppend(s.log, Take(s, e).log[|s.log|], f); }
  }

  /** Tasks past their scan have their file judged. */
  ghost predicate TasksJudged(s: Scan) {
    forall i :: 0 <= i < |s.tasks| && !s.tasks[i].pc.Queued? ==> Decided(s.log, s.tasks[i].file)
  }

  lemma KeepsTasksJudged(s: Scan, e: Step)
    requires TasksJudged(s) && Enabled(s, e)
    ensures TasksJudged(Take(s, e))
  {
    var s' := Take(s, e);
    forall i | 0 <= i < |s'.tasks| && !s'.tasks[i].pc.Queued? ensures Decided(s'.log, s'.tasks[i].file) {
      if i < |s.tasks| && !s.tasks[i].pc.Queued? {
        assert Decided(s.log, s.tasks[i].file);
        if s'.log != s.log { DecidedAppend(s.log, s'.log[|s.log|], s.tasks[i].file); }
      } else {
        DecidedAppend(s.log, s'.log[|s.log|], s'.tasks[i].file);
      }
    }
  }

  lemma KeepsMovingIsMalicious(s: Scan, e: Step, files: seq<Path>)
    requires Logged(s, files) && MovingIsMalicious(s) && TasksJudged(s) && Enabled(s, e)
    ensures MovingIsMalicious(Take(s, e))
  {
    var s' := Take(s, e);
    forall i | 0 <= i < |s'.tasks| && (s'.tasks[i].pc.Flagged? || s'.tasks[i].pc.Moving?)
      ensures FoundMalicious(s'.log, s'.tasks[i].file)
    {
      if e == TaskScans(i, true) {
        FoundMaliciousAppend(s.log, s'.log[|s.log|], s'.tasks[i].file);
      } else {
        FoundStays(s, e, files, s.tasks[i].file);
      }
    }
  }

  /** Just the step that tries to quarantine its file brings a task past that point. */
  lemma MovedStep(s: Scan, e: Step, files: seq<Path>, i: nat)
    requires Logged(s, files) && MovingIsMalicious(s) && TasksJudged(s) && Enabled(s, e)
    ensures One(Moved(Take(s, e), i)) == One(Moved(s, i)) + One(e.TaskMoves? && e.i == i)
  {
    var s' := Take(s, e);
    if i < |s.tasks| {
      if s.tasks[i].pc.Queued? {
        assert Undecided(s, s.tasks[i].file);
        if s'.log != s.log { FoundMaliciousAppend(s.log, s'.log[|s.log|], s.tasks[i].file); }
      } else {
        FoundStays(s, e, files, s.tasks[i].file);
      }
    }
  }

  lemma {:induction false} MovesInv(states: seq<Scan>, steps: seq<Step>, k: nat, i: nat)
    requires IsScan(states, steps) && k < |states|
    ensures MovingIsMalicious(states[k]) && TasksJudged(states[k])
    ensures MovesOf(steps, k, i) == One(Moved(states[k], i))
    ensures states[k].summary.quarantined == Quarantines(steps, k)
  {
    if k == 0 {
    } else {
      MovesInv(states, steps, k - 1, i);
      var s, e := states[k - 1], steps[k - 1];
      ScanInv(states, steps, k - 1);
      KeepsTasksJudged(s, e);
      KeepsMovingIsMalicious(s, e, states[0].left);
      MovedStep(s, e, states[0].left, i);
      QuarantinedAfter(s, e);
    }
  }

  lemma QuarantinedAfter(s: Scan, e: Step)
    requires Enabled(s, e)
    ensures Take(s, e).summary.quarantined == s.summary.quarantined + One(e.TaskMoves? && e.quarantined)
  {
  }

  /** At any moment the quarantined counter is the number of moves that succeeded. */
  lemma QuarantinedAreCounted(states: seq<Scan>, steps: seq<Step>, k: nat)
    requires IsScan(states, steps) && k < |states|
    ensures states[k].summary.quarantined == Quarantines(steps, k)
  {
    MovesInv(states, steps, k, 0);
  }

  // ----- checkpoint writes -----

  predicate WritesCheckpoint(e: Step) {
    e.HitCompletes? || e.WalkEnds? || e.TaskCloses?
  }

  /** Every write asked for by the first k steps arrives in full. */
  ghost predicate AllArrived(states: seq<Scan>, steps: seq<Step>, k: nat)
    requires k <= |steps| && |states| == |steps| + 1
  {
    forall j :: 0 <= j < k && WritesCheckpoint(steps[j]) ==> Arrives(steps[j].io, states[j].manager)
  }

  lemma {:induction false} ReliableIffArrived(states: seq<Scan>, steps: seq<Step>, k: nat)
    requires IsScan(states, steps) && k < |states|
    ensures states[k].reliable <==> states[0].reliable && AllArrived(states, steps, k)
  {
    if k == 0 {
    } else {
      ReliableIffArrived(states, steps, k - 1);
      ReliableAfter(states[k - 1], steps[k - 1]);
    }
  }

  lemma ReliableAfter(s: Scan, e: Step)
    requires Enabled(s, e)
    ensures Take(s, e).reliable <==> s.reliable && (WritesCheckpoint(e) ==> Arrives(e.io, s.manager))
  {
  }

  // ----- after the wait -----

  /**
   * When the wait for the pool is over, each file of the walk has exactly one judgement, the
   * counters are those of the judgements, each file that a task found malicious was tried for
   * quarantine exactly once and no other was, and no file is unfinished.
   */
  lemma NothingLeftAfterWait(states: seq<Scan>, steps: seq<Step>, k: nat)
    requires IsScan(states, steps) && k < |states| && states[k].main.Done?
    ensures var s := states[k];
            && JudgesEach(s.log, states[0].left)
            && s.summary.discovered == |states[0].left| == s.summary.cached + s.summary.scanned + s.summary.failed
            && s.summary.cached == Count(s.log, FromCache) && s.summary.failed == Count(s.log, CouldNotScan)
            && s.summary.malicious == Count(s.log, IsMalicious)
            && s.summary.quarantined == Quarantines(steps, k)
            && (forall i :: 0 <= i < |s.tasks| ==> MovesOf(steps, k, i) == One(FoundMalicious(s.log, s.tasks[i].file)))
            && (forall i :: i >= |s.tasks| ==> MovesOf(steps, k, i) == 0)
            && s.manager.unfinished == []
            && (states[0].reliable && AllArrived(states, steps, k) ==>
                  s.disk == Some(Text(Record(s.manager.root, COMPLETED, []))))
  {
    ScanInv(states, steps, k);
    var s := states[k];
    DoneJudgesEach(s, states[0].left);
    LogSplits(s.log);
    assert Open(s) == {};
    EmptyMirror(s.manager.unfinished, Open(s));
    ReliableIffArrived(states, steps, k);
    MovesInv(states, steps, k, 0);
    forall i: nat ensures MovesOf(steps, k, i) == One(Moved(s, i)) { MovesInv(states, steps, k, i); }
  }
}
