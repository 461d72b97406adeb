// The whole scanner over many runs: one pipeline at a time, with the cache it asks and
// updates, the automaton's reports, and the checkpoint on disk. A process may die at any
// step. The parts are those of the other modules; here they have to fit together.
module WholeScan {
  import opened Options
  import opened ByteStrings
  import opened Paths
  import opened OrderedBytes
  import opened WalkOrder
  import opened Exclusion
  import opened CacheStore
  import opened Checkpoint
  import opened ResumeManagement
  import opened ResumeTheorems
  import Scanning
  import Cache = CacheProtocol
  import Resume = ResumeProtocol
  import opened Pipeline = ScanPipeline

  datatype Setting = Setting(
    sites: map<Bytes, Site>,
    excluded: set<Bytes>,
    interval: nat,
    batchSize: nat,
    ground: Cache.Ground)

  ghost predicate ValidSetting(c: Setting) {
    ValidSites(c.sites) && c.interval > 0
  }

  /**
   * One process scanning one root. files: what its walk hands over. earlier: the judgements
   * of the runs behind the checkpoint it resumed from. stamped: the files whose entry it has
   * put into the cache's memory. loaded: what that memory held when it began.
   */
  datatype Session = Session(
    root: Bytes,
    files: seq<Path>,
    earlier: seq<Judgement>,
    stamped: set<Path>,
    loaded: map<Bytes, CacheEntry>,
    scan: Scan)

  /** credit: the judgements made when the checkpoint on disk was written. */
  datatype System = System(
    disk: Option<Bytes>,
    credit: seq<Judgement>,
    cache: Cache.World,
    session: Option<Session>)

  datatype Act =
    | Start(root: Bytes, gathered: Path -> FileMetadata, readFails: bool, io: WriteOutcome)
    | Proceed(step: Pipeline.Step)
    | StampHit
    | StampScan(i: nat)
    | Background(event: Cache.Event)
    | Stop

  // ----- one step -----

  /** The key of a file in the cache. */
  function Key(c: Setting, root: Bytes, f: Path): Bytes
    requires root in c.sites
  {
    Absolute(c.sites[root].root + f)
  }

  ghost predicate Running(c: Setting, s: System) {
    s.session.Some? && s.cache.run.Some? && s.session.value.root in c.sites
  }

  /** What the cache answers for a file of the session. */
  function Answer(c: Setting, s: System, f: Path): Option<FileVerdict>
    requires s.session.Some? && s.cache.run.Some? && s.session.value.root in c.sites
  {
    var session := s.session.value;
    Cache.CachedVerdict(s.cache.run.value.memory, Key(c, session.root, f), session.scan.gathered(f))
  }

  /** Some report that FileProcessor may give for the file leads to this verdict. */
  ghost predicate Reported(c: Setting, key: Bytes, m: FileMetadata, malicious: bool) {
    exists report ::
      && Scanning.IsReport(c.ground.signatures(m.signaturesLastModified),
                           c.ground.contents(key, m.lastModified, m.size), report)
      && malicious == (report != [])
  }

  /** The cache's update() for this file has returned. */
  ghost predicate Handed(c: Setting, s: System, f: Path)
    requires Running(c, s)
  {
    f in s.session.value.stamped && Key(c, s.session.value.root, f) !in s.cache.run.value.unsubmitted
  }

  ghost predicate CouldNotRead(log: seq<Judgement>, f: Path) {
    exists i :: 0 <= i < |log| && log[i].file == f && CouldNotScan(log[i])
  }

  /** What a pipeline step takes from the cache and the scanner, and what it waits for. */
  ghost predicate Fitting(c: Setting, s: System, e: Pipeline.Step)
    requires Running(c, s) && Pipeline.Enabled(s.session.value.scan, e)
  {
    var scan := s.session.value.scan;
    match e
    case CacheHit(verdict) => Answer(c, s, scan.main.file) == Some(verdict)
    case CacheMiss => Answer(c, s, scan.main.file) == None
    case HitAdds => Handed(c, s, scan.main.file)
    case TaskScans(i, malicious) =>
      Reported(c, Key(c, s.session.value.root, scan.tasks[i].file), scan.gathered(scan.tasks[i].file), malicious)
    case TaskCloses(i, _) => CouldNotRead(scan.log, scan.tasks[i].file) || Handed(c, s, scan.tasks[i].file)
    case _ => true
  }

  /** The file a stamping act is about. */
  ghost predicate Stampable(s: Session, act: Act) {
    match act
    case StampHit => s.scan.main.HitCounted? && !s.scan.main.malicious && s.scan.main.file !in s.stamped
    case StampScan(i) =>
      && i < |s.scan.tasks| && s.scan.tasks[i].pc.Closing?
      && !CouldNotRead(s.scan.log, s.scan.tasks[i].file) && s.scan.tasks[i].file !in s.stamped
    case _ => false
  }

  ghost function Stamping(c: Setting, s: System, act: Act): Cache.Event
    requires Running(c, s) && Stampable(s.session.value, act)
  {
    var session := s.session.value;
    match act
    case StampHit =>
      Cache.Hit(Key(c, session.root, session.scan.main.file), session.scan.gathered(session.scan.main.file))
    case StampScan(i) =>
      var f := session.scan.tasks[i].file;
      Cache.Scanned(Key(c, session.root, f), session.scan.gathered(f))
  }

  predicate ByItself(e: Cache.Event) {
    e.Submit? || e.WriterTakes? || e.WriterWrites? || e.Joined? || e.Prune? || e.Promote?
  }

  ghost predicate Possible(c: Setting, s: System, act: Act) {
    match act
    case Start(root, _, readFails, _) =>
      && s.session.None? && root in c.sites
      && Cache.Enabled(c.batchSize, s.cache, Cache.Load(root == ROOT_TEXT, readFails))
    case Proceed(e) => Running(c, s) && Pipeline.Enabled(s.session.value.scan, e) && Fitting(c, s, e)
    case Background(e) =>
      && Running(c, s) && Cache.Enabled(c.batchSize, s.cache, e)
      && (ByItself(e) || (e.Finish? && s.session.value.scan.main.Done?))
    case Stop => s.session.Some?
    case _ =>
      && Running(c, s) && Stampable(s.session.value, act)
      && Cache.Enabled(c.batchSize, s.cache, Stamping(c, s, act))
  }

  /** The checkpoint file follows the session's; when it changes it stands for what is judged now. */
  function Saved(s: System, session: Session): System {
    System(session.scan.disk,
           if session.scan.disk == s.disk then s.credit else session.earlier + session.scan.log,
           s.cache, Some(session))
  }

  /** The session a process begins: resumed if the checkpoint is a running one of this root. */
  function Begun(c: Setting, s: System, root: Bytes, gathered: Path -> FileMetadata, io: WriteOutcome): Session
    requires root in c.sites
  {
    var picked := Resumable(s.disk, root);
    var begun := Begin(Manager([], [], [], false, 0), s.disk, root, io);
    var from := if picked.Some? then Split(begun.manager.next) else [];
    var files := Delivered(c.excluded, c.sites[root].root, c.sites[root].tree, from);
    Session(root, files, if picked.Some? then s.credit else [], {}, map[],
            Scan(c.interval, gathered, files, Walking, [], Summary(0, 0, 0, 0, 0, 0), [],
                 begun.manager, begun.disk, true))
  }

  ghost function Next(c: Setting, s: System, act: Act): System
    requires Possible(c, s, act)
  {
    match act
    case Start(root, gathered, readFails, io) =>
      var loaded := Cache.Step(c.ground, c.batchSize, s.cache, Cache.Load(root == ROOT_TEXT, readFails));
      Saved(s.(cache := loaded), Begun(c, s, root, gathered, io).(loaded := loaded.run.value.memory))
    case Proceed(e) => Saved(s, s.session.value.(scan := Take(s.session.value.scan, e)))
    case StampHit =>
      var session := s.session.value;
      s.(cache := Cache.Step(c.ground, c.batchSize, s.cache, Stamping(c, s, act)),
         session := Some(session.(stamped := session.stamped + {session.scan.main.file})))
    case StampScan(i) =>
      var session := s.session.value;
      s.(cache := Cache.Step(c.ground, c.batchSize, s.cache, Stamping(c, s, act)),
         session := Some(session.(stamped := session.stamped + {session.scan.tasks[i].file})))
    case Background(e) => s.(cache := Cache.Step(c.ground, c.batchSize, s.cache, e))
    case Stop => s.(cache := Cache.Step(c.ground, c.batchSize, s.cache, Cache.Event.Stop), session := None)
  }

  // ----- invariants -----

  /** A judgement that stands: the verdict a fresh scan gives, or the file could not be read. */
  ghost predicate Right(c: Setting, root: Bytes, j: Judgement)
    requires root in c.sites
  {
    CouldNotScan(j) || j.verdict == Cache.Truth(c.ground, Key(c, root, j.file), j.metadata)
  }

  ghost predicate AllRight(c: Setting, root: Bytes, log: seq<Judgement>)
    requires root in c.sites
  {
    forall i :: 0 <= i < |log| ==> Right(c, root, log[i])
  }

  /** Files whose update() may be under way. */
  ghost predicate InHand(scan: Scan, f: Path) {
    || (scan.main.HitCounted? && !scan.main.malicious && scan.main.file == f)
    || exists i :: 0 <= i < |scan.tasks| && scan.tasks[i].pc.Closing? && scan.tasks[i].file == f
  }

  /** Files judged and not yet reported as completed. */
  ghost predicate Closed(pc: TaskPc) {
    pc.Flagged? || pc.Moving? || pc.Closing?
  }

  ghost predicate Pending(scan: Scan, f: Path) {
    || (scan.main.HitCounted? && scan.main.file == f)
    || exists i :: 0 <= i < |scan.tasks| && Closed(scan.tasks[i].pc) && scan.tasks[i].file == f
  }

  /** The entry of a stamped file is in memory, stamped for this run. */
  ghost predicate InMemory(c: Setting, session: Session, run: Cache.Run, f: Path)
    requires session.root in c.sites
  {
    var key := Key(c, session.root, f);
    && key in run.memory && run.memory[key].metadata == session.scan.gathered(f)
    && run.memory[key].generation == run.generation
  }

  ghost predicate Stamps(c: Setting, session: Session, run: Cache.Run)
    requires session.root in c.sites
  {
    forall f :: f in session.stamped ==>
      && Decided(session.scan.log, f) && !CouldNotRead(session.scan.log, f)
      && InMemory(c, session, run, f)
  }

  ghost predicate Unsent(c: Setting, session: Session, run: Cache.Run)
    requires session.root in c.sites
  {
    forall p :: p in run.unsubmitted ==>
      exists f :: f in session.stamped && InHand(session.scan, f) && Key(c, session.root, f) == p
  }

  /** A hit counted and not stamped yet still hits. */
  ghost predicate StillHits(c: Setting, session: Session, run: Cache.Run)
    requires session.root in c.sites
  {
    session.scan.main.HitCounted? && session.scan.main.file !in session.stamped ==>
      var f := session.scan.main.file;
      Cache.CachedVerdict(run.memory, Key(c, session.root, f), session.scan.gathered(f)).Some?
  }

  /** Every judgement of a readable file is stamped, or will be. */
  ghost predicate Covered(session: Session) {
    forall i :: 0 <= i < |session.scan.log| ==>
      var j := session.scan.log[i];
      CouldNotScan(j) || j.file in session.stamped || Pending(session.scan, j.file)
  }

  /** Whatever is being closed has its judgement, and a hit has one from the cache. */
  ghost predicate Judged(scan: Scan) {
    && (forall f :: Pending(scan, f) ==> Decided(scan.log, f))
    && (scan.main.HitAdded? ==> Decided(scan.log, scan.main.file))
    && (scan.main.HitCounted? ==> !CouldNotRead(scan.log, scan.main.file))
  }

  ghost predicate SessionInv(c: Setting, s: System) {
    s.session.Some? ==>
      && Running(c, s)
      && var session, run := s.session.value, s.cache.run.value;
      && Pipeline.Inv(session.scan, session.files)
      && (forall f :: f in session.files ==> ValidPath(f))
      && session.scan.disk == s.disk && session.scan.interval == c.interval
      && session.scan.manager.root == session.root
      && AllRight(c, session.root, session.scan.log) && AllRight(c, session.root, session.earlier)
      && Stamps(c, session, run) && Unsent(c, session, run) && StillHits(c, session, run)
      && Covered(session) && Judged(session.scan)
      && (run.phase.Scanning? || session.scan.main.Done?) && (run.full <==> session.root == ROOT_TEXT)
  }

  ghost predicate Inv(c: Setting, s: System) {
    && Cache.Inv(c.ground, s.cache)
    && (s.session.Some? <==> s.cache.run.Some?)
    && SessionInv(c, s)
    && CreditInv(c, s)
  }

  /** The judgements behind the checkpoint stand, for the root it can be read as. */
  ghost predicate CreditInv(c: Setting, s: System) {
    s.disk.Some? && Load(s.disk.value).Some? ==>
      var r := Load(s.disk.value).value;
      r.root in c.sites && (r.status == RUNNING || r.status == COMPLETED) ==> AllRight(c, r.root, s.credit)
  }

  // ----- steps of the pipeline -----

  lemma CouldNotReadAppend(log: seq<Judgement>, j: Judgement, f: Path)
    ensures CouldNotRead(log + [j], f) <==> CouldNotRead(log, f) || (f == j.file && CouldNotScan(j))
  {
    var longer := log + [j];
    assert forall i :: 0 <= i < |log| ==> longer[i] == log[i];
    assert longer[|log|] == j;
  }

  predicate Decides(e: Pipeline.Step) {
    e.CacheHit? || e.TaskFails? || e.TaskScans?
  }

  /** A step either leaves the log alone or adds the judgement of an undecided file. */
  lemma LogGrows(scan: Scan, files: seq<Path>, e: Pipeline.Step)
    requires Logged(scan, files) && Pipeline.Enabled(scan, e)
    ensures var log' := Take(scan, e).log;
            if Decides(e)
            then |log'| == |scan.log| + 1 && log' == scan.log + [log'[|scan.log|]]
                 && Undecided(scan, log'[|scan.log|].file) && !Decided(scan.log, log'[|scan.log|].file)
            else log' == scan.log
  {
  }

  lemma DecidedStays(scan: Scan, files: seq<Path>, e: Pipeline.Step, f: Path)
    requires Logged(scan, files) && Pipeline.Enabled(scan, e) && Decided(scan.log, f)
    ensures Decided(Take(scan, e).log, f)
    ensures CouldNotRead(Take(scan, e).log, f) <==> CouldNotRead(scan.log, f)
  {
    LogGrows(scan, files, e);
    if Decides(e) {
      var j := Take(scan, e).log[|scan.log|];
      DecidedAppend(scan.log, j, f);
      CouldNotReadAppend(scan.log, j, f);
    }
  }

  lemma ProceedKeepsRight(c: Setting, s: System, e: Pipeline.Step)
    requires Running(c, s) && Pipeline.Enabled(s.session.value.scan, e) && Fitting(c, s, e)
    requires Logged(s.session.value.scan, s.session.value.files) && Cache.Transparent(c.ground, s.cache)
    requires AllRight(c, s.session.value.root, s.session.value.scan.log)
    ensures AllRight(c, s.session.value.root, Take(s.session.value.scan, e).log)
  {
    var session, scan := s.session.value, s.session.value.scan;
    LogGrows(scan, session.files, e);
    if e.CacheHit? {
      assert Cache.Honest(c.ground, s.cache.run.value.memory[Key(c, session.root, scan.main.file)]);
    } else if e.TaskScans? {
      ReportedIsTrue(c, Key(c, session.root, scan.tasks[e.i].file), scan.gathered(scan.tasks[e.i].file), e.malicious);
    }
  }

  lemma ReportedIsTrue(c: Setting, key: Bytes, m: FileMetadata, malicious: bool)
    requires Reported(c, key, m, malicious)
    ensures (if malicious then Malicious else Clean) == Cache.Truth(c.ground, key, m)
  {
    var report :|
      && Scanning.IsReport(c.ground.signatures(m.signaturesLastModified),
                           c.ground.contents(key, m.lastModified, m.size), report)
      && malicious == (report != []);
    Cache.ReportGivesTruth(c.ground, key, m, report);
  }

  lemma ProceedKeepsStamps(c: Setting, session: Session, run: Cache.Run, e: Pipeline.Step)
    requires session.root in c.sites && Pipeline.Enabled(session.scan, e)
    requires Logged(session.scan, session.files) && Stamps(c, session, run)
    ensures Stamps(c, session.(scan := Take(session.scan, e)), run)
  {
    forall f | f in session.stamped
      ensures Decided(Take(session.scan, e).log, f) && !CouldNotRead(Take(session.scan, e).log, f)
    {
      DecidedStays(session.scan, session.files, e, f);
    }
  }

  /** Steps that report this file as completed, or are about to. */
  ghost predicate Closes(scan: Scan, e: Pipeline.Step, f: Path)
    requires Pipeline.Enabled(scan, e)
  {
    (e.HitAdds? && f == scan.main.file) || (e.TaskCloses? && f == scan.tasks[e.i].file)
  }

  lemma StaysInHand(scan: Scan, e: Pipeline.Step, f: Path)
    requires Pipeline.Enabled(scan, e) && InHand(scan, f) && !Closes(scan, e, f)
    ensures InHand(Take(scan, e), f)
  {
    var scan' := Take(scan, e);
    if i :| 0 <= i < |scan.tasks| && scan.tasks[i].pc.Closing? && scan.tasks[i].file == f {
      assert scan'.tasks[i] == scan.tasks[i];
    }
  }

  lemma StaysPending(scan: Scan, e: Pipeline.Step, f: Path)
    requires Pipeline.Enabled(scan, e) && Pending(scan, f) && !Closes(scan, e, f)
    ensures Pending(Take(scan, e), f)
  {
    var scan' := Take(scan, e);
    if i :| 0 <= i < |scan.tasks| && Closed(scan.tasks[i].pc) && scan.tasks[i].file == f {
      assert Closed(scan'.tasks[i].pc) && scan'.tasks[i].file == f;
    }
  }

  /** A file is closed when its update has returned, or when there is none to make. */
  lemma ClosedIsHanded(c: Setting, s: System, e: Pipeline.Step, f: Path)
    requires Running(c, s) && Pipeline.Enabled(s.session.value.scan, e) && Fitting(c, s, e)
    requires Closes(s.session.value.scan, e, f)
    ensures CouldNotRead(s.session.value.scan.log, f) || Handed(c, s, f)
  {
  }

  lemma ProceedKeepsUnsent(c: Setting, s: System, e: Pipeline.Step)
    requires Running(c, s) && Pipeline.Enabled(s.session.value.scan, e) && Fitting(c, s, e)
    requires Stamps(c, s.session.value, s.cache.run.value) && Unsent(c, s.session.value, s.cache.run.value)
    ensures Unsent(c, s.session.value.(scan := Take(s.session.value.scan, e)), s.cache.run.value)
  {
    var session, scan' := s.session.value, Take(s.session.value.scan, e);
    forall p | p in s.cache.run.value.unsubmitted
      ensures exists f :: f in session.stamped && InHand(scan', f) && Key(c, session.root, f) == p
    {
      var f :| f in session.stamped && InHand(session.scan, f) && Key(c, session.root, f) == p;
      if Closes(session.scan, e, f) { ClosedIsHanded(c, s, e, f); }
      StaysInHand(session.scan, e, f);
    }
  }

  lemma NewIsPending(scan: Scan, files: seq<Path>, e: Pipeline.Step)
    requires Logged(scan, files) && Pipeline.Enabled(scan, e) && Decides(e)
    ensures var j := Take(scan, e).log[|scan.log|]; CouldNotScan(j) || Pending(Take(scan, e), j.file)
  {
    var scan' := Take(scan, e);
    if e.TaskScans? {
      assert Closed(scan'.tasks[e.i].pc) && scan'.tasks[e.i].file == scan.tasks[e.i].file;
    }
  }

  lemma ProceedKeepsCovered(c: Setting, s: System, e: Pipeline.Step)
    requires Running(c, s) && Pipeline.Enabled(s.session.value.scan, e) && Fitting(c, s, e)
    requires Logged(s.session.value.scan, s.session.value.files) && Covered(s.session.value)
    ensures Covered(s.session.value.(scan := Take(s.session.value.scan, e)))
  {
    var session, scan' := s.session.value, Take(s.session.value.scan, e);
    LogGrows(session.scan, session.files, e);
    if Decides(e) { NewIsPending(session.scan, session.files, e); }
    forall i | 0 <= i < |session.scan.log|
      ensures var j := scan'.log[i]; CouldNotScan(j) || j.file in session.stamped || Pending(scan', j.file)
    {
      var j := session.scan.log[i];
      assert scan'.log[i] == j;
      if !CouldNotScan(j) && j.file !in session.stamped {
        if Closes(session.scan, e, j.file) { ClosedIsHanded(c, s, e, j.file); }
        StaysPending(session.scan, e, j.file);
      }
    }
  }

  /** Only judging a file makes it pending. */
  lemma PendingBefore(scan: Scan, e: Pipeline.Step, f: Path)
    requires Pipeline.Enabled(scan, e) && Pending(Take(scan, e), f)
    ensures Pending(scan, f) || (Decides(e) && f == Take(scan, e).log[|scan.log|].file)
  {
    var scan' := Take(scan, e);
    if i :| 0 <= i < |scan'.tasks| && Closed(scan'.tasks[i].pc) && scan'.tasks[i].file == f {
      if i < |scan.tasks| { assert scan.tasks[i].file == f; }
    }
  }

  lemma ProceedKeepsJudged(scan: Scan, files: seq<Path>, e: Pipeline.Step)
    requires Logged(scan, files) && Judged(scan) && Pipeline.Enabled(scan, e)
    ensures Judged(Take(scan, e))
  {
    var scan' := Take(scan, e);
    LogGrows(scan, files, e);
    forall f | Pending(scan', f) ensures Decided(scan'.log, f) {
      PendingBefore(scan, e, f);
      if Pending(scan, f) { DecidedStays(scan, files, e, f); }
    }
    if scan'.main.HitAdded? {
      assert scan.main.HitCounted? ==> Pending(scan, scan.main.file);
      DecidedStays(scan, files, e, scan.main.file);
    }
    if scan'.main.HitCounted? {
      var f := scan'.main.file;
      if scan.main.HitCounted? {
        assert Pending(scan, f);
        DecidedStays(scan, files, e, f);
      } else {
        CouldNotReadAppend(scan.log, scan'.log[|scan.log|], f);
      }
    }
  }

  lemma ProceedKeepsRest(scan: Scan, e: Pipeline.Step)
    requires Pipeline.Enabled(scan, e)
    ensures var scan' := Take(scan, e);
            && scan'.interval == scan.interval && scan'.gathered == scan.gathered
            && scan'.manager.root == scan.manager.root && (scan.main.Done? ==> scan'.main.Done?)
  {
  }

  lemma ProceedKeepsHits(c: Setting, s: System, e: Pipeline.Step)
    requires Running(c, s) && Pipeline.Enabled(s.session.value.scan, e) && Fitting(c, s, e)
    requires StillHits(c, s.session.value, s.cache.run.value)
    ensures StillHits(c, s.session.value.(scan := Take(s.session.value.scan, e)), s.cache.run.value)
  {
  }

  // ----- what is written to the checkpoint -----

  ghost predicate WrittenFor(disk: Option<Bytes>, root: Bytes) {
    exists status, next, kept: nat ::
      (status == RUNNING || status == COMPLETED) && disk == Some(Cut(Text(Record(root, status, next)), kept))
  }

  /** However much of it arrives, a checkpoint with a known status is one of its own root or of no site's. */
  lemma WrittenRoot(c: Setting, disk: Option<Bytes>, root: Bytes)
    requires ValidSites(c.sites) && root in c.sites && WrittenFor(disk, root)
    ensures Load(disk.value).Some? ==>
              var r := Load(disk.value).value;
              r.root in c.sites && (r.status == RUNNING || r.status == COMPLETED) ==> r.root == root
  {
    var status, next, kept: nat :|
      (status == RUNNING || status == COMPLETED) && disk == Some(Cut(Text(Record(root, status, next)), kept));
    var r := Record(root, status, next);
    Resume.StatusWords();
    if OneLine(root) {
      Resume.LoadOfCut(r, kept);
    } else {
      BrokenRoot(r, if kept < |Text(r)| then kept else |Text(r)|);
      assert Text(r)[..|Text(r)|] == Text(r);
    }
  }

  lemma SaveWrites(m: Manager, disk: Option<Bytes>, status: Bytes, io: WriteOutcome)
    requires status == RUNNING || status == COMPLETED
    ensures var e := Save(m, disk, status, io); e.disk == disk || WrittenFor(e.disk, m.root)
  {
    if io.Written? {
      assert Save(m, disk, status, io).disk == Some(Cut(Text(Record(m.root, status, m.next)), io.kept));
    }
  }

  lemma CompletionWrites(interval: nat, m: Manager, disk: Option<Bytes>, file: Bytes, io: WriteOutcome)
    ensures var e := FileCompleted(interval, m, disk, file, io); e.disk == disk || WrittenFor(e.disk, m.root)
  {
    var erased := m.(unfinished := SetErase(m.unfinished, file));
    if erased.unfinished == [] {
      SaveWrites(erased.(next := []), disk, COMPLETED, io);
    } else {
      var counted := erased.(next := erased.unfinished[0], sinceLastSave := m.sinceLastSave + 1);
      SaveWrites(counted, disk, RUNNING, io);
    }
  }

  lemma StepWrites(scan: Scan, e: Pipeline.Step)
    requires Pipeline.Enabled(scan, e)
    ensures Take(scan, e).disk == scan.disk || WrittenFor(Take(scan, e).disk, scan.manager.root)
  {
    match e
    case HitCompletes(io) => CompletionWrites(scan.interval, scan.manager, scan.disk, Join(scan.main.file), io);
    case TaskCloses(i, io) => CompletionWrites(scan.interval, scan.manager, scan.disk, Join(scan.tasks[i].file), io);
    case WalkEnds(io) =>
      var finished := scan.manager.(discoveryFinished := true);
      SaveWrites(finished.(next := []), scan.disk, COMPLETED, io);
      SaveWrites(finished, scan.disk, RUNNING, io);
    case _ =>
  }

  lemma SavingKeepsCredit(c: Setting, s: System, session: Session)
    requires ValidSites(c.sites) && CreditInv(c, s) && session.root in c.sites
    requires AllRight(c, session.root, session.scan.log) && AllRight(c, session.root, session.earlier)
    requires session.scan.disk == s.disk || WrittenFor(session.scan.disk, session.root)
    ensures CreditInv(c, Saved(s, session))
  {
    if session.scan.disk != s.disk { WrittenRoot(c, session.scan.disk, session.root); }
  }

  lemma ProceedKeepsInv(c: Setting, s: System, e: Pipeline.Step)
    requires ValidSetting(c) && Inv(c, s) && Possible(c, s, Proceed(e))
    ensures Inv(c, Next(c, s, Proceed(e)))
  {
    var session := s.session.value;
    Pipeline.StepKeepsInv(session.scan, e, session.files);
    ProceedKeepsRight(c, s, e);
    ProceedKeepsStamps(c, session, s.cache.run.value, e);
    ProceedKeepsUnsent(c, s, e);
    ProceedKeepsHits(c, s, e);
    ProceedKeepsCovered(c, s, e);
    ProceedKeepsRest(session.scan, e);
    StepWrites(session.scan, e);
    SavingKeepsCredit(c, s, session.(scan := Take(session.scan, e)));
    ProceedKeepsJudged(session.scan, session.files, e);
  }

  // ----- steps of the cache -----

  lemma AbsoluteInjective(p: Path, q: Path)
    requires ValidPath(p) && ValidPath(q) && Absolute(p) == Absolute(q)
    ensures p == q
  {
    if p != [] { JoinNotEmpty(p); }
    if q != [] { JoinNotEmpty(q); }
    if p != [] && q != [] {
      assert Join(p) == Absolute(p)[1..] == Absolute(q)[1..] == Join(q);
      JoinInjective(p, q);
    }
  }

  /** Different files of a site have different cache keys. */
  lemma KeyInjective(c: Setting, root: Bytes, f: Path, g: Path)
    requires ValidSites(c.sites) && root in c.sites && ValidPath(f) && ValidPath(g)
    requires Key(c, root, f) == Key(c, root, g)
    ensures f == g
  {
    var above := c.sites[root].root;
    AbsoluteInjective(above + f, above + g);
    assert f == (above + f)[|above|..] && g == (above + g)[|above|..];
  }

  function StampedFile(session: Session, act: Act): Path
    requires act.StampHit? ==> session.scan.main.HitCounted?
    requires act.StampScan? ==> act.i < |session.scan.tasks|
  {
    match act
    case StampHit => session.scan.main.file
    case StampScan(i) => session.scan.tasks[i].file
    case _ => []
  }

  /** The file being stamped is judged, readable, in hand, and not stamped yet. */
  lemma StampableFile(session: Session, act: Act)
    requires Logged(session.scan, session.files) && Judged(session.scan) && Stampable(session, act)
    ensures var f := StampedFile(session, act);
            && f !in session.stamped && f in session.files && InHand(session.scan, f)
            && Decided(session.scan.log, f) && !CouldNotRead(session.scan.log, f)
  {
    var f := StampedFile(session, act);
    assert InHand(session.scan, f) && Pending(session.scan, f);
  }

  /** An update of one file leaves the entries of all others alone. */
  lemma UpdateSpares(c: Setting, root: Bytes, run: Cache.Run, f: Path, m: FileMetadata, v: FileVerdict, g: Path)
    requires ValidSites(c.sites) && root in c.sites && ValidPath(f) && ValidPath(g) && f != g
    ensures var run', key := Cache.Update(run, Key(c, root, f), m, v), Key(c, root, g);
            && run'.generation == run.generation && (key in run'.memory <==> key in run.memory)
            && (key in run.memory ==> run'.memory[key] == run.memory[key])
  {
    if Key(c, root, f) == Key(c, root, g) { KeyInjective(c, root, f, g); }
  }

  lemma StampKeepsStamps(c: Setting, session: Session, run: Cache.Run, f: Path, v: FileVerdict)
    requires ValidSites(c.sites) && session.root in c.sites && Logged(session.scan, session.files)
    requires forall g :: g in session.files ==> ValidPath(g)
    requires f in session.files && f !in session.stamped
    requires Decided(session.scan.log, f) && !CouldNotRead(session.scan.log, f) && InHand(session.scan, f)
    requires Stamps(c, session, run) && Unsent(c, session, run) && StillHits(c, session, run)
    requires session.scan.main.HitCounted? ==> session.scan.main.file in session.files
    ensures var run' := Cache.Update(run, Key(c, session.root, f), session.scan.gathered(f), v);
            var session' := session.(stamped := session.stamped + {f});
            Stamps(c, session', run') && Unsent(c, session', run') && StillHits(c, session', run')
  {
    var m := session.scan.gathered(f);
    var run' := Cache.Update(run, Key(c, session.root, f), m, v);
    var session' := session.(stamped := session.stamped + {f});
    forall g | g in session.stamped ensures InMemory(c, session', run', g) {
      assert Decided(session.scan.log, g);
      UpdateSpares(c, session.root, run, f, m, v, g);
      assert InMemory(c, session, run, g);
    }
    forall p | p in run'.unsubmitted
      ensures exists g :: g in session'.stamped && InHand(session.scan, g) && Key(c, session.root, g) == p
    {
      if p == Key(c, session.root, f) {
        assert f in session'.stamped;
      } else {
        var g :| g in session.stamped && InHand(session.scan, g) && Key(c, session.root, g) == p;
        assert g in session'.stamped;
      }
    }
    if session.scan.main.HitCounted? && session.scan.main.file !in session'.stamped {
      UpdateSpares(c, session.root, run, f, m, v, session.scan.main.file);
    }
  }

  /** A counted hit is a file of the walk. */
  lemma HitIsAFile(session: Session)
    requires Logged(session.scan, session.files) && Judged(session.scan) && session.scan.main.HitCounted?
    ensures session.scan.main.file in session.files
  {
    assert Pending(session.scan, session.scan.main.file);
  }

  lemma StampKeepsInv(c: Setting, s: System, act: Act)
    requires ValidSetting(c) && Inv(c, s) && Possible(c, s, act) && (act.StampHit? || act.StampScan?)
    ensures Inv(c, Next(c, s, act))
  {
    var session, run := s.session.value, s.cache.run.value;
    var f, e := StampedFile(session, act), Stamping(c, s, act);
    Cache.StepKeepsInv(c.ground, c.batchSize, s.cache, e);
    StampableFile(session, act);
    if session.scan.main.HitCounted? { HitIsAFile(session); }
    var v := Cache.Step(c.ground, c.batchSize, s.cache, e).run.value.memory[Key(c, session.root, f)].verdict;
    StampKeepsStamps(c, session, run, f, v);
    StampKeepsCovered(session, f);
  }

  lemma StampKeepsCovered(session: Session, f: Path)
    requires Covered(session)
    ensures Covered(session.(stamped := session.stamped + {f}))
  {
  }

  lemma BackgroundKeepsRun(c: Setting, w: Cache.World, e: Cache.Event)
    requires Cache.Enabled(c.batchSize, w, e) && (ByItself(e) || e.Finish?)
    ensures var run, run' := w.run.value, Cache.Step(c.ground, c.batchSize, w, e).run;
            && run'.Some? && run'.value.memory == run.memory && run'.value.generation == run.generation
            && run'.value.unsubmitted.Keys <= run.unsubmitted.Keys && run'.value.full == run.full
            && (run.phase.Scanning? ==> run'.value.phase.Scanning? || e.Finish?)
  {
  }

  lemma BackgroundKeepsInv(c: Setting, s: System, e: Cache.Event)
    requires Inv(c, s) && Possible(c, s, Background(e))
    ensures Inv(c, Next(c, s, Background(e)))
  {
    Cache.StepKeepsInv(c.ground, c.batchSize, s.cache, e);
    BackgroundKeepsRun(c, s.cache, e);
  }

  // ----- starts and stops -----

  lemma {:induction false} AscendingDistinct(files: seq<Path>)
    requires Ascending(files)
    ensures forall i, j :: 0 <= i < j < |files| ==> files[i] != files[j]
  {
    forall i, j | 0 <= i < j < |files| ensures files[i] != files[j] { BeforeIrreflexive(files[i]); }
  }

  lemma BegunIsFresh(c: Setting, s: System, root: Bytes, gathered: Path -> FileMetadata, io: WriteOutcome)
    requires ValidSetting(c) && root in c.sites
    ensures var session := Begun(c, s, root, gathered, io);
            && Fresh(session.scan) && session.files == session.scan.left && session.scan.manager.root == root
            && (session.scan.disk == s.disk || WrittenFor(session.scan.disk, root))
  {
    var site, session := c.sites[root], Begun(c, s, root, gathered, io);
    var picked := Resumable(s.disk, root);
    var from := if picked.Some? then Split(picked.value) else [];
    var all := Delivered(c.excluded, site.root, site.tree, []);
    DeliveredIsFiltered(c.excluded, site.root, site.tree, from);
    DeliveredIsValid(c.excluded, site.root, site.tree);
    KeepElements(all, from);
    var k := KeepIsSuffix(all, from);
    AscendingDistinct(all);
    assert forall i :: 0 <= i < |session.files| ==> session.files[i] == all[k + i];
    SaveWrites(Manager(root, [], [], false, 0), s.disk, RUNNING, io);
  }

  lemma StartKeepsInv(c: Setting, s: System, act: Act)
    requires ValidSetting(c) && Inv(c, s) && act.Start? && Possible(c, s, act)
    ensures Inv(c, Next(c, s, act))
  {
    var load := Cache.Load(act.root == ROOT_TEXT, act.readFails);
    Cache.StepKeepsInv(c.ground, c.batchSize, s.cache, load);
    var session := Begun(c, s, act.root, act.gathered, act.io);
    BegunIsFresh(c, s, act.root, act.gathered, act.io);
    FreshInv(session.scan);
    var memory := Cache.Step(c.ground, c.batchSize, s.cache, load).run.value.memory;
    SavingKeepsCredit(c, s, session.(loaded := memory));
  }

  lemma StepKeepsInv(c: Setting, s: System, act: Act)
    requires ValidSetting(c) && Inv(c, s) && Possible(c, s, act)
    ensures Inv(c, Next(c, s, act))
  {
    match act
    case Start(_, _, _, _) => StartKeepsInv(c, s, act);
    case Proceed(e) => ProceedKeepsInv(c, s, e);
    case Background(e) => BackgroundKeepsInv(c, s, e);
    case Stop => Cache.StepKeepsInv(c.ground, c.batchSize, s.cache, Cache.Event.Stop);
    case _ => StampKeepsInv(c, s, act);
  }
}
