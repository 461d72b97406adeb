// Pruning after a resumed scan: a file that an interrupted run has judged, its entry not
// written yet, is skipped by the run that resumes, and its older row is removed. The history
// is built on a disk with two files; every read and write in it succeeds.
module PrunedRows {
  import opened Options
  import opened ByteStrings
  import opened OrderedBytes
  import opened Paths
  import opened FileTrees
  import opened WalkOrder
  import opened Exclusion
  import opened CacheStore
  import opened Checkpoint
  import opened ResumeManagement
  import opened ResumeTheorems
  import opened Pipeline = ScanPipeline
  import opened WholeScan
  import opened WholeScanTheorems
  import opened Trails
  import Cache = CacheProtocol
  import Resume = ResumeProtocol

  // ----- the disk -----

  /** The root directory holds the files a and b. */
  function TwoFiles(): Entry {
    Directory(true, [Child(NAME_A, RegularFile(true)), Child(NAME_B, RegularFile(true))])
  }

  const PATH_A: Path := [NAME_A]
  const PATH_B: Path := [NAME_B]

  function WholeDisk(interval: nat, batchSize: nat, ground: Cache.Ground): Setting {
    Setting(map[ROOT_TEXT := Site([], TwoFiles())], {}, interval, batchSize, ground)
  }

  lemma TwoFilesSorted()
    ensures ValidTree(TwoFiles()) && SortChildren(TwoFiles().children) == TwoFiles().children
  {
    var a, b := Child(NAME_A, RegularFile(true)), Child(NAME_B, RegularFile(true));
    assert TwoFiles().children[1..] == [b];
    OneEntry(b);
    assert Less(NAME_A, NAME_B);
    assert InsertChild([b], a) == [a, b];
  }

  lemma TwoFilesWalk()
    ensures Delivered({}, [], TwoFiles(), []) == [PATH_A, PATH_B]
  {
    TwoFilesSorted();
    var root: Path := [];
    NothingExcluded(root);
    var a, b := Child(NAME_A, RegularFile(true)), Child(NAME_B, RegularFile(true));
    assert root + [NAME_A] == PATH_A && root + [NAME_B] == PATH_B;
    assert WalkChild({}, root, [], a, [], 0) == [PATH_A] && WalkChild({}, root, [], b, [], 0) == [PATH_B];
    SingleChild(root, [], b);
    assert [a, b][1..] == [b];
    assert WalkChildren({}, root, [], [a, b], [], 0) == [PATH_A] + [PATH_B];
  }

  /** From the checkpoint b on, only b is handed over. */
  lemma WalkFromB()
    ensures Delivered({}, [], TwoFiles(), PATH_B) == [PATH_B]
  {
    TwoFilesWalk();
    DeliveredIsFiltered({}, [], TwoFiles(), PATH_B);
    assert Before(PATH_A, PATH_B);
    BeforeIrreflexive(PATH_B);
    assert [PATH_A, PATH_B][1..] == [PATH_B] && [PATH_B][1..] == [];
    assert Keep([PATH_B], PATH_B) == [PATH_B];
  }

  lemma DiskIsValid(interval: nat, batchSize: nat, ground: Cache.Ground)
    requires interval > 0
    ensures ValidSetting(WholeDisk(interval, batchSize, ground))
  {
    TwoFilesSorted();
    assert Absolute([]) == ROOT_TEXT && OneLine(ROOT_TEXT);
  }

  // ----- parts of a run -----

  /** A session that has begun to walk, with the table in memory. */
  ghost predicate Begins(c: Setting, s: System, files: seq<Path>, gathered: Path -> FileMetadata) {
    && Running(c, s) && s.session.value.root == ROOT_TEXT && s.cache.run.value.full
    && var scan, run := s.session.value.scan, s.cache.run.value;
    && scan.main.Walking? && scan.left == files && scan.tasks == [] && scan.log == [] && scan.gathered == gathered
    && scan.disk == s.disk && scan.manager.unfinished == [] && scan.manager.root == ROOT_TEXT
    && run.phase.Scanning? && run.writer.Waiting? && !run.stop && run.queue == [] && run.unsubmitted == map[]
    && run.memory == s.cache.rows && run.generation == s.cache.lastCompleted + 1
  }

  /** A state between two runs. */
  predicate Off(s: System) {
    s.session.None? && s.cache.run.None? && s.cache.lastCompleted < 10
  }

  function Origin(disk: Option<Bytes>): Path {
    if Resumable(disk, ROOT_TEXT).Some? then Split(Resumable(disk, ROOT_TEXT).value) else []
  }

  lemma Boot(c: Setting, t: Trail, s: System, gathered: Path -> FileMetadata, io: WriteOutcome, deaths: nat)
    returns (t': Trail, s': System)
    requires LeadsTo(c, t, s, true, deaths) && Off(s) && ROOT_TEXT in c.sites && Resume.Ample(ConfigFor(c), io)
    ensures LeadsTo(c, t', s', true, deaths)
    ensures Begins(c, s', Delivered(c.excluded, c.sites[ROOT_TEXT].root, c.sites[ROOT_TEXT].tree, Origin(s.disk)),
                   gathered)
    ensures s'.cache.rows == s.cache.rows && s'.cache.lastCompleted == s.cache.lastCompleted
    ensures s'.session.value.earlier == if Resumable(s.disk, ROOT_TEXT).Some? then s.credit else []
    ensures Resumable(s.disk, ROOT_TEXT).None? ==> s'.disk == Some(Text(Record(ROOT_TEXT, RUNNING, [])))
  {
    AmpleForRoot(c, io, []);
    var act := Act.Start(ROOT_TEXT, gathered, false, io);
    s' := Next(c, s, act);
    t' := Extend(c, t, s, act, s', true, deaths);
  }

  function TasksFor(files: seq<Path>): (tasks: seq<Task>)
    ensures |tasks| == |files|
    ensures forall i :: 0 <= i < |files| ==> tasks[i] == Task(files[i], Queued)
  {
    if files == [] then [] else [Task(files[0], Queued)] + TasksFor(files[1..])
  }

  /** The walk has queued these files, all of them cache misses. */
  ghost predicate QueuedAll(scan: Scan, scan': Scan) {
    && scan'.main.Walking? && scan'.left == [] && scan'.tasks == scan.tasks + TasksFor(scan.left)
    && scan'.log == scan.log && scan'.gathered == scan.gathered && scan'.disk == scan.disk
    && scan'.manager.root == scan.manager.root
  }

  lemma QueuedOne(scan: Scan)
    requires AtRest(scan) && scan.main.Walking? && scan.left != []
    ensures var scan1 := Take(scan, Pipeline.Discover);
            && Pipeline.Enabled(scan1, CacheMiss) && Pipeline.Enabled(Take(scan1, CacheMiss), Enqueue)
            && var scan3 := Take(Take(scan1, CacheMiss), Enqueue);
            && scan3.main.Walking? && scan3.left == scan.left[1..]
            && scan3.tasks == scan.tasks + [Task(scan.left[0], Queued)] && scan3.log == scan.log
            && scan3.gathered == scan.gathered && scan3.disk == scan.disk && scan3.manager.root == scan.manager.root
  {
    TakeNext(scan);
  }

  /** The system but for the scan of its session. */
  ghost predicate OnlyScan(s: System, s': System) {
    s.session.Some? && s'.session.Some? && s' == s.(session := Some(s.session.value.(scan := s'.session.value.scan)))
  }

  lemma QueueOne(c: Setting, t: Trail, s: System, deaths: nat) returns (t': Trail, s': System)
    requires LeadsTo(c, t, s, true, deaths) && Running(c, s) && s.session.value.scan.disk == s.disk
    requires AtRest(s.session.value.scan) && s.session.value.scan.main.Walking? && s.session.value.scan.left != []
    requires Answer(c, s, s.session.value.scan.left[0]) == None
    ensures LeadsTo(c, t', s', true, deaths) && OnlyScan(s, s')
    ensures var scan, scan' := s.session.value.scan, s'.session.value.scan;
            && AtRest(scan') && scan'.main.Walking? && scan'.left == scan.left[1..]
            && scan'.tasks == scan.tasks + [Task(scan.left[0], Queued)] && scan'.log == scan.log
            && scan'.gathered == scan.gathered && scan'.disk == scan.disk && scan'.manager.root == scan.manager.root
  {
    QueuedOne(s.session.value.scan);
    TakeNext(s.session.value.scan);
    t', s' := QueueNext(c, t, s, true, deaths);
  }

  lemma QueuedMore(scan: Scan, scan1: Scan, scan': Scan)
    requires scan.left != [] && scan1.left == scan.left[1..]
    requires scan1.tasks == scan.tasks + [Task(scan.left[0], Queued)] && scan1.log == scan.log
    requires scan1.gathered == scan.gathered && scan1.disk == scan.disk && scan1.manager.root == scan.manager.root
    requires QueuedAll(scan1, scan')
    ensures QueuedAll(scan, scan')
  {
    assert scan.tasks + [Task(scan.left[0], Queued)] + TasksFor(scan.left[1..]) == scan.tasks + TasksFor(scan.left);
  }

  lemma SameAnswers(c: Setting, s: System, s': System)
    requires Running(c, s) && OnlyScan(s, s') && s'.session.value.scan.gathered == s.session.value.scan.gathered
    ensures Running(c, s') && forall f :: Answer(c, s', f) == Answer(c, s, f)
  {
  }

  lemma {:induction false} QueueAll(c: Setting, t: Trail, s: System, deaths: nat) returns (t': Trail, s': System)
    requires LeadsTo(c, t, s, true, deaths) && Running(c, s) && s.session.value.scan.disk == s.disk
    requires AtRest(s.session.value.scan) && s.session.value.scan.main.Walking?
    requires forall f :: f in s.session.value.scan.left ==> Answer(c, s, f) == None
    ensures LeadsTo(c, t', s', true, deaths) && OnlyScan(s, s')
    ensures QueuedAll(s.session.value.scan, s'.session.value.scan)
    decreases |s.session.value.scan.left|
  {
    var scan := s.session.value.scan;
    if scan.left == [] {
      t', s' := t, s;
      assert scan.tasks + [] == scan.tasks;
    } else {
      var t1, s1 := QueueOne(c, t, s, deaths);
      SameAnswers(c, s, s1);
      t', s' := QueueAll(c, t1, s1, deaths);
      QueuedMore(scan, s1.session.value.scan, s'.session.value.scan);
    }
  }

  /** One queued file scanned, stamped and completed. */
  ghost predicate ScannedOne(c: Setting, s: System, s': System, i: nat, j: Judgement, e: CacheEntry) {
    && Running(c, s) && Running(c, s') && i < |s.session.value.scan.tasks|
    && Updated(s.cache, s'.cache, e)
    && var session, session' := s.session.value, s'.session.value;
    && var scan, scan', f := session.scan, session'.scan, session.scan.tasks[i].file;
    && e.path == Key(c, session.root, f) && e.metadata == scan.gathered(f)
    && e.generation == s.cache.run.value.generation
    && scan'.tasks == scan.tasks[i := Task(f, Finished)] && scan'.log == scan.log + [j]
    && j.file == f && !CouldNotScan(j)
    && scan'.main == scan.main && scan'.left == scan.left && scan'.gathered == scan.gathered
    && scan'.manager.root == scan.manager.root && scan'.disk == s'.disk
    && (scan'.manager.unfinished != [] ==> scan'.manager.next == scan'.manager.unfinished[0])
    && session'.root == session.root && session'.earlier == session.earlier
    && s'.credit == if s'.disk == s.disk then s.credit else session.earlier + scan'.log
  }

  lemma ScanOne(c: Setting, t: Trail, s: System, i: nat, io: WriteOutcome, deaths: nat)
    returns (t': Trail, s': System, j: Judgement, e: CacheEntry)
    requires ValidSetting(c) && LeadsTo(c, t, s, true, deaths) && Running(c, s) && s.session.value.scan.disk == s.disk
    requires Resume.Ample(ConfigFor(c), io)
    requires i < |s.session.value.scan.tasks| && s.session.value.scan.tasks[i].pc.Queued?
    ensures LeadsTo(c, t', s', true, deaths) && ScannedOne(c, s, s', i, j, e)
  {
    var scan', stamped, cache;
    t', s', scan', j, stamped, cache, e := ScanThenClose(c, t, s, i, io, true, deaths);
    ClosingKeeps(scan', i, io);
    assert scan'.tasks[i := Task(scan'.tasks[i].file, Finished)] ==
           s.session.value.scan.tasks[i := Task(scan'.tasks[i].file, Finished)];
  }

  lemma ClosingKeeps(scan: Scan, i: nat, io: WriteOutcome)
    requires Pipeline.Enabled(scan, TaskCloses(i, io))
    ensures var scan' := Take(scan, TaskCloses(i, io));
            && scan'.tasks == scan.tasks[i := Task(scan.tasks[i].file, Finished)] && scan'.log == scan.log
            && scan'.main == scan.main && scan'.left == scan.left && scan'.gathered == scan.gathered
            && scan'.manager.root == scan.manager.root
            && (scan'.manager.unfinished != [] ==> scan'.manager.next == scan'.manager.unfinished[0])
  {
  }

  // ----- the end of a scan -----

  /** Walked, all tasks finished, the writer waiting with what the run has queued. */
  ghost predicate AllScanned(c: Setting, s: System) {
    && Running(c, s) && s.session.value.root == ROOT_TEXT && s.cache.run.value.full
    && var scan, run := s.session.value.scan, s.cache.run.value;
    && scan.main.Walking? && scan.left == [] && scan.disk == s.disk
    && (forall i :: 0 <= i < |scan.tasks| ==> scan.tasks[i].pc.Finished?)
    && run.phase.Scanning? && run.writer.Waiting?
  }

  lemma EndOfScan(c: Setting, t: Trail, s: System, io: WriteOutcome, deaths: nat) returns (t': Trail, s': System)
    requires LeadsTo(c, t, s, true, deaths) && AllScanned(c, s) && Resume.Ample(ConfigFor(c), io)
    ensures LeadsTo(c, t', s', true, deaths) && Running(c, s') && s'.cache == s.cache
    ensures s'.session.value.scan.main.Done? && s'.session.value.scan.log == s.session.value.scan.log
    ensures s'.session.value.earlier == s.session.value.earlier && s'.session.value.root == s.session.value.root
    ensures s'.disk == DiscoveryFinished(s.session.value.scan.manager, s.disk, io).disk
  {
    t', s' := ProceedOnce(c, t, s, WalkEnds(io), true, deaths);
    t', s' := ProceedOnce(c, t', s', WaitReturns, true, deaths);
  }

  lemma Work(c: Setting, t: Trail, s: System, e: Cache.Event, deaths: nat) returns (t': Trail, s': System)
    requires LeadsTo(c, t, s, true, deaths) && Possible(c, s, Background(e)) && SmoothAct(c, Background(e))
    ensures LeadsTo(c, t', s', true, deaths)
    ensures s' == s.(cache := Cache.Step(c.ground, c.batchSize, s.cache, e))
  {
    s' := Next(c, s, Background(e));
    t' := Extend(c, t, s, Background(e), s', true, deaths);
  }

  /** finish() wakes the writer, which takes the queue for its last batch. */
  lemma HandOver(c: Setting, t: Trail, s: System, deaths: nat) returns (t': Trail, s': System)
    requires LeadsTo(c, t, s, true, deaths) && Running(c, s) && s.session.value.scan.main.Done?
    requires s.cache.run.value.phase.Scanning? && s.cache.run.value.writer.Waiting?
    ensures LeadsTo(c, t', s', true, deaths)
    ensures s' == s.(cache := s.cache.(run := Some(
                       s.cache.run.value.(stop := true, phase := Cache.Draining, queue := [],
                                          writer := Cache.Writing(s.cache.run.value.queue, true)))))
  {
    t', s' := Work(c, t, s, Cache.Finish, deaths);
    t', s' := Work(c, t', s', Cache.WriterTakes, deaths);
  }

  /** finish(): the queue reaches the table, and the scan is about to prune. */
  lemma Drain(c: Setting, t: Trail, s: System, deaths: nat) returns (t': Trail, s': System)
    requires LeadsTo(c, t, s, true, deaths) && Running(c, s) && s.session.value.scan.main.Done?
    requires s.cache.run.value.full && s.cache.run.value.phase.Scanning? && s.cache.run.value.writer.Waiting?
    ensures LeadsTo(c, t', s', true, deaths) && Running(c, s') && s'.session == s.session && s'.disk == s.disk
    ensures s'.cache.rows == Apply(s.cache.rows, s.cache.run.value.queue)
    ensures s'.cache.lastCompleted == s.cache.lastCompleted
    ensures s'.cache.run.value.phase.Pruning? && s'.cache.run.value.generation == s.cache.run.value.generation
  {
    t', s' := HandOver(c, t, s, deaths);
    t', s' := Work(c, t', s', Cache.WriterWrites(true), deaths);
    t', s' := Work(c, t', s', Cache.Joined, deaths);
  }

  lemma Die(c: Setting, t: Trail, s: System, deaths: nat) returns (t': Trail, s': System)
    requires LeadsTo(c, t, s, true, deaths) && Running(c, s) && s.cache.lastCompleted < 10
    ensures LeadsTo(c, t', s', true, deaths + 1) && Off(s')
    ensures s'.cache.rows == s.cache.rows && s'.cache.lastCompleted == s.cache.lastCompleted
    ensures s'.disk == s.disk && s'.credit == s.credit
  {
    s' := Next(c, s, Act.Stop);
    t' := Extend(c, t, s, Act.Stop, s', true, deaths);
  }

  /** Pruning, promotion and the end of the process. */
  lemma Conclude(c: Setting, t: Trail, s: System, deaths: nat) returns (t': Trail, s': System)
    requires LeadsTo(c, t, s, true, deaths) && Running(c, s) && s.cache.run.value.phase.Pruning?
    requires s.cache.run.value.generation < 10
    ensures LeadsTo(c, t', s', true, deaths + 1) && Off(s')
    ensures s'.cache.rows == Recent(s.cache.rows, s.cache.run.value.generation)
    ensures s'.cache.lastCompleted == s.cache.run.value.generation && s'.disk == s.disk
  {
    t', s' := Work(c, t, s, Cache.Prune(true), deaths);
    t', s' := Work(c, t', s', Cache.Promote(true), deaths);
    t', s' := Die(c, t', s', deaths);
  }

  // ----- three runs -----

  function Old(f: Path): FileMetadata {
    FileMetadata(0, 0, 0)
  }

  /** The same files, with newer signatures. */
  function New(f: Path): FileMetadata {
    FileMetadata(0, 0, 1)
  }

  ghost predicate TwoFileSetting(c: Setting) {
    ValidSetting(c) && c.excluded == {} && c.sites == map[ROOT_TEXT := Site([], TwoFiles())]
  }

  function KeyOf(f: Path): Bytes {
    Absolute([] + f)
  }

  /** Rows of the first run only, and one for a among them. */
  ghost predicate OldRows(rows: map<Bytes, CacheEntry>) {
    KeyOf(PATH_A) in rows &&
    forall p :: p in rows ==> rows[p].generation == 1 && rows[p].metadata == FileMetadata(0, 0, 0)
  }

  lemma AmpleForRoot(c: Setting, io: WriteOutcome, next: Bytes)
    requires ROOT_TEXT in c.sites && Resume.Ample(ConfigFor(c), io)
    requires next == [] || exists f :: f in ConfigFor(c).files[ROOT_TEXT] && Join(f) == next
    ensures |Text(Record(ROOT_TEXT, RUNNING, next))| <= io.kept && |Text(Record(ROOT_TEXT, COMPLETED, next))| <= io.kept
  {
    assert Resume.AmpleFor(ROOT_TEXT, ConfigFor(c).files[ROOT_TEXT], io.kept);
    assert |RUNNING| <= |COMPLETED|;
    if next != [] {
      var f :| f in ConfigFor(c).files[ROOT_TEXT] && Join(f) == next;
      assert |Text(Record(ROOT_TEXT, COMPLETED, Join(f)))| <= io.kept;
    }
  }

  lemma UnknownMisses(c: Setting, s: System, files: seq<Path>, gathered: Path -> FileMetadata)
    requires Begins(c, s, files, gathered)
    requires forall p, f :: p in s.cache.rows && f in files ==> s.cache.rows[p].metadata != gathered(f)
    ensures forall f :: f in files ==> Answer(c, s, f) == None
  {
  }

  /** With nothing open the end of the walk saves the completed checkpoint. */
  lemma NothingOpen(c: Setting, s: System, io: WriteOutcome)
    requires WholeScan.Inv(c, s) && AllScanned(c, s) && Resume.Ample(ConfigFor(c), io)
    ensures DiscoveryFinished(s.session.value.scan.manager, s.disk, io).disk ==
            Some(Text(Record(ROOT_TEXT, COMPLETED, [])))
  {
    var scan := s.session.value.scan;
    assert Open(scan) == {};
    Resume.EmptyMirror(scan.manager.unfinished, Open(scan));
    AmpleForRoot(c, io, []);
  }

  lemma CompletedIsNotResumed()
    ensures Resumable(Some(Text(Record(ROOT_TEXT, COMPLETED, []))), ROOT_TEXT) == None
  {
    Resume.StatusWords();
    assert OneLine(ROOT_TEXT);
    LoadOfSave(Record(ROOT_TEXT, COMPLETED, []));
  }

  lemma RunningIsResumed()
    ensures Resumable(Some(Text(Record(ROOT_TEXT, RUNNING, NAME_B))), ROOT_TEXT) == Some(NAME_B)
    ensures Split(NAME_B) == PATH_B
  {
    Resume.StatusWords();
    assert OneLine(ROOT_TEXT) && OneLine(NAME_B);
    LoadOfSave(Record(ROOT_TEXT, RUNNING, NAME_B));
    FirstLineIsPrefix(NAME_B);
    SplitJoin(PATH_B);
  }

  /** Both files queued and scanned. */
  lemma ScanBoth(c: Setting, t: Trail, s: System, io: WriteOutcome, deaths: nat)
    returns (t': Trail, s': System, a: CacheEntry, b: CacheEntry)
    requires ValidSetting(c) && LeadsTo(c, t, s, true, deaths) && Resume.Ample(ConfigFor(c), io)
    requires Begins(c, s, [PATH_A, PATH_B], Old) && s.cache.rows == map[]
    ensures LeadsTo(c, t', s', true, deaths) && AllScanned(c, s')
    ensures s'.cache.rows == map[] && s'.cache.lastCompleted == s.cache.lastCompleted
    ensures s'.cache.run.value.queue == [a, b] && a.path == Key(c, ROOT_TEXT, PATH_A)
    ensures s'.cache.run.value.generation == s.cache.run.value.generation
    ensures forall e :: e in [a, b] ==>
                          e.generation == s.cache.run.value.generation && e.metadata == FileMetadata(0, 0, 0)
  {
    UnknownMisses(c, s, [PATH_A, PATH_B], Old);
    var t1, s1 := QueueAll(c, t, s, deaths);
    assert s1.session.value.scan.tasks == [Task(PATH_A, Queued), Task(PATH_B, Queued)];
    var t2, s2, j, x := ScanOne(c, t1, s1, 0, io, deaths);
    var t3, s3, k, y := ScanOne(c, t2, s2, 1, io, deaths);
    t', s', a, b := t3, s3, x, y;
  }

  /** The first run scans both files to the end. */
  lemma FirstRun(c: Setting, io: WriteOutcome) returns (t: Trail, s: System)
    requires TwoFileSetting(c) && Resume.Ample(ConfigFor(c), io)
    ensures LeadsTo(c, t, s, true, 1) && Off(s) && s.cache.lastCompleted == 1 && OldRows(s.cache.rows)
    ensures Resumable(s.disk, ROOT_TEXT) == None
  {
    TwoFilesWalk();
    BeginningLeads(c);
    t, s := Boot(c, BEGINNING, FIRST, Old, io, 0);
    var a, b;
    t, s, a, b := ScanBoth(c, t, s, io, 0);
    LastInv(c, t, s, true, 0);
    NothingOpen(c, s, io);
    t, s := EndOfScan(c, t, s, io, 0);
    t, s := Drain(c, t, s, 0);
    TwoApplied(a, b);
    t, s := Conclude(c, t, s, 0);
    CompletedIsNotResumed();
  }

  lemma TwoApplied(a: CacheEntry, b: CacheEntry)
    ensures a.path in Apply(map[], [a, b])
    ensures forall p :: p in Apply(map[], [a, b]) ==> Apply(map[], [a, b])[p] in [a, b]
  {
    ApplyOrigin(map[], [a, b], a.path);
    forall p | p in Apply(map[], [a, b]) ensures Apply(map[], [a, b])[p] in [a, b] { ApplyOrigin(map[], [a, b], p); }
  }

  /** What the second run leaves: old rows, and a checkpoint at b behind which a is judged. */
  ghost predicate LeftAtB(s: System, j: Judgement) {
    && Off(s) && s.cache.lastCompleted == 1 && OldRows(s.cache.rows)
    && Resumable(s.disk, ROOT_TEXT) == Some(NAME_B)
    && j in s.credit && j.file == PATH_A && !CouldNotScan(j)
  }

  /** With b alone open, the end of the walk saves b as the next file. */
  lemma OnlyBOpen(c: Setting, s: System, io: WriteOutcome)
    requires TwoFileSetting(c) && WholeScan.Inv(c, s) && Running(c, s) && s.session.value.root == ROOT_TEXT
    requires Resume.Ample(ConfigFor(c), io)
    requires var scan := s.session.value.scan;
             && scan.main.Walking? && scan.tasks == [Task(PATH_A, Finished), Task(PATH_B, Queued)]
             && (scan.manager.unfinished != [] ==> scan.manager.next == scan.manager.unfinished[0])
    ensures DiscoveryFinished(s.session.value.scan.manager, s.disk, io).disk ==
            Some(Text(Record(ROOT_TEXT, RUNNING, NAME_B)))
  {
    var scan := s.session.value.scan;
    BAlone(scan);
    BIsDelivered(c, io);
  }

  lemma BAlone(scan: Scan)
    requires scan.main.Walking? && scan.tasks == [Task(PATH_A, Finished), Task(PATH_B, Queued)] && Tracked(scan)
    ensures scan.manager.unfinished == [NAME_B]
  {
    assert scan.tasks[1] in scan.tasks;
    assert forall t :: t in scan.tasks ==> t == scan.tasks[0] || t == scan.tasks[1];
    assert Open(scan) == {PATH_B};
    SingleOpen(scan.manager.unfinished, PATH_B);
    assert Join(PATH_B) == NAME_B;
  }

  lemma BIsDelivered(c: Setting, io: WriteOutcome)
    requires TwoFileSetting(c) && Resume.Ample(ConfigFor(c), io)
    ensures |Text(Record(ROOT_TEXT, RUNNING, NAME_B))| <= io.kept
  {
    TwoFilesWalk();
    var files := ConfigFor(c).files[ROOT_TEXT];
    assert files == [PATH_A, PATH_B] && files[1] == PATH_B;
    assert PATH_B in files && Join(PATH_B) == NAME_B;
    AmpleForRoot(c, io, NAME_B);
  }

  lemma SingleOpen(unfinished: seq<Bytes>, file: Path)
    requires Resume.Mirrors(unfinished, {file})
    ensures unfinished == [Join(file)]
  {
    Resume.MirrorsErase(unfinished, {file}, file);
    assert {file} - {file} == {};
    Resume.EmptyMirror(SetErase(unfinished, Join(file)), {});
    Resume.EmptyMirror(unfinished, {file});
    assert unfinished == [unfinished[0]] + unfinished[1..];
  }

  /** Both files queued and the first one scanned. */
  lemma ScanFirst(c: Setting, t: Trail, s: System, io: WriteOutcome, deaths: nat)
    returns (t': Trail, s': System, j: Judgement)
    requires ValidSetting(c) && LeadsTo(c, t, s, true, deaths) && Resume.Ample(ConfigFor(c), io)
    requires Begins(c, s, [PATH_A, PATH_B], New) && OldRows(s.cache.rows) && s.session.value.earlier == []
    ensures LeadsTo(c, t', s', true, deaths) && Running(c, s') && s'.session.value.root == ROOT_TEXT
    ensures var scan := s'.session.value.scan;
            && scan.main.Walking? && scan.left == [] && scan.tasks == [Task(PATH_A, Finished), Task(PATH_B, Queued)]
            && scan.log == [j] && scan.disk == s'.disk
            && (scan.manager.unfinished != [] ==> scan.manager.next == scan.manager.unfinished[0])
    ensures j.file == PATH_A && !CouldNotScan(j) && s'.session.value.earlier == []
    ensures s'.disk == s.disk || s'.credit == [j]
    ensures s'.cache.rows == s.cache.rows && s'.cache.lastCompleted == s.cache.lastCompleted
  {
    UnknownMisses(c, s, [PATH_A, PATH_B], New);
    var t1, s1 := QueueAll(c, t, s, deaths);
    assert s1.session.value.scan.tasks == [Task(PATH_A, Queued), Task(PATH_B, Queued)];
    var e;
    t', s', j, e := ScanOne(c, t1, s1, 0, io, deaths);
    assert [] + [j] == [j];
  }

  lemma EndWalk(c: Setting, t: Trail, s: System, io: WriteOutcome, deaths: nat) returns (t': Trail, s': System)
    requires LeadsTo(c, t, s, true, deaths) && Running(c, s) && Resume.Ample(ConfigFor(c), io)
    requires s.session.value.scan.main.Walking? && s.session.value.scan.left == []
    requires s.session.value.scan.disk == s.disk
    ensures LeadsTo(c, t', s', true, deaths) && Running(c, s') && s'.cache == s.cache
    ensures s'.disk == DiscoveryFinished(s.session.value.scan.manager, s.disk, io).disk
    ensures s'.credit == if s'.disk == s.disk then s.credit else s.session.value.earlier + s.session.value.scan.log
  {
    t', s' := ProceedOnce(c, t, s, WalkEnds(io), true, deaths);
  }

  /** The second run, its signatures newer, scans a, walks to the end, and dies. */
  lemma SecondRun(c: Setting, t: Trail, s: System, io: WriteOutcome) returns (t': Trail, s': System, j: Judgement)
    requires TwoFileSetting(c) && Resume.Ample(ConfigFor(c), io) && LeadsTo(c, t, s, true, 1)
    requires Off(s) && s.cache.lastCompleted == 1 && OldRows(s.cache.rows) && Resumable(s.disk, ROOT_TEXT) == None
    ensures LeadsTo(c, t', s', true, 2) && LeftAtB(s', j)
  {
    TwoFilesWalk();
    t', s' := Boot(c, t, s, New, io, 1);
    t', s', j := ScanFirst(c, t', s', io, 1);
    LastInv(c, t', s', true, 1);
    OnlyBOpen(c, s', io);
    t', s' := EndWalk(c, t', s', io, 1);
    DifferentTexts();
    assert [] + [j] == [j];
    t', s' := Die(c, t', s', 1);
    RunningIsResumed();
  }

  lemma DifferentTexts()
    ensures Text(Record(ROOT_TEXT, RUNNING, [])) != Text(Record(ROOT_TEXT, RUNNING, NAME_B))
  {
    assert |Text(Record(ROOT_TEXT, RUNNING, []))| + 1 == |Text(Record(ROOT_TEXT, RUNNING, NAME_B))|;
  }

  /** The third run resumes at b, scans it, and comes to prune. */
  lemma ThirdRun(c: Setting, t: Trail, s: System, j: Judgement, io: WriteOutcome) returns (t': Trail, s': System)
    requires TwoFileSetting(c) && Resume.Ample(ConfigFor(c), io) && LeadsTo(c, t, s, true, 2) && LeftAtB(s, j)
    ensures LeadsTo(c, t', s', true, 2) && Running(c, s') && s'.cache.run.value.phase.Pruning?
    ensures j in s'.session.value.earlier && s'.session.value.root == ROOT_TEXT
    ensures s'.cache.run.value.generation == 2 && KeyOf(PATH_A) in s'.cache.rows
    ensures s'.cache.rows[KeyOf(PATH_A)].generation == 1
  {
    WalkFromB();
    RunningIsResumed();
    t', s' := Boot(c, t, s, New, io, 2);
    var rows := s'.cache.rows;
    var b;
    t', s', b := ScanB(c, t', s', io, 2);
    t', s' := EndOfScan(c, t', s', io, 2);
    t', s' := Drain(c, t', s', 2);
    OnlyBApplied(c, rows, b);
  }

  lemma OnlyBApplied(c: Setting, rows: map<Bytes, CacheEntry>, b: CacheEntry)
    requires TwoFileSetting(c) && OldRows(rows) && b.path == Key(c, ROOT_TEXT, PATH_B)
    ensures KeyOf(PATH_A) in Apply(rows, [b]) && Apply(rows, [b])[KeyOf(PATH_A)].generation == 1
  {
    if KeyOf(PATH_A) == b.path { KeyInjective(c, ROOT_TEXT, PATH_A, PATH_B); }
    ApplyOrigin(rows, [b], KeyOf(PATH_A));
  }

  lemma ScanB(c: Setting, t: Trail, s: System, io: WriteOutcome, deaths: nat)
    returns (t': Trail, s': System, b: CacheEntry)
    requires ValidSetting(c) && LeadsTo(c, t, s, true, deaths) && Resume.Ample(ConfigFor(c), io)
    requires Begins(c, s, [PATH_B], New) && OldRows(s.cache.rows)
    ensures LeadsTo(c, t', s', true, deaths) && AllScanned(c, s') && s'.cache.rows == s.cache.rows
    ensures s'.cache.run.value.queue == [b] && b.path == Key(c, ROOT_TEXT, PATH_B)
    ensures s'.cache.run.value.generation == s.cache.run.value.generation
    ensures s'.session.value.earlier == s.session.value.earlier
  {
    UnknownMisses(c, s, [PATH_B], New);
    var t1, s1 := QueueAll(c, t, s, deaths);
    assert s1.session.value.scan.tasks == [Task(PATH_B, Queued)];
    var k;
    t', s', k, b := ScanOne(c, t1, s1, 0, io, deaths);
    assert [] + [b] == [b];
  }

  /** Somewhere in these histories a judged file's row is pruned, and nothing has failed. */
  ghost predicate PrunesJudged(c: Setting, states: seq<System>, acts: seq<Act>, k: nat, j: Judgement) {
    && IsHistory(c, states, acts) && AllSmooth(c, acts) && Deaths(acts) <= 2
    && k < |acts| && acts[k] == Background(Cache.Prune(true))
    && states[k].session.Some? && states[k].session.value.root == ROOT_TEXT && ROOT_TEXT in c.sites
    && j in states[k].session.value.earlier && !CouldNotScan(j)
    && var key := Key(c, ROOT_TEXT, j.file);
       key in states[k].cache.rows && key !in states[k + 1].cache.rows
  }

  /**
   * CacheManager.cpp takes a row of an older generation for one of a file not seen anywhere.
   * Here a scan of the whole disk has judged the file in this generation, and skips it as such.
   */
  lemma JudgedRowIsPruned(interval: nat, batchSize: nat, ground: Cache.Ground)
    returns (states: seq<System>, acts: seq<Act>, k: nat, j: Judgement)
    requires interval > 0
    ensures PrunesJudged(WholeDisk(interval, batchSize, ground), states, acts, k, j)
  {
    var c := WholeDisk(interval, batchSize, ground);
    DiskIsValid(interval, batchSize, ground);
    var io := Resume.AmpleExists(ConfigFor(c));
    var t, s := FirstRun(c, io);
    t, s, j := SecondRun(c, t, s, io);
    t, s := ThirdRun(c, t, s, j, io);
    k := |t.acts|;
    var t', s' := Work(c, t, s, Cache.Prune(true), 2);
    states, acts := t.states + [s'], t.acts + [Background(Cache.Prune(true))];
    Append(c, t, Background(Cache.Prune(true)), s');
    LastAct(c, t, s);
  }

  lemma LastAct(c: Setting, t: Trail, s: System)
    requires LeadsTo(c, t, s, true, 2)
    ensures var acts := t.acts + [Background(Cache.Prune(true))]; AllSmooth(c, acts) && Deaths(acts) <= 2
  {
    var acts := t.acts + [Background(Cache.Prune(true))];
    assert acts[..|acts| - 1] == t.acts;
  }
}
