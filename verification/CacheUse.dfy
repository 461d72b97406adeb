// What the pipeline does with the cache's answers: which files it judges from the cache and
// which it scans, and that it can always go on.
module CacheUse {
  import opened Options
  import opened ByteStrings
  import opened Counting
  import opened Paths
  import opened CacheStore
  import opened ResumeManagement
  import opened Pipeline = ScanPipeline
  import opened WholeScan
  import opened WholeScanTheorems
  import opened Trails
  import Cache = CacheProtocol
  import Resume = ResumeProtocol

  /** What an entry for exactly this file, with exactly this metadata, says of it. */
  function VerdictIn(entries: map<Bytes, CacheEntry>, key: Bytes, m: FileMetadata): Option<FileVerdict> {
    if key in entries && entries[key].metadata.lastModified == m.lastModified && entries[key].metadata.size == m.size
       && entries[key].metadata.signaturesLastModified == m.signaturesLastModified
    then Some(entries[key].verdict) else None
  }

  lemma CachedVerdictIs(entries: map<Bytes, CacheEntry>, key: Bytes, m: FileMetadata)
    ensures Cache.CachedVerdict(entries, key, m) == VerdictIn(entries, key, m)
  {
  }

  /** What the memory that the session found at its start says of a file. */
  function KnownAtStart(c: Setting, session: Session, f: Path): Option<FileVerdict>
    requires session.root in c.sites
  {
    VerdictIn(session.loaded, Key(c, session.root, f), session.scan.gathered(f))
  }

  // ----- the invariant -----

  /** The entries of files not stamped yet are those found at the start. */
  ghost predicate Untouched(c: Setting, session: Session, memory: map<Bytes, CacheEntry>)
    requires session.root in c.sites
  {
    forall f :: f in session.files && f !in session.stamped ==>
      var key := Key(c, session.root, f);
      && (key in memory <==> key in session.loaded) && (key in memory ==> memory[key] == session.loaded[key])
  }

  ghost predicate HasTask(scan: Scan, f: Path) {
    exists i :: 0 <= i < |scan.tasks| && scan.tasks[i].file == f
  }

  /** What the log says of a file agrees with what was known of it at the start. */
  ghost predicate FromItsSource(c: Setting, session: Session, j: Judgement)
    requires session.root in c.sites
  {
    if j.cached then KnownAtStart(c, session, j.file) == Some(j.verdict)
    else KnownAtStart(c, session, j.file) == None && HasTask(session.scan, j.file)
  }

  /** Known files are judged from the cache, with what is known; the others, and only they, have tasks. */
  ghost predicate Sourced(c: Setting, session: Session)
    requires session.root in c.sites
  {
    var scan := session.scan;
    && (forall i :: 0 <= i < |scan.log| ==> FromItsSource(c, session, scan.log[i]))
    && (forall i :: 0 <= i < |scan.tasks| ==> KnownAtStart(c, session, scan.tasks[i].file) == None)
    && (scan.main.MissAdded? ==> KnownAtStart(c, session, scan.main.file) == None)
  }

  ghost predicate Inv(c: Setting, s: System) {
    s.session.Some? ==>
      && Running(c, s) && Untouched(c, s.session.value, s.cache.run.value.memory) && Sourced(c, s.session.value)
      && TasksJudged(s.session.value.scan)
  }

  lemma LookupIsKnown(c: Setting, s: System, f: Path)
    requires Running(c, s) && Untouched(c, s.session.value, s.cache.run.value.memory)
    requires f in s.session.value.files && f !in s.session.value.stamped
    ensures var session := s.session.value;
            VerdictIn(s.cache.run.value.memory, Key(c, session.root, f), session.scan.gathered(f)) ==
            KnownAtStart(c, session, f)
  {
  }

  /** A file being looked up is of the walk, and not judged or stamped yet. */
  lemma LookedUpIsNew(c: Setting, s: System)
    requires WholeScan.Inv(c, s) && s.session.Some? && s.session.value.scan.main.Looking?
    ensures var session := s.session.value;
            session.scan.main.file in session.files && session.scan.main.file !in session.stamped
  {
    var session := s.session.value;
    assert Undecided(session.scan, session.scan.main.file);
  }

  lemma TaskStays(scan: Scan, e: Pipeline.Step, f: Path)
    requires Pipeline.Enabled(scan, e) && HasTask(scan, f)
    ensures HasTask(Take(scan, e), f)
  {
    var i :| 0 <= i < |scan.tasks| && scan.tasks[i].file == f;
    assert Take(scan, e).tasks[i].file == f;
  }

  /** The file a step judges, and where the verdict comes from. */
  lemma JudgedIsSourced(c: Setting, session: Session, e: Pipeline.Step)
    requires session.root in c.sites && Sourced(c, session) && Pipeline.Enabled(session.scan, e) && Decides(e)
    requires e.CacheHit? ==> KnownAtStart(c, session, session.scan.main.file) == Some(e.verdict)
    ensures FromItsSource(c, session.(scan := Take(session.scan, e)), Take(session.scan, e).log[|session.scan.log|])
  {
    var scan' := Take(session.scan, e);
    if !e.CacheHit? { assert scan'.tasks[e.i].file == session.scan.tasks[e.i].file; }
  }

  lemma StepKeepsSourced(c: Setting, session: Session, e: Pipeline.Step)
    requires session.root in c.sites && Sourced(c, session) && Pipeline.Enabled(session.scan, e)
    requires Logged(session.scan, session.files)
    requires e.CacheHit? ==> KnownAtStart(c, session, session.scan.main.file) == Some(e.verdict)
    requires e.CacheMiss? ==> KnownAtStart(c, session, session.scan.main.file) == None
    ensures Sourced(c, session.(scan := Take(session.scan, e)))
  {
    var scan, scan' := session.scan, Take(session.scan, e);
    ProceedKeepsRest(scan, e);
    LogGrows(scan, session.files, e);
    if Decides(e) { JudgedIsSourced(c, session, e); }
    forall i | 0 <= i < |scan'.log| ensures FromItsSource(c, session.(scan := scan'), scan'.log[i]) {
      if i < |scan.log| {
        assert scan'.log[i] == scan.log[i] && FromItsSource(c, session, scan.log[i]);
        if !scan.log[i].cached { TaskStays(scan, e, scan.log[i].file); }
      }
    }
    TaskFilesStay(scan, e);
  }

  /** Only enqueueing adds a task, and it is for the file in hand. */
  lemma TaskFilesStay(scan: Scan, e: Pipeline.Step)
    requires Pipeline.Enabled(scan, e)
    ensures var scan' := Take(scan, e);
            forall i :: 0 <= i < |scan'.tasks| ==>
              if i < |scan.tasks| then scan'.tasks[i].file == scan.tasks[i].file
              else scan.main.MissAdded? && scan'.tasks[i].file == scan.main.file
    ensures Take(scan, e).main.MissAdded? ==>
              (e.CacheMiss? || scan.main.MissAdded?) && Take(scan, e).main.file == scan.main.file
  {
  }

  /** The cache's answer during the run is what was known at the start. */
  lemma AnswerIsKnown(c: Setting, s: System)
    requires WholeScan.Inv(c, s) && s.session.Some? && s.session.value.scan.main.Looking?
    requires Untouched(c, s.session.value, s.cache.run.value.memory)
    ensures Answer(c, s, s.session.value.scan.main.file) ==
            KnownAtStart(c, s.session.value, s.session.value.scan.main.file)
  {
    LookedUpIsNew(c, s);
    var session := s.session.value;
    LookupIsKnown(c, s, session.scan.main.file);
    CachedVerdictIs(s.cache.run.value.memory, Key(c, session.root, session.scan.main.file),
                    session.scan.gathered(session.scan.main.file));
  }

  lemma StampKeepsUntouched(c: Setting, session: Session, run: Cache.Run, f: Path, v: FileVerdict)
    requires ValidSetting(c) && session.root in c.sites && Untouched(c, session, run.memory) && f in session.files
    requires forall g :: g in session.files ==> ValidPath(g)
    ensures var run' := Cache.Update(run, Key(c, session.root, f), session.scan.gathered(f), v);
            Untouched(c, session.(stamped := session.stamped + {f}), run'.memory)
  {
    var m := session.scan.gathered(f);
    forall g | g in session.files && g !in session.stamped + {f}
      ensures var key, memory := Key(c, session.root, g), Cache.Update(run, Key(c, session.root, f), m, v).memory;
              && (key in memory <==> key in session.loaded) && (key in memory ==> memory[key] == session.loaded[key])
    {
      UpdateSpares(c, session.root, run, f, m, v, g);
    }
  }

  lemma StampKeepsInv(c: Setting, s: System, act: Act)
    requires ValidSetting(c) && WholeScan.Inv(c, s) && Inv(c, s) && Possible(c, s, act)
    requires act.StampHit? || act.StampScan?
    ensures Inv(c, Next(c, s, act))
  {
    var session := s.session.value;
    StampableFile(session, act);
    StampKeepsUntouched(c, session, s.cache.run.value, StampedFile(session, act), StampedVerdict(c, s, act));
    StampedInv(c, s, act);
  }

  lemma StampedInv(c: Setting, s: System, act: Act)
    requires Inv(c, s) && Possible(c, s, act) && (act.StampHit? || act.StampScan?)
    requires var session, f := s.session.value, StampedFile(s.session.value, act);
             Untouched(c, session.(stamped := session.stamped + {f}),
                       Cache.Update(s.cache.run.value, Key(c, session.root, f), session.scan.gathered(f),
                                    StampedVerdict(c, s, act)).memory)
    ensures Inv(c, Next(c, s, act))
  {
    StampingUpdates(c, s, act);
    var session := s.session.value;
    SourcedAnyhow(c, session, session.stamped + {StampedFile(session, act)});
  }

  lemma SourcedAnyhow(c: Setting, session: Session, stamped: set<Path>)
    requires session.root in c.sites && Sourced(c, session)
    ensures Sourced(c, session.(stamped := stamped))
  {
    forall i | 0 <= i < |session.scan.log|
      ensures FromItsSource(c, session.(stamped := stamped), session.scan.log[i])
    {
      assert FromItsSource(c, session, session.scan.log[i]);
    }
  }

  lemma ProceedKeepsInv(c: Setting, s: System, e: Pipeline.Step)
    requires WholeScan.Inv(c, s) && Inv(c, s) && Possible(c, s, Proceed(e))
    ensures Inv(c, Next(c, s, Proceed(e)))
  {
    if e.CacheHit? || e.CacheMiss? { AnswerIsKnown(c, s); }
    StepKeepsSourced(c, s.session.value, e);
    KeepsTasksJudged(s.session.value.scan, e);
    ProceedKeepsRest(s.session.value.scan, e);
  }

  lemma BackgroundKeepsInv(c: Setting, s: System, e: Cache.Event)
    requires Inv(c, s) && Possible(c, s, Background(e))
    ensures Inv(c, Next(c, s, Background(e)))
  {
    BackgroundKeepsRun(c, s.cache, e);
  }

  lemma StepKeepsInv(c: Setting, s: System, act: Act, s': System)
    requires ValidSetting(c) && WholeScan.Inv(c, s) && Inv(c, s) && IsStep(c, s, act, s')
    ensures Inv(c, s')
  {
    match act
    case Start(_, _, _, _) =>
    case Proceed(e) => ProceedKeepsInv(c, s, e);
    case Background(e) => BackgroundKeepsInv(c, s, e);
    case Stop =>
    case _ => StampKeepsInv(c, s, act);
  }

  lemma {:induction false} HistoryKeepsInv(c: Setting, states: seq<System>, acts: seq<Act>, k: nat)
    requires ValidSetting(c) && IsHistory(c, states, acts) && k < |states|
    ensures Inv(c, states[k])
  {
    if k == 0 {
    } else {
      HistoryKeepsInv(c, states, acts, k - 1);
      HistoryInv(c, states, acts, k - 1);
      assert IsStep(c, states[k - 1], acts[k - 1], states[k]);
      StepKeepsInv(c, states[k - 1], acts[k - 1], states[k]);
    }
  }

  // ----- what is judged from the cache -----

  /** The walking thread, after a lookup, has judged the file or is about to queue it. */
  ghost predicate Answered(scan: Scan, scan': Scan, hit: Option<FileVerdict>)
    requires scan.main.Looking?
  {
    var f := scan.main.file;
    match hit
    case Some(v) =>
      && scan'.log == scan.log + [Judgement(f, scan.gathered(f), v, true)]
      && scan'.main == HitCounted(f, v == Malicious) && scan'.tasks == scan.tasks
      && scan'.summary.cached == scan.summary.cached + 1
    case None =>
      && scan'.log == scan.log && scan'.main == MissAdded(f) && scan'.tasks == scan.tasks
      && scan'.summary.cached == scan.summary.cached
  }

  /**
   * When the walking thread leaves a lookup, the file is judged from the cache, with the
   * cache's verdict, if memory holds an entry of the same metadata, and else goes on to the queue.
   */
  lemma LookupDecides(c: Setting, states: seq<System>, acts: seq<Act>, k: nat)
    requires ValidSetting(c) && IsHistory(c, states, acts) && k < |acts|
    requires states[k].session.Some? && states[k].session.value.scan.main.Looking?
    requires states[k + 1].session.Some? && !states[k + 1].session.value.scan.main.Looking?
    ensures Running(c, states[k])
    ensures var session := states[k].session.value;
            var f := session.scan.main.file;
            Answered(session.scan, states[k + 1].session.value.scan,
                     VerdictIn(states[k].cache.run.value.memory, Key(c, session.root, f), session.scan.gathered(f)))
  {
    HistoryInv(c, states, acts, k);
    var s := states[k];
    assert IsStep(c, s, acts[k], states[k + 1]);
    LeavesLookup(c, s, acts[k]);
  }

  lemma LeavesLookup(c: Setting, s: System, act: Act)
    requires Possible(c, s, act) && Running(c, s) && s.session.value.scan.main.Looking?
    requires Next(c, s, act).session.Some? && !Next(c, s, act).session.value.scan.main.Looking?
    ensures var session := s.session.value;
            var f := session.scan.main.file;
            Answered(session.scan, Next(c, s, act).session.value.scan,
                     VerdictIn(s.cache.run.value.memory, Key(c, session.root, f), session.scan.gathered(f)))
  {
    var session := s.session.value;
    CachedVerdictIs(s.cache.run.value.memory, Key(c, session.root, session.scan.main.file),
                    session.scan.gathered(session.scan.main.file));
  }

  /** And one of the two is always possible, with whatever the cache has. */
  lemma LookupIsPossible(c: Setting, s: System)
    requires Running(c, s) && s.session.value.scan.main.Looking?
    ensures var session := s.session.value;
            var f := session.scan.main.file;
            match VerdictIn(s.cache.run.value.memory, Key(c, session.root, f), session.scan.gathered(f))
            case Some(v) => Possible(c, s, Proceed(CacheHit(v)))
            case None => Possible(c, s, Proceed(CacheMiss))
  {
    var session := s.session.value;
    CachedVerdictIs(s.cache.run.value.memory, Key(c, session.root, session.scan.main.file),
                    session.scan.gathered(session.scan.main.file));
  }

  /**
   * At any moment of any run: a file is judged from the cache if and only if the memory found
   * at its start knew it, and with the verdict known; the others have tasks, and only they.
   */
  lemma KnownFilesAreNotScanned(c: Setting, states: seq<System>, acts: seq<Act>, k: nat)
    requires ValidSetting(c) && IsHistory(c, states, acts) && k < |states| && states[k].session.Some?
    ensures Running(c, states[k])
    ensures var session, scan := states[k].session.value, states[k].session.value.scan;
            && (forall i :: 0 <= i < |scan.log| ==>
                  var known := KnownAtStart(c, session, scan.log[i].file);
                  && (scan.log[i].cached <==> known.Some?)
                  && (scan.log[i].cached ==> scan.log[i].verdict == known.value)
                  && (scan.log[i].cached <==> !HasTask(scan, scan.log[i].file)))
            && (forall i :: 0 <= i < |scan.tasks| ==> KnownAtStart(c, session, scan.tasks[i].file) == None)
  {
    HistoryKeepsInv(c, states, acts, k);
    var session, scan := states[k].session.value, states[k].session.value.scan;
    forall i | 0 <= i < |scan.log|
      ensures var known := KnownAtStart(c, session, scan.log[i].file);
              && (scan.log[i].cached <==> known.Some?)
              && (scan.log[i].cached ==> scan.log[i].verdict == known.value)
              && (scan.log[i].cached <==> !HasTask(scan, scan.log[i].file))
    {
      assert FromItsSource(c, session, scan.log[i]);
    }
  }

  /** Of judgements on different files, those from the cache are as many as their files. */
  lemma {:induction false} CachedFiles(log: seq<Judgement>)
    requires forall i, j :: 0 <= i < j < |log| ==> log[i].file != log[j].file
    ensures Count(log, FromCache) == |set j | j in log && j.cached :: j.file|
  {
    var all := set j | j in log && j.cached :: j.file;
    if log == [] {
      assert all == {};
    } else {
      var rest := set j | j in log[1..] && j.cached :: j.file;
      CachedFiles(log[1..]);
      assert log[0].file !in rest by {
        forall j | j in log[1..] ensures j.file != log[0].file {
          var i :| 0 <= i < |log[1..]| && log[1..][i] == j;
          assert log[i + 1] == j;
        }
      }
      assert forall j :: j in log <==> j == log[0] || j in log[1..];
      assert all == rest + if log[0].cached then {log[0].file} else {};
    }
  }

  /**
   * At the end of a run as many files are counted as cached as the memory found at its start
   * knew, and all others as scanned or failed. If it knew all, nothing was scanned.
   */
  lemma CachedAreTheKnown(c: Setting, states: seq<System>, acts: seq<Act>, k: nat)
    requires ValidSetting(c) && IsHistory(c, states, acts) && k < |states|
    requires states[k].session.Some? && states[k].session.value.scan.main.Done?
    ensures Running(c, states[k])
    ensures var session, summary := states[k].session.value, states[k].session.value.scan.summary;
            && summary.cached == |set f | f in session.files && KnownAtStart(c, session, f).Some?|
            && summary.cached + summary.scanned + summary.failed == |session.files|
            && ((forall f :: f in session.files ==> KnownAtStart(c, session, f).Some?) ==>
                  summary.scanned == 0 && summary.failed == 0 && session.scan.tasks == [])
  {
    KnownFilesAreNotScanned(c, states, acts, k);
    HistoryInv(c, states, acts, k);
    HistoryKeepsInv(c, states, acts, k);
    var session, scan := states[k].session.value, states[k].session.value.scan;
    EndCounts(scan, session.files);
    KnownAreCached(c, session);
    if forall f :: f in session.files ==> KnownAtStart(c, session, f).Some? {
      AllKnownNoTasks(c, session);
    }
  }

  lemma EndCounts(scan: Scan, files: seq<Path>)
    requires Pipeline.Inv(scan, files) && scan.main.Done?
    ensures JudgesEach(scan.log, files)
    ensures scan.summary.cached == |set j | j in scan.log && j.cached :: j.file|
    ensures scan.summary.cached + scan.summary.scanned + scan.summary.failed == |files|
    ensures scan.summary.cached == Count(scan.log, FromCache)
  {
    DoneJudgesEach(scan, files);
    LogSplits(scan.log);
    CachedFiles(scan.log);
  }

  lemma KnownAreCached(c: Setting, session: Session)
    requires session.root in c.sites && Sourced(c, session) && JudgesEach(session.scan.log, session.files)
    ensures (set j | j in session.scan.log && j.cached :: j.file) ==
            (set f | f in session.files && KnownAtStart(c, session, f).Some?)
  {
    var log := session.scan.log;
    forall f | f in session.files && KnownAtStart(c, session, f).Some?
      ensures exists j :: j in log && j.cached && j.file == f
    {
      var i :| 0 <= i < |log| && log[i].file == f;
      assert FromItsSource(c, session, log[i]) && log[i] in log;
    }
    forall j | j in log && j.cached ensures j.file in session.files && KnownAtStart(c, session, j.file).Some? {
      var i :| 0 <= i < |log| && log[i] == j;
      assert FromItsSource(c, session, log[i]) && Decided(log, j.file);
    }
  }

  lemma AllKnownNoTasks(c: Setting, session: Session)
    requires session.root in c.sites && Sourced(c, session) && JudgesEach(session.scan.log, session.files)
    requires forall f :: f in session.files ==> KnownAtStart(c, session, f).Some?
    requires Logged(session.scan, session.files) && TasksJudged(session.scan)
    ensures session.scan.tasks == [] && Count(session.scan.log, FromCache) == |session.files|
  {
    var scan := session.scan;
    if scan.tasks != [] { TaskFileIsWalked(scan, session.files, 0); }
    forall j | j in scan.log ensures FromCache(j) {
      var i :| 0 <= i < |scan.log| && scan.log[i] == j;
      assert FromItsSource(c, session, scan.log[i]) && Decided(scan.log, j.file);
    }
    CountAll(scan.log, FromCache);
  }

  lemma {:induction false} CountAll<T>(s: seq<T>, p: T -> bool)
    requires forall x :: x in s ==> p(x)
    ensures Count(s, p) == |s|
  {
    if s == [] {
    } else {
      CountAll(s[1..], p);
    }
  }

  /** Every task is about a file of the walk. */
  lemma TaskFileIsWalked(scan: Scan, files: seq<Path>, i: nat)
    requires Logged(scan, files) && TasksJudged(scan) && i < |scan.tasks|
    ensures scan.tasks[i].file in files
  {
    if scan.tasks[i].pc.Queued? { assert Undecided(scan, scan.tasks[i].file); }
  }

  /** The memory found at the start is the table, or nothing if that could not be read. */
  lemma StartFindsTheTable(c: Setting, s: System, root: Bytes, gathered: Path -> FileMetadata, readFails: bool,
                           io: WriteOutcome)
    requires Possible(c, s, Act.Start(root, gathered, readFails, io))
    ensures var s' := Next(c, s, Act.Start(root, gathered, readFails, io));
            && s'.session.Some? && s'.session.value.scan.gathered == gathered
            && s'.session.value.loaded == (if readFails then map[] else s.cache.rows)
            && s'.cache.rows == s.cache.rows
  {
  }

  // ----- a run can always go on -----

  /** A stamped or unreadable file can be reported; until then its update has a next step. */
  lemma ClosingGoesOn(c: Setting, states: seq<System>, acts: seq<Act>, k: nat, i: nat, io: WriteOutcome)
    returns (act: Act)
    requires ValidSetting(c) && IsHistory(c, states, acts) && k < |states| && Running(c, states[k])
    requires Resume.Ample(ConfigFor(c), io)
    requires i < |states[k].session.value.scan.tasks| && states[k].session.value.scan.tasks[i].pc.Closing?
    ensures Possible(c, states[k], act) && SmoothAct(c, act) && !act.Stop?
  {
    var s, session := states[k], states[k].session.value;
    var f := session.scan.tasks[i].file;
    if !CouldNotRead(session.scan.log, f) && f !in session.stamped {
      act := StampScan(i);
      UpdatesNeverCollide(c, states, acts, k, act);
    } else if !CouldNotRead(session.scan.log, f) && Key(c, session.root, f) in s.cache.run.value.unsubmitted {
      act := Background(Cache.Submit(Key(c, session.root, f)));
    } else {
      act := Proceed(TaskCloses(i, io));
    }
  }

  /** Every task that is not finished has a step of its own to take. */
  lemma TaskGoesOn(c: Setting, states: seq<System>, acts: seq<Act>, k: nat, i: nat, io: WriteOutcome)
    returns (act: Act)
    requires ValidSetting(c) && IsHistory(c, states, acts) && k < |states| && Running(c, states[k])
    requires Resume.Ample(ConfigFor(c), io)
    requires i < |states[k].session.value.scan.tasks| && !states[k].session.value.scan.tasks[i].pc.Finished?
    ensures Possible(c, states[k], act) && SmoothAct(c, act) && !act.Stop?
  {
    var session, scan := states[k].session.value, states[k].session.value.scan;
    match scan.tasks[i].pc
    case Queued =>
      var malicious := ReportOf(c, Key(c, session.root, scan.tasks[i].file), scan.gathered(scan.tasks[i].file));
      act := Proceed(TaskScans(i, malicious));
    case Flagged => act := Proceed(TaskFlags(i));
    case Moving => act := Proceed(TaskMoves(i, true));
    case Closing => act := ClosingGoesOn(c, states, acts, k, i, io);
  }

  /** A hit is counted, stamped, handed to the writer, and then added to the resume set. */
  lemma HitGoesOn(c: Setting, states: seq<System>, acts: seq<Act>, k: nat) returns (act: Act)
    requires ValidSetting(c) && IsHistory(c, states, acts) && k < |states| && Running(c, states[k])
    requires states[k].session.value.scan.main.HitCounted?
    ensures Possible(c, states[k], act) && SmoothAct(c, act) && !act.Stop?
  {
    var s, session := states[k], states[k].session.value;
    var f := session.scan.main.file;
    if session.scan.main.malicious {
      act := Proceed(HitIsMalicious);
    } else if f !in session.stamped {
      act := StampHit;
      UpdatesNeverCollide(c, states, acts, k, act);
    } else if Key(c, session.root, f) in s.cache.run.value.unsubmitted {
      act := Background(Cache.Submit(Key(c, session.root, f)));
    } else {
      act := Proceed(HitAdds);
    }
  }

  lemma LookupGoesOn(c: Setting, s: System) returns (act: Act)
    requires Running(c, s) && s.session.value.scan.main.Looking?
    ensures Possible(c, s, act) && SmoothAct(c, act) && !act.Stop?
  {
    LookupIsPossible(c, s);
    var session := s.session.value;
    var f := session.scan.main.file;
    match VerdictIn(s.cache.run.value.memory, Key(c, session.root, f), session.scan.gathered(f))
    case Some(v) => act := Proceed(CacheHit(v));
    case None => act := Proceed(CacheMiss);
  }

  /** The walking thread has a step to take, unless it waits for a task that has one. */
  lemma WalkGoesOn(c: Setting, states: seq<System>, acts: seq<Act>, k: nat, io: WriteOutcome) returns (act: Act)
    requires ValidSetting(c) && IsHistory(c, states, acts) && k < |states| && Running(c, states[k])
    requires Resume.Ample(ConfigFor(c), io) && !states[k].session.value.scan.main.Done?
    ensures Possible(c, states[k], act) && SmoothAct(c, act) && !act.Stop?
  {
    var scan := states[k].session.value.scan;
    match scan.main
    case Walking => act := if scan.left != [] then Proceed(Pipeline.Discover) else Proceed(WalkEnds(io));
    case Looking(_) => act := LookupGoesOn(c, states[k]);
    case HitCounted(_, _) => act := HitGoesOn(c, states, acts, k);
    case HitAdded(_) => act := Proceed(HitCompletes(io));
    case MissAdded(_) => act := Proceed(Enqueue);
    case Waiting =>
      if i :| 0 <= i < |scan.tasks| && !scan.tasks[i].pc.Finished? {
        act := TaskGoesOn(c, states, acts, k, i, io);
      } else {
        act := Proceed(WaitReturns);
      }
  }

  /** After the scan the writer finishes, the table is pruned, the generation recorded. */
  lemma CommitGoesOn(c: Setting, s: System) returns (act: Act)
    requires WholeScan.Inv(c, s) && Running(c, s) && s.session.value.scan.main.Done?
    requires !s.cache.run.value.phase.Committed?
    ensures Possible(c, s, act) && SmoothAct(c, act) && !act.Stop?
  {
    var run := s.cache.run.value;
    match run.phase
    case Scanning => act := Background(Cache.Finish);
    case Draining =>
      match run.writer {
        case Waiting => act := Background(Cache.WriterTakes);
        case Writing(_, _) => act := Background(Cache.WriterWrites(true));
        case Returned => act := Background(Cache.Joined);
      }
    case Pruning => act := Background(Cache.Prune(true));
    case Promoting => act := Background(Cache.Promote(true));
  }

  /**
   * No run is ever stuck: in every state of every history, until the generation is recorded,
   * something can be done that needs no failure and no death.
   */
  lemma RunsNeverGetStuck(c: Setting, states: seq<System>, acts: seq<Act>, k: nat) returns (act: Act)
    requires ValidSetting(c) && IsHistory(c, states, acts) && k < |states|
    requires states[k].session.Some? && states[k].cache.run.Some? && !states[k].cache.run.value.phase.Committed?
    ensures Possible(c, states[k], act) && SmoothAct(c, act) && !act.Stop?
  {
    HistoryInv(c, states, acts, k);
    if states[k].session.value.scan.main.Done? {
      act := CommitGoesOn(c, states[k]);
    } else {
      var io := Resume.AmpleExists(ConfigFor(c));
      act := WalkGoesOn(c, states, acts, k, io);
    }
  }

  /** Meanwhile the writer takes a batch as soon as one is full, and writes what it has taken. */
  lemma WriterNeverGetsStuck(c: Setting, states: seq<System>, acts: seq<Act>, k: nat)
    requires ValidSetting(c) && IsHistory(c, states, acts) && k < |states| && Running(c, states[k])
    ensures var run := states[k].cache.run.value;
            && (run.writer.Waiting? && (|run.queue| >= c.batchSize || run.phase.Draining?) ==>
                  Possible(c, states[k], Background(Cache.WriterTakes)))
            && (run.writer.Writing? ==> Possible(c, states[k], Background(Cache.WriterWrites(true))))
            && (run.writer.Returned? ==> run.queue == [])
  {
    HistoryInv(c, states, acts, k);
  }
}
