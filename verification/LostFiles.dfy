// Every execution of the resume protocol is one the whole scanner can go through, every file
// read and scanned, so the condition under which no file is lost is exact for it too.
module LostFiles {
  import opened ByteStrings
  import opened Paths
  import opened CacheStore
  import opened Checkpoint
  import opened ResumeManagement
  import opened ResumeTheorems
  import opened Pipeline = ScanPipeline
  import opened WholeScan
  import opened WholeScanTheorems
  import opened Trails
  import Cache = CacheProtocol
  import Resume = ResumeProtocol

  /** The cache knows only files that this session has judged, and has written nothing yet. */
  ghost predicate OnlyJudged(c: Setting, session: Session, run: Cache.Run)
    requires session.root in c.sites
  {
    && run.unsubmitted == map[]
    && forall p :: p in run.memory ==> exists f :: Decided(session.scan.log, f) && Key(c, session.root, f) == p
  }

  /** The session at rest in the state w of the protocol. */
  ghost predicate Follows(c: Setting, session: Session, run: Cache.Run, w: Resume.World) {
    && session.root in c.sites && OnlyJudged(c, session, run)
    && AtRest(session.scan) && RunMirrors(session.scan, w)
    && forall f :: f in w.run.value.done <==> Decided(session.earlier + session.scan.log, f)
  }

  /** The system in the state w of the protocol, its table empty. */
  ghost predicate Shadows(c: Setting, s: System, w: Resume.World) {
    && s.cache.lastCompleted == 0 && s.cache.rows == map[]
    && w.disk == s.disk && (forall f :: f in w.credit <==> Decided(s.credit, f))
    && (s.session.Some? <==> w.run.Some?) && (s.session.Some? <==> s.cache.run.Some?)
    && (s.session.Some? ==> Follows(c, s.session.value, s.cache.run.value, w))
  }

  // ----- starting and stopping -----

  function Nothing(f: Path): FileMetadata {
    FileMetadata(0, 0, 0)
  }

  lemma RealizeStart(c: Setting, t: Trail, s: System, w: Resume.World, root: Bytes, io: WriteOutcome,
                     smooth: bool, deaths: nat)
    returns (t': Trail, s': System)
    requires ValidSetting(c) && LeadsTo(c, t, s, smooth, deaths) && Shadows(c, s, w)
    requires w.run.None? && root in c.sites && (smooth ==> Resume.Ample(ConfigFor(c), io))
    ensures LeadsTo(c, t', s', smooth, deaths)
    ensures Shadows(c, s', Resume.Step(ConfigFor(c), w, Resume.Start(root, io)))
  {
    var act := Act.Start(root, Nothing, false, io);
    s' := Next(c, s, act);
    t' := Extend(c, t, s, act, s', smooth, deaths);
    LastInv(c, t, s, smooth, deaths);
    StartMirrors(c, s, w, act);
    StartCredits(c, s, w, act);
  }

  lemma StartCredits(c: Setting, s: System, w: Resume.World, act: Act)
    requires ValidSetting(c) && Shadows(c, s, w) && act.Start? && Possible(c, s, act)
    ensures var s', w' := Next(c, s, act), Resume.Step(ConfigFor(c), w, Resume.Start(act.root, act.io));
            && w'.run.Some? && s'.session.Some?
            && (forall f :: f in w'.run.value.done <==>
                              Decided(s'.session.value.earlier + s'.session.value.scan.log, f))
            && (forall f :: f in w'.credit <==> Decided(s'.credit, f))
  {
    var session := Begun(c, s, act.root, act.gathered, act.io);
    assert session.earlier + [] == session.earlier;
  }

  lemma RealizeStop(c: Setting, t: Trail, s: System, w: Resume.World, smooth: bool, deaths: nat)
    returns (t': Trail, s': System)
    requires LeadsTo(c, t, s, smooth, deaths) && Shadows(c, s, w) && w.run.Some?
    ensures LeadsTo(c, t', s', smooth, deaths + 1)
    ensures Shadows(c, s', Resume.Step(ConfigFor(c), w, Resume.Event.Stop))
  {
    s' := Next(c, s, Act.Stop);
    t' := Extend(c, t, s, Act.Stop, s', smooth, deaths);
  }

  // ----- discovering a file -----

  /** Saving keeps the protocol's credit when it is written for what is done by now. */
  lemma SavedShadows(c: Setting, s: System, session: Session, w: Resume.World, w': Resume.World)
    requires Shadows(c, s, w) && s.session.Some? && Follows(c, session, s.cache.run.value, w')
    requires w'.credit == if w'.disk == w.disk then w.credit else w'.run.value.done
    ensures Shadows(c, Saved(s, session), w')
  {
  }

  /** Between two events the walk goes on as long as discovery does. */
  lemma Going(scan: Scan, w: Resume.World)
    requires Tracked(scan) && AtRest(scan) && RunMirrors(scan, w)
    ensures w.run.value.manager.discoveryFinished <==> scan.main.Waiting?
    ensures w.run.value.todo == scan.left && (scan.left != [] ==> scan.main.Walking?)
  {
    assert [] + scan.left == scan.left;
  }

  /** A file not judged in this session is not in the cache's memory. */
  lemma AheadIsUnknown(c: Setting, session: Session, run: Cache.Run, f: Path)
    requires ValidSetting(c) && session.root in c.sites && OnlyJudged(c, session, run)
    requires Logged(session.scan, session.files) && (forall g :: g in session.files ==> ValidPath(g))
    requires f in session.scan.left
    ensures Key(c, session.root, f) !in run.memory
  {
    assert f in session.files && !Decided(session.scan.log, f);
    if Key(c, session.root, f) in run.memory {
      var g :| Decided(session.scan.log, g) && Key(c, session.root, g) == Key(c, session.root, f);
      assert g in session.files;
      KeyInjective(c, session.root, f, g);
    }
  }

  /** A file is discovered, not found in the cache, and queued. */
  lemma RealizeDiscover(c: Setting, t: Trail, s: System, w: Resume.World, smooth: bool, deaths: nat)
    returns (t': Trail, s': System)
    requires ValidSetting(c) && LeadsTo(c, t, s, smooth, deaths) && Shadows(c, s, w)
    requires w.run.Some? && w.run.value.todo != []
    ensures LeadsTo(c, t', s', smooth, deaths)
    ensures Shadows(c, s', Resume.Step(ConfigFor(c), w, Resume.Discover))
  {
    var session, scan := s.session.value, s.session.value.scan;
    LastInv(c, t, s, smooth, deaths);
    Going(scan, w);
    TakeNext(scan);
    AheadIsUnknown(c, session, s.cache.run.value, scan.left[0]);
    DiscoverMirrors(c, scan, w);
    var scan2 := Take(Take(scan, Pipeline.Discover), CacheMiss);
    t', s' := QueueNext(c, t, s, smooth, deaths);
    SavedShadows(c, s, session.(scan := Take(scan2, Enqueue)), w, Resume.Step(ConfigFor(c), w, Resume.Discover));
  }

  lemma DiscoverMirrors(c: Setting, scan: Scan, w: Resume.World)
    requires AtRest(scan) && DistinctFiles(scan) && RunMirrors(scan, w) && scan.main.Walking? && scan.left != []
    ensures var scan1 := Take(scan, Pipeline.Discover);
            && Pipeline.Enabled(scan1, CacheMiss) && Pipeline.Enabled(Take(scan1, CacheMiss), Enqueue)
            && var w' := Resume.Step(ConfigFor(c), w, Resume.Discover);
            && RunMirrors(Take(Take(scan1, CacheMiss), Enqueue), w')
            && w'.run.value.done == w.run.value.done && w'.credit == w.credit && w'.disk == w.disk
  {
    TakeNext(scan);
    var scan1 := Take(scan, Pipeline.Discover);
    KeepsDistinct(scan, Pipeline.Discover);
    QuietMirrors(scan, w, Pipeline.Discover);
    DiscoveryMirrors(ConfigFor(c), scan1, w, CacheMiss);
    KeepsDistinct(scan1, CacheMiss);
    QuietMirrors(Take(scan1, CacheMiss), Resume.Step(ConfigFor(c), w, Resume.Discover), Enqueue);
  }

  // ----- completing a file -----

  /** The task of a file that is open at rest has yet to begin. */
  lemma OpenIsQueued(scan: Scan, file: Path) returns (i: nat)
    requires AtRest(scan) && file in Open(scan)
    ensures i < |scan.tasks| && scan.tasks[i].pc.Queued? && scan.tasks[i].file == file
  {
    var t :| t in scan.tasks && !t.pc.Finished? && t.file == file;
    i :| 0 <= i < |scan.tasks| && scan.tasks[i] == t;
  }

  /** Judging a file by a scan is nothing the resume manager hears of. */
  lemma ScannedMirrors(scan: Scan, scan': Scan, i: nat, j: Judgement, w: Resume.World)
    requires DistinctFiles(scan) && RunMirrors(scan, w) && Scanned(scan, scan', i, j) && scan.tasks[i].pc.Queued?
    ensures DistinctFiles(scan') && RunMirrors(scan', w)
  {
    OpenAfterTask(scan, i, Closing);
    assert Open(scan') == Open(SetTask(scan, i, Closing));
  }

  lemma ClosedRests(scan: Scan, scan': Scan, i: nat, j: Judgement, io: WriteOutcome)
    requires AtRest(scan) && Scanned(scan, scan', i, j)
    ensures Pipeline.Enabled(scan', TaskCloses(i, io))
    ensures AtRest(Take(scan', TaskCloses(i, io))) && Take(scan', TaskCloses(i, io)).log == scan'.log
  {
  }

  lemma OneMoreDecided(earlier: seq<Judgement>, log: seq<Judgement>, j: Judgement)
    ensures forall f :: Decided(log + [j], f) <==> Decided(log, f) || f == j.file
    ensures forall f :: Decided(earlier + (log + [j]), f) <==> Decided(earlier + log, f) || f == j.file
  {
    forall f
      ensures Decided(log + [j], f) <==> Decided(log, f) || f == j.file
      ensures Decided(earlier + (log + [j]), f) <==> Decided(earlier + log, f) || f == j.file
    {
      DecidedAppend(log, j, f);
      DecidedConcat(earlier, log, f);
      DecidedConcat(earlier, log + [j], f);
    }
  }

  /** The cache's memory after one more stamp holds one more judged file. */
  lemma StampedIsJudged(c: Setting, session: Session, scan': Scan, i: nat, j: Judgement,
                        w: Cache.World, w': Cache.World, e: CacheEntry)
    requires session.root in c.sites && w.run.Some? && OnlyJudged(c, session, w.run.value)
    requires Scanned(session.scan, scan', i, j) && Updated(w, w', e)
    requires e.path == Key(c, session.root, session.scan.tasks[i].file)
    ensures OnlyJudged(c, session.(scan := scan'), w'.run.value)
  {
    OneMoreDecided([], session.scan.log, j);
    forall p | p in w'.run.value.memory
      ensures exists f :: Decided(scan'.log, f) && Key(c, session.root, f) == p
    {
      if p == e.path {
        assert Decided(scan'.log, j.file);
      } else {
        var f :| Decided(session.scan.log, f) && Key(c, session.root, f) == p;
        assert Decided(scan'.log, f);
      }
    }
  }

  /** A queued task scans its file and reports it as completed. */
  lemma RealizeFinish(c: Setting, t: Trail, s: System, w: Resume.World, file: Path, io: WriteOutcome,
                      smooth: bool, deaths: nat)
    returns (t': Trail, s': System)
    requires ValidSetting(c) && LeadsTo(c, t, s, smooth, deaths) && Shadows(c, s, w)
    requires w.run.Some? && file in w.run.value.open && (smooth ==> Resume.Ample(ConfigFor(c), io))
    ensures LeadsTo(c, t', s', smooth, deaths)
    ensures Shadows(c, s', Resume.Step(ConfigFor(c), w, Resume.Finish(file, io)))
  {
    var session, scan := s.session.value, s.session.value.scan;
    LastInv(c, t, s, smooth, deaths);
    var i := OpenIsQueued(scan, file);
    var scan', j, stamped, cache, e;
    t', s', scan', j, stamped, cache, e := ScanThenClose(c, t, s, i, io, smooth, deaths);
    FinishFollows(c, s, w, i, scan', j, io, stamped, cache, e);
  }

  /** What all that leaves is what the protocol's completion leaves. */
  lemma FinishFollows(c: Setting, s: System, w: Resume.World, i: nat, scan': Scan, j: Judgement, io: WriteOutcome,
                      stamped: set<Path>, cache: Cache.World, e: CacheEntry)
    requires Shadows(c, s, w) && s.session.Some? && DistinctFiles(s.session.value.scan)
    requires s.session.value.scan.interval == c.interval
    requires Scanned(s.session.value.scan, scan', i, j) && s.session.value.scan.tasks[i].pc.Queued?
    requires Updated(s.cache, cache, e) && e.path == Key(c, s.session.value.root, s.session.value.scan.tasks[i].file)
    requires Pipeline.Enabled(scan', TaskCloses(i, io))
    ensures Shadows(c, Saved(s.(cache := cache),
                             s.session.value.(scan := Take(scan', TaskCloses(i, io)), stamped := stamped)),
                    Resume.Step(ConfigFor(c), w, Resume.Finish(s.session.value.scan.tasks[i].file, io)))
  {
    var session, scan := s.session.value, s.session.value.scan;
    var w' := Resume.Step(ConfigFor(c), w, Resume.Finish(scan.tasks[i].file, io));
    ScannedMirrors(scan, scan', i, j, w);
    CompletionMirrors(ConfigFor(c), scan', w, TaskCloses(i, io));
    ClosedRests(scan, scan', i, j, io);
    OneMoreDecided(session.earlier, scan.log, j);
    StampedIsJudged(c, session, scan', i, j, s.cache, cache, e);
    var session' := session.(scan := Take(scan', TaskCloses(i, io)), stamped := stamped);
    assert Follows(c, session', cache.run.value, w');
    CacheMayChange(c, s, cache, w);
    SavedShadowsWith(c, s, cache, session', w, w');
  }

  lemma CacheMayChange(c: Setting, s: System, cache: Cache.World, w: Resume.World)
    requires Shadows(c, s, w) && s.session.Some? && cache.run.Some? && s.cache.run.Some?
    requires cache == s.cache.(run := cache.run)
    ensures cache.lastCompleted == 0 && cache.rows == map[]
  {
  }

  lemma SavedShadowsWith(c: Setting, s: System, cache: Cache.World, session: Session, w: Resume.World,
                         w': Resume.World)
    requires Shadows(c, s, w) && s.session.Some? && cache.run.Some? && cache.lastCompleted == 0 && cache.rows == map[]
    requires Follows(c, session, cache.run.value, w')
    requires w'.credit == if w'.disk == w.disk then w.credit else w'.run.value.done
    ensures Shadows(c, Saved(s.(cache := cache), session), w')
  {
  }

  lemma RealizeEnd(c: Setting, t: Trail, s: System, w: Resume.World, io: WriteOutcome, smooth: bool, deaths: nat)
    returns (t': Trail, s': System)
    requires ValidSetting(c) && LeadsTo(c, t, s, smooth, deaths) && Shadows(c, s, w)
    requires w.run.Some? && w.run.value.todo == [] && !w.run.value.manager.discoveryFinished
    requires smooth ==> Resume.Ample(ConfigFor(c), io)
    ensures LeadsTo(c, t', s', smooth, deaths)
    ensures Shadows(c, s', Resume.Step(ConfigFor(c), w, Resume.EndDiscovery(io)))
  {
    var session, scan := s.session.value, s.session.value.scan;
    LastInv(c, t, s, smooth, deaths);
    Going(scan, w);
    WalkEndMirrors(ConfigFor(c), scan, w, WalkEnds(io));
    t', s' := ProceedOnce(c, t, s, WalkEnds(io), smooth, deaths);
    var w' := Resume.Step(ConfigFor(c), w, Resume.EndDiscovery(io));
    SavedShadows(c, s, session.(scan := Take(scan, WalkEnds(io))), w, w');
  }

  // ----- executions -----

  /** An event of the protocol that is not possible, and changes nothing, takes no acts. */
  lemma RealizeEvent(c: Setting, t: Trail, s: System, w: Resume.World, e: Resume.Event, smooth: bool, deaths: nat)
    returns (t': Trail, s': System)
    requires ValidSetting(c) && LeadsTo(c, t, s, smooth, deaths) && Shadows(c, s, w)
    requires smooth && Resume.Writes(e) ==> Resume.Ample(ConfigFor(c), e.io)
    ensures LeadsTo(c, t', s', smooth, if e.Stop? then deaths + 1 else deaths)
    ensures Shadows(c, s', Resume.Step(ConfigFor(c), w, e))
  {
    t', s' := t, s;
    match e
    case Start(root, io) =>
      if w.run.None? && root in c.sites { t', s' := RealizeStart(c, t, s, w, root, io, smooth, deaths); }
    case Discover =>
      if w.run.Some? && w.run.value.todo != [] { t', s' := RealizeDiscover(c, t, s, w, smooth, deaths); }
    case Finish(file, io) =>
      if w.run.Some? && file in w.run.value.open {
        t', s' := RealizeFinish(c, t, s, w, file, io, smooth, deaths);
      }
    case EndDiscovery(io) =>
      if w.run.Some? && w.run.value.todo == [] && !w.run.value.manager.discoveryFinished {
        t', s' := RealizeEnd(c, t, s, w, io, smooth, deaths);
      }
    case Stop =>
      if w.run.Some? { t', s' := RealizeStop(c, t, s, w, smooth, deaths); }
  }

  lemma {:induction false} Realize(c: Setting, t: Trail, s: System, w: Resume.World, events: seq<Resume.Event>,
                                   smooth: bool, deaths: nat)
    returns (t': Trail, s': System)
    requires ValidSetting(c) && LeadsTo(c, t, s, smooth, deaths) && Shadows(c, s, w)
    requires smooth ==> Resume.Smooth(ConfigFor(c), events)
    ensures LeadsTo(c, t', s', smooth, deaths + Resume.Stops(events))
    ensures Shadows(c, s', Resume.Execute(ConfigFor(c), w, events))
    decreases |events|
  {
    if events == [] {
      t', s' := t, s;
    } else {
      t', s' := RealizeEvent(c, t, s, w, events[0], smooth, deaths);
      var more := if events[0].Stop? then deaths + 1 else deaths;
      t', s' := Realize(c, t', s', Resume.Step(ConfigFor(c), w, events[0]), events[1..], smooth, more);
    }
  }

  /**
   * Each execution of the protocol is that of some history of the whole scanner in which no
   * process dies more often, every file is read, and, if the execution is smooth, every write
   * arrives.
   */
  lemma ExecutionIsHistory(c: Setting, events: seq<Resume.Event>) returns (states: seq<System>, acts: seq<Act>)
    requires ValidSetting(c)
    ensures IsHistory(c, states, acts) && Deaths(acts) <= Resume.Stops(events)
    ensures Resume.Smooth(ConfigFor(c), events) ==> AllSmooth(c, acts)
    ensures Shadows(c, states[|acts|], Resume.Execute(ConfigFor(c), Resume.FIRST_START, events))
  {
    Cache.EmptyInv(c.ground);
    BeginningLeads(c);
    var t, s := Realize(c, BEGINNING, FIRST, Resume.FIRST_START, events, Resume.Smooth(ConfigFor(c), events), 0);
    states, acts := t.states, t.acts;
  }

  /**
   * For the whole scanner on any trees: over all histories no file is lost, if and only if the
   * files that the walks hand over tolerate the text order; with one-line names, if and only if
   * no two of them clash. Where they do not, one death is enough to lose a file, with every
   * write arriving and every file read.
   */
  lemma WholeScanLosesNoFileIff(c: Setting)
    requires ValidSetting(c)
    ensures Resume.AllTolerant(ConfigFor(c)) <==>
              forall states, acts :: IsHistory(c, states, acts) ==> !LosesAFile(c, states[|acts|])
    ensures Resume.AllTolerant(ConfigFor(c)) <==>
              forall states, acts ::
                IsHistory(c, states, acts) && AllSmooth(c, acts) && Deaths(acts) <= 1 ==>
                  !LosesAFile(c, states[|acts|])
    ensures OneLineNames(ConfigFor(c)) ==> (Resume.AllTolerant(ConfigFor(c)) <==> NoClashes(ConfigFor(c)))
  {
    ConfigIsValid(c.sites, c.excluded, c.interval);
    if OneLineNames(ConfigFor(c)) { AllTolerantIffNoClashes(ConfigFor(c)); }
    if Resume.AllTolerant(ConfigFor(c)) {
      forall states, acts | IsHistory(c, states, acts) ensures !LosesAFile(c, states[|acts|]) {
        CompletedScanJudgedEveryFile(c, states, acts, |acts|);
      }
    } else {
      var states, acts := SomeHistoryLoses(c);
    }
  }

  lemma SomeHistoryLoses(c: Setting) returns (states: seq<System>, acts: seq<Act>)
    requires ValidSetting(c) && !Resume.AllTolerant(ConfigFor(c))
    ensures IsHistory(c, states, acts) && AllSmooth(c, acts) && Deaths(acts) <= 1
    ensures LosesAFile(c, states[|acts|])
  {
    ConfigIsValid(c.sites, c.excluded, c.interval);
    var events := Resume.Unsafe(ConfigFor(c));
    states, acts := ExecutionIsHistory(c, events);
    CompletedFalsely(c, states[|acts|], Resume.Execute(ConfigFor(c), Resume.FIRST_START, events));
  }

  lemma CompletedFalsely(c: Setting, s: System, w: Resume.World)
    requires Shadows(c, s, w) && Resume.FalselyCompleted(ConfigFor(c), w)
    ensures LosesAFile(c, s)
  {
    var r := Load(s.disk.value).value;
    var f :| f in ConfigFor(c).files[r.root] && f !in w.credit;
    assert !SoundlyJudged(c, r.root, s.credit, f);
  }
}
