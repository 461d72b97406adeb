// Scans over many runs: files are discovered in walk order, completed in any order, the
// checkpoint is written now and then, writes fail or are cut short, and a run may stop at
// any step. The question is whether a resumed scan ever skips a file nobody completed.
module ResumeProtocol {
  import opened Options
  import opened ByteStrings
  import opened Paths
  import opened OrderedBytes
  import opened WalkOrder
  import opened Checkpoint
  import opened ResumeManagement

  /** What surrounds the runs: the files of each scan root in walk order, and the save interval. */
  datatype Config = Config(files: map<Bytes, seq<Path>>, interval: nat)

  /** Walks ascend, and no root can be misread as another root and a status. */
  ghost predicate ValidConfig(c: Config) {
    && c.interval > 0
    && (forall r :: r in c.files ==> Ascending(c.files[r]) && forall p :: p in c.files[r] ==> ValidPath(p))
    && (forall r :: r in c.files && Misleading(r) ==> FirstLine(r) !in c.files)
  }

  /**
   * One process. resumedFrom is the checkpoint path it started at, found and todo the files
   * its walk has and has not handed over, open the discovered files not yet completed, and
   * done all files completed by this run or by the runs behind the checkpoint.
   */
  datatype Run = Run(
    manager: Manager,
    resumedFrom: Path,
    found: seq<Path>,
    todo: seq<Path>,
    open: set<Path>,
    done: set<Path>)

  /** credit: the files that were done when the text on disk was written. */
  datatype World = World(disk: Option<Bytes>, credit: set<Path>, run: Option<Run>)

  datatype Event =
    | Start(root: Bytes, io: WriteOutcome)
    | Discover
    | Finish(file: Path, io: WriteOutcome)
    | EndDiscovery(io: WriteOutcome)
    | Stop

  /** The world after a manager call: if the file changed, it stands for the files done now. */
  function After(w: World, run: Run, e: Effect): World {
    World(e.disk, if e.disk == w.disk then w.credit else run.done, Some(run.(manager := e.manager)))
  }

  /** One step; an event that is not possible changes nothing. */
  function Step(c: Config, w: World, e: Event): World {
    match e
    case Start(root, io) =>
      if w.run.Some? || root !in c.files then w
      else
        var picked := Resumable(w.disk, root);
        var manager := Manager([], [], [], false, 0);
        var begun := Begin(manager, w.disk, root, io);
        var from := if picked.Some? then Split(begun.manager.next) else [];
        After(w, Run(manager, from, [], Keep(c.files[root], from), {}, if picked.Some? then w.credit else {}), begun)
    case Discover =>
      if w.run.None? || w.run.value.todo == [] then w
      else
        var run := w.run.value;
        var file := run.todo[0];
        w.(run := Some(run.(manager := AddFile(run.manager, Join(file)), found := run.found + [file],
                            todo := run.todo[1..], open := run.open + {file})))
    case Finish(file, io) =>
      if w.run.None? || file !in w.run.value.open then w
      else
        var run := w.run.value;
        After(w, run.(open := run.open - {file}, done := run.done + {file}),
              FileCompleted(c.interval, run.manager, w.disk, Join(file), io))
    case EndDiscovery(io) =>
      if w.run.None? || w.run.value.todo != [] || w.run.value.manager.discoveryFinished then w
      else After(w, w.run.value, DiscoveryFinished(w.run.value.manager, w.disk, io))
    case Stop => w.(run := None)
  }

  function Execute(c: Config, w: World, events: seq<Event>): World
    decreases |events|
  {
    if events == [] then w else Execute(c, Step(c, w, events[0]), events[1..])
  }

  const FIRST_START: World := World(None, {}, None)

  // ----- what must hold -----

  /** A resume from this text skips only completed files; "completed" means all of them. */
  ghost predicate Safe(c: Config, disk: Option<Bytes>, credit: set<Path>) {
    disk.Some? && Load(disk.value).Some? ==>
      var r := Load(disk.value).value;
      r.root in c.files ==>
        && (r.status == RUNNING ==> forall p :: p in c.files[r.root] && Before(p, Split(r.next)) ==> p in credit)
        && (r.status == COMPLETED ==> forall p :: p in c.files[r.root] ==> p in credit)
  }

  /** Where a resume lands when this file was saved as the next one. */
  function ResumePoint(file: Path): Path {
    Split(FirstLine(Join(file)))
  }

  /**
   * The condition on a site's files: saving the byte-wise smaller of two unfinished files
   * must not make a resume skip the other one.
   */
  ghost predicate OrderTolerant(files: seq<Path>) {
    forall f, g :: f in files && g in files && Less(Join(g), Join(f)) ==> !Before(f, ResumePoint(g))
  }

  // ----- the invariant of a run -----

  ghost predicate Mirrors(unfinished: seq<Bytes>, open: set<Path>) {
    && StrictlySorted(unfinished)
    && (forall f :: f in open ==> ValidPath(f) && Join(f) in unfinished)
    && (forall t :: t in unfinished ==> exists f :: f in open && Join(f) == t)
  }

  ghost predicate Shape(c: Config, run: Run) {
    && run.manager.root in c.files
    && Keep(c.files[run.manager.root], run.resumedFrom) == run.found + run.todo
    && (forall f :: f in run.found ==> f in run.open || f in run.done)
    && (forall f :: f in run.open ==> f in run.found)
    && Mirrors(run.manager.unfinished, run.open)
    && (run.manager.unfinished != [] ==> run.manager.next == run.manager.unfinished[0])
    && (run.manager.discoveryFinished ==> run.todo == [])
  }

  /** What the walk skipped had been completed before. */
  ghost predicate SkippedAreDone(c: Config, run: Run) {
    run.manager.root in c.files &&
    forall p :: p in c.files[run.manager.root] && Before(p, run.resumedFrom) ==> p in run.done
  }

  ghost predicate Inv(c: Config, w: World) {
    && Safe(c, w.disk, w.credit)
    && (w.run.Some? ==> Shape(c, w.run.value) && SkippedAreDone(c, w.run.value))
  }

  // ----- the mirror of open files in the manager's set -----

  lemma MirrorsAdd(unfinished: seq<Bytes>, open: set<Path>, file: Path)
    requires Mirrors(unfinished, open) && ValidPath(file)
    ensures Mirrors(SetInsert(unfinished, Join(file)), open + {file})
  {
    var after := SetInsert(unfinished, Join(file));
    SetInsertKeeps(unfinished, Join(file));
    forall t | t in after ensures exists f :: f in open + {file} && Join(f) == t {
      if t in unfinished {
        var f :| f in open && Join(f) == t;
        assert f in open + {file};
      } else {
        assert file in open + {file};
      }
    }
  }

  lemma MirrorsErase(unfinished: seq<Bytes>, open: set<Path>, file: Path)
    requires Mirrors(unfinished, open) && file in open
    ensures Mirrors(SetErase(unfinished, Join(file)), open - {file})
  {
    var after := SetErase(unfinished, Join(file));
    SetEraseKeeps(unfinished, Join(file));
    forall f | f in open - {file} ensures Join(f) in after {
      if Join(f) == Join(file) { JoinInjective(f, file); }
    }
    forall t | t in after ensures exists f :: f in open - {file} && Join(f) == t {
      var f :| f in open && Join(f) == t;
      assert f in open - {file};
    }
  }

  lemma EmptyMirror(unfinished: seq<Bytes>, open: set<Path>)
    requires Mirrors(unfinished, open)
    ensures unfinished == [] <==> open == {}
  {
    assert unfinished != [] ==> unfinished[0] in unfinished;
  }

  // ----- what a save leaves on disk -----

  lemma LoadOfCut(r: Record, kept: nat)
    requires OneLine(r.root) && OneLine(r.status)
    ensures var loaded := Load(Cut(Text(r), kept));
            loaded.Some? ==> loaded.value.root == r.root && loaded.value.status == r.status &&
                             loaded.value.next <= FirstLine(r.next)
  {
    LoadOfSave(r);
    if kept < |Text(r)| { TornSave(r, kept); }
  }

  lemma StatusWords()
    ensures OneLine(RUNNING) && OneLine(COMPLETED) && RUNNING != COMPLETED
  {
    assert |RUNNING| == 7 && |COMPLETED| == 9;
  }

  /** The open file whose path the manager would save next. */
  lemma LeastOpen(c: Config, run: Run) returns (least: Path)
    requires ValidConfig(c) && Shape(c, run) && run.manager.unfinished != []
    ensures least in run.open && least in run.found && Join(least) == run.manager.next
    ensures forall p :: p in run.open ==> AtMost(Join(least), Join(p))
  {
    assert run.manager.unfinished[0] in run.manager.unfinished;
    least :| least in run.open && Join(least) == run.manager.unfinished[0];
    forall p | p in run.open ensures AtMost(Join(least), Join(p)) {
      FirstIsLeast(run.manager.unfinished, Join(p));
    }
  }

  /** The least unfinished file is a safe place to resume from. */
  lemma LeastIsSafe(c: Config, run: Run, p: Path)
    requires ValidConfig(c) && Shape(c, run) && SkippedAreDone(c, run)
    requires OrderTolerant(c.files[run.manager.root])
    requires run.manager.unfinished != []
    requires p in c.files[run.manager.root] && Before(p, Split(FirstLine(run.manager.next)))
    ensures p in run.done
  {
    var files := c.files[run.manager.root];
    var least := LeastOpen(c, run);
    TodoIsValid(c, run);
    ResumePointIsEarlier(p, least);
    if p in run.open {
      OpenIsNotSkipped(files, p, least);
    } else if !Before(p, run.resumedFrom) {
      KeepElements(files, run.resumedFrom);
      FoundBefore(run.found, run.todo, files, run.resumedFrom, p, least);
    }
  }

  lemma ResumePointIsEarlier(p: Path, file: Path)
    requires ValidPath(file) && Before(p, ResumePoint(file))
    ensures Before(p, file)
  {
    FirstLineIsPrefix(Join(file));
    PrefixSkipsLess(p, FirstLine(Join(file)), Join(file));
    SplitJoin(file);
  }

  lemma OpenIsNotSkipped(files: seq<Path>, p: Path, least: Path)
    requires OrderTolerant(files) && p in files && least in files && ValidPath(p) && ValidPath(least)
    requires AtMost(Join(least), Join(p)) && Before(p, least)
    ensures !Before(p, ResumePoint(least))
  {
    BeforeIrreflexive(p);
    if Join(p) == Join(least) { JoinInjective(p, least); }
  }

  /** Discovery is in walk order: what precedes a found file has been found. */
  lemma FoundBefore(found: seq<Path>, todo: seq<Path>, files: seq<Path>, from: Path, p: Path, q: Path)
    requires Ascending(files) && Keep(files, from) == found + todo
    requires p in found + todo && q in found && Before(p, q)
    ensures p in found
  {
    var k := KeepIsSuffix(files, from);
    if p !in found {
      var i :| 0 <= i < |found| && found[i] == q;
      var j :| 0 <= j < |todo| && todo[j] == p;
      assert files[k..][i] == q && files[k..][|found| + j] == p;
      BeforeTransitive(p, q, p);
      BeforeIrreflexive(p);
    }
  }

  lemma BrokenRootIsSafe(c: Config, r: Record, kept: nat, credit: set<Path>)
    requires ValidConfig(c) && r.root in c.files && !OneLine(r.root)
    ensures Safe(c, Some(Cut(Text(r), kept)), credit)
  {
    BrokenRoot(r, if kept < |Text(r)| then kept else |Text(r)|);
    assert Text(r)[..|Text(r)|] == Text(r);
  }

  lemma RunningIsSafe(c: Config, run: Run, kept: nat)
    requires ValidConfig(c) && Shape(c, run) && SkippedAreDone(c, run)
    requires OneLine(run.manager.root) ==> OrderTolerant(c.files[run.manager.root])
    requires run.manager.unfinished != [] || run.manager.next == []
    ensures Safe(c, Some(Cut(Text(Record(run.manager.root, RUNNING, run.manager.next)), kept)), run.done)
  {
    var r := Record(run.manager.root, RUNNING, run.manager.next);
    StatusWords();
    if !OneLine(r.root) {
      BrokenRootIsSafe(c, r, kept, run.done);
      return;
    }
    LoadOfCut(r, kept);
    var loaded := Load(Cut(Text(r), kept));
    if loaded.Some? {
      var point := Split(loaded.value.next);
      forall p | p in c.files[r.root] && Before(p, point) ensures p in run.done {
        if run.manager.unfinished != [] {
          PrefixSkipsLess(p, loaded.value.next, FirstLine(r.next));
          LeastIsSafe(c, run, p);
        }
      }
    }
  }

  lemma CompletedIsSafe(c: Config, run: Run, kept: nat)
    requires ValidConfig(c) && Shape(c, run) && SkippedAreDone(c, run)
    requires run.manager.unfinished == [] && run.todo == []
    ensures Safe(c, Some(Cut(Text(Record(run.manager.root, COMPLETED, [])), kept)), run.done)
  {
    var r := Record(run.manager.root, COMPLETED, []);
    StatusWords();
    if !OneLine(r.root) {
      BrokenRootIsSafe(c, r, kept, run.done);
      return;
    }
    LoadOfCut(r, kept);
    var files := c.files[run.manager.root];
    KeepElements(files, run.resumedFrom);
    EmptyMirror(run.manager.unfinished, run.open);
    forall p | p in files ensures p in run.done {
      if !Before(p, run.resumedFrom) {
        assert p in run.found + run.todo;
        assert p !in run.open;
      }
    }
  }

  // ----- every step keeps the invariant -----

  ghost predicate AllTolerant(c: Config) {
    forall r :: r in c.files && OneLine(r) ==> OrderTolerant(c.files[r])
  }

  lemma StartKeepsInv(c: Config, w: World, root: Bytes, io: WriteOutcome)
    requires ValidConfig(c) && AllTolerant(c) && Inv(c, w) && w.run.None? && root in c.files
    ensures Inv(c, Step(c, w, Start(root, io)))
  {
    var w' := Step(c, w, Start(root, io));
    var run := w'.run.value;
    assert [] + run.todo == run.todo;
    StatusWords();
    if Resumable(w.disk, root).None? {
      if io.Written? {
        RunningIsSafe(c, run, io.kept);
        if w'.disk == w.disk { assert Safe(c, w.disk, w.credit); }
      }
    }
  }

  lemma DiscoverKeepsShape(c: Config, run: Run)
    requires ValidConfig(c) && Shape(c, run) && run.todo != [] && ValidPath(run.todo[0])
    ensures var file := run.todo[0];
            Shape(c, run.(manager := AddFile(run.manager, Join(file)), found := run.found + [file],
                          todo := run.todo[1..], open := run.open + {file}))
  {
    var file := run.todo[0];
    MirrorsAdd(run.manager.unfinished, run.open, file);
    MoveHead(run.found, run.todo);
  }

  lemma MoveHead(found: seq<Path>, todo: seq<Path>)
    requires todo != []
    ensures found + todo == found + [todo[0]] + todo[1..]
    ensures forall f :: f in found + [todo[0]] <==> f in found || f == todo[0]
  {
  }

  lemma TodoIsValid(c: Config, run: Run)
    requires ValidConfig(c) && Shape(c, run)
    ensures forall f :: f in run.todo || f in run.found ==>
                          ValidPath(f) && f in c.files[run.manager.root]
  {
    KeepElements(c.files[run.manager.root], run.resumedFrom);
    forall f | f in run.todo || f in run.found ensures f in c.files[run.manager.root] {
      assert f in run.found + run.todo;
    }
  }

  lemma FinishKeepsShape(c: Config, run: Run, file: Path)
    requires Shape(c, run) && file in run.open
    ensures var unfinished := SetErase(run.manager.unfinished, Join(file));
            Shape(c, run.(open := run.open - {file}, done := run.done + {file},
                          manager := run.manager.(unfinished := unfinished,
                            next := if unfinished == [] then run.manager.next else unfinished[0])))
  {
    MirrorsErase(run.manager.unfinished, run.open, file);
  }

  lemma FinishKeepsInv(c: Config, w: World, file: Path, io: WriteOutcome)
    requires ValidConfig(c) && AllTolerant(c) && Inv(c, w)
    requires w.run.Some? && file in w.run.value.open
    ensures Inv(c, Step(c, w, Finish(file, io)))
  {
    var run, w' := w.run.value, Step(c, w, Finish(file, io));
    FinishKeepsShape(c, run, file);
    var run' := w'.run.value;
    assert Shape(c, run') && SkippedAreDone(c, run');
    if w'.disk != w.disk {
      if run'.manager.unfinished == [] {
        CompletedIsSafe(c, run', io.kept);
      } else {
        RunningIsSafe(c, run', io.kept);
      }
    }
  }

  lemma EndDiscoveryKeepsInv(c: Config, w: World, io: WriteOutcome)
    requires ValidConfig(c) && AllTolerant(c) && Inv(c, w)
    requires w.run.Some? && w.run.value.todo == [] && !w.run.value.manager.discoveryFinished
    ensures Inv(c, Step(c, w, EndDiscovery(io)))
  {
    var w' := Step(c, w, EndDiscovery(io));
    var run' := w'.run.value;
    assert Shape(c, run') && SkippedAreDone(c, run');
    if w'.disk != w.disk {
      if run'.manager.unfinished == [] {
        CompletedIsSafe(c, run', io.kept);
      } else {
        RunningIsSafe(c, run', io.kept);
      }
    }
  }

  lemma StepKeepsInv(c: Config, w: World, e: Event)
    requires ValidConfig(c) && AllTolerant(c) && Inv(c, w)
    ensures Inv(c, Step(c, w, e))
  {
    match e
    case Start(root, io) =>
      if w.run.None? && root in c.files { StartKeepsInv(c, w, root, io); }
    case Discover =>
      if w.run.Some? && w.run.value.todo != [] {
        TodoIsValid(c, w.run.value);
        DiscoverKeepsShape(c, w.run.value);
      }
    case Finish(file, io) =>
      if w.run.Some? && file in w.run.value.open { FinishKeepsInv(c, w, file, io); }
    case EndDiscovery(io) =>
      if w.run.Some? && w.run.value.todo == [] && !w.run.value.manager.discoveryFinished {
        EndDiscoveryKeepsInv(c, w, io);
      }
    case Stop =>
  }

  lemma {:induction false} ExecuteKeepsInv(c: Config, w: World, events: seq<Event>)
    requires ValidConfig(c) && AllTolerant(c) && Inv(c, w)
    ensures Inv(c, Execute(c, w, events))
    decreases |events|
  {
    if events == [] {
    } else {
      StepKeepsInv(c, w, events[0]);
      ExecuteKeepsInv(c, Step(c, w, events[0]), events[1..]);
    }
  }

  // ----- when the checkpoint changes -----

  lemma StepKeepsShape(c: Config, w: World, e: Event)
    requires ValidConfig(c) && (w.run.Some? ==> Shape(c, w.run.value))
    ensures Step(c, w, e).run.Some? ==> Shape(c, Step(c, w, e).run.value)
  {
    match e
    case Start(root, io) =>
      if w.run.None? && root in c.files { StartShapes(c, w, root, io); }
    case Discover =>
      if w.run.Some? && w.run.value.todo != [] {
        TodoIsValid(c, w.run.value);
        DiscoverKeepsShape(c, w.run.value);
      }
    case Finish(file, io) =>
      if w.run.Some? && file in w.run.value.open { FinishShapes(c, w, file, io); }
    case EndDiscovery(io) =>
      if w.run.Some? && w.run.value.todo == [] && !w.run.value.manager.discoveryFinished {
        DiscoveryFinishedIsExact(w.run.value.manager, w.disk, io);
      }
    case Stop =>
  }

  lemma StartShapes(c: Config, w: World, root: Bytes, io: WriteOutcome)
    requires ValidConfig(c) && w.run.None? && root in c.files
    ensures Shape(c, Step(c, w, Start(root, io)).run.value)
  {
    var run := Step(c, w, Start(root, io)).run.value;
    assert [] + run.todo == run.todo;
  }

  lemma FinishShapes(c: Config, w: World, file: Path, io: WriteOutcome)
    requires w.run.Some? && Shape(c, w.run.value) && file in w.run.value.open
    ensures Shape(c, Step(c, w, Finish(file, io)).run.value)
  {
    FinishKeepsShape(c, w.run.value, file);
  }

  lemma {:induction false} ExecuteKeepsShape(c: Config, w: World, events: seq<Event>)
    requires ValidConfig(c) && (w.run.Some? ==> Shape(c, w.run.value))
    ensures Execute(c, w, events).run.Some? ==> Shape(c, Execute(c, w, events).run.value)
    decreases |events|
  {
    if events == [] {
    } else {
      StepKeepsShape(c, w, events[0]);
      ExecuteKeepsShape(c, Step(c, w, events[0]), events[1..]);
    }
  }

  /** The file of a set whose text is least. */
  ghost predicate LeastIn(open: set<Path>, f: Path) {
    f in open && forall g :: g in open ==> AtMost(Join(f), Join(g))
  }

  lemma LeastMirrors(unfinished: seq<Bytes>, open: set<Path>, next: Bytes)
    requires Mirrors(unfinished, open) && next in unfinished && forall t :: t in unfinished ==> AtMost(next, t)
    ensures exists f :: LeastIn(open, f) && Join(f) == next
  {
    var f :| f in open && Join(f) == next;
    assert LeastIn(open, f);
  }

  /** A completion that leaves no file in the set: only after discovery is anything written. */
  lemma LastCompletionWrites(c: Config, w: World, file: Path, io: WriteOutcome)
    requires ValidConfig(c) && w.run.Some? && Shape(c, w.run.value) && w.run.value.open == {file}
    ensures var run, w' := w.run.value, Step(c, w, Finish(file, io));
            && w'.run.Some?
            && (!run.manager.discoveryFinished ==>
                  && w'.disk == w.disk && w'.credit == w.credit
                  && w'.run.value.manager == run.manager.(unfinished := []))
            && (run.manager.discoveryFinished ==>
                  w'.disk == Attempt(w.disk, run.manager.root, COMPLETED, [], io))
  {
    CompletionIsExact(c.interval, w.run.value.manager, w.disk, Join(file), io);
    MirrorsErase(w.run.value.manager.unfinished, w.run.value.open, file);
    assert w.run.value.open - {file} == {};
    EmptyMirror(SetErase(w.run.value.manager.unfinished, Join(file)), {});
  }

  /** A completion is what the manager makes of it. */
  lemma FinishTellsManager(c: Config, w: World, file: Path, io: WriteOutcome)
    requires w.run.Some? && file in w.run.value.open
    ensures var w' := Step(c, w, Finish(file, io));
            var e := FileCompleted(c.interval, w.run.value.manager, w.disk, Join(file), io);
            && w'.run.Some? && w'.run.value.manager == e.manager && w'.disk == e.disk
            && w'.run.value.open == w.run.value.open - {file}
  {
  }

  /** A completion that leaves files writes at the interval, and then the least of them. */
  lemma OtherCompletionWrites(c: Config, w: World, file: Path, io: WriteOutcome)
    requires ValidConfig(c) && w.run.Some? && Shape(c, w.run.value)
    requires file in w.run.value.open && w.run.value.open != {file}
    ensures var run, w' := w.run.value, Step(c, w, Finish(file, io));
            && w'.run.Some?
            && var due := run.manager.sinceLastSave + 1 >= c.interval;
            && w'.run.value.manager.sinceLastSave ==
               (if due && io.Written? then 0 else run.manager.sinceLastSave + 1)
            && (!due ==> w'.disk == w.disk)
            && (due ==> exists f :: LeastIn(run.open - {file}, f) &&
                                    w'.disk == Attempt(w.disk, run.manager.root, RUNNING, Join(f), io))
  {
    var run := w.run.value;
    FinishTellsManager(c, w, file, io);
    CompletionIsExact(c.interval, run.manager, w.disk, Join(file), io);
    ErasedMirrors(c.interval, run.manager, w.disk, run.open, file, io);
    var left := FileCompleted(c.interval, run.manager, w.disk, Join(file), io).manager;
    LeastMirrors(left.unfinished, run.open - {file}, left.next);
  }

  lemma ErasedMirrors(interval: nat, m: Manager, disk: Option<Bytes>, open: set<Path>, file: Path, io: WriteOutcome)
    requires Mirrors(m.unfinished, open) && file in open
    ensures var left := FileCompleted(interval, m, disk, Join(file), io).manager.unfinished;
            Mirrors(left, open - {file}) && (left == [] <==> open == {file})
  {
    MirrorsErase(m.unfinished, open, file);
    EmptyMirror(SetErase(m.unfinished, Join(file)), open - {file});
    assert open - {file} == {} <==> open == {file};
  }

  /** The end of discovery writes: completed, or the least open file. */
  lemma EndOfDiscoveryWrites(c: Config, w: World, io: WriteOutcome)
    requires ValidConfig(c) && w.run.Some? && Shape(c, w.run.value)
    requires w.run.value.todo == [] && !w.run.value.manager.discoveryFinished
    ensures var run, w' := w.run.value, Step(c, w, EndDiscovery(io));
            && (run.open == {} ==> w'.disk == Attempt(w.disk, run.manager.root, COMPLETED, [], io))
            && (run.open != {} ==>
                  exists f :: LeastIn(run.open, f) &&
                              w'.disk == Attempt(w.disk, run.manager.root, RUNNING, Join(f), io))
  {
    var run := w.run.value;
    DiscoveryFinishedIsExact(run.manager, w.disk, io);
    EmptyMirror(run.manager.unfinished, run.open);
    if run.open != {} {
      var least := LeastOpen(c, run);
      assert LeastIn(run.open, least);
    }
  }

  /** The completions among these events that leave other files open. */
  function LeavingFiles(c: Config, w: World, events: seq<Event>): nat
    decreases |events|
  {
    if events == [] then 0
    else
      var e := events[0];
      LeavingFiles(c, Step(c, w, e), events[1..]) +
      if e.Finish? && w.run.Some? && e.file in w.run.value.open && w.run.value.open != {e.file} then 1 else 0
  }

  /**
   * Within a run and before the end of discovery, nothing is written until the interval-th
   * completion that leaves files, counted from the last save; OtherCompletionWrites says what
   * is written then.
   */
  lemma {:induction false} NothingWrittenBeforeInterval(c: Config, w: World, events: seq<Event>)
    requires ValidConfig(c) && w.run.Some? && Shape(c, w.run.value) && !w.run.value.manager.discoveryFinished
    requires forall i :: 0 <= i < |events| ==> events[i].Discover? || events[i].Finish?
    requires w.run.value.manager.sinceLastSave + LeavingFiles(c, w, events) < c.interval
    ensures var w' := Execute(c, w, events);
            && w'.disk == w.disk && w'.credit == w.credit && w'.run.Some?
            && w'.run.value.manager.sinceLastSave == w.run.value.manager.sinceLastSave + LeavingFiles(c, w, events)
    decreases |events|
  {
    if events == [] {
    } else {
      var e := events[0];
      StepKeepsShape(c, w, e);
      if e.Finish? && e.file in w.run.value.open {
        if w.run.value.open == {e.file} {
          LastCompletionWrites(c, w, e.file, e.io);
        } else {
          OtherCompletionWrites(c, w, e.file, e.io);
        }
      }
      NothingWrittenBeforeInterval(c, Step(c, w, e), events[1..]);
    }
  }

  /** A text that names as completed or running this root and, if running, this next file. */
  ghost predicate Names(c: Config, disk: Option<Bytes>, before: Option<Bytes>, root: Bytes, from: Path,
                        io: WriteOutcome)
  {
    || disk == Attempt(before, root, COMPLETED, [], io)
    || exists f :: root in c.files && f in c.files[root] && !Before(f, from) &&
                   disk == Attempt(before, root, RUNNING, Join(f), io)
  }

  /**
   * Over every execution: discoveries and stops leave the checkpoint alone, a start writes
   * only when it does not resume, and all that a run writes is that it is completed or a next
   * file that its walk has handed over, so none before the path it resumed from.
   */
  lemma CheckpointNeverGoesBack(c: Config, events: seq<Event>, e: Event)
    requires ValidConfig(c)
    ensures var w := Execute(c, FIRST_START, events);
            var w' := Step(c, w, e);
            && (e.Discover? || e.Stop? ==> w'.disk == w.disk)
            && (e.Start? ==> w'.disk == w.disk ||
                             (w'.run.Some? && w'.run.value.resumedFrom == [] &&
                              w'.disk == Attempt(w.disk, e.root, RUNNING, [], e.io)))
            && (e.Finish? || e.EndDiscovery? ==>
                  w'.disk == w.disk ||
                  (w.run.Some? && Names(c, w'.disk, w.disk, w.run.value.manager.root, w.run.value.resumedFrom, e.io)))
  {
    var w := Execute(c, FIRST_START, events);
    ExecuteKeepsShape(c, FIRST_START, events);
    if e.Start? {
      BeginIsExact(Manager([], [], [], false, 0), w.disk, e.root, e.io);
    } else if e.Finish? && w.run.Some? && e.file in w.run.value.open {
      OpenIsNotBefore(c, w.run.value);
      if w.run.value.open == {e.file} {
        LastCompletionWrites(c, w, e.file, e.io);
      } else {
        OtherCompletionWrites(c, w, e.file, e.io);
      }
    } else if e.EndDiscovery? && w.run.Some? && w.run.value.todo == [] && !w.run.value.manager.discoveryFinished {
      OpenIsNotBefore(c, w.run.value);
      EndOfDiscoveryWrites(c, w, e.io);
    }
  }

  lemma OpenIsNotBefore(c: Config, run: Run)
    requires ValidConfig(c) && Shape(c, run)
    ensures forall f :: f in run.open ==> f in c.files[run.manager.root] && !Before(f, run.resumedFrom)
  {
    KeepElements(c.files[run.manager.root], run.resumedFrom);
    forall f | f in run.open ensures f in c.files[run.manager.root] && !Before(f, run.resumedFrom) {
      assert f in run.found + run.todo;
    }
  }

  /** Read back, a running checkpoint that has arrived in full is at that file or behind it. */
  lemma ReadBackIsNotBefore(root: Bytes, f: Path, from: Path)
    requires OneLine(root) && ValidPath(f) && OneLine(Join(f)) && !Before(f, from)
    ensures var loaded := Load(Text(Record(root, RUNNING, Join(f))));
            loaded == Some(Record(root, RUNNING, Join(f))) && !Before(Split(loaded.value.next), from)
  {
    StatusWords();
    LoadOfSave(Record(root, RUNNING, Join(f)));
    FirstLineIsPrefix(Join(f));
    SplitJoin(f);
  }

  // ----- the condition is necessary: a run that loses a file -----

  /** Reports that everything is completed while some file of the site is not. */
  ghost predicate FalselyCompleted(c: Config, w: World) {
    && w.disk.Some? && Load(w.disk.value).Some?
    && var r := Load(w.disk.value).value;
    r.root in c.files && r.status == COMPLETED && exists p :: p in c.files[r.root] && p !in w.credit
  }

  lemma {:induction false} ExecuteConcat(c: Config, w: World, x: seq<Event>, y: seq<Event>)
    ensures Execute(c, w, x + y) == Execute(c, Execute(c, w, x), y)
    decreases |x|
  {
    if x == [] {
      assert x + y == y;
    } else {
      assert (x + y)[1..] == x[1..] + y;
      ExecuteConcat(c, Step(c, w, x[0]), x[1..], y);
    }
  }

  /** A run that has not announced the end of discovery. */
  ghost predicate Discovering(c: Config, w: World, root: Bytes) {
    && w.run.Some? && Shape(c, w.run.value)
    && w.run.value.manager.root == root && !w.run.value.manager.discoveryFinished
  }

  /** A write that succeeds and arrives in full, whatever there is to write. */
  ghost predicate Ample(c: Config, io: WriteOutcome) {
    io.Written? && forall r :: r in c.files ==> AmpleFor(r, c.files[r], io.kept)
  }

  ghost predicate AmpleFor(root: Bytes, files: seq<Path>, kept: nat) {
    && |Text(Record(root, COMPLETED, []))| <= kept
    && forall f :: f in files ==> |Text(Record(root, COMPLETED, Join(f)))| <= kept
  }

  predicate Writes(e: Event) {
    e.Start? || e.Finish? || e.EndDiscovery?
  }

  /** No write fails or is cut short. */
  ghost predicate Smooth(c: Config, events: seq<Event>) {
    forall i :: 0 <= i < |events| && Writes(events[i]) ==> Ample(c, events[i].io)
  }

  /** How often a process stops. */
  function Stops(events: seq<Event>): nat {
    if events == [] then 0 else (if events[0].Stop? then 1 else 0) + Stops(events[1..])
  }

  lemma {:induction false} StopsConcat(x: seq<Event>, y: seq<Event>)
    ensures Stops(x + y) == Stops(x) + Stops(y)
  {
    if x == [] {
      assert x + y == y;
    } else {
      assert (x + y)[1..] == x[1..] + y;
      StopsConcat(x[1..], y);
    }
  }

  /** Smooth events in which no process stops. */
  ghost predicate Calm(c: Config, events: seq<Event>) {
    Smooth(c, events) && Stops(events) == 0
  }

  /** One part of an execution after another, with what is asked of their events. */
  lemma Chain(c: Config, w: World, x: seq<Event>, y: seq<Event>)
    requires Calm(c, x) && Smooth(c, y)
    ensures Execute(c, w, x + y) == Execute(c, Execute(c, w, x), y)
    ensures Smooth(c, x + y) && Stops(x + y) == Stops(y)
  {
    StopsConcat(x, y);
    ExecuteConcat(c, w, x, y);
  }

  lemma CalmOne(c: Config, w: World, e: Event)
    requires !e.Stop? && (Writes(e) ==> Ample(c, e.io))
    ensures Calm(c, [e]) && Execute(c, w, [e]) == Step(c, w, e)
  {
    assert [e][1..] == [];
  }

  lemma {:induction false} RoomForFiles(root: Bytes, files: seq<Path>) returns (kept: nat)
    ensures AmpleFor(root, files, kept)
  {
    if files == [] {
      kept := |Text(Record(root, COMPLETED, []))|;
    } else {
      var rest := RoomForFiles(root, files[1..]);
      kept := rest + |Text(Record(root, COMPLETED, Join(files[0])))|;
    }
  }

  lemma {:induction false} RoomForAll(files: map<Bytes, seq<Path>>, roots: set<Bytes>) returns (kept: nat)
    requires roots <= files.Keys
    ensures forall r :: r in roots ==> AmpleFor(r, files[r], kept)
    decreases roots
  {
    if roots == {} {
      kept := 0;
    } else {
      var r :| r in roots;
      var rest := RoomForAll(files, roots - {r});
      var here := RoomForFiles(r, files[r]);
      kept := rest + here;
    }
  }

  lemma AmpleExists(c: Config) returns (io: WriteOutcome)
    ensures Ample(c, io)
  {
    var kept := RoomForAll(c.files, c.files.Keys);
    io := Written(kept);
  }

  lemma {:induction false} DiscoverAll(c: Config, w: World, root: Bytes) returns (events: seq<Event>)
    requires ValidConfig(c) && Discovering(c, w, root)
    ensures Calm(c, events)
    ensures var w' := Execute(c, w, events);
            && Discovering(c, w', root) && w'.credit == w.credit
            && var run, run' := w.run.value, w'.run.value;
            && run'.todo == [] && run'.found == run.found + run.todo && run'.done == run.done
            && forall f :: f in run'.open <==> f in run.open || f in run.todo
    decreases |w.run.value.todo|
  {
    var run := w.run.value;
    if run.todo == [] {
      events := [];
      assert run.found + run.todo == run.found;
    } else {
      TodoIsValid(c, run);
      DiscoverKeepsShape(c, run);
      var next := Step(c, w, Discover);
      var rest := DiscoverAll(c, next, root);
      events := [Discover] + rest;
      CalmOne(c, w, Discover);
      Chain(c, w, [Discover], rest);
      assert run.found + [run.todo[0]] + run.todo[1..] == run.found + run.todo;
    }
  }

  /** A completion before the end of discovery; what it may write stands for files done by then. */
  lemma FinishOne(c: Config, w: World, root: Bytes, file: Path, io: WriteOutcome)
    requires ValidConfig(c) && Discovering(c, w, root) && file in w.run.value.open
    ensures var w' := Step(c, w, Finish(file, io));
            && Discovering(c, w', root)
            && (w'.credit == w.credit || w'.credit == w'.run.value.done)
            && var run, run' := w.run.value, w'.run.value;
            && run'.todo == run.todo && run'.open == run.open - {file} && run'.done == run.done + {file}
  {
    FinishKeepsShape(c, w.run.value, file);
  }

  /** Completes every listed file that is open and not to be kept. */
  lemma {:induction false} FinishAllBut(c: Config, w: World, root: Bytes, files: seq<Path>, kept: set<Path>,
                                        io: WriteOutcome)
    returns (events: seq<Event>)
    requires ValidConfig(c) && Discovering(c, w, root) && Ample(c, io)
    ensures Calm(c, events)
    ensures var w' := Execute(c, w, events);
            && Discovering(c, w', root)
            && var run, run' := w.run.value, w'.run.value;
            && run'.todo == run.todo
            && run'.open <= run.open && (forall f :: f in run.open && f in kept ==> f in run'.open)
            && (forall f :: f in files && f in run'.open ==> f in kept)
            && (forall f :: f in run'.done || f in w'.credit ==>
                              f in run.done || f in w.credit || (f in run.open && f !in kept))
    decreases |files|
  {
    var run := w.run.value;
    if files == [] {
      events := [];
    } else if files[0] in run.open && files[0] !in kept {
      var e := Finish(files[0], io);
      FinishOne(c, w, root, files[0], io);
      var rest := FinishAllBut(c, Step(c, w, e), root, files[1..], kept, io);
      events := [e] + rest;
      CalmOne(c, w, e);
      Chain(c, w, [e], rest);
    } else {
      events := FinishAllBut(c, w, root, files[1..], kept, io);
    }
  }

  /** Discovers everything, then completes all files but the kept ones. */
  lemma Drive(c: Config, w: World, root: Bytes, kept: set<Path>, io: WriteOutcome) returns (events: seq<Event>)
    requires ValidConfig(c) && Discovering(c, w, root) && w.run.value.open == {} && Ample(c, io)
    ensures Calm(c, events)
    ensures var w' := Execute(c, w, events);
            && Discovering(c, w', root)
            && var run, run' := w.run.value, w'.run.value;
            && run'.todo == []
            && (forall f :: f in run'.open <==> f in run.todo && f in kept)
            && (forall f :: f in run'.done || f in w'.credit ==>
                              f in run.done || f in w.credit || (f in run.todo && f !in kept))
  {
    var discover := DiscoverAll(c, w, root);
    var w2 := Execute(c, w, discover);
    var finish := FinishAllBut(c, w2, root, w.run.value.todo, kept, io);
    events := discover + finish;
    Chain(c, w, discover, finish);
  }

  lemma StartDiscovering(c: Config, w: World, root: Bytes, io: WriteOutcome)
    requires ValidConfig(c) && root in c.files && w.run.None?
    ensures var w' := Step(c, w, Start(root, io));
            && Discovering(c, w', root)
            && var run := w'.run.value;
            && run.open == {} && (forall f :: f in w'.credit ==> f in w.credit)
            && (Resumable(w.disk, root).Some? ==>
                  run.done == w.credit && run.todo == Keep(c.files[root], Split(Resumable(w.disk, root).value)))
            && (Resumable(w.disk, root).None? ==> run.done == {} && run.todo == c.files[root])
  {
    var run := Step(c, w, Start(root, io)).run.value;
    assert [] + run.todo == run.todo;
    if Resumable(w.disk, root).None? { KeepAll(c.files[root], []); }
  }

  /** A scan of the root from its checkpoint on, all completed but the kept files. */
  lemma StartAndDrive(c: Config, w: World, root: Bytes, kept: set<Path>, io: WriteOutcome)
    returns (events: seq<Event>)
    requires ValidConfig(c) && root in c.files && w.run.None? && Ample(c, io)
    ensures Calm(c, events)
    ensures var w' := Execute(c, w, events);
            && Discovering(c, w', root)
            && var run', resumable := w'.run.value, Resumable(w.disk, root);
            && var todo := if resumable.Some? then Keep(c.files[root], Split(resumable.value)) else c.files[root];
            && run'.todo == [] && (forall f :: f in run'.open <==> f in todo && f in kept)
            && (forall f :: f in run'.done || f in w'.credit ==> f in w.credit || (f in todo && f !in kept))
  {
    StartDiscovering(c, w, root, io);
    var start := Start(root, io);
    var drive := Drive(c, Step(c, w, start), root, kept, io);
    events := [start] + drive;
    CalmOne(c, w, start);
    Chain(c, w, [start], drive);
  }

  /** A fresh scan, stopped with only f and g unfinished: the checkpoint names g. */
  lemma LoseOne(c: Config, root: Bytes, f: Path, g: Path, io: WriteOutcome) returns (events: seq<Event>)
    requires ValidConfig(c) && root in c.files && OneLine(root) && Ample(c, io)
    requires f in c.files[root] && g in c.files[root] && Less(Join(g), Join(f))
    ensures Smooth(c, events) && Stops(events) == 1
    ensures var w := Execute(c, FIRST_START, events);
            && w.run.None? && f !in w.credit && w.disk.Some?
            && Load(w.disk.value) == Some(Record(root, RUNNING, FirstLine(Join(g))))
  {
    var drive := StartAndDrive(c, FIRST_START, root, {f, g}, io);
    var w := Execute(c, FIRST_START, drive);
    TwoLeft(c, w, root, f, g);
    var last := SaveAndStop(c, w, root, g, io);
    events := drive + last;
    Chain(c, FIRST_START, drive, last);
  }

  lemma TwoLeft(c: Config, w: World, root: Bytes, f: Path, g: Path)
    requires ValidConfig(c) && Discovering(c, w, root)
    requires f in w.run.value.open && g in w.run.value.open && w.run.value.open <= {f, g}
    requires Less(Join(g), Join(f))
    ensures w.run.value.manager.unfinished != [] && w.run.value.manager.next == Join(g)
  {
    LessAsymmetric(Join(g), Join(f));
    assert Join(g) in w.run.value.manager.unfinished;
    var least := LeastOpen(c, w.run.value);
  }

  lemma SaveAndStop(c: Config, w: World, root: Bytes, g: Path, io: WriteOutcome) returns (events: seq<Event>)
    requires ValidConfig(c) && OneLine(root) && Discovering(c, w, root) && w.run.value.todo == [] && Ample(c, io)
    requires w.run.value.manager.unfinished != [] && w.run.value.manager.next == Join(g) && g in c.files[root]
    ensures Smooth(c, events) && Stops(events) == 1
    ensures var w' := Execute(c, w, events);
            && w'.run.None? && (w'.credit == w.credit || w'.credit == w.run.value.done) && w'.disk.Some?
            && Load(w'.disk.value) == Some(Record(root, RUNNING, FirstLine(Join(g))))
  {
    var r := Record(root, RUNNING, Join(g));
    StatusWords();
    LoadOfSave(r);
    assert AmpleFor(root, c.files[root], io.kept) && |Text(r)| <= |Text(Record(root, COMPLETED, Join(g)))|;
    events := [EndDiscovery(io), Stop];
    var w1 := Step(c, w, events[0]);
    assert w1.disk == Some(Text(r));
    assert events[1..] == [Stop] && [Stop][1..] == [];
    assert Execute(c, w1, [Stop]) == Step(c, w1, Stop);
  }

  /** The next scan of that root resumes, finishes everything it finds, and reports success. */
  lemma ReportSuccess(c: Config, w: World, root: Bytes, f: Path, next: Bytes, io: WriteOutcome)
    returns (events: seq<Event>)
    requires ValidConfig(c) && root in c.files && OneLine(root) && w.run.None? && w.disk.Some? && Ample(c, io)
    requires Load(w.disk.value) == Some(Record(root, RUNNING, next))
    requires f in c.files[root] && Before(f, Split(next)) && f !in w.credit
    ensures Calm(c, events)
    ensures FalselyCompleted(c, Execute(c, w, events))
  {
    KeepElements(c.files[root], Split(next));
    var drive := StartAndDrive(c, w, root, {}, io);
    var w2 := Execute(c, w, drive);
    EmptyMirror(w2.run.value.manager.unfinished, w2.run.value.open);
    SaveCompleted(c, w2, root, io);
    var end := EndDiscovery(io);
    events := drive + [end];
    CalmOne(c, w2, end);
    Chain(c, w, drive, [end]);
  }

  lemma SaveCompleted(c: Config, w: World, root: Bytes, io: WriteOutcome)
    requires ValidConfig(c) && OneLine(root) && Discovering(c, w, root) && w.run.value.todo == [] && Ample(c, io)
    requires w.run.value.manager.unfinished == []
    ensures var w' := Step(c, w, EndDiscovery(io));
            && (w'.credit == w.credit || w'.credit == w.run.value.done) && w'.disk.Some?
            && Load(w'.disk.value) == Some(Record(root, COMPLETED, []))
  {
    var r := Record(root, COMPLETED, []);
    StatusWords();
    LoadOfSave(r);
    assert AmpleFor(root, c.files[root], io.kept);
    assert Step(c, w, EndDiscovery(io)).disk == Some(Text(r));
  }

  // ----- the results -----

  ghost predicate SafeWorld(c: Config, w: World) {
    Safe(c, w.disk, w.credit)
  }

  lemma TolerantIsSafe(c: Config, events: seq<Event>)
    requires ValidConfig(c) && AllTolerant(c)
    ensures SafeWorld(c, Execute(c, FIRST_START, events))
    ensures !FalselyCompleted(c, Execute(c, FIRST_START, events))
  {
    ExecuteKeepsInv(c, FIRST_START, events);
  }

  /**
   * Over any number of runs, completions in any order, failing and torn writes and stops at
   * any step: a resume skips only completed files and "completed" means all files, exactly
   * when the order of the site's names allows it. Where it does not, one stop is enough to
   * lose a file, with every write arriving in full.
   */
  lemma ResumeIsSafeIff(c: Config)
    requires ValidConfig(c)
    ensures AllTolerant(c) <==> forall events: seq<Event> :: SafeWorld(c, Execute(c, FIRST_START, events))
    ensures AllTolerant(c) <==> forall events: seq<Event> :: !FalselyCompleted(c, Execute(c, FIRST_START, events))
    ensures AllTolerant(c) <==>
              forall events: seq<Event> ::
                Smooth(c, events) && Stops(events) <= 1 ==> !FalselyCompleted(c, Execute(c, FIRST_START, events))
  {
    if AllTolerant(c) {
      forall events: seq<Event>
        ensures SafeWorld(c, Execute(c, FIRST_START, events))
        ensures !FalselyCompleted(c, Execute(c, FIRST_START, events))
      {
        TolerantIsSafe(c, events);
      }
    } else {
      var events := Unsafe(c);
      StatusWords();
      assert !SafeWorld(c, Execute(c, FIRST_START, events));
    }
  }

  lemma Unsafe(c: Config) returns (events: seq<Event>)
    requires ValidConfig(c) && !AllTolerant(c)
    ensures Smooth(c, events) && Stops(events) == 1
    ensures FalselyCompleted(c, Execute(c, FIRST_START, events))
  {
    var root :| root in c.files && OneLine(root) && !OrderTolerant(c.files[root]);
    var f, g :| f in c.files[root] && g in c.files[root] && Less(Join(g), Join(f)) && Before(f, ResumePoint(g));
    events := UnsafeFor(c, root, f, g);
  }

  /** Two files that the text order swaps, and a resume point of the smaller text behind the other. */
  lemma UnsafeFor(c: Config, root: Bytes, f: Path, g: Path) returns (events: seq<Event>)
    requires ValidConfig(c) && root in c.files && OneLine(root) && f in c.files[root] && g in c.files[root]
    requires Less(Join(g), Join(f)) && Before(f, ResumePoint(g))
    ensures Smooth(c, events) && Stops(events) == 1
    ensures FalselyCompleted(c, Execute(c, FIRST_START, events))
  {
    var io := AmpleExists(c);
    var lose := LoseOne(c, root, f, g, io);
    var report := ReportSuccess(c, Execute(c, FIRST_START, lose), root, f, FirstLine(Join(g)), io);
    events := lose + report;
    SmoothConcat(c, lose, report);
    StopsConcat(lose, report);
    ExecuteConcat(c, FIRST_START, lose, report);
  }

  lemma SmoothConcat(c: Config, x: seq<Event>, y: seq<Event>)
    requires Smooth(c, x) && Smooth(c, y)
    ensures Smooth(c, x + y)
  {
  }
}
