// The resume protocol on real trees, and its condition in terms of file names.
module ResumeTheorems {
  import opened ByteStrings
  import OrderedBytes
  import opened Paths
  import opened FileTrees
  import opened WalkOrder
  import opened Exclusion
  import opened Checkpoint
  import opened ResumeManagement
  import opened ResumeProtocol

  datatype Site = Site(root: Path, tree: Entry)

  /** The protocol's surroundings: what a walk of each root hands over from the start. */
  function ConfigOf(sites: map<Bytes, Site>, excluded: set<Bytes>, interval: nat): Config {
    Config(map r | r in sites :: Delivered(excluded, sites[r].root, sites[r].tree, []), interval)
  }

  /** Each site stands under the text of its root. */
  ghost predicate ValidSites(sites: map<Bytes, Site>) {
    forall r :: r in sites ==>
      && ValidPath(sites[r].root) && Absolute(sites[r].root) == r
      && ValidTree(sites[r].tree) && (Misleading(r) ==> FirstLine(r) !in sites)
  }

  lemma DeliveredIsValid(excluded: set<Bytes>, root: Path, tree: Entry)
    requires ValidTree(tree)
    ensures Ascending(Delivered(excluded, root, tree, []))
    ensures forall p :: p in Delivered(excluded, root, tree, []) ==> ValidPath(p) && p != []
  {
    if !RootInsideExcluded(excluded, root) { FilesAscend(excluded, root, tree); }
  }

  lemma ConfigIsValid(sites: map<Bytes, Site>, excluded: set<Bytes>, interval: nat)
    requires ValidSites(sites) && interval > 0
    ensures ValidConfig(ConfigOf(sites, excluded, interval))
  {
    forall r | r in sites
      ensures Ascending(Delivered(excluded, sites[r].root, sites[r].tree, []))
      ensures forall p :: p in Delivered(excluded, sites[r].root, sites[r].tree, []) ==> ValidPath(p)
    {
      DeliveredIsValid(excluded, sites[r].root, sites[r].tree);
    }
  }

  /** From any checkpoint the walker hands over what the full walk does, less what is before it. */
  lemma DeliveredIsFiltered(excluded: set<Bytes>, root: Path, tree: Entry, checkpoint: Path)
    ensures Delivered(excluded, root, tree, checkpoint) == Keep(Delivered(excluded, root, tree, []), checkpoint)
  {
    if !RootInsideExcluded(excluded, root) { ResumedIsFiltered(excluded, root, tree, checkpoint); }
  }

  /** What a run of the protocol sets out to visit is what the walker hands over. */
  lemma StartWalksTheTree(sites: map<Bytes, Site>, excluded: set<Bytes>, interval: nat, w: World, root: Bytes,
                          io: WriteOutcome)
    requires root in sites && w.run.None?
    ensures var run := Step(ConfigOf(sites, excluded, interval), w, Start(root, io)).run.value;
            run.todo == Delivered(excluded, sites[root].root, sites[root].tree, run.resumedFrom)
  {
    var run := Step(ConfigOf(sites, excluded, interval), w, Start(root, io)).run.value;
    DeliveredIsFiltered(excluded, sites[root].root, sites[root].tree, run.resumedFrom);
  }

  // ----- the condition on names -----

  ghost predicate ClashFree(files: seq<Path>) {
    forall p, q :: p in files && q in files ==> !Clash(p, q)
  }

  lemma ClashFreeIsTolerant(files: seq<Path>)
    requires forall p :: p in files ==> ValidPath(p)
    requires ClashFree(files)
    ensures OrderTolerant(files)
  {
    forall f, g | f in files && g in files && Less(Join(g), Join(f)) ensures !Before(f, ResumePoint(g)) {
      if Before(f, ResumePoint(g)) {
        ResumePointIsEarlier(f, g);
        OrdersDisagreeIffClash(f, g);
      }
    }
  }

  /** Without clashes the set's first element is the earliest unfinished file of the walk. */
  lemma LeastIsEarliest(files: seq<Path>, unfinished: seq<Bytes>, open: set<Path>, k: nat)
    requires Ascending(files) && (forall p :: p in files ==> ValidPath(p)) && ClashFree(files)
    requires Mirrors(unfinished, open) && forall f :: f in open ==> f in files
    requires k < |files| && files[k] in open && forall i :: 0 <= i < k ==> files[i] !in open
    ensures unfinished != [] && unfinished[0] == Join(files[k])
  {
    var earliest := files[k];
    assert Join(earliest) in unfinished && unfinished[0] in unfinished;
    var least: Path :| least in open && Join(least) == unfinished[0];
    if least != earliest {
      var i :| 0 <= i < |files| && files[i] == least;
      assert k < i;
      OrdersAgree(earliest, least);
      OrderedBytes.FirstIsLeast(unfinished, Join(earliest));
      LessAsymmetric(Join(earliest), Join(least));
      assert false;
    }
  }

  /** The condition is exactly that no clash survives the cut of the text at its first newline. */
  lemma TolerantIffNoClashSurvives(files: seq<Path>)
    requires forall p :: p in files ==> ValidPath(p)
    ensures OrderTolerant(files) <==>
              forall p, q :: p in files && q in files && Clash(p, q) ==> !Before(p, ResumePoint(q))
  {
    forall p, q | p in files && q in files
      ensures Less(Join(q), Join(p)) && Before(p, ResumePoint(q)) <==> Clash(p, q) && Before(p, ResumePoint(q))
    {
      OrdersDisagreeIffClash(p, q);
      if Before(p, ResumePoint(q)) { ResumePointIsEarlier(p, q); }
    }
  }

  /** For file names of one line it is that no two files clash. */
  lemma TolerantIffClashFree(files: seq<Path>)
    requires forall p :: p in files ==> ValidPath(p) && OneLine(Join(p))
    ensures OrderTolerant(files) <==> ClashFree(files)
  {
    if ClashFree(files) {
      ClashFreeIsTolerant(files);
    } else {
      var p, q :| p in files && q in files && Clash(p, q);
      ClashIsUnsafe(p, q);
    }
  }

  /** No name holds a byte below the slash. */
  predicate AboveSlash(p: Path) {
    forall i :: 0 <= i < |p| ==> forall j :: 0 <= j < |p[i]| ==> p[i][j] >= SLASH
  }

  lemma {:induction false} AboveSlashNeverClashes(p: Path, q: Path)
    requires AboveSlash(q)
    ensures !Clash(p, q)
  {
    if p != [] && q != [] && p[0] == q[0] {
      assert AboveSlash(q[1..]) by {
        forall i | 0 <= i < |q[1..]| ensures forall j :: 0 <= j < |q[1..][i]| ==> q[1..][i][j] >= SLASH {
          assert q[1..][i] == q[i + 1];
        }
      }
      AboveSlashNeverClashes(p[1..], q[1..]);
    }
  }

  // ----- the results on trees -----

  /** Names free of bytes below the slash make resuming safe. */
  lemma PlainNamesResumeSafely(sites: map<Bytes, Site>, excluded: set<Bytes>, interval: nat, events: seq<Event>)
    requires ValidSites(sites) && interval > 0
    requires forall r :: r in sites ==>
               forall p :: p in Delivered(excluded, sites[r].root, sites[r].tree, []) ==> AboveSlash(p)
    ensures var c := ConfigOf(sites, excluded, interval);
            SafeWorld(c, Execute(c, FIRST_START, events)) && !FalselyCompleted(c, Execute(c, FIRST_START, events))
  {
    var c := ConfigOf(sites, excluded, interval);
    ConfigIsValid(sites, excluded, interval);
    forall r | r in c.files ensures OrderTolerant(c.files[r]) {
      forall p, q | p in c.files[r] && q in c.files[r] ensures !Clash(p, q) { AboveSlashNeverClashes(p, q); }
      ClashFreeIsTolerant(c.files[r]);
    }
    TolerantIsSafe(c, events);
  }

  /** No name on the way to a delivered file holds a newline. */
  ghost predicate OneLineNames(c: Config) {
    forall r :: r in c.files ==> forall p :: p in c.files[r] ==> OneLine(Join(p))
  }

  ghost predicate NoClashes(c: Config) {
    forall r :: r in c.files && OneLine(r) ==> ClashFree(c.files[r])
  }

  lemma AllTolerantIffNoClashes(c: Config)
    requires ValidConfig(c) && OneLineNames(c)
    ensures AllTolerant(c) <==> NoClashes(c)
  {
    forall r | r in c.files ensures OrderTolerant(c.files[r]) <==> ClashFree(c.files[r]) {
      TolerantIffClashFree(c.files[r]);
    }
  }

  /**
   * For any trees: no scan ever completes falsely iff the files that the walks hand over
   * tolerate the text order; with one-line names, iff no two of them clash. A root inside an
   * excluded path hands over none.
   */
  lemma ScanLosesNoFileIff(sites: map<Bytes, Site>, excluded: set<Bytes>, interval: nat)
    requires ValidSites(sites) && interval > 0
    ensures var c := ConfigOf(sites, excluded, interval);
            && ((forall events: seq<Event> :: !FalselyCompleted(c, Execute(c, FIRST_START, events))) <==>
                AllTolerant(c))
            && (OneLineNames(c) ==> (AllTolerant(c) <==> NoClashes(c)))
  {
    var c := ConfigOf(sites, excluded, interval);
    ConfigIsValid(sites, excluded, interval);
    if OneLineNames(c) { AllTolerantIffNoClashes(c); }
    ResumeIsSafeIff(c);
  }

  // ----- a tree on which a file is lost -----

  const NAME_A: Bytes := [97]                     // "a"
  const NAME_B: Bytes := [98]                     // "b"
  const NAME_A_TXT: Bytes := [97, 46, 116, 120, 116] // "a.txt"
  const HOME: Bytes := [SLASH, 104]               // "/h"

  /** /h holds the directory a with the file b, and the file a.txt. */
  function LossyTree(): Entry {
    Directory(true, [Child(NAME_A_TXT, RegularFile(true)),
                     Child(NAME_A, Directory(true, [Child(NAME_B, RegularFile(true))]))])
  }

  lemma LossyWalk()
    ensures ValidTree(LossyTree())
    ensures Files({}, [[104]], LossyTree()) == [[NAME_A, NAME_B], [NAME_A_TXT]]
  {
    var inner := [Child(NAME_B, RegularFile(true))];
    var dir := Child(NAME_A, Directory(true, inner));
    var text := Child(NAME_A_TXT, RegularFile(true));
    var root: Path := [[104]];
    PrefixSortsFirst(NAME_A, NAME_A_TXT);
    LessAsymmetric(NAME_A, NAME_A_TXT);
    assert [text, dir][1..] == [dir];
    OneEntry(inner[0]);
    OneEntry(dir);
    assert InsertChild([], text) == [text];
    assert InsertChild([dir], text) == [dir, text];
    assert SortChildren([text, dir]) == [dir, text] && [dir, text][1..] == [text] && [text][1..] == [];
    assert [] + [NAME_A] == [NAME_A] && [NAME_A] + [NAME_B] == [NAME_A, NAME_B] && [] + [NAME_A_TXT] == [NAME_A_TXT];
    SingleChild(root, [NAME_A], inner[0]);
    assert WalkDir({}, root, [NAME_A], dir.entry, [], 0) == [[NAME_A, NAME_B]];
    SingleChild(root, [], text);
    assert WalkChild({}, root, [], dir, [], 0) == [[NAME_A, NAME_B]];
    assert WalkChildren({}, root, [], [dir, text], [], 0) == [[NAME_A, NAME_B]] + [[NAME_A_TXT]];
  }

  lemma OneEntry(c: Child)
    requires ValidName(c.name) && ValidTree(c.entry)
    ensures ValidChildren([c]) && SortChildren([c]) == [c]
  {
    assert [c][1..] == [];
    assert ValidChildren([]) && SortChildren([]) == [];
    assert InsertChild([], c) == [c];
  }

  lemma SingleChild(root: Path, rel: Path, c: Child)
    ensures WalkChildren({}, root, rel, [c], [], 0) == WalkChild({}, root, rel, c, [], 0)
  {
    assert [c][1..] == [];
    assert WalkChildren({}, root, rel, [], [], 0) == [];
  }

  lemma NothingExcluded(root: Path)
    ensures !RootInsideExcluded({}, root)
  {
  }

  /** A root inside an excluded path has no files to lose, whatever their names. */
  lemma ExcludedRootLosesNothing(sites: map<Bytes, Site>, excluded: set<Bytes>, interval: nat, events: seq<Event>)
    requires ValidSites(sites) && interval > 0
    requires forall r :: r in sites ==> RootInsideExcluded(excluded, sites[r].root)
    ensures var c := ConfigOf(sites, excluded, interval); !FalselyCompleted(c, Execute(c, FIRST_START, events))
  {
    var c := ConfigOf(sites, excluded, interval);
    ConfigIsValid(sites, excluded, interval);
    assert AllTolerant(c);
    TolerantIsSafe(c, events);
  }

  /** The byte after "a" in "a.txt" sorts below the slash in "a/b". */
  lemma LossyClash()
    ensures ValidPath([NAME_A, NAME_B]) && ValidPath([NAME_A_TXT])
    ensures OneLine(Join([NAME_A_TXT])) && Clash([NAME_A, NAME_B], [NAME_A_TXT])
  {
    assert Join([NAME_A_TXT]) == NAME_A_TXT;
  }

  lemma ClashIsUnsafe(f: Path, g: Path)
    requires ValidPath(f) && ValidPath(g) && OneLine(Join(g)) && Clash(f, g)
    ensures Less(Join(g), Join(f)) && Before(f, ResumePoint(g))
  {
    OrdersDisagreeIffClash(f, g);
    FirstLineIsPrefix(Join(g));
    SplitJoin(g);
  }

  function LossySites(): map<Bytes, Site> {
    map[HOME := Site([[104]], LossyTree())]
  }

  lemma LossyConfig(interval: nat)
    requires interval > 0
    ensures var c := ConfigOf(LossySites(), {}, interval);
            ValidConfig(c) && HOME in c.files && c.files[HOME] == [[NAME_A, NAME_B], [NAME_A_TXT]]
  {
    LossyWalk();
    NothingExcluded([[104]]);
    assert Absolute([[104]]) == HOME && ValidPath([[104]]);
    ConfigIsValid(LossySites(), {}, interval);
  }

  /**
   * Whatever the interval, some sequence of runs reports completion without a/b, with every
   * write arriving and one process stopped.
   */
  lemma LossyTreeLosesAFile(interval: nat) returns (events: seq<Event>)
    requires interval > 0
    ensures var c := ConfigOf(LossySites(), {}, interval);
            && Smooth(c, events) && Stops(events) == 1
            && FalselyCompleted(c, Execute(c, FIRST_START, events))
  {
    var c := ConfigOf(LossySites(), {}, interval);
    var f, g := [NAME_A, NAME_B], [NAME_A_TXT];
    LossyConfig(interval);
    LossyClash();
    ClashIsUnsafe(f, g);
    assert c.files[HOME][0] == f && c.files[HOME][1] == g;
    events := UnsafeFor(c, HOME, f, g);
  }
}
