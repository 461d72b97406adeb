// The directory tree a scan walks, and the sequence of files the walk hands over, both
// in full and when it resumes from a checkpoint path.
module FileTrees {
  import opened ByteStrings
  import opened Paths

  /** statable: the size and modification time of the file can be read. */
  datatype Entry =
    | RegularFile(statable: bool)
    | Directory(openable: bool, children: seq<Child>)
    | Symlink
    | Unreadable
    | Special

  datatype Child = Child(name: Bytes, entry: Entry)

  function Size(e: Entry): nat {
    if e.Directory? then 1 + SizeAll(e.children) else 0
  }

  function SizeAll(cs: seq<Child>): nat {
    if cs == [] then 0 else 1 + Size(cs[0].entry) + SizeAll(cs[1..])
  }

  ghost predicate ValidTree(e: Entry) {
    e.Directory? ==> ValidChildren(e.children)
  }

  /** Entries of one directory: valid, pairwise different names, valid subtrees. */
  ghost predicate ValidChildren(cs: seq<Child>) {
    cs != [] ==>
      && ValidName(cs[0].name) && ValidTree(cs[0].entry) && ValidChildren(cs[1..])
      && forall j :: 0 <= j < |cs[1..]| ==> cs[1..][j].name != cs[0].name
  }

  // ----- sorting one directory -----

  function InsertChild(cs: seq<Child>, c: Child): (r: seq<Child>)
    ensures SizeAll(r) == SizeAll(cs) + 1 + Size(c.entry)
  {
    if cs == [] then [c]
    else if AtMost(c.name, cs[0].name) then
      assert ([c] + cs)[1..] == cs;
      [c] + cs
    else
      var rest := InsertChild(cs[1..], c);
      assert ([cs[0]] + rest)[1..] == rest;
      [cs[0]] + rest
  }

  /** The directory's entries by file name. */
  function SortChildren(cs: seq<Child>): (r: seq<Child>)
    ensures SizeAll(r) == SizeAll(cs)
  {
    if cs == [] then [] else InsertChild(SortChildren(cs[1..]), cs[0])
  }

  ghost predicate Ordered(cs: seq<Child>) {
    cs != [] ==> Ordered(cs[1..]) && forall j :: 0 <= j < |cs[1..]| ==> Less(cs[0].name, cs[1..][j].name)
  }

  lemma {:induction false} InsertChildElements(cs: seq<Child>, c: Child)
    ensures forall x :: x in InsertChild(cs, c) <==> x in cs || x == c
  {
    if cs != [] && !AtMost(c.name, cs[0].name) { InsertChildElements(cs[1..], c); }
  }

  lemma {:induction false} SortElements(cs: seq<Child>)
    ensures forall x :: x in SortChildren(cs) <==> x in cs
  {
    if cs == [] {
    } else {
      SortElements(cs[1..]);
      InsertChildElements(SortChildren(cs[1..]), cs[0]);
    }
  }

  lemma {:induction false} InsertChildOrders(cs: seq<Child>, c: Child)
    requires Ordered(cs) && forall x :: x in cs ==> x.name != c.name
    ensures Ordered(InsertChild(cs, c))
  {
    if cs == [] {
    } else {
      if AtMost(c.name, cs[0].name) {
        assert ([c] + cs)[1..] == cs;
        forall j | 0 <= j < |cs| ensures Less(c.name, cs[j].name) {
          if j > 0 {
            assert cs[j] == cs[1..][j - 1];
            LessTransitive(c.name, cs[0].name, cs[j].name);
          }
        }
      } else {
        var rest := InsertChild(cs[1..], c);
        InsertChildOrders(cs[1..], c);
        InsertChildElements(cs[1..], c);
        LessTotal(c.name, cs[0].name);
        assert ([cs[0]] + rest)[1..] == rest;
        forall j | 0 <= j < |rest| ensures Less(cs[0].name, rest[j].name) {
          assert rest[j] in rest;
        }
      }
    }
  }

  lemma {:induction false} SortOrders(cs: seq<Child>)
    requires ValidChildren(cs)
    ensures Ordered(SortChildren(cs))
  {
    if cs == [] {
    } else {
      SortOrders(cs[1..]);
      SortElements(cs[1..]);
      InsertChildOrders(SortChildren(cs[1..]), cs[0]);
    }
  }

  lemma {:induction false} ValidChild(cs: seq<Child>, c: Child)
    requires ValidChildren(cs) && c in cs
    ensures ValidName(c.name) && ValidTree(c.entry)
  {
    if c != cs[0] { ValidChild(cs[1..], c); }
  }

  // ----- decisions per entry -----

  /** PathFilter::shouldSkip: links, unreadable entries and excluded paths. */
  predicate ShouldSkip(excluded: set<Bytes>, path: Path, e: Entry) {
    e.Unreadable? || e.Symlink? || Absolute(path) in excluded
  }

  datatype ResumeDecision = SkipEntry | ContinueTowardResumePoint | TraverseNormally

  /** ResumePathFilter::decide; no parts means no checkpoint. */
  function Decide(parts: Path, name: Bytes, depth: nat): ResumeDecision {
    if parts == [] || depth >= |parts| then TraverseNormally
    else if Less(name, parts[depth]) then SkipEntry
    else if name == parts[depth] && depth + 1 < |parts| then ContinueTowardResumePoint
    else TraverseNormally
  }

  // ----- the files handed over, in order -----

  function WalkDir(excluded: set<Bytes>, root: Path, rel: Path, dir: Entry, parts: Path, depth: nat): seq<Path>
    decreases Size(dir), 0
  {
    if !dir.Directory? || ShouldSkip(excluded, root + rel, dir) || !dir.openable then []
    else WalkChildren(excluded, root, rel, SortChildren(dir.children), parts, depth)
  }

  function WalkChildren(excluded: set<Bytes>, root: Path, rel: Path, cs: seq<Child>, parts: Path, depth: nat): seq<Path>
    decreases SizeAll(cs), 0
  {
    if cs == [] then []
    else
      WalkChild(excluded, root, rel, cs[0], parts, depth) +
      WalkChildren(excluded, root, rel, cs[1..], parts, depth)
  }

  function WalkChild(excluded: set<Bytes>, root: Path, rel: Path, c: Child, parts: Path, depth: nat): seq<Path>
    decreases Size(c.entry), 1
  {
    var here := rel + [c.name];
    if ShouldSkip(excluded, root + here, c.entry) then []
    else
      match Decide(parts, c.name, depth)
      case SkipEntry => []
      case ContinueTowardResumePoint =>
        if c.entry.Directory? then WalkDir(excluded, root, here, c.entry, parts, depth + 1)
        else if c.entry == RegularFile(true) then [here] else []
      case TraverseNormally =>
        if c.entry.Directory? then WalkDir(excluded, root, here, c.entry, [], 0)
        else if c.entry == RegularFile(true) then [here] else []
  }

  // ----- every file handed over lies below its directory -----

  predicate Below(rel: Path, p: Path) {
    |rel| < |p| && p[..|rel|] == rel
  }

  predicate Through(rel: Path, name: Bytes, p: Path) {
    Below(rel, p) && p[|rel|] == name
  }

  lemma {:induction false} DirBelow(excluded: set<Bytes>, root: Path, rel: Path, dir: Entry, parts: Path, depth: nat)
    ensures forall p :: p in WalkDir(excluded, root, rel, dir, parts, depth) ==> Below(rel, p)
    decreases Size(dir), 0
  {
    if dir.Directory? {
      ChildrenBelow(excluded, root, rel, SortChildren(dir.children), parts, depth);
    }
  }

  ghost predicate Named(cs: seq<Child>, name: Bytes) {
    exists i :: 0 <= i < |cs| && cs[i].name == name
  }

  lemma {:induction false} ChildrenBelow(excluded: set<Bytes>, root: Path, rel: Path, cs: seq<Child>, parts: Path,
                                         depth: nat)
    ensures forall p :: p in WalkChildren(excluded, root, rel, cs, parts, depth) ==>
                          Below(rel, p) && Named(cs, p[|rel|])
    decreases SizeAll(cs), 0
  {
    if cs == [] {
    } else {
      ChildThrough(excluded, root, rel, cs[0], parts, depth);
      ChildrenBelow(excluded, root, rel, cs[1..], parts, depth);
      forall name | Named(cs[1..], name) ensures Named(cs, name) {
        var i :| 0 <= i < |cs[1..]| && cs[1..][i].name == name;
        assert cs[i + 1].name == name;
      }
      assert Named(cs, cs[0].name);
    }
  }

  lemma {:induction false} ChildThrough(excluded: set<Bytes>, root: Path, rel: Path, c: Child, parts: Path, depth: nat)
    ensures forall p :: p in WalkChild(excluded, root, rel, c, parts, depth) ==> Through(rel, c.name, p)
    decreases Size(c.entry), 1
  {
    var here := rel + [c.name];
    DirBelow(excluded, root, here, c.entry, parts, depth + 1);
    DirBelow(excluded, root, here, c.entry, [], 0);
    forall p | Below(here, p) || p == here ensures Through(rel, c.name, p) {
      assert p[..|here|] == here;
      assert p[..|rel|] == here[..|rel|] && p[|rel|] == here[|rel|];
    }
  }
}
