// The walk is strictly ascending in component order, and resuming it from a checkpoint
// drops exactly the files before the checkpoint: what is left is a suffix.
module WalkOrder {
  import opened ByteStrings
  import opened Paths
  import opened FileTrees

  ghost predicate Ascending(files: seq<Path>) {
    forall i, j :: 0 <= i < j < |files| ==> Before(files[i], files[j])
  }

  /** The files a resume from the given checkpoint still has to visit. */
  function Keep(files: seq<Path>, checkpoint: Path): seq<Path> {
    if files == [] then []
    else (if Before(files[0], checkpoint) then [] else [files[0]]) + Keep(files[1..], checkpoint)
  }

  lemma {:induction false} KeepElements(files: seq<Path>, checkpoint: Path)
    ensures forall p :: p in Keep(files, checkpoint) <==> p in files && !Before(p, checkpoint)
  {
    if files == [] {
    } else {
      KeepElements(files[1..], checkpoint);
      assert files == [files[0]] + files[1..];
    }
  }

  lemma {:induction false} KeepConcat(x: seq<Path>, y: seq<Path>, checkpoint: Path)
    ensures Keep(x + y, checkpoint) == Keep(x, checkpoint) + Keep(y, checkpoint)
  {
    if x == [] {
      assert x + y == y;
    } else {
      assert (x + y)[1..] == x[1..] + y;
      KeepConcat(x[1..], y, checkpoint);
    }
  }

  lemma {:induction false} KeepAll(files: seq<Path>, checkpoint: Path)
    requires forall p :: p in files ==> !Before(p, checkpoint)
    ensures Keep(files, checkpoint) == files
  {
    if files == [] {
    } else {
      KeepAll(files[1..], checkpoint);
    }
  }

  lemma {:induction false} KeepNone(files: seq<Path>, checkpoint: Path)
    requires forall p :: p in files ==> Before(p, checkpoint)
    ensures Keep(files, checkpoint) == []
  {
    if files == [] {
    } else {
      KeepNone(files[1..], checkpoint);
    }
  }

  /** In an ascending list the files before a checkpoint come first. */
  lemma {:induction false} KeepIsSuffix(files: seq<Path>, checkpoint: Path) returns (k: nat)
    requires Ascending(files)
    ensures k <= |files| && Keep(files, checkpoint) == files[k..]
    ensures forall i :: 0 <= i < k ==> Before(files[i], checkpoint)
  {
    if files == [] {
      k := 0;
    } else if Before(files[0], checkpoint) {
      k := KeepIsSuffix(files[1..], checkpoint);
      assert files[1..][k..] == files[k + 1..];
      forall i | 0 <= i < k + 1 ensures Before(files[i], checkpoint) {
        if i > 0 { assert files[i] == files[1..][i - 1]; }
      }
      k := k + 1;
    } else {
      k := 0;
      forall p | p in files ensures !Before(p, checkpoint) {
        if Before(p, checkpoint) && p != files[0] { BeforeTransitive(files[0], p, checkpoint); }
      }
      KeepAll(files, checkpoint);
    }
  }

  // ----- the full walk ascends -----

  lemma AscendingConcat(x: seq<Path>, y: seq<Path>)
    requires Ascending(x) && Ascending(y)
    requires forall p, q :: p in x && q in y ==> Before(p, q)
    ensures Ascending(x + y)
  {
    var z := x + y;
    forall i, j | 0 <= i < j < |z| ensures Before(z[i], z[j]) {
      if i < |x| && |x| <= j { assert z[i] in x && z[j] in y; }
    }
  }

  /** Two paths through entries of one directory compare by those entries' names. */
  lemma ThroughOrder(rel: Path, a: Bytes, b: Bytes, p: Path, q: Path)
    requires Through(rel, a, p) && Through(rel, b, q) && Less(a, b)
    ensures Before(p, q)
  {
    assert p == rel + p[|rel|..] && q == rel + q[|rel|..];
    BeforeAfterPrefix(rel, p[|rel|..], q[|rel|..]);
  }

  lemma {:induction false} DirAscends(excluded: set<Bytes>, root: Path, rel: Path, dir: Entry)
    requires ValidTree(dir)
    ensures Ascending(WalkDir(excluded, root, rel, dir, [], 0))
    decreases Size(dir), 0
  {
    if dir.Directory? {
      SortOrders(dir.children);
      SortElements(dir.children);
      forall c | c in SortChildren(dir.children) ensures ValidTree(c.entry) {
        ValidChild(dir.children, c);
      }
      ChildrenAscend(excluded, root, rel, SortChildren(dir.children));
    }
  }

  lemma {:induction false} ChildrenAscend(excluded: set<Bytes>, root: Path, rel: Path, cs: seq<Child>)
    requires Ordered(cs) && forall c :: c in cs ==> ValidTree(c.entry)
    ensures Ascending(WalkChildren(excluded, root, rel, cs, [], 0))
    decreases SizeAll(cs), 0
  {
    if cs == [] {
    } else {
      var first := WalkChild(excluded, root, rel, cs[0], [], 0);
      var others := WalkChildren(excluded, root, rel, cs[1..], [], 0);
      if cs[0].entry.Directory? { DirAscends(excluded, root, rel + [cs[0].name], cs[0].entry); }
      ChildrenAscend(excluded, root, rel, cs[1..]);
      ChildThrough(excluded, root, rel, cs[0], [], 0);
      ChildrenBelow(excluded, root, rel, cs[1..], [], 0);
      forall p, q | p in first && q in others ensures Before(p, q) {
        ThroughOrder(rel, cs[0].name, q[|rel|], p, q);
      }
      AscendingConcat(first, others);
    }
  }

  // ----- names on the way are valid -----

  lemma {:induction false} DirPathsValid(excluded: set<Bytes>, root: Path, rel: Path, dir: Entry)
    requires ValidTree(dir) && ValidPath(rel)
    ensures forall p :: p in WalkDir(excluded, root, rel, dir, [], 0) ==> ValidPath(p)
    decreases Size(dir), 0
  {
    if dir.Directory? {
      SortElements(dir.children);
      forall c | c in SortChildren(dir.children) ensures ValidName(c.name) && ValidTree(c.entry) {
        ValidChild(dir.children, c);
      }
      ChildrenPathsValid(excluded, root, rel, SortChildren(dir.children));
    }
  }

  lemma {:induction false} ChildrenPathsValid(excluded: set<Bytes>, root: Path, rel: Path, cs: seq<Child>)
    requires ValidPath(rel) && forall c :: c in cs ==> ValidName(c.name) && ValidTree(c.entry)
    ensures forall p :: p in WalkChildren(excluded, root, rel, cs, [], 0) ==> ValidPath(p)
    decreases SizeAll(cs), 0
  {
    if cs == [] {
    } else {
      if cs[0].entry.Directory? { DirPathsValid(excluded, root, rel + [cs[0].name], cs[0].entry); }
      ChildrenPathsValid(excluded, root, rel, cs[1..]);
    }
  }

  // ----- resuming keeps exactly what is not before the checkpoint -----

  /** Below a directory on the checkpoint's way, the next component decides. */
  lemma CheckpointSide(checkpoint: Path, depth: nat, name: Bytes, p: Path)
    requires depth < |checkpoint| && Through(checkpoint[..depth], name, p)
    ensures Less(name, checkpoint[depth]) ==> Before(p, checkpoint)
    ensures !Less(name, checkpoint[depth]) && name != checkpoint[depth] ==> !Before(p, checkpoint)
    ensures name == checkpoint[depth] && (depth + 1 == |checkpoint| || |p| == depth + 1) ==> !Before(p, checkpoint)
  {
    var rel := checkpoint[..depth];
    assert p == rel + p[depth..] && checkpoint == rel + checkpoint[depth..];
    BeforeAfterPrefix(rel, p[depth..], checkpoint[depth..]);
    LessIrreflexive(name);
  }

  /** The walk of a directory on the checkpoint's way, resumed, is the full walk filtered. */
  lemma {:induction false} DirResumes(excluded: set<Bytes>, root: Path, dir: Entry, checkpoint: Path, depth: nat)
    requires depth < |checkpoint|
    ensures WalkDir(excluded, root, checkpoint[..depth], dir, checkpoint, depth) ==
            Keep(WalkDir(excluded, root, checkpoint[..depth], dir, [], 0), checkpoint)
    decreases Size(dir), 0
  {
    if dir.Directory? {
      ChildrenResume(excluded, root, SortChildren(dir.children), checkpoint, depth);
    }
  }

  lemma {:induction false} ChildrenResume(excluded: set<Bytes>, root: Path, cs: seq<Child>, checkpoint: Path,
                                          depth: nat)
    requires depth < |checkpoint|
    ensures WalkChildren(excluded, root, checkpoint[..depth], cs, checkpoint, depth) ==
            Keep(WalkChildren(excluded, root, checkpoint[..depth], cs, [], 0), checkpoint)
    decreases SizeAll(cs), 0
  {
    if cs == [] {
    } else {
      var rel := checkpoint[..depth];
      ChildResumes(excluded, root, cs[0], checkpoint, depth);
      ChildrenResume(excluded, root, cs[1..], checkpoint, depth);
      KeepConcat(WalkChild(excluded, root, rel, cs[0], [], 0),
                 WalkChildren(excluded, root, rel, cs[1..], [], 0), checkpoint);
    }
  }

  lemma {:induction false} ChildResumes(excluded: set<Bytes>, root: Path, c: Child, checkpoint: Path, depth: nat)
    requires depth < |checkpoint|
    ensures WalkChild(excluded, root, checkpoint[..depth], c, checkpoint, depth) ==
            Keep(WalkChild(excluded, root, checkpoint[..depth], c, [], 0), checkpoint)
    decreases Size(c.entry), 1
  {
    var rel := checkpoint[..depth];
    var full := WalkChild(excluded, root, rel, c, [], 0);
    ChildThrough(excluded, root, rel, c, [], 0);
    forall p | p in full
      ensures Less(c.name, checkpoint[depth]) ==> Before(p, checkpoint)
      ensures !Less(c.name, checkpoint[depth]) &&
              (c.name != checkpoint[depth] || depth + 1 == |checkpoint| || |p| == depth + 1) ==>
                !Before(p, checkpoint)
    {
      CheckpointSide(checkpoint, depth, c.name, p);
    }
    if Less(c.name, checkpoint[depth]) {
      KeepNone(full, checkpoint);
    } else if c.name == checkpoint[depth] && depth + 1 < |checkpoint| && c.entry.Directory? {
      assert rel + [c.name] == checkpoint[..depth + 1];
      DirResumes(excluded, root, c.entry, checkpoint, depth + 1);
    } else {
      KeepAll(full, checkpoint);
    }
  }

  // ----- whole walks -----

  /** The files of a scan root, in walk order. */
  function Files(excluded: set<Bytes>, root: Path, tree: Entry): seq<Path> {
    WalkDir(excluded, root, [], tree, [], 0)
  }

  /** The files a walk resumed from a checkpoint path hands over. */
  function Resumed(excluded: set<Bytes>, root: Path, tree: Entry, checkpoint: Path): seq<Path> {
    WalkDir(excluded, root, [], tree, checkpoint, 0)
  }

  lemma FilesAscend(excluded: set<Bytes>, root: Path, tree: Entry)
    requires ValidTree(tree)
    ensures Ascending(Files(excluded, root, tree))
    ensures forall p :: p in Files(excluded, root, tree) ==> ValidPath(p) && p != []
  {
    DirAscends(excluded, root, [], tree);
    DirPathsValid(excluded, root, [], tree);
    DirBelow(excluded, root, [], tree, [], 0);
  }

  /** Only files before the checkpoint are dropped; holds for any tree and any checkpoint. */
  lemma ResumedIsFiltered(excluded: set<Bytes>, root: Path, tree: Entry, checkpoint: Path)
    ensures Resumed(excluded, root, tree, checkpoint) == Keep(Files(excluded, root, tree), checkpoint)
  {
    if checkpoint == [] {
      KeepAll(Files(excluded, root, tree), checkpoint);
    } else {
      assert checkpoint[..0] == [];
      DirResumes(excluded, root, tree, checkpoint, 0);
    }
  }

  /** The full walk is what the earlier run is credited with, then the resumed walk. */
  lemma ResumedIsSuffix(excluded: set<Bytes>, root: Path, tree: Entry, checkpoint: Path) returns (skipped: seq<Path>)
    requires ValidTree(tree)
    ensures Files(excluded, root, tree) == skipped + Resumed(excluded, root, tree, checkpoint)
    ensures forall p :: p in skipped ==> Before(p, checkpoint)
    ensures forall p :: p in Resumed(excluded, root, tree, checkpoint) ==> !Before(p, checkpoint)
  {
    var files := Files(excluded, root, tree);
    FilesAscend(excluded, root, tree);
    ResumedIsFiltered(excluded, root, tree, checkpoint);
    KeepElements(files, checkpoint);
    var k := KeepIsSuffix(files, checkpoint);
    skipped := files[..k];
  }
}
