// The walker as the source runs it: recursion over sorted directory entries that calls
// a handler for each regular file and stops as soon as the handler declines.
module Walker {
  import opened ByteStrings
  import opened Paths
  import opened FileTrees
  import opened Exclusion

  /** The caller's callback: remembers what it was given and decides from that whether to go on. */
  class FileHandler {
    var seen: seq<Path>
    const accepts: seq<Path> -> bool

    constructor (accepts: seq<Path> -> bool)
      ensures seen == [] && this.accepts == accepts
    {
      this.accepts := accepts;
      seen := [];
    }

    method Handle(file: Path) returns (more: bool)
      modifies this
      ensures seen == old(seen) + [file] && more == accepts(seen)
    {
      seen := seen + [file];
      more := accepts(seen);
    }
  }

  /** What a handler has seen after being offered the files in order, and whether it wants more. */
  function Deliver(accepts: seq<Path> -> bool, seen: seq<Path>, files: seq<Path>): (seq<Path>, bool)
    decreases |files|
  {
    if files == [] then (seen, true)
    else
      var now := seen + [files[0]];
      if accepts(now) then Deliver(accepts, now, files[1..]) else (now, false)
  }

  lemma {:induction false} DeliverConcat(accepts: seq<Path> -> bool, seen: seq<Path>, x: seq<Path>, y: seq<Path>)
    ensures Deliver(accepts, seen, x + y) ==
            var first := Deliver(accepts, seen, x);
            if first.1 then Deliver(accepts, first.0, y) else first
    decreases |x|
  {
    if x == [] {
      assert x + y == y;
    } else {
      assert (x + y)[1..] == x[1..] + y;
      DeliverConcat(accepts, seen + [x[0]], x[1..], y);
    }
  }

  /** The handler gets the files one by one, up to and with the first at which it declines. */
  lemma {:induction false} DeliverStops(accepts: seq<Path> -> bool, seen: seq<Path>, files: seq<Path>) returns (n: nat)
    ensures n <= |files| && Deliver(accepts, seen, files).0 == seen + files[..n]
    ensures forall k :: 0 < k < n ==> accepts(seen + files[..k])
    ensures Deliver(accepts, seen, files).1 ==> n == |files| && (n > 0 ==> accepts(seen + files))
    ensures !Deliver(accepts, seen, files).1 ==> n > 0 && !accepts(seen + files[..n])
    decreases |files|
  {
    if files == [] {
      n := 0;
      assert seen + files[..0] == seen;
    } else {
      var now := seen + [files[0]];
      assert files[..1] == [files[0]];
      if accepts(now) {
        var m := DeliverStops(accepts, now, files[1..]);
        n := m + 1;
        forall k | 0 <= k <= |files[1..]| ensures now + files[1..][..k] == seen + files[..k + 1] { }
        assert seen + files == now + files[1..];
        forall k | 0 < k < n ensures accepts(seen + files[..k]) {
          if k > 1 { assert accepts(now + files[1..][..k - 1]); }
        }
        if m == 0 { assert files[1..] == [] ==> seen + files == now; }
      } else {
        n := 1;
      }
    }
  }

  /** A handler that always wants more, as the pipeline's does, sees every file. */
  lemma {:induction false} DeliverAll(accepts: seq<Path> -> bool, seen: seq<Path>, files: seq<Path>)
    requires forall s :: accepts(s)
    ensures Deliver(accepts, seen, files) == (seen + files, true)
    decreases |files|
  {
    if files == [] {
      assert seen + files == seen;
    } else {
      DeliverAll(accepts, seen + [files[0]], files[1..]);
      assert seen + [files[0]] + files[1..] == seen + files;
    }
  }

  class ResumePathFilter {
    var parts: seq<Bytes>

    constructor Inactive()
      ensures parts == []
    {
      parts := [];
    }

    /** Iterates over the pieces of the checkpoint's text. */
    constructor From(resumeFrom: Bytes)
      ensures parts == Split(resumeFrom)
    {
      parts := [];
      new;
      var pieces := Split(resumeFrom);
      for i := 0 to |pieces|
        invariant parts == pieces[..i]
      {
        parts := parts + [pieces[i]];
      }
    }

    predicate Active()
      reads this
    {
      parts != []
    }

    method DecideEntry(name: Bytes, depth: nat) returns (decision: ResumeDecision)
      ensures decision == Decide(parts, name, depth)
    {
      if !Active() || depth >= |parts| { return TraverseNormally; }
      var target := parts[depth];
      if Less(name, target) { return SkipEntry; }
      if name == target && depth + 1 < |parts| { return ContinueTowardResumePoint; }
      return TraverseNormally;
    }
  }

  class FileTreeWalker {
    const excluded: set<Bytes>

    constructor (excluded: set<Bytes>)
      ensures this.excluded == excluded
    {
      this.excluded := excluded;
    }

    /** Collects the directory's entries, then sorts them by file name. */
    method ReadSortedChildren(directory: Entry) returns (ok: bool, children: seq<Child>)
      requires directory.Directory?
      ensures ok == directory.openable
      ensures ok ==> children == SortChildren(directory.children)
    {
      children := [];
      if !directory.openable { return false, children; }
      for i := 0 to |directory.children|
        invariant children == directory.children[..i]
      {
        children := children + [directory.children[i]];
      }
      assert directory.children[..|directory.children|] == directory.children;
      return true, SortChildren(children);
    }

    /** The walk of one directory delivers exactly the files the specification lists. */
    method WalkDirectory(root: Path, rel: Path, directory: Entry, filter: ResumePathFilter, depth: nat,
                         handler: FileHandler)
      returns (goOn: bool)
      requires directory.Directory?
      modifies handler
      ensures (handler.seen, goOn) ==
              Deliver(handler.accepts, old(handler.seen),
                      WalkDir(excluded, root, rel, directory, filter.parts, depth))
      decreases Size(directory)
    {
      if ShouldSkip(excluded, root + rel, directory) { return true; }
      var ok, children := ReadSortedChildren(directory);
      if !ok { return true; }
      for i := 0 to |children|
        invariant (handler.seen, true) ==
                  Deliver(handler.accepts, old(handler.seen),
                          WalkChildren(excluded, root, rel, children[..i], filter.parts, depth))
      {
        SizeOfElement(children, i);
        ghost var before := handler.seen;
        goOn := VisitChild(root, rel, children[i], filter, depth, handler);
        WalkOneMore(excluded, root, rel, children, i, filter.parts, depth);
        DeliverConcat(handler.accepts, old(handler.seen),
                      WalkChildren(excluded, root, rel, children[..i], filter.parts, depth),
                      WalkChild(excluded, root, rel, children[i], filter.parts, depth));
        if !goOn {
          assert children == children[..i + 1] + children[i + 1..];
          WalkChildrenConcat(excluded, root, rel, children[..i + 1], children[i + 1..], filter.parts, depth);
          DeliverConcat(handler.accepts, old(handler.seen),
                        WalkChildren(excluded, root, rel, children[..i + 1], filter.parts, depth),
                        WalkChildren(excluded, root, rel, children[i + 1..], filter.parts, depth));
          return false;
        }
      }
      assert children[..|children|] == children;
      return true;
    }

    /** One entry: skipped, descended into with or without the checkpoint, or handed over. */
    method VisitChild(root: Path, rel: Path, child: Child, filter: ResumePathFilter, depth: nat,
                      handler: FileHandler)
      returns (goOn: bool)
      modifies handler
      ensures (handler.seen, goOn) ==
              Deliver(handler.accepts, old(handler.seen),
                      WalkChild(excluded, root, rel, child, filter.parts, depth))
      decreases Size(child.entry) + 1
    {
      var here := rel + [child.name];
      if ShouldSkip(excluded, root + here, child.entry) { return true; }
      var decision := filter.DecideEntry(child.name, depth);
      if decision == SkipEntry { return true; }
      if child.entry.Directory? {
        if decision == ContinueTowardResumePoint {
          goOn := WalkDirectory(root, here, child.entry, filter, depth + 1, handler);
        } else {
          var noResume := new ResumePathFilter.Inactive();
          goOn := WalkDirectory(root, here, child.entry, noResume, 0, handler);
        }
        return goOn;
      }
      if child.entry != RegularFile(true) { return true; }
      goOn := handler.Handle(here);
      assert Deliver(handler.accepts, old(handler.seen), [here]) == (handler.seen, goOn);
    }

    /**
     * A walk of a directory root. The root check and the checkpoint together decide what
     * is delivered; a handler that never declines receives all of it.
     */
    method Walk(root: Path, tree: Entry, resumeFrom: Bytes, handler: FileHandler) returns (goOn: bool)
      requires tree.Directory?
      modifies handler
      ensures (handler.seen, goOn) ==
              Deliver(handler.accepts, old(handler.seen), Delivered(excluded, root, tree, Split(resumeFrom)))
    {
      var outside := IsRootInsideExcludedPath(excluded, root);
      if outside { return true; }
      var filter := new ResumePathFilter.From(resumeFrom);
      goOn := WalkDirectory(root, [], tree, filter, 0, handler);
    }
  }

  lemma {:induction false} SizeOfElement(cs: seq<Child>, i: nat)
    requires i < |cs|
    ensures Size(cs[i].entry) < SizeAll(cs)
  {
    if i == 0 {
    } else {
      SizeOfElement(cs[1..], i - 1);
    }
  }

  lemma {:induction false} WalkChildrenConcat(excluded: set<Bytes>, root: Path, rel: Path,
                                              x: seq<Child>, y: seq<Child>, parts: Path, depth: nat)
    ensures WalkChildren(excluded, root, rel, x + y, parts, depth) ==
            WalkChildren(excluded, root, rel, x, parts, depth) + WalkChildren(excluded, root, rel, y, parts, depth)
  {
    if x == [] {
      assert x + y == y;
    } else {
      assert (x + y)[1..] == x[1..] + y;
      WalkChildrenConcat(excluded, root, rel, x[1..], y, parts, depth);
    }
  }

  lemma WalkOneMore(excluded: set<Bytes>, root: Path, rel: Path, cs: seq<Child>, i: nat, parts: Path, depth: nat)
    requires i < |cs|
    ensures WalkChildren(excluded, root, rel, cs[..i + 1], parts, depth) ==
            WalkChildren(excluded, root, rel, cs[..i], parts, depth) +
            WalkChild(excluded, root, rel, cs[i], parts, depth)
  {
    assert cs[..i + 1] == cs[..i] + [cs[i]];
    WalkChildrenConcat(excluded, root, rel, cs[..i], [cs[i]], parts, depth);
    assert WalkChildren(excluded, root, rel, [cs[i]], parts, depth) ==
           WalkChild(excluded, root, rel, cs[i], parts, depth) + [];
  }
}
