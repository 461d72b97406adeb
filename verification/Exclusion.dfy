// Exclusions: one ancestor test on the scan root, exact matches during the walk. Together
// they refine a per-file test for an excluded ancestor, except for the exclusion "/".
module Exclusion {
  import opened ByteStrings
  import opened Paths
  import opened FileTrees
  import opened WalkOrder

  const ROOT_TEXT: Bytes := [SLASH]

  /** The path itself or something below it, tested on text. */
  predicate IsSameOrDescendant(path: Bytes, prefix: Bytes) {
    path == prefix || (|path| > |prefix| && prefix <= path && path[|prefix|] == SLASH)
  }

  predicate RootInsideExcluded(excluded: set<Bytes>, root: Path) {
    exists e :: e in excluded && IsSameOrDescendant(Absolute(root), e)
  }

  method IsRootInsideExcludedPath(excluded: set<Bytes>, root: Path) returns (inside: bool)
    ensures inside <==> RootInsideExcluded(excluded, root)
  {
    var normalizedRoot := Absolute(root);
    var left := excluded;
    while left != {}
      invariant left <= excluded
      invariant forall e :: e in excluded - left ==> !IsSameOrDescendant(normalizedRoot, e)
      decreases left
    {
      var e :| e in left;
      if IsSameOrDescendant(normalizedRoot, e) { return true; }
      left := left - {e};
    }
    return false;
  }

  /** What a walk from a directory root hands over. */
  function Delivered(excluded: set<Bytes>, root: Path, tree: Entry, resumeFrom: Path): seq<Path> {
    if RootInsideExcluded(excluded, root) then [] else Resumed(excluded, root, tree, resumeFrom)
  }

  // ----- text prefix against component prefix -----

  lemma {:induction false} JoinAppend(p: Path, q: Path)
    requires p != [] && q != []
    ensures Join(p + q) == Join(p) + [SLASH] + Join(q)
  {
    if |p| == 1 {
      assert (p + q)[1..] == q;
    } else {
      assert (p + q)[1..] == p[1..] + q;
      JoinAppend(p[1..], q);
    }
  }

  lemma {:induction false} PiecesAppend(text: Bytes, rest: Bytes)
    ensures Pieces(text + [SLASH] + rest) == Pieces(text) + Pieces(rest)
  {
    var whole := text + [SLASH] + rest;
    if text == [] {
      assert whole[1..] == rest;
    } else {
      assert whole[1..] == text[1..] + [SLASH] + rest;
      PiecesAppend(text[1..], rest);
    }
  }

  /** On canonical absolute paths the text test is the component test, unless the prefix is "/". */
  lemma TextPrefixIsComponentPrefix(p: Path, e: Path)
    requires ValidPath(p) && ValidPath(e)
    ensures IsSameOrDescendant(Absolute(p), Absolute(e)) <==> e <= p && (e == [] ==> p == [])
  {
    if e == [] {
      if p != [] { FirstOfJoin(p); }
    } else if p == [] {
      JoinNotEmpty(e);
    } else {
      JoinNotEmpty(p);
      JoinNotEmpty(e);
      if e <= p { PrefixIsDescendant(p, e); }
      if Absolute(p) == Absolute(e) {
        assert Join(p) == Absolute(p)[1..] == Absolute(e)[1..] == Join(e);
        JoinInjective(p, e);
      } else if IsSameOrDescendant(Absolute(p), Absolute(e)) {
        DescendantIsPrefix(p, e);
      }
    }
  }

  lemma PrefixIsDescendant(p: Path, e: Path)
    requires e != [] && e <= p
    ensures IsSameOrDescendant(Absolute(p), Absolute(e))
  {
    if e != p {
      assert p == e + p[|e|..];
      JoinAppend(e, p[|e|..]);
      assert Absolute(p) == Absolute(e) + [SLASH] + Join(p[|e|..]);
    }
  }

  lemma DescendantIsPrefix(p: Path, e: Path)
    requires ValidPath(p) && ValidPath(e) && p != [] && e != []
    requires Join(p) != [] && Join(e) != []
    requires Absolute(p) != Absolute(e) && IsSameOrDescendant(Absolute(p), Absolute(e))
    ensures e <= p
  {
    var rest := RestBehindPrefix(Join(p), Join(e));
    PiecesAppend(Join(e), rest);
    SplitJoin(p);
    SplitJoin(e);
  }

  lemma RestBehindPrefix(text: Bytes, prefix: Bytes) returns (rest: Bytes)
    requires [SLASH] + text != [SLASH] + prefix
    requires IsSameOrDescendant([SLASH] + text, [SLASH] + prefix)
    ensures text == prefix + [SLASH] + rest
  {
    var n := |prefix|;
    assert text == ([SLASH] + text)[1..] && prefix == ([SLASH] + prefix)[1..];
    assert text[..n] == ([SLASH] + text)[..n + 1][1..] == prefix;
    rest := text[n + 1..];
    assert text == text[..n] + [text[n]] + rest;
  }

  lemma FirstOfJoin(p: Path)
    requires ValidPath(p) && p != []
    ensures Join(p) != [] && Join(p)[0] != SLASH
  {
    assert ValidName(p[0]);
    assert Join(p)[0] == p[0][0];
  }

  // ----- exact matching during the walk -----

  /** A regular file with readable metadata at p, reached through directories that open. */
  ghost predicate Reaches(dir: Entry, p: Path)
    decreases p, 2
  {
    dir.Directory? && dir.openable && ReachesIn(dir.children, p)
  }

  ghost predicate ReachesIn(cs: seq<Child>, p: Path)
    decreases p, 1
  {
    p != [] && exists i :: 0 <= i < |cs| && cs[i].name == p[0] && Ends(cs[i].entry, p)
  }

  ghost predicate Ends(e: Entry, p: Path)
    requires p != []
    decreases p, 0
  {
    if |p| == 1 then e == RegularFile(true) else Reaches(e, p[1..])
  }

  /** Neither the directory nor anything from it down to the file is excluded. */
  ghost predicate Clear(excluded: set<Bytes>, dir: Path, p: Path) {
    forall k :: 0 <= k <= |p| ==> Absolute(dir + p[..k]) !in excluded
  }

  lemma ClearSplit(excluded: set<Bytes>, dir: Path, p: Path)
    requires p != []
    ensures Clear(excluded, dir, p) <==> Absolute(dir) !in excluded && Clear(excluded, dir + [p[0]], p[1..])
  {
    assert dir + p[..0] == dir;
    forall k | 1 <= k <= |p| ensures dir + p[..k] == dir + [p[0]] + p[1..][..k - 1] { }
    if Clear(excluded, dir + [p[0]], p[1..]) && Absolute(dir) !in excluded {
      forall k | 0 <= k <= |p| ensures Absolute(dir + p[..k]) !in excluded {
        if k > 0 { assert Absolute(dir + [p[0]] + p[1..][..k - 1]) !in excluded; }
      }
    }
    if Clear(excluded, dir, p) {
      forall k | 0 <= k <= |p[1..]| ensures Absolute(dir + [p[0]] + p[1..][..k]) !in excluded {
        assert dir + p[..k + 1] == dir + [p[0]] + p[1..][..k];
      }
    }
  }

  lemma {:induction false} DirIsExact(excluded: set<Bytes>, root: Path, rel: Path, dir: Entry, p: Path)
    requires p != []
    ensures rel + p in WalkDir(excluded, root, rel, dir, [], 0) <==> Reaches(dir, p) && Clear(excluded, root + rel, p)
    decreases Size(dir), 0
  {
    ClearSplit(excluded, root + rel, p);
    if dir.Directory? && dir.openable {
      ChildrenAreExact(excluded, root, rel, SortChildren(dir.children), p);
      SortElements(dir.children);
      SameReach(SortChildren(dir.children), dir.children, p);
    }
  }

  lemma SameReach(x: seq<Child>, y: seq<Child>, p: Path)
    requires forall c :: c in x <==> c in y
    ensures ReachesIn(x, p) == ReachesIn(y, p)
  {
    if ReachesIn(x, p) {
      var i :| 0 <= i < |x| && x[i].name == p[0] && Ends(x[i].entry, p);
      assert x[i] in y;
    }
    if ReachesIn(y, p) {
      var i :| 0 <= i < |y| && y[i].name == p[0] && Ends(y[i].entry, p);
      assert y[i] in x;
    }
  }

  lemma {:induction false} ChildrenAreExact(excluded: set<Bytes>, root: Path, rel: Path, cs: seq<Child>, p: Path)
    requires p != []
    ensures rel + p in WalkChildren(excluded, root, rel, cs, [], 0) <==>
              ReachesIn(cs, p) && Clear(excluded, root + rel + [p[0]], p[1..])
    decreases SizeAll(cs), 0
  {
    if cs == [] {
    } else {
      ChildIsExact(excluded, root, rel, cs[0], p);
      ChildrenAreExact(excluded, root, rel, cs[1..], p);
      assert ReachesIn(cs, p) <==> (cs[0].name == p[0] && Ends(cs[0].entry, p)) || ReachesIn(cs[1..], p) by {
        if ReachesIn(cs, p) {
          var i :| 0 <= i < |cs| && cs[i].name == p[0] && Ends(cs[i].entry, p);
          if i > 0 { assert cs[1..][i - 1] == cs[i]; }
        }
        if ReachesIn(cs[1..], p) {
          var i :| 0 <= i < |cs[1..]| && cs[1..][i].name == p[0] && Ends(cs[1..][i].entry, p);
          assert cs[i + 1] == cs[1..][i];
        }
      }
    }
  }

  lemma {:induction false} ChildIsExact(excluded: set<Bytes>, root: Path, rel: Path, c: Child, p: Path)
    requires p != []
    ensures rel + p in WalkChild(excluded, root, rel, c, [], 0) <==>
              c.name == p[0] && Ends(c.entry, p) && Clear(excluded, root + rel + [p[0]], p[1..])
    decreases Size(c.entry), 1
  {
    var here := rel + [c.name];
    ChildThrough(excluded, root, rel, c, [], 0);
    assert (rel + p)[|rel|] == p[0];
    if c.name == p[0] {
      assert root + rel + [p[0]] == root + here;
      assert rel + p == here + p[1..];
      assert root + here + p[1..][..0] == root + here;
      if |p| > 1 {
        DirIsExact(excluded, root, here, c.entry, p[1..]);
      } else {
        assert rel + p == here;
        if c.entry.Directory? { DirBelow(excluded, root, here, c.entry, [], 0); }
      }
    }
  }

  // ----- the two tests together -----

  /** No ancestor of the file, nor the file, is excluded: the meaning of an exclusion. */
  ghost predicate NoAncestorExcluded(excluded: set<Bytes>, file: Path) {
    forall k :: 0 <= k <= |file| ==> Absolute(file[..k]) !in excluded
  }

  ghost predicate Canonical(excluded: set<Bytes>) {
    forall e :: e in excluded ==> exists p: Path :: ValidPath(p) && Absolute(p) == e
  }

  lemma RootTestMeaning(excluded: set<Bytes>, root: Path)
    requires ValidPath(root) && Canonical(excluded)
    ensures RootInsideExcluded(excluded, root) <==>
              exists k :: 0 <= k <= |root| && (k == 0 ==> root == []) && Absolute(root[..k]) in excluded
  {
    if RootInsideExcluded(excluded, root) {
      var e :| e in excluded && IsSameOrDescendant(Absolute(root), e);
      var p: Path :| ValidPath(p) && Absolute(p) == e;
      TextPrefixIsComponentPrefix(root, p);
      assert root[..|p|] == p;
    }
    forall k | 0 <= k <= |root| && (k == 0 ==> root == []) && Absolute(root[..k]) in excluded
      ensures RootInsideExcluded(excluded, root)
    {
      TextPrefixIsComponentPrefix(root, root[..k]);
    }
  }

  /** The file's ancestors are those of the root and those from the root down. */
  lemma AncestorsSplit(excluded: set<Bytes>, root: Path, p: Path)
    ensures NoAncestorExcluded(excluded, root + p) <==>
              NoAncestorExcluded(excluded, root) && Clear(excluded, root, p)
  {
    var file := root + p;
    forall k | 0 <= k <= |root| ensures file[..k] == root[..k] { }
    forall k | 0 <= k <= |p| ensures file[..|root| + k] == root + p[..k] { }
    if NoAncestorExcluded(excluded, file) {
      forall k | 0 <= k <= |root| ensures Absolute(root[..k]) !in excluded {
        assert Absolute(file[..k]) !in excluded;
      }
      forall k | 0 <= k <= |p| ensures Absolute(root + p[..k]) !in excluded {
        assert Absolute(file[..|root| + k]) !in excluded;
      }
    }
    if NoAncestorExcluded(excluded, root) && Clear(excluded, root, p) {
      forall k | 0 <= k <= |file| ensures Absolute(file[..k]) !in excluded {
        if k <= |root| {
          assert Absolute(root[..k]) !in excluded;
        } else {
          assert file[..k] == root + p[..k - |root|];
        }
      }
    }
  }

  /** From a root in no excluded path the walk hands over what is clear from there down. */
  lemma WalkIsExact(excluded: set<Bytes>, root: Path, tree: Entry, p: Path)
    requires p != []
    ensures p in Delivered(excluded, root, tree, []) <==>
              !RootInsideExcluded(excluded, root) && Reaches(tree, p) && Clear(excluded, root, p)
  {
    DirIsExact(excluded, root, [], tree, p);
    assert [] + p == p && root + [] == root;
  }

  /** Outside excluded paths, and with "/" not excluded, no ancestor of the root is excluded. */
  lemma RootIsFree(excluded: set<Bytes>, root: Path)
    requires ValidPath(root) && Canonical(excluded) && (ROOT_TEXT !in excluded || root == [])
    ensures RootInsideExcluded(excluded, root) <==> !NoAncestorExcluded(excluded, root)
  {
    RootTestMeaning(excluded, root);
    assert Absolute(root[..0]) == ROOT_TEXT;
  }

  /** The root test covers the ancestors above the root, the walk the rest. */
  lemma WalkMeetsExclusions(excluded: set<Bytes>, root: Path, tree: Entry, p: Path)
    requires ValidPath(root) && Canonical(excluded) && p != []
    requires ROOT_TEXT !in excluded || root == []
    ensures p in Delivered(excluded, root, tree, []) <==> Reaches(tree, p) && NoAncestorExcluded(excluded, root + p)
  {
    WalkIsExact(excluded, root, tree, p);
    RootIsFree(excluded, root);
    AncestorsSplit(excluded, root, p);
  }

  /** The walk hands over exactly the files with no excluded ancestor-or-self. */
  ghost predicate Honoured(excluded: set<Bytes>, root: Path, tree: Entry) {
    forall p: Path :: p != [] ==>
      (p in Delivered(excluded, root, tree, []) <==> Reaches(tree, p) && NoAncestorExcluded(excluded, root + p))
  }

  /** Nothing reachable is free of exclusions from the root directory down. */
  ghost predicate NothingClear(excluded: set<Bytes>, root: Path, tree: Entry) {
    forall p: Path :: p != [] && Reaches(tree, p) ==> !Clear(excluded, root, p)
  }

  /**
   * Exactly when the walk honours every exclusion on a tree: "/" must not be excluded for
   * another root, because the text test never finds "/" to be an ancestor; unless another
   * exclusion keeps the walk out of the root or away from every file.
   */
  lemma ExclusionsHonouredIff(excluded: set<Bytes>, root: Path, tree: Entry)
    requires ValidPath(root) && Canonical(excluded)
    ensures Honoured(excluded, root, tree) <==>
              ROOT_TEXT !in excluded || root == [] || RootInsideExcluded(excluded, root) ||
              NothingClear(excluded, root, tree)
  {
    if ROOT_TEXT !in excluded || root == [] {
      forall p: Path | p != []
        ensures p in Delivered(excluded, root, tree, []) <==> Reaches(tree, p) && NoAncestorExcluded(excluded, root + p)
      {
        WalkMeetsExclusions(excluded, root, tree, p);
      }
    } else {
      forall p: Path | p != []
        ensures !NoAncestorExcluded(excluded, root + p)
        ensures p in Delivered(excluded, root, tree, []) <==>
                  !RootInsideExcluded(excluded, root) && Reaches(tree, p) && Clear(excluded, root, p)
      {
        assert Absolute((root + p)[..0]) == ROOT_TEXT;
        WalkIsExact(excluded, root, tree, p);
      }
    }
  }

  /** The same for all trees at once: a test on the exclusions and the root alone. */
  lemma ExclusionsAlwaysHonouredIff(excluded: set<Bytes>, root: Path)
    requires ValidPath(root) && Canonical(excluded)
    ensures (forall tree: Entry :: ValidTree(tree) ==> Honoured(excluded, root, tree)) <==>
              ROOT_TEXT !in excluded || root == [] || RootInsideExcluded(excluded, root)
  {
    if ROOT_TEXT !in excluded || root == [] || RootInsideExcluded(excluded, root) {
      forall tree: Entry | ValidTree(tree) ensures Honoured(excluded, root, tree) {
        ExclusionsHonouredIff(excluded, root, tree);
      }
    } else {
      var tree, p := OneClearFile(excluded, root);
      ExclusionsHonouredIff(excluded, root, tree);
      assert !NothingClear(excluded, root, tree);
    }
  }

  /** A directory that holds one readable file. */
  function OneFile(name: Bytes): Entry {
    Directory(true, [Child(name, RegularFile(true))])
  }

  lemma OneFileReached(name: Bytes)
    ensures Reaches(OneFile(name), [name])
    ensures ValidName(name) ==> ValidTree(OneFile(name))
  {
    var cs := OneFile(name).children;
    assert cs[1..] == [] && ValidChildren([]);
    assert cs[0].name == [name][0] && Ends(cs[0].entry, [name]);
  }

  lemma ClearOneName(excluded: set<Bytes>, root: Path, name: Bytes)
    requires Absolute(root) !in excluded && Absolute(root + [name]) !in excluded
    ensures Clear(excluded, root, [name])
  {
    forall k | 0 <= k <= |[name]| ensures root + [name][..k] == if k == 0 then root else root + [name] { }
  }

  /** Some name is longer than every exclusion, so a file of that name is not excluded. */
  lemma OneClearFile(excluded: set<Bytes>, root: Path) returns (tree: Entry, p: Path)
    requires !RootInsideExcluded(excluded, root)
    ensures p != [] && ValidTree(tree) && Reaches(tree, p) && Clear(excluded, root, p)
  {
    var name := LongName(excluded);
    tree, p := OneFile(name), [name];
    OneFileReached(name);
    AbsoluteIsLonger(root, name);
    if Absolute(root) in excluded { assert IsSameOrDescendant(Absolute(root), Absolute(root)); }
    ClearOneName(excluded, root, name);
  }

  lemma {:induction false} LongName(texts: set<Bytes>) returns (name: Bytes)
    ensures ValidName(name) && forall t :: t in texts ==> |t| < |name|
    decreases texts
  {
    if texts == {} {
      name := [97];
    } else {
      var t :| t in texts;
      var shorter := LongName(texts - {t});
      name := shorter + seq(|t| + 1, _ => 97 as Byte);
      assert shorter[0] in name;
    }
  }

  lemma AbsoluteIsLonger(root: Path, name: Bytes)
    ensures |Absolute(root + [name])| > |name|
  {
    if root != [] { JoinAppend(root, [name]); }
    assert root == [] ==> root + [name] == [name];
  }

  /** Excluding "/" and scanning /h hands over its files all the same. */
  lemma ExcludedSlashIsIgnored(name: Bytes)
    requires ValidName(name)
    ensures [name] in Delivered({ROOT_TEXT}, [[104]], OneFile(name), [])
    ensures !NoAncestorExcluded({ROOT_TEXT}, [[104], name])
    ensures !Honoured({ROOT_TEXT}, [[104]], OneFile(name))
  {
    var root: Path, p: Path := [[104]], [name];
    assert root + p == [[104], name] && Absolute((root + p)[..0]) == ROOT_TEXT;
    AbsoluteIsLonger(root, name);
    assert Absolute(root) == [SLASH, 104];
    OneFileReached(name);
    ClearOneName({ROOT_TEXT}, root, name);
    DirIsExact({ROOT_TEXT}, root, [], OneFile(name), p);
    assert [] + p == p && root + [] == root;
  }
}
