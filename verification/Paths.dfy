// Paths as sequences of names, their slash-joined text, and the two orders on them:
// component by component (the walk) and byte by byte (std::set<std::string>).
module Paths {
  import opened ByteStrings

  type Path = seq<Bytes>

  const SLASH: Byte := 47

  /** A file name as the kernel allows it: not empty and free of slashes. */
  predicate ValidName(name: Bytes) {
    name != [] && SLASH !in name
  }

  predicate ValidPath(p: Path) {
    forall i :: 0 <= i < |p| ==> ValidName(p[i])
  }

  /** generic_string() of a relative path. */
  function Join(p: Path): Bytes {
    if p == [] then []
    else if |p| == 1 then p[0]
    else p[0] + [SLASH] + Join(p[1..])
  }

  /** generic_string() of an absolute path: every component behind its slash. */
  function Absolute(p: Path): Bytes {
    if p == [] then [SLASH] else [SLASH] + Join(p)
  }

  /**
   * Iteration over an fs::path built from text without leading or doubled slashes: the
   * pieces between slashes, with an empty last piece after a trailing one.
   */
  function Split(text: Bytes): Path {
    if text == [] then [] else Pieces(text)
  }

  function Pieces(text: Bytes): (r: Path)
    ensures r != []
  {
    if text == [] then [[]]
    else if text[0] == SLASH then [[]] + Pieces(text[1..])
    else
      var rest := Pieces(text[1..]);
      [[text[0]] + rest[0]] + rest[1..]
  }

  lemma {:induction false} PiecesOfName(name: Bytes, rest: Bytes)
    requires SLASH !in name
    ensures Pieces(name) == [name]
    ensures Pieces(name + [SLASH] + rest) == [name] + Pieces(rest)
  {
    var whole := name + [SLASH] + rest;
    if name == [] {
      assert whole == [SLASH] + rest;
    } else {
      assert name == [name[0]] + name[1..];
      assert whole[1..] == name[1..] + [SLASH] + rest;
      PiecesOfName(name[1..], rest);
    }
  }

  /** A path survives being written as text and read back. */
  lemma {:induction false} SplitJoin(p: Path)
    requires ValidPath(p)
    ensures Split(Join(p)) == p
  {
    if |p| == 1 {
      PiecesOfName(p[0], []);
    } else if |p| > 1 {
      PiecesOfName(p[0], Join(p[1..]));
      SplitJoin(p[1..]);
      JoinNotEmpty(p[1..]);
      assert p == [p[0]] + p[1..];
    }
  }

  lemma JoinNotEmpty(p: Path)
    requires ValidPath(p) && p != []
    ensures Join(p) != []
  {
    assert ValidName(p[0]);
  }

  lemma JoinInjective(p: Path, q: Path)
    requires ValidPath(p) && ValidPath(q) && Join(p) == Join(q)
    ensures p == q
  {
    SplitJoin(p);
    SplitJoin(q);
  }

  // ----- component order -----

  /** p leaves q's path to the left: at the first component where they differ, p's is smaller. */
  predicate Before(p: Path, q: Path) {
    && p != [] && q != []
    && (Less(p[0], q[0]) || (p[0] == q[0] && Before(p[1..], q[1..])))
  }

  lemma {:induction false} BeforeIrreflexive(p: Path)
    ensures !Before(p, p)
  {
    if p == [] {
    } else {
      LessIrreflexive(p[0]);
      BeforeIrreflexive(p[1..]);
    }
  }

  lemma {:induction false} BeforeTransitive(p: Path, q: Path, r: Path)
    requires Before(p, q) && Before(q, r)
    ensures Before(p, r)
  {
    if Less(p[0], q[0]) {
      if Less(q[0], r[0]) { LessTransitive(p[0], q[0], r[0]); }
    } else if p[0] == q[0] == r[0] {
      if !Less(q[0], r[0]) { BeforeTransitive(p[1..], q[1..], r[1..]); }
    }
  }

  lemma {:induction false} BeforeAfterPrefix(prefix: Path, p: Path, q: Path)
    ensures Before(prefix + p, prefix + q) == Before(p, q)
  {
    if prefix == [] {
      assert prefix + p == p && prefix + q == q;
    } else {
      LessIrreflexive(prefix[0]);
      assert (prefix + p)[1..] == prefix[1..] + p && (prefix + q)[1..] == prefix[1..] + q;
      BeforeAfterPrefix(prefix[1..], p, q);
    }
  }

  // ----- a shortened checkpoint text never skips more -----

  /** s is w cut short: same components, of which the last may be incomplete. */
  predicate Shortens(s: Path, w: Path) {
    && 0 < |s| <= |w|
    && if |s| == 1 then s[0] <= w[0] else s[0] == w[0] && Shortens(s[1..], w[1..])
  }

  lemma {:induction false} PiecesOfPrefix(text: Bytes, whole: Bytes)
    requires text <= whole
    ensures Shortens(Pieces(text), Pieces(whole))
  {
    if text == [] {
    } else {
      PiecesOfPrefix(text[1..], whole[1..]);
      var s, w := Pieces(text[1..]), Pieces(whole[1..]);
      if text[0] == SLASH {
        assert ([[]] + s)[1..] == s && ([[]] + w)[1..] == w;
      } else {
        assert Pieces(text)[1..] == s[1..] && Pieces(whole)[1..] == w[1..];
      }
    }
  }

  lemma {:induction false} BeforeShortened(p: Path, s: Path, w: Path)
    requires Shortens(s, w) && Before(p, s)
    ensures Before(p, w)
  {
    if |s| > 1 && !Less(p[0], s[0]) {
      BeforeShortened(p[1..], s[1..], w[1..]);
    } else if s[0] != w[0] {
      PrefixSortsFirst(s[0], w[0]);
      LessTransitive(p[0], s[0], w[0]);
    }
  }

  /** Resuming from a prefix of a checkpoint skips no file the checkpoint would not. */
  lemma PrefixSkipsLess(p: Path, text: Bytes, whole: Bytes)
    requires text <= whole && Before(p, Split(text))
    ensures Before(p, Split(whole))
  {
    PiecesOfPrefix(text, whole);
    BeforeShortened(p, Pieces(text), Pieces(whole));
  }

  // ----- where the byte order of joined paths departs from the component order -----

  /**
   * A directory on p's path and the entry beside it on q's path, where q's name is the
   * directory's name continued by a byte that sorts below the slash.
   */
  predicate Clash(p: Path, q: Path) {
    && p != [] && q != []
    && ((|p| > 1 && p[0] < q[0] && q[0][|p[0]|] < SLASH)
        || (p[0] == q[0] && Clash(p[1..], q[1..])))
  }

  /** The two orders disagree on p and q exactly when such a pair of names is involved. */
  lemma {:induction false} OrdersDisagreeIffClash(p: Path, q: Path)
    requires ValidPath(p) && ValidPath(q)
    ensures Before(p, q) && Less(Join(q), Join(p)) <==> Clash(p, q)
    decreases |p|, 1
  {
    if p == [] || q == [] {
      return;
    }
    assert ValidName(p[0]) && ValidName(q[0]);
    var x, y := Join(p), Join(q);
    LessIrreflexive(p[0]);
    if p[0] == q[0] {
      SameFirstName(p, q);
    } else if p[0] < q[0] {
      PrefixSortsFirst(p[0], q[0]);
      DirectoryAgainstLonger(p, q);
    } else if q[0] < p[0] {
      PrefixSortsFirst(q[0], p[0]);
      LessAsymmetric(q[0], p[0]);
    } else {
      var tp := if |p| == 1 then [] else [SLASH] + Join(p[1..]);
      var tq := if |q| == 1 then [] else [SLASH] + Join(q[1..]);
      assert x == p[0] + tp && y == q[0] + tq;
      LessBeforeSuffix(q[0], p[0], tq, tp);
      if Less(p[0], q[0]) { LessAsymmetric(p[0], q[0]); }
    }
  }

  /** Without a clash the byte order follows the walk order. */
  lemma OrdersAgree(p: Path, q: Path)
    requires ValidPath(p) && ValidPath(q) && Before(p, q) && !Clash(p, q)
    ensures Less(Join(p), Join(q))
  {
    OrdersDisagreeIffClash(p, q);
    LessTotal(Join(p), Join(q));
    BeforeIrreflexive(p);
    if Join(p) == Join(q) { JoinInjective(p, q); }
  }

  lemma SameFirstName(p: Path, q: Path)
    requires p != [] && q != [] && p[0] == q[0] && ValidPath(p) && ValidPath(q)
    requires ValidPath(p[1..]) && ValidPath(q[1..])
    ensures Before(p, q) && Less(Join(q), Join(p)) <==> Clash(p, q)
    decreases |p|, 0
  {
    LessIrreflexive(p[0]);
    OrdersDisagreeIffClash(p[1..], q[1..]);
    if |p| > 1 && |q| > 1 {
      var head := p[0] + [SLASH];
      assert Join(p) == head + Join(p[1..]) && Join(q) == head + Join(q[1..]);
      LessAfterPrefix(head, Join(q[1..]), Join(p[1..]));
    }
  }

  /** p continues below a directory whose name q's entry continues. */
  lemma DirectoryAgainstLonger(p: Path, q: Path)
    requires p != [] && q != [] && p[0] < q[0] && ValidPath(p) && ValidPath(q)
    ensures Less(Join(q), Join(p)) <==> |p| > 1 && q[0][|p[0]|] < SLASH
  {
    var name := p[0];
    assert ValidName(q[0]);
    var tq := Join(q)[|name|..];
    assert Join(q)[..|q[0]|] == q[0];
    assert Join(q) == name + tq && tq[0] == q[0][|name|];
    if |p| == 1 {
      assert Join(p) == name + [];
      LessAfterPrefix(name, tq, []);
    } else {
      var tp := [SLASH] + Join(p[1..]);
      assert Join(p) == name + tp;
      LessAfterPrefix(name, tq, tp);
      assert tq[0] in q[0];
    }
  }
}
