// The abstract side of the Aho-Corasick automaton: a set of labels closed under
// prefixes, the longest suffix of a word among them, and the signatures ending there.
module Tries {
  import opened ByteStrings

  predicate IsSuffix(s: Bytes, w: Bytes) {
    |s| <= |w| && w[|w| - |s|..] == s
  }

  /** Signature occurs contiguously in the text: the one-line meaning of a match. */
  ghost predicate Occurs(signature: Bytes, text: Bytes) {
    exists end: nat :: end <= |text| && IsSuffix(signature, text[..end])
  }

  /** Some non-empty signature occurs in the contents. */
  ghost predicate Infected(signatures: seq<Bytes>, contents: Bytes) {
    exists i :: 0 <= i < |signatures| && signatures[i] != [] && Occurs(signatures[i], contents)
  }

  function Init(w: Bytes): Bytes
    requires w != []
  {
    w[..|w| - 1]
  }

  function Last(w: Bytes): Byte
    requires w != []
  {
    w[|w| - 1]
  }

  /** labels[n] is the word read from the root to node n. */
  ghost predicate WellLabelled(labels: seq<Bytes>) {
    && |labels| > 0 && labels[0] == []
    && (forall m, n :: 0 <= m < n < |labels| ==> labels[m] != labels[n])
    && (forall n {:trigger Init(labels[n])} :: 0 < n < |labels| ==> labels[n] != [] && Init(labels[n]) in labels)
  }

  ghost function NodeOf(labels: seq<Bytes>, w: Bytes): (n: nat)
    requires w in labels
    ensures n < |labels| && labels[n] == w
  {
    var n :| 0 <= n < |labels| && labels[n] == w;
    n
  }

  /** The node of the longest suffix of w that is a label. */
  ghost function LongestSuffix(labels: seq<Bytes>, w: Bytes): (n: nat)
    requires [] in labels
    ensures n < |labels| && IsSuffix(labels[n], w)
    decreases |w|
  {
    if w in labels then NodeOf(labels, w)
    else
      assert w != [];
      LongestSuffix(labels, w[1..])
  }

  /** Every label that is a suffix of w is a suffix of the one chosen. */
  lemma {:induction false} LongestSuffixIsLongest(labels: seq<Bytes>, w: Bytes, s: Bytes)
    requires [] in labels && s in labels && IsSuffix(s, w)
    ensures IsSuffix(s, labels[LongestSuffix(labels, w)])
    decreases |w|
  {
    if w !in labels {
      assert |s| < |w|;
      assert w[1..][|w| - 1 - |s|..] == w[|w| - |s|..];
      LongestSuffixIsLongest(labels, w[1..], s);
    }
  }

  lemma {:induction false} PrefixClosed(labels: seq<Bytes>, w: Bytes, b: Byte)
    requires WellLabelled(labels) && w + [b] in labels
    ensures w in labels
  {
    var n := NodeOf(labels, w + [b]);
    assert Init(labels[n]) == w;
  }

  /** Reading one byte from the longest suffix of w is as good as reading it from w. */
  lemma {:induction false} StepFromSuffix(labels: seq<Bytes>, w: Bytes, b: Byte)
    requires WellLabelled(labels)
    ensures [] in labels
    ensures LongestSuffix(labels, labels[LongestSuffix(labels, w)] + [b]) == LongestSuffix(labels, w + [b])
    decreases |w|
  {
    assert labels[0] == [];
    if w !in labels {
      if w + [b] in labels { PrefixClosed(labels, w, b); }
      assert (w + [b])[1..] == w[1..] + [b];
      StepFromSuffix(labels, w[1..], b);
    }
  }

  // ----- signatures ending at a node -----

  /** Indexes below k of the non-empty signatures equal to w, in insertion order. */
  function Own(signatures: seq<Bytes>, k: nat, w: Bytes): (r: seq<nat>)
    requires k <= |signatures|
  {
    if k == 0 then []
    else if w != [] && signatures[k - 1] == w then Own(signatures, k - 1, w) + [k - 1]
    else Own(signatures, k - 1, w)
  }

  /** Own indexes first, then those inherited along the failure link. */
  ghost function Merged(labels: seq<Bytes>, signatures: seq<Bytes>, w: Bytes): seq<nat>
    requires [] in labels
    decreases |w|
  {
    if w == [] then []
    else
      Own(signatures, |signatures|, w) +
      Merged(labels, signatures, labels[LongestSuffix(labels, w[1..])])
  }

  ghost predicate NoDuplicates<T>(s: seq<T>) {
    forall i, j :: 0 <= i < j < |s| ==> s[i] != s[j]
  }

  lemma {:induction false} OwnIsExact(signatures: seq<Bytes>, k: nat, w: Bytes)
    requires k <= |signatures|
    ensures forall i :: i in Own(signatures, k, w) <==> 0 <= i < k && w != [] && signatures[i] == w
    ensures NoDuplicates(Own(signatures, k, w))
  {
    if k == 0 {
    } else {
      OwnIsExact(signatures, k - 1, w);
    }
  }

  /** The merged list holds each non-empty signature ending at w exactly once, and no other. */
  lemma {:induction false} MergedIsExact(labels: seq<Bytes>, signatures: seq<Bytes>, w: Bytes)
    requires WellLabelled(labels)
    requires forall i :: 0 <= i < |signatures| ==> signatures[i] in labels || signatures[i] == []
    ensures [] in labels
    ensures forall i :: i in Merged(labels, signatures, w) <==>
                          0 <= i < |signatures| && signatures[i] != [] && IsSuffix(signatures[i], w)
    ensures NoDuplicates(Merged(labels, signatures, w))
    decreases |w|
  {
    assert labels[0] == [];
    if w != [] {
      var shorter := labels[LongestSuffix(labels, w[1..])];
      var own, inherited := Own(signatures, |signatures|, w), Merged(labels, signatures, shorter);
      OwnIsExact(signatures, |signatures|, w);
      MergedIsExact(labels, signatures, shorter);
      forall i | 0 <= i < |signatures| && signatures[i] != []
        ensures IsSuffix(signatures[i], w) <==> signatures[i] == w || IsSuffix(signatures[i], shorter)
      {
        SuffixSplit(labels, w, signatures[i]);
      }
      assert forall i :: i in inherited ==> |signatures[i]| < |w|;
      DisjointConcat(own, inherited);
      assert forall i :: i in own + inherited <==> i in own || i in inherited;
    }
  }

  lemma DisjointConcat<T>(s: seq<T>, t: seq<T>)
    requires NoDuplicates(s) && NoDuplicates(t)
    requires forall x :: x in s ==> x !in t
    ensures NoDuplicates(s + t)
  {
    var u := s + t;
    forall i, j | 0 <= i < j < |u| ensures u[i] != u[j] {
      if i < |s| && |s| <= j {
        assert u[i] in s && u[j] == t[j - |s|];
      }
    }
  }

  lemma SuffixTransitive(s: Bytes, t: Bytes, w: Bytes)
    requires IsSuffix(s, t) && IsSuffix(t, w)
    ensures IsSuffix(s, w)
  {
    assert w[|w| - |s|..] == w[|w| - |t|..][|t| - |s|..];
  }

  lemma SuffixOfTail(s: Bytes, w: Bytes)
    requires w != []
    ensures IsSuffix(s, w) <==> s == w || IsSuffix(s, w[1..])
  {
    if |s| < |w| {
      assert w[1..][|w| - 1 - |s|..] == w[|w| - |s|..];
    }
  }

  lemma SuffixSplit(labels: seq<Bytes>, w: Bytes, s: Bytes)
    requires [] in labels && s in labels && w != []
    ensures IsSuffix(s, w) <==> s == w || IsSuffix(s, labels[LongestSuffix(labels, w[1..])])
  {
    SuffixOfTail(s, w);
    var shorter := labels[LongestSuffix(labels, w[1..])];
    if IsSuffix(s, w[1..]) {
      LongestSuffixIsLongest(labels, w[1..], s);
    }
    if IsSuffix(s, shorter) {
      SuffixTransitive(s, shorter, w[1..]);
    }
  }
}
