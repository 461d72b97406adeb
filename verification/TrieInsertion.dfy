// First half of the build: signatures are inserted one by one into the trie.
module TrieInsertion {
  import opened ByteStrings
  import opened Tries
  import opened Automata

  /** Walks or grows the path spelled by the signature, then records its index at the end. */
  method AddSignature(automaton: Automaton, signatures: seq<Bytes>, index: nat)
    requires index < |signatures|
    requires IsTrie(automaton.nodes, automaton.labels, signatures, index)
    modifies automaton`nodes, automaton`labels
    ensures IsTrie(automaton.nodes, automaton.labels, signatures, index + 1)
    ensures old(automaton.labels) <= automaton.labels
  {
    var signature := signatures[index];
    if signature == [] {
      SkipEmpty(automaton.nodes, automaton.labels, signatures, index);
      return;
    }
    var state: nat := 0;
    for j := 0 to |signature|
      invariant Growing(automaton.nodes, automaton.labels, signatures, index, j)
      invariant state < |automaton.nodes| && automaton.labels[state] == signature[..j]
      invariant old(automaton.labels) <= automaton.labels
    {
      state := ChildOrNew(automaton, signatures, index, j, state);
    }
    ghost var grown := automaton.nodes;
    automaton.nodes := automaton.nodes[state := automaton.nodes[state].(
      output := automaton.nodes[state].output + [index])];
    Record(grown, automaton.labels, signatures, index, state, automaton.nodes);
  }

  /** One step of the walk: the child for the next byte, created when missing. */
  method ChildOrNew(automaton: Automaton, signatures: seq<Bytes>, k: nat, j: nat, state: nat)
    returns (nextState: nat)
    requires k < |signatures| && j < |signatures[k]|
    requires Growing(automaton.nodes, automaton.labels, signatures, k, j)
    requires state < |automaton.nodes| && automaton.labels[state] == signatures[k][..j]
    modifies automaton`nodes, automaton`labels
    ensures Growing(automaton.nodes, automaton.labels, signatures, k, j + 1)
    ensures nextState < |automaton.nodes| && automaton.labels[nextState] == signatures[k][..j + 1]
    ensures old(automaton.labels) <= automaton.labels
  {
    var b := signatures[k][j];
    ghost var longer := signatures[k][..j + 1];
    assert longer == signatures[k][..j] + [b];
    assert TrieRow(automaton.nodes[state].next, automaton.labels, signatures[k][..j]);
    var target := automaton.nodes[state].next[b];
    assert TrieEdge(target, automaton.labels, signatures[k][..j], b);
    if target == MISSING {
      nextState := |automaton.nodes|;
      Grow(automaton.nodes, automaton.labels, signatures, k, j, state, Expand(automaton.nodes, state, b));
      automaton.nodes := Expand(automaton.nodes, state, b);
      automaton.labels := automaton.labels + [longer];
    } else {
      nextState := target;
      Descend(automaton.nodes, automaton.labels, signatures, k, j);
    }
  }

  /** Appends a fresh node and makes it the child of `state` for byte b. */
  function Expand(nodes: seq<AutomatonNode>, state: nat, b: Byte): seq<AutomatonNode>
    requires state < |nodes| && |nodes[state].next| == 256
  {
    nodes[state := WithEdge(nodes[state], b, |nodes|)] + [FreshNode()]
  }

  /** Trie of the first k signatures plus the first j bytes of signature k. */
  ghost predicate Growing(nodes: seq<AutomatonNode>, labels: seq<Bytes>, signatures: seq<Bytes>, k: nat, j: nat)
    requires k < |signatures| && j <= |signatures[k]|
  {
    && WellLabelled(labels) && |nodes| == |labels| && nodes[0].failureLink == 0
    && (forall n {:trigger nodes[n]} :: 0 <= n < |nodes| ==> TrieRow(nodes[n].next, labels, labels[n]))
    && (forall n {:trigger nodes[n]} :: 0 <= n < |nodes| ==> nodes[n].output == Own(signatures, k, labels[n]))
    && (forall w: Bytes :: w in labels <==> IsPrefixOfSome(signatures, k, w) || w <= signatures[k][..j])
  }

  lemma SkipEmpty(nodes: seq<AutomatonNode>, labels: seq<Bytes>, signatures: seq<Bytes>, k: nat)
    requires k < |signatures| && signatures[k] == []
    requires IsTrie(nodes, labels, signatures, k)
    ensures IsTrie(nodes, labels, signatures, k + 1)
  {
    forall w: Bytes ensures w in labels <==> IsPrefixOfSome(signatures, k + 1, w) {
      if w != [] { assert !(w <= signatures[k]); }
    }
  }

  lemma Descend(nodes: seq<AutomatonNode>, labels: seq<Bytes>, signatures: seq<Bytes>, k: nat, j: nat)
    requires k < |signatures| && j < |signatures[k]|
    requires Growing(nodes, labels, signatures, k, j) && signatures[k][..j + 1] in labels
    ensures Growing(nodes, labels, signatures, k, j + 1)
  {
    var longer := signatures[k][..j + 1];
    assert !(longer <= signatures[k][..j]);
    forall w: Bytes ensures w in labels <==> IsPrefixOfSome(signatures, k, w) || w <= longer {
      PrefixOfLonger(signatures[k], j, w);
    }
  }

  lemma PrefixOfLonger(s: Bytes, j: nat, w: Bytes)
    requires j < |s|
    ensures w <= s[..j + 1] <==> w <= s[..j] || w == s[..j + 1]
  {
    if w <= s[..j + 1] && w != s[..j + 1] {
      assert |w| <= j;
      assert w == s[..j + 1][..|w|] == s[..j][..|w|];
    }
    if w <= s[..j] {
      assert w == s[..j][..|w|] == s[..j + 1][..|w|];
    }
  }

  lemma Grow(nodes: seq<AutomatonNode>, labels: seq<Bytes>, signatures: seq<Bytes>, k: nat, j: nat,
             state: nat, grown: seq<AutomatonNode>)
    requires k < |signatures| && j < |signatures[k]|
    requires Growing(nodes, labels, signatures, k, j)
    requires state < |nodes| && labels[state] == signatures[k][..j]
    requires signatures[k][..j + 1] !in labels
    requires TrieRow(nodes[state].next, labels, labels[state])
    requires grown == Expand(nodes, state, signatures[k][j])
    ensures Growing(grown, labels + [signatures[k][..j + 1]], signatures, k, j + 1)
  {
    var b, longer := signatures[k][j], signatures[k][..j + 1];
    var labels' := labels + [longer];
    assert longer == labels[state] + [b];
    GrowLabels(labels, state, b);
    forall n | 0 <= n < |grown| ensures TrieRow(grown[n].next, labels', labels'[n]) {
      GrowRow(nodes, labels, state, b, n, grown);
    }
    GrowOutputs(nodes, labels, signatures, k, j, state, grown);
    GrowPrefixes(labels, signatures, k, j);
  }

  lemma GrowPrefixes(labels: seq<Bytes>, signatures: seq<Bytes>, k: nat, j: nat)
    requires k < |signatures| && j < |signatures[k]|
    requires forall w: Bytes :: w in labels <==> IsPrefixOfSome(signatures, k, w) || w <= signatures[k][..j]
    ensures forall w: Bytes :: w in labels + [signatures[k][..j + 1]] <==>
                                 IsPrefixOfSome(signatures, k, w) || w <= signatures[k][..j + 1]
  {
    var longer := signatures[k][..j + 1];
    forall w: Bytes
      ensures w in labels + [longer] <==> IsPrefixOfSome(signatures, k, w) || w <= longer
    {
      assert w in labels + [longer] <==> w in labels || w == longer;
      PrefixOfLonger(signatures[k], j, w);
    }
  }

  lemma GrowLabels(labels: seq<Bytes>, state: nat, b: Byte)
    requires WellLabelled(labels) && state < |labels| && labels[state] + [b] !in labels
    ensures WellLabelled(labels + [labels[state] + [b]])
  {
    var longer := labels[state] + [b];
    var labels' := labels + [longer];
    assert Init(longer) == labels[state];
    forall n | 0 < n < |labels'| ensures labels'[n] != [] && Init(labels'[n]) in labels' {
      if n < |labels| { assert Init(labels[n]) in labels; }
    }
  }

  lemma GrowOutputs(nodes: seq<AutomatonNode>, labels: seq<Bytes>, signatures: seq<Bytes>, k: nat, j: nat,
                    state: nat, grown: seq<AutomatonNode>)
    requires k < |signatures| && j < |signatures[k]|
    requires Growing(nodes, labels, signatures, k, j)
    requires state < |nodes| && labels[state] == signatures[k][..j]
    requires signatures[k][..j + 1] !in labels
    requires TrieRow(nodes[state].next, labels, labels[state])
    requires grown == Expand(nodes, state, signatures[k][j])
    ensures forall n :: 0 <= n < |grown| ==>
                          grown[n].output == Own(signatures, k, (labels + [signatures[k][..j + 1]])[n])
  {
    forall i | 0 <= i < k ensures signatures[i] in labels {
      assert IsPrefixOfSome(signatures, k, signatures[i]);
    }
    OwnOfNewLabel(labels, signatures, k, signatures[k][..j + 1]);
  }

  lemma GrowRow(nodes: seq<AutomatonNode>, labels: seq<Bytes>, state: nat, b: Byte, n: nat, grown: seq<AutomatonNode>)
    requires WellLabelled(labels) && |nodes| == |labels| && state < |nodes| && n <= |nodes|
    requires forall m {:trigger nodes[m]} :: 0 <= m < |nodes| ==> TrieRow(nodes[m].next, labels, labels[m])
    requires labels[state] + [b] !in labels
    requires |nodes[state].next| == 256
    requires grown == Expand(nodes, state, b)
    ensures var labels' := labels + [labels[state] + [b]];
            [] in labels' && TrieRow(grown[n].next, labels', labels'[n])
  {
    var longer := labels[state] + [b];
    var labels' := labels + [longer];
    assert labels'[0] == [];
    forall c: Byte ensures TrieEdge(grown[n].next[c], labels', labels'[n], c) {
      var w := labels'[n] + [c];
      assert Init(w) == labels'[n] && Last(w) == c && Init(longer) == labels[state] && Last(longer) == b;
      if n == |nodes| {
        if w in labels { PrefixClosed(labels, longer, c); }
        assert |w| != |longer|;
      } else {
        assert TrieEdge(nodes[n].next[c], labels, labels[n], c);
        if w == longer {
          assert labels[n] == labels[state];
          assert n == state && c == b;
        }
      }
    }
  }

  lemma {:induction false} OwnOfNewLabel(labels: seq<Bytes>, signatures: seq<Bytes>, k: nat, w: Bytes)
    requires k <= |signatures| && w !in labels
    requires forall i :: 0 <= i < k ==> signatures[i] in labels
    ensures Own(signatures, k, w) == []
  {
    if k == 0 {
    } else {
      OwnOfNewLabel(labels, signatures, k - 1, w);
    }
  }

  lemma Record(nodes: seq<AutomatonNode>, labels: seq<Bytes>, signatures: seq<Bytes>, k: nat,
               state: nat, recorded: seq<AutomatonNode>)
    requires k < |signatures| && signatures[k] != []
    requires Growing(nodes, labels, signatures, k, |signatures[k]|)
    requires state < |nodes| && labels[state] == signatures[k]
    requires recorded == nodes[state := nodes[state].(output := nodes[state].output + [k])]
    ensures IsTrie(recorded, labels, signatures, k + 1)
  {
    var s := signatures[k];
    assert s[..|s|] == s;
    forall w: Bytes ensures w in labels <==> IsPrefixOfSome(signatures, k + 1, w) {
      assert w in labels <==> IsPrefixOfSome(signatures, k, w) || w <= s;
    }
    forall n | 0 <= n < |recorded| ensures recorded[n].output == Own(signatures, k + 1, labels[n]) {
      assert nodes[n].output == Own(signatures, k, labels[n]);
      if n != state { assert labels[n] != labels[state]; }
    }
    forall n | 0 <= n < |recorded| ensures TrieRow(recorded[n].next, labels, labels[n]) {
      assert recorded[n].next == nodes[n].next;
    }
  }
}
