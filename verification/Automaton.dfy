// The automaton's states and what the trie and the finished automaton look like.
module Automata {
  import opened ByteStrings
  import opened Tries

  const MISSING: int := -1

  /** One state. next[b] is MISSING until the breadth-first pass fills it. */
  datatype AutomatonNode = AutomatonNode(next: seq<int>, failureLink: int, output: seq<nat>)

  function FreshNode(): AutomatonNode {
    AutomatonNode(seq(256, _ => MISSING), 0, [])
  }

  function WithEdge(node: AutomatonNode, b: Byte, target: int): AutomatonNode
    requires |node.next| == 256
  {
    AutomatonNode(node.next[b := target], node.failureLink, node.output)
  }

  // ----- what a row of transitions may hold before and after the pass -----

  /** A trie edge: the child's node, or MISSING when no label extends this one by b. */
  ghost predicate TrieEdge(target: int, labels: seq<Bytes>, w: Bytes, b: Byte) {
    if target == MISSING then w + [b] !in labels
    else 0 < target < |labels| && labels[target] == w + [b]
  }

  ghost predicate TrieRow(next: seq<int>, labels: seq<Bytes>, w: Bytes) {
    |next| == 256 && forall b: Byte :: TrieEdge(next[b], labels, w, b)
  }

  /** Labels are the prefixes of the first k signatures, and outputs their own indices. */
  ghost predicate IsTrie(nodes: seq<AutomatonNode>, labels: seq<Bytes>, signatures: seq<Bytes>, k: nat)
    requires k <= |signatures|
  {
    && WellLabelled(labels) && |nodes| == |labels| && nodes[0].failureLink == 0
    && (forall n {:trigger nodes[n]} :: 0 <= n < |nodes| ==> TrieRow(nodes[n].next, labels, labels[n]))
    && (forall n {:trigger nodes[n]} :: 0 <= n < |nodes| ==> nodes[n].output == Own(signatures, k, labels[n]))
    && (forall w: Bytes :: w in labels <==> IsPrefixOfSome(signatures, k, w))
  }

  ghost predicate IsPrefixOfSome(signatures: seq<Bytes>, k: nat, w: Bytes)
    requires k <= |signatures|
  {
    w == [] || exists i :: 0 <= i < k && w <= signatures[i]
  }

  /**
   * The finished automaton: every transition and failure link leads to the longest
   * suffix in the trie, every output lists exactly the signatures ending there.
   */
  ghost predicate IsAhoCorasick(nodes: seq<AutomatonNode>, labels: seq<Bytes>, signatures: seq<Bytes>) {
    && WellLabelled(labels) && |nodes| == |labels|
    && (forall w: Bytes :: w in labels <==> IsPrefixOfSome(signatures, |signatures|, w))
    && (forall n {:trigger Finished(nodes[n], labels, signatures, labels[n])} :: 0 <= n < |nodes| ==>
          Finished(nodes[n], labels, signatures, labels[n]))
  }

  ghost predicate Finished(node: AutomatonNode, labels: seq<Bytes>, signatures: seq<Bytes>, w: Bytes)
    requires [] in labels
  {
    && |node.next| == 256
    && (forall b: Byte :: node.next[b] == LongestSuffix(labels, w + [b]))
    && node.output == Merged(labels, signatures, w)
    && (w != [] ==> node.failureLink == LongestSuffix(labels, w[1..]))
  }

  class Automaton {
    var nodes: seq<AutomatonNode>
    var signatureCount: nat
    var built: bool
    // The word spelled by the path to each node.
    ghost var labels: seq<Bytes>

    constructor ()
      ensures IsTrie(nodes, labels, [], 0) && signatureCount == 0 && !built
    {
      nodes := [FreshNode()];
      labels := [[]];
      signatureCount := 0;
      built := false;
    }

    ghost predicate BuiltFor(signatures: seq<Bytes>)
      reads this
    {
      built && IsAhoCorasick(nodes, labels, signatures)
    }

    function Step(state: nat, b: Byte): int
      requires state < |nodes| && |nodes[state].next| == 256
      reads this
    {
      nodes[state].next[b]
    }

    function Outputs(state: nat): seq<nat>
      requires state < |nodes|
      reads this
    {
      nodes[state].output
    }
  }
}
