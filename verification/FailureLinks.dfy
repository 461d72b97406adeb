// Second half of the build: one breadth-first pass completes the transitions, sets
// the failure links and merges the outputs, all in place.
module FailureLinks {
  import opened ByteStrings
  import opened Tries
  import opened Automata

  // `order` lists the root and then every node in the order it entered the queue;
  // the first h of them are processed and the next one is done with bytes below `upto`.

  ghost predicate Expanded(labels: seq<Bytes>, order: seq<nat>, h: nat, upto: nat, n: nat)
    requires h <= |order| && n < |labels| && labels[n] != [] && Init(labels[n]) in labels
  {
    var parent := NodeOf(labels, Init(labels[n]));
    parent in order[..h] || (h < |order| && parent == order[h] && Last(labels[n]) < upto)
  }

  /** Queue discipline: no node twice, depths ascending, and exactly the expanded nodes queued. */
  ghost predicate Frontier(labels: seq<Bytes>, order: seq<nat>, h: nat, upto: nat) {
    && WellLabelled(labels)
    && 0 < |order| && order[0] == 0 && h <= |order| && NoDuplicates(order)
    && (forall i :: 0 <= i < |order| ==> order[i] < |labels|)
    && (forall i, j :: 0 <= i < j < |order| ==> |labels[order[i]]| <= |labels[order[j]]|)
    && (h < |order| ==> forall i :: 0 <= i < |order| ==> |labels[order[i]]| <= |labels[order[h]]| + 1)
    && (forall n :: 0 < n < |labels| ==> (n in order <==> Expanded(labels, order, h, upto, n)))
  }

  lemma FinalNode(labels: seq<Bytes>, signatures: seq<Bytes>, w: Bytes) returns (node: AutomatonNode)
    requires [] in labels
    ensures Finished(node, labels, signatures, w) && (w == [] ==> node.failureLink == 0)
  {
    node := AutomatonNode(
      seq(256, (b: int) requires 0 <= b < 256 => LongestSuffix(labels, w + [b])),
      if w == [] then 0 else LongestSuffix(labels, w[1..]),
      Merged(labels, signatures, w));
  }

  /** A node on its way: `progress` transitions rewritten, link and outputs set once queued. */
  ghost function Partway(before: AutomatonNode, after: AutomatonNode, progress: nat, queued: bool): AutomatonNode
    requires |before.next| == |after.next| == 256 && progress <= 256
  {
    AutomatonNode(
      after.next[..progress] + before.next[progress..],
      if queued then after.failureLink else before.failureLink,
      if queued then after.output else before.output)
  }

  ghost function Progress(order: seq<nat>, h: nat, upto: nat, n: nat): (p: nat)
    requires h <= |order| && upto <= 256
    ensures p <= 256
  {
    if n in order[..h] then 256 else if h < |order| && n == order[h] then upto else 0
  }

  ghost predicate Rows(nodes: seq<AutomatonNode>) {
    forall n {:trigger nodes[n]} :: 0 <= n < |nodes| ==> |nodes[n].next| == 256
  }

  /** What the in-place rewriting has achieved: every node is part way from trie to goal. */
  ghost predicate Rewritten(nodes: seq<AutomatonNode>, trie: seq<AutomatonNode>, goal: seq<AutomatonNode>,
                            order: seq<nat>, h: nat, upto: nat)
  {
    && |nodes| == |trie| == |goal| && Rows(trie) && Rows(goal) && h <= |order| && upto <= 256
    && (forall n {:trigger nodes[n]} :: 0 <= n < |nodes| ==>
                      nodes[n] == Partway(trie[n], goal[n], Progress(order, h, upto, n), n in order))
  }

  lemma FrontierSkip(labels: seq<Bytes>, order: seq<nat>, h: nat, b: Byte)
    requires Frontier(labels, order, h, b) && h < |order|
    requires labels[order[h]] + [b] !in labels
    ensures Frontier(labels, order, h, b + 1)
  {
    forall n | 0 < n < |labels| ensures n in order <==> Expanded(labels, order, h, b + 1, n) {
      assert labels[n] == Init(labels[n]) + [Last(labels[n])];
      assert Expanded(labels, order, h, b, n) == Expanded(labels, order, h, b + 1, n);
    }
  }

  lemma FrontierPush(labels: seq<Bytes>, order: seq<nat>, h: nat, b: Byte, child: nat)
    requires Frontier(labels, order, h, b) && h < |order|
    requires 0 < child < |labels| && labels[child] == labels[order[h]] + [b]
    ensures child !in order
    ensures Frontier(labels, order + [child], h, b + 1)
  {
    assert Init(labels[child]) == labels[order[h]] && Last(labels[child]) == b;
    assert order[h] !in order[..h];
    assert !Expanded(labels, order, h, b, child);
    PushExpands(labels, order, h, b, child);
  }

  lemma PushExpands(labels: seq<Bytes>, order: seq<nat>, h: nat, b: Byte, child: nat)
    requires Frontier(labels, order, h, b) && h < |order|
    requires 0 < child < |labels| && labels[child] == labels[order[h]] + [b]
    ensures forall n :: 0 < n < |labels| ==>
                          (n in order + [child] <==> Expanded(labels, order + [child], h, b + 1, n))
  {
    var order' := order + [child];
    assert Init(labels[child]) == labels[order[h]] && Last(labels[child]) == b;
    assert order'[..h] == order[..h] && order'[h] == order[h];
    forall n | 0 < n < |labels| ensures n in order' <==> Expanded(labels, order', h, b + 1, n) {
      assert labels[n] == Init(labels[n]) + [Last(labels[n])];
      assert Expanded(labels, order', h, b + 1, n) <==> Expanded(labels, order, h, b, n) || n == child;
    }
  }

  lemma FrontierNext(labels: seq<Bytes>, order: seq<nat>, h: nat)
    requires Frontier(labels, order, h, 256) && h < |order|
    ensures Frontier(labels, order, h + 1, 0)
  {
    assert order[..h + 1] == order[..h] + [order[h]];
    forall n | 0 < n < |labels| ensures n in order <==> Expanded(labels, order, h + 1, 0, n) {
      assert Expanded(labels, order, h, 256, n) == Expanded(labels, order, h + 1, 0, n);
    }
  }

  /** Breadth-first order: every node no deeper than the current one has entered the queue. */
  lemma {:induction false} ShallowerIsQueued(labels: seq<Bytes>, order: seq<nat>, h: nat, upto: nat, n: nat)
    requires Frontier(labels, order, h, upto) && n < |labels|
    requires h < |order| ==> |labels[n]| <= |labels[order[h]]|
    ensures n in order
    decreases |labels[n]|
  {
    if n != 0 {
      var parent := NodeOf(labels, Init(labels[n]));
      ShallowerIsQueued(labels, order, h, upto, parent);
      var i :| 0 <= i < |order| && order[i] == parent;
      assert i < h;
      assert order[..h][i] == parent;
      assert Expanded(labels, order, h, upto, n);
    }
  }

  /** ... and every strictly shallower one has been processed. */
  lemma ShallowerIsProcessed(labels: seq<Bytes>, order: seq<nat>, h: nat, upto: nat, n: nat)
    requires Frontier(labels, order, h, upto) && h < |order|
    requires n < |labels| && |labels[n]| < |labels[order[h]]|
    ensures n in order[..h]
  {
    ShallowerIsQueued(labels, order, h, upto, n);
    var i :| 0 <= i < |order| && order[i] == n;
    assert i < h;
    assert order[..h][i] == n;
  }

  // ----- the goal satisfies the recurrences the pass computes by -----

  ghost predicate IsGoal(goal: seq<AutomatonNode>, labels: seq<Bytes>, signatures: seq<Bytes>) {
    && WellLabelled(labels) && |goal| == |labels| && Rows(goal)
    && (forall n {:trigger Finished(goal[n], labels, signatures, labels[n])} :: 0 <= n < |goal| ==>
          Finished(goal[n], labels, signatures, labels[n]))
    && goal[0].failureLink == 0
  }

  /** A node without a child for b goes where its failure node goes. */
  lemma MissingEdge(labels: seq<Bytes>, w: Bytes, b: Byte)
    requires WellLabelled(labels) && w + [b] !in labels
    ensures [] in labels
    ensures w == [] ==> LongestSuffix(labels, w + [b]) == 0
    ensures w != [] ==>
              var failure := LongestSuffix(labels, w[1..]);
              |labels[failure]| < |w| && LongestSuffix(labels, w + [b]) == LongestSuffix(labels, labels[failure] + [b])
  {
    assert labels[0] == [];
    if w == [] {
      assert (w + [b])[1..] == [];
    } else {
      assert (w + [b])[1..] == w[1..] + [b];
      StepFromSuffix(labels, w[1..], b);
    }
  }

  lemma NodeOfItsLabel(labels: seq<Bytes>, n: nat)
    requires WellLabelled(labels) && n < |labels|
    ensures [] in labels && LongestSuffix(labels, labels[n]) == n
  {
    assert labels[0] == [];
  }

  /** A child's failure link is where its parent's failure node goes. */
  lemma ChildFailure(labels: seq<Bytes>, w: Bytes, b: Byte)
    requires WellLabelled(labels) && w != []
    ensures [] in labels
    ensures var failure := LongestSuffix(labels, w[1..]);
            && |labels[failure]| < |w|
            && LongestSuffix(labels, (w + [b])[1..]) == LongestSuffix(labels, labels[failure] + [b])
  {
    assert (w + [b])[1..] == w[1..] + [b];
    StepFromSuffix(labels, w[1..], b);
  }

  /** The goal's version of a child edge below the root. */
  lemma ChildGoal(goal: seq<AutomatonNode>, labels: seq<Bytes>, signatures: seq<Bytes>, n: nat, b: Byte, child: nat)
    requires IsGoal(goal, labels, signatures) && n < |labels| && labels[n] != []
    requires child < |labels| && labels[child] == labels[n] + [b]
    ensures goal[n].next[b] == child
    ensures var failure := goal[n].failureLink;
            && 0 <= failure < |goal| && |labels[failure]| < |labels[n]|
            && var target := goal[failure].next[b];
            && 0 <= target < |goal| && |labels[target]| <= |labels[n]|
            && goal[child].failureLink == target
            && goal[child].output == Own(signatures, |signatures|, labels[child]) + goal[target].output
  {
    NodeOfItsLabel(labels, child);
    ChildFailure(labels, labels[n], b);
    var w, c := labels[n], labels[child];
    assert c != [] && c[1..] == (w + [b])[1..];
    var failure := goal[n].failureLink;
    assert Finished(goal[n], labels, signatures, w) && Finished(goal[child], labels, signatures, c);
    assert Finished(goal[failure], labels, signatures, labels[failure]);
    var target := goal[failure].next[b];
    assert target == LongestSuffix(labels, labels[failure] + [b]);
    assert Finished(goal[target], labels, signatures, labels[target]);
    assert Merged(labels, signatures, c) ==
           Own(signatures, |signatures|, c) + Merged(labels, signatures, labels[LongestSuffix(labels, c[1..])]);
  }

  lemma RootChildGoal(labels: seq<Bytes>, signatures: seq<Bytes>, b: Byte, child: nat)
    requires WellLabelled(labels) && child < |labels| && labels[child] == labels[0] + [b]
    ensures [] in labels && labels[child] != []
    ensures LongestSuffix(labels, labels[0] + [b]) == child && LongestSuffix(labels, labels[child][1..]) == 0
    ensures Merged(labels, signatures, labels[child]) == Own(signatures, |signatures|, labels[child])
  {
    NodeOfItsLabel(labels, child);
    NodeOfItsLabel(labels, 0);
    assert labels[child] != [] && labels[child][1..] == labels[0];
    OutputsBelowRoot(labels, signatures, labels[child]);
  }

  lemma OutputsBelowRoot(labels: seq<Bytes>, signatures: seq<Bytes>, w: Bytes)
    requires [] in labels && |w| == 1
    ensures Merged(labels, signatures, w) == Own(signatures, |signatures|, w)
  {
    var own := Own(signatures, |signatures|, w);
    assert labels[LongestSuffix(labels, w[1..])] == [];
    assert own + [] == own;
  }

  // ----- one byte of one row -----

  lemma Fill(nodes: seq<AutomatonNode>, trie: seq<AutomatonNode>, goal: seq<AutomatonNode>,
             order: seq<nat>, h: nat, b: Byte)
    requires Rewritten(nodes, trie, goal, order, h, b)
    requires h < |order| && order[h] !in order[..h] && order[h] < |nodes|
    ensures |nodes[order[h]].next| == 256 && nodes[order[h]].next[b] == trie[order[h]].next[b]
    ensures Rewritten(nodes[order[h] := WithEdge(nodes[order[h]], b, goal[order[h]].next[b])],
                      trie, goal, order, h, b + 1)
  {
    var state := order[h];
    var row := goal[state].next[..b] + trie[state].next[b..];
    assert nodes[state].next == row;
    assert row[b := goal[state].next[b]] == goal[state].next[..b + 1] + trie[state].next[b + 1..];
  }

  lemma Link(nodes: seq<AutomatonNode>, trie: seq<AutomatonNode>, goal: seq<AutomatonNode>,
             order: seq<nat>, h: nat, b: Byte, child: nat, linked: AutomatonNode)
    requires Rewritten(nodes, trie, goal, order, h, b)
    requires h < |order| && order[h] !in order[..h] && order[h] < |nodes|
    requires child < |nodes| && child !in order
    requires trie[order[h]].next[b] == goal[order[h]].next[b]
    requires linked.next == nodes[child].next
    requires linked.failureLink == goal[child].failureLink && linked.output == goal[child].output
    ensures Rewritten(nodes[child := linked], trie, goal, order + [child], h, b + 1)
  {
    var state := order[h];
    Fill(nodes, trie, goal, order, h, b);
    assert WithEdge(nodes[state], b, goal[state].next[b]) == nodes[state];
    assert nodes[state := nodes[state]] == nodes;
    var order' := order + [child];
    assert order'[..h] == order[..h] && order'[h] == order[h];
    forall n | 0 <= n < |nodes|
      ensures nodes[child := linked][n] ==
              Partway(trie[n], goal[n], Progress(order', h, b + 1, n), n in order')
    {
      assert Progress(order', h, b + 1, n) == Progress(order, h, b + 1, n);
    }
  }

  lemma NextRowRewritten(nodes: seq<AutomatonNode>, trie: seq<AutomatonNode>, goal: seq<AutomatonNode>,
                         order: seq<nat>, h: nat)
    requires h < |order| && NoDuplicates(order)
    requires Rewritten(nodes, trie, goal, order, h, 256)
    ensures Rewritten(nodes, trie, goal, order, h + 1, 0)
  {
    assert order[..h + 1] == order[..h] + [order[h]];
    forall n | 0 <= n < |nodes| ensures Progress(order, h + 1, 0, n) == Progress(order, h, 256, n) {
      if h + 1 < |order| && n == order[h + 1] { assert n !in order[..h + 1]; }
    }
  }

  /** A queued node has its link and outputs, and a processed one its whole row. */
  lemma Reached(nodes: seq<AutomatonNode>, trie: seq<AutomatonNode>, goal: seq<AutomatonNode>,
                order: seq<nat>, h: nat, upto: nat, n: nat)
    requires Rewritten(nodes, trie, goal, order, h, upto) && n < |nodes|
    ensures n in order ==> nodes[n].failureLink == goal[n].failureLink && nodes[n].output == goal[n].output
    ensures n !in order ==> nodes[n].output == trie[n].output
    ensures n in order[..h] ==> n in order && nodes[n].next == goal[n].next
  {
    assert nodes[n] == Partway(trie[n], goal[n], Progress(order, h, upto, n), n in order);
    if n in order[..h] {
      assert goal[n].next[..256] + trie[n].next[256..] == goal[n].next;
    }
  }

  // The state of the pass once bytes below `upto` of the current row are handled.
  ghost predicate Passing(nodes: seq<AutomatonNode>, trie: seq<AutomatonNode>, goal: seq<AutomatonNode>,
                          labels: seq<Bytes>, order: seq<nat>, h: nat, upto: nat)
  {
    Frontier(labels, order, h, upto) && Rewritten(nodes, trie, goal, order, h, upto) && |nodes| == |labels|
  }

  lemma NextRow(nodes: seq<AutomatonNode>, trie: seq<AutomatonNode>, goal: seq<AutomatonNode>,
                labels: seq<Bytes>, order: seq<nat>, h: nat)
    requires Passing(nodes, trie, goal, labels, order, h, 256) && h < |order|
    ensures Passing(nodes, trie, goal, labels, order, h + 1, 0)
  {
    FrontierNext(labels, order, h);
    NextRowRewritten(nodes, trie, goal, order, h);
  }

  /** Sets the failure link and appends the outputs found behind it. */
  function Inherit(node: AutomatonNode, failureLink: int, inherited: seq<nat>): AutomatonNode {
    AutomatonNode(node.next, failureLink, node.output + inherited)
  }

  ghost predicate Prepared(trie: seq<AutomatonNode>, goal: seq<AutomatonNode>, labels: seq<Bytes>,
                           signatures: seq<Bytes>)
  {
    && |trie| == |goal| && IsGoal(goal, labels, signatures)
    && (forall n {:trigger TrieRow(trie[n].next, labels, labels[n])} :: 0 <= n < |trie| ==>
          TrieRow(trie[n].next, labels, labels[n]))
    && (forall n {:trigger Own(signatures, |signatures|, labels[n])} :: 0 <= n < |trie| ==>
          trie[n].output == Own(signatures, |signatures|, labels[n]))
  }

  lemma RootByte(nodes: seq<AutomatonNode>, trie: seq<AutomatonNode>, goal: seq<AutomatonNode>,
                 labels: seq<Bytes>, signatures: seq<Bytes>, order: seq<nat>, b: Byte)
    requires Prepared(trie, goal, labels, signatures)
    requires Passing(nodes, trie, goal, labels, order, 0, b)
    ensures 0 < |nodes| && |nodes[0].next| == 256
    ensures var child := nodes[0].next[b];
            if child == MISSING then
              Passing(nodes[0 := WithEdge(nodes[0], b, 0)], trie, goal, labels, order, 0, b + 1)
            else
              && 0 < child < |nodes|
              && Passing(nodes[child := nodes[child].(failureLink := 0)], trie, goal, labels, order + [child], 0, b + 1)
  {
    Fill(nodes, trie, goal, order, 0, b);
    var child := nodes[0].next[b];
    assert TrieRow(trie[0].next, labels, labels[0]) && TrieEdge(child, labels, labels[0], b);
    if child == MISSING {
      assert Finished(goal[0], labels, signatures, labels[0]);
      MissingEdge(labels, labels[0], b);
      FrontierSkip(labels, order, 0, b);
    } else {
      assert Finished(goal[0], labels, signatures, labels[0]);
      assert Finished(goal[child], labels, signatures, labels[child]);
      RootChildGoal(labels, signatures, b, child);
      FrontierPush(labels, order, 0, b, child);
      Reached(nodes, trie, goal, order, 0, b, child);
      Link(nodes, trie, goal, order, 0, b, child, nodes[child].(failureLink := 0));
    }
  }

  /** The failure node of the state being processed is itself finished. */
  lemma FailureIsReady(nodes: seq<AutomatonNode>, trie: seq<AutomatonNode>, goal: seq<AutomatonNode>,
                       labels: seq<Bytes>, order: seq<nat>, h: nat, b: Byte)
    requires Passing(nodes, trie, goal, labels, order, h, b) && h < |order|
    requires var failure := goal[order[h]].failureLink;
             0 <= failure < |nodes| && |labels[failure]| < |labels[order[h]]|
    ensures nodes[order[h]].failureLink == goal[order[h]].failureLink
    ensures nodes[goal[order[h]].failureLink].next == goal[goal[order[h]].failureLink].next
  {
    var failure := goal[order[h]].failureLink;
    Reached(nodes, trie, goal, order, h, b, order[h]);
    ShallowerIsProcessed(labels, order, h, b, failure);
    Reached(nodes, trie, goal, order, h, b, failure);
  }

  /** A missing transition of the goal is its failure node's transition. */
  lemma GoalFills(goal: seq<AutomatonNode>, labels: seq<Bytes>, signatures: seq<Bytes>, n: nat, b: Byte)
    requires IsGoal(goal, labels, signatures) && n < |labels| && labels[n] != [] && labels[n] + [b] !in labels
    ensures var failure := goal[n].failureLink;
            0 <= failure < |goal| && |labels[failure]| < |labels[n]| && goal[n].next[b] == goal[failure].next[b]
  {
    assert Finished(goal[n], labels, signatures, labels[n]);
    MissingEdge(labels, labels[n], b);
    var failure := goal[n].failureLink;
    assert Finished(goal[failure], labels, signatures, labels[failure]);
  }

  lemma TrieMisses(trie: seq<AutomatonNode>, goal: seq<AutomatonNode>, labels: seq<Bytes>, signatures: seq<Bytes>,
                   n: nat, b: Byte)
    requires Prepared(trie, goal, labels, signatures) && n < |trie| && |trie[n].next| == 256
    requires trie[n].next[b] == MISSING
    ensures labels[n] + [b] !in labels
  {
    assert TrieRow(trie[n].next, labels, labels[n]) && TrieEdge(MISSING, labels, labels[n], b);
  }

  lemma StateFills(nodes: seq<AutomatonNode>, trie: seq<AutomatonNode>, goal: seq<AutomatonNode>,
                   labels: seq<Bytes>, order: seq<nat>, h: nat, b: Byte)
    requires Passing(nodes, trie, goal, labels, order, h, b) && 0 < h < |order| && order[h] < |nodes|
    requires |nodes[order[h]].next| == 256 && labels[order[h]] + [b] !in labels
    requires var failure := goal[order[h]].failureLink;
             && 0 <= failure < |nodes| && |labels[failure]| < |labels[order[h]]|
             && goal[order[h]].next[b] == goal[failure].next[b]
    ensures var failure := nodes[order[h]].failureLink;
            && 0 <= failure < |nodes| && |nodes[failure].next| == 256
            && Passing(nodes[order[h] := WithEdge(nodes[order[h]], b, nodes[failure].next[b])],
                       trie, goal, labels, order, h, b + 1)
  {
    FailureIsReady(nodes, trie, goal, labels, order, h, b);
    Fill(nodes, trie, goal, order, h, b);
    FrontierSkip(labels, order, h, b);
  }

  lemma StateLinks(nodes: seq<AutomatonNode>, trie: seq<AutomatonNode>, goal: seq<AutomatonNode>,
                   labels: seq<Bytes>, order: seq<nat>, h: nat, b: Byte, child: nat, target: nat)
    requires Passing(nodes, trie, goal, labels, order, h, b) && 0 < h < |order|
    requires 0 < child < |labels| && labels[child] == labels[order[h]] + [b]
    requires order[h] < |goal| && trie[order[h]].next[b] == goal[order[h]].next[b]
    requires target < |nodes| && |labels[target]| <= |labels[order[h]]|
    requires goal[child].failureLink == target
    requires goal[child].output == trie[child].output + goal[target].output
    ensures child != order[h] && target != child
    ensures Passing(nodes[child := Inherit(nodes[child], target, nodes[target].output)],
                    trie, goal, labels, order + [child], h, b + 1)
  {
    ShallowerIsQueued(labels, order, h, b, target);
    FrontierPush(labels, order, h, b, child);
    Reached(nodes, trie, goal, order, h, b, target);
    Reached(nodes, trie, goal, order, h, b, child);
    Link(nodes, trie, goal, order, h, b, child, Inherit(nodes[child], target, nodes[target].output));
  }

  lemma LinkTarget(nodes: seq<AutomatonNode>, trie: seq<AutomatonNode>, goal: seq<AutomatonNode>,
                   labels: seq<Bytes>, signatures: seq<Bytes>, order: seq<nat>, h: nat, b: Byte, child: int)
    requires Prepared(trie, goal, labels, signatures)
    requires Passing(nodes, trie, goal, labels, order, h, b) && 0 < h < |order| && order[h] < |nodes|
    requires trie[order[h]].next[b] == child != MISSING
    ensures 0 < child < |nodes| && labels[child] == labels[order[h]] + [b]
    ensures trie[order[h]].next[b] == goal[order[h]].next[b]
    ensures var failure := nodes[order[h]].failureLink;
            && 0 <= failure < |nodes| && |nodes[failure].next| == 256
            && var target := nodes[failure].next[b];
            && 0 <= target < |nodes| && |labels[target]| <= |labels[order[h]]|
            && goal[child].failureLink == target
            && goal[child].output == trie[child].output + goal[target].output
  {
    var state := order[h];
    assert state != order[0];
    assert TrieRow(trie[state].next, labels, labels[state]) && TrieEdge(child, labels, labels[state], b);
    ChildGoal(goal, labels, signatures, state, b, child);
    FailureIsReady(nodes, trie, goal, labels, order, h, b);
  }

  /** What completing one byte of a queued state does, in both branches. */
  lemma StateByte(nodes: seq<AutomatonNode>, trie: seq<AutomatonNode>, goal: seq<AutomatonNode>,
                  labels: seq<Bytes>, signatures: seq<Bytes>, order: seq<nat>, h: nat, b: Byte)
    requires Prepared(trie, goal, labels, signatures)
    requires Passing(nodes, trie, goal, labels, order, h, b) && 0 < h < |order| && order[h] < |nodes|
    ensures |nodes[order[h]].next| == 256
    ensures 0 <= nodes[order[h]].failureLink < |nodes|
    ensures var state, failure := order[h], nodes[order[h]].failureLink;
            var child := nodes[state].next[b];
            && |nodes[failure].next| == 256
            && var target := nodes[failure].next[b];
            if child == MISSING
            then Passing(nodes[state := WithEdge(nodes[state], b, target)], trie, goal, labels, order, h, b + 1)
            else && 0 < child < |nodes| && child != state && 0 <= target < |nodes| && target != child
                 && Passing(nodes[child := Inherit(nodes[child], target, nodes[target].output)],
                            trie, goal, labels, order + [child], h, b + 1)
  {
    Fill(nodes, trie, goal, order, h, b);
    var state := order[h];
    var child := nodes[state].next[b];
    if child == MISSING {
      TrieMisses(trie, goal, labels, signatures, state, b);
      GoalFills(goal, labels, signatures, state, b);
      StateFills(nodes, trie, goal, labels, order, h, b);
    } else {
      LinkTarget(nodes, trie, goal, labels, signatures, order, h, b, child);
      StateLinks(nodes, trie, goal, labels, order, h, b, child, nodes[nodes[state].failureLink].next[b]);
    }
  }

  /** The automaton the pass is aiming at, for the first k nodes. */
  lemma {:induction false} GoalUpTo(labels: seq<Bytes>, signatures: seq<Bytes>, k: nat)
    returns (goal: seq<AutomatonNode>)
    requires [] in labels && k <= |labels|
    ensures |goal| == k
    ensures forall n {:trigger Finished(goal[n], labels, signatures, labels[n])} :: 0 <= n < k ==>
              Finished(goal[n], labels, signatures, labels[n])
    ensures k > 0 && labels[0] == [] ==> goal[0].failureLink == 0
  {
    if k == 0 {
      goal := [];
    } else {
      var before := GoalUpTo(labels, signatures, k - 1);
      goal := OneMoreNode(labels, signatures, before);
    }
  }

  lemma OneMoreNode(labels: seq<Bytes>, signatures: seq<Bytes>, before: seq<AutomatonNode>)
    returns (goal: seq<AutomatonNode>)
    requires [] in labels && |before| < |labels|
    requires forall n {:trigger Finished(before[n], labels, signatures, labels[n])} :: 0 <= n < |before| ==>
               Finished(before[n], labels, signatures, labels[n])
    ensures |goal| == |before| + 1 && goal[..|before|] == before
    ensures forall n {:trigger Finished(goal[n], labels, signatures, labels[n])} :: 0 <= n < |goal| ==>
              Finished(goal[n], labels, signatures, labels[n])
    ensures labels[|before|] == [] ==> goal[|before|].failureLink == 0
    ensures |before| > 0 ==> goal[0] == before[0]
  {
    var last := FinalNode(labels, signatures, labels[|before|]);
    goal := before + [last];
    forall n | 0 <= n < |goal| ensures Finished(goal[n], labels, signatures, labels[n]) {
      if n < |before| { assert goal[n] == before[n] && Finished(before[n], labels, signatures, labels[n]); }
    }
  }

  /** At the root, trie and goal differ in their transitions only. */
  lemma RootAlike(trie: seq<AutomatonNode>, goal: seq<AutomatonNode>, labels: seq<Bytes>, signatures: seq<Bytes>)
    requires IsTrie(trie, labels, signatures, |signatures|) && IsGoal(goal, labels, signatures)
    ensures |trie| == |goal| > 0 && Rows(trie) && Rows(goal)
    ensures trie[0].failureLink == goal[0].failureLink && trie[0].output == goal[0].output
  {
    OwnOfEmpty(signatures, |signatures|);
    assert Finished(goal[0], labels, signatures, labels[0]);
  }

  lemma Prepare(trie: seq<AutomatonNode>, labels: seq<Bytes>, signatures: seq<Bytes>)
    returns (goal: seq<AutomatonNode>)
    requires IsTrie(trie, labels, signatures, |signatures|)
    ensures Prepared(trie, goal, labels, signatures)
    ensures Passing(trie, trie, goal, labels, [0], 0, 0)
  {
    assert labels[0] == [];
    goal := GoalUpTo(labels, signatures, |labels|);
    FinishedRows(goal, labels, signatures);
    PrepareFor(trie, goal, labels, signatures);
  }

  lemma FinishedRows(goal: seq<AutomatonNode>, labels: seq<Bytes>, signatures: seq<Bytes>)
    requires [] in labels && |goal| == |labels|
    requires forall n {:trigger Finished(goal[n], labels, signatures, labels[n])} :: 0 <= n < |goal| ==>
               Finished(goal[n], labels, signatures, labels[n])
    ensures Rows(goal)
  {
    forall n | 0 <= n < |goal| ensures |goal[n].next| == 256 {
      assert Finished(goal[n], labels, signatures, labels[n]);
    }
  }

  lemma PrepareFor(trie: seq<AutomatonNode>, goal: seq<AutomatonNode>, labels: seq<Bytes>, signatures: seq<Bytes>)
    requires IsTrie(trie, labels, signatures, |signatures|) && IsGoal(goal, labels, signatures)
    ensures Prepared(trie, goal, labels, signatures)
    ensures Passing(trie, trie, goal, labels, [0], 0, 0)
  {
    RootAlike(trie, goal, labels, signatures);
    RootFrontier(labels);
    RootRewritten(trie, goal);
  }

  lemma RootFrontier(labels: seq<Bytes>)
    requires WellLabelled(labels)
    ensures Frontier(labels, [0], 0, 0)
  {
    var order: seq<nat> := [0];
    forall n | 0 < n < |labels| ensures n in order <==> Expanded(labels, order, 0, 0, n) { }
  }

  lemma RootRewritten(trie: seq<AutomatonNode>, goal: seq<AutomatonNode>)
    requires |trie| == |goal| > 0 && Rows(trie) && Rows(goal)
    requires trie[0].failureLink == goal[0].failureLink && trie[0].output == goal[0].output
    ensures Rewritten(trie, trie, goal, [0], 0, 0)
  {
    var order: seq<nat> := [0];
    forall n | 0 <= n < |trie| ensures trie[n] == Partway(trie[n], goal[n], Progress(order, 0, 0, n), n in order) {
      assert goal[n].next[..0] + trie[n].next[0..] == trie[n].next;
    }
  }

  lemma {:induction false} OwnOfEmpty(signatures: seq<Bytes>, k: nat)
    requires k <= |signatures|
    ensures Own(signatures, k, []) == []
  {
    if k == 0 {
    } else {
      OwnOfEmpty(signatures, k - 1);
    }
  }

  lemma Completed(nodes: seq<AutomatonNode>, trie: seq<AutomatonNode>, goal: seq<AutomatonNode>,
                  labels: seq<Bytes>, signatures: seq<Bytes>, order: seq<nat>)
    requires IsGoal(goal, labels, signatures)
    requires Passing(nodes, trie, goal, labels, order, |order|, 0)
    ensures |nodes| == |labels|
    ensures forall n {:trigger Finished(nodes[n], labels, signatures, labels[n])} :: 0 <= n < |nodes| ==>
              Finished(nodes[n], labels, signatures, labels[n])
  {
    assert order[..|order|] == order;
    forall n | 0 <= n < |nodes| ensures Finished(nodes[n], labels, signatures, labels[n]) {
      ShallowerIsQueued(labels, order, |order|, 0, n);
      Reached(nodes, trie, goal, order, |order|, 0, n);
    }
  }

  /** The queue entry a transition gives rise to: the child, if there is one. */
  function Queued(child: int): seq<nat>
    requires child == MISSING || 0 < child
  {
    if child == MISSING then [] else [child]
  }

  /** Byte b of a queued state: either the failure node's transition or a linked child. */
  method CompleteByte(automaton: Automaton, ghost signatures: seq<Bytes>, ghost trie: seq<AutomatonNode>,
                      ghost goal: seq<AutomatonNode>, ghost order: seq<nat>, ghost h: nat,
                      state: nat, failure: int, b: Byte)
    returns (child: int)
    requires Prepared(trie, goal, automaton.labels, signatures)
    requires Passing(automaton.nodes, trie, goal, automaton.labels, order, h, b)
    requires 0 < h < |order| && order[h] == state
    requires state < |automaton.nodes| && automaton.nodes[state].failureLink == failure
    modifies automaton`nodes
    ensures child == MISSING || 0 < child
    ensures Passing(automaton.nodes, trie, goal, automaton.labels, order + Queued(child), h, b + 1)
    ensures state < |automaton.nodes| && automaton.nodes[state].failureLink == failure
  {
    StateByte(automaton.nodes, trie, goal, automaton.labels, signatures, order, h, b);
    child := automaton.nodes[state].next[b];
    if child == MISSING {
      automaton.nodes := automaton.nodes[state := WithEdge(
        automaton.nodes[state], b, automaton.nodes[failure].next[b])];
      assert order + [] == order;
    } else {
      var target := automaton.nodes[failure].next[b];
      automaton.nodes := automaton.nodes[child := Inherit(
        automaton.nodes[child], target, automaton.nodes[target].output)];
    }
  }

  /** All bytes of the state at the head of the queue; returns the children it queues. */
  method CompleteState(automaton: Automaton, ghost signatures: seq<Bytes>, ghost trie: seq<AutomatonNode>,
                       ghost goal: seq<AutomatonNode>, ghost before: seq<nat>, ghost h: nat, state: nat)
    returns (children: seq<nat>)
    requires Prepared(trie, goal, automaton.labels, signatures)
    requires 0 < h < |before| && before[h] == state < |automaton.nodes|
    requires Passing(automaton.nodes, trie, goal, automaton.labels, before, h, 0)
    modifies automaton`nodes
    ensures Passing(automaton.nodes, trie, goal, automaton.labels, before + children, h + 1, 0)
  {
    children := [];
    ghost var order := before;
    var failure := automaton.nodes[state].failureLink;
    for b := 0 to 256
      invariant order == before + children
      invariant Passing(automaton.nodes, trie, goal, automaton.labels, order, h, b)
      invariant state < |automaton.nodes| && automaton.nodes[state].failureLink == failure
    {
      var child := CompleteByte(automaton, signatures, trie, goal, order, h, state, failure, b);
      children, order := children + Queued(child), order + Queued(child);
    }
    NextRow(automaton.nodes, trie, goal, automaton.labels, order, h);
  }

  /** Byte b of the root: a missing transition loops back, a child fails to the root. */
  method CompleteRootByte(automaton: Automaton, ghost signatures: seq<Bytes>, ghost trie: seq<AutomatonNode>,
                          ghost goal: seq<AutomatonNode>, ghost order: seq<nat>, b: Byte)
    returns (child: int)
    requires Prepared(trie, goal, automaton.labels, signatures)
    requires Passing(automaton.nodes, trie, goal, automaton.labels, order, 0, b)
    modifies automaton`nodes
    ensures child == MISSING || 0 < child
    ensures Passing(automaton.nodes, trie, goal, automaton.labels, order + Queued(child), 0, b + 1)
  {
    RootByte(automaton.nodes, trie, goal, automaton.labels, signatures, order, b);
    child := automaton.nodes[0].next[b];
    if child == MISSING {
      automaton.nodes := automaton.nodes[0 := WithEdge(automaton.nodes[0], b, 0)];
      assert order + [] == order;
    } else {
      automaton.nodes := automaton.nodes[child := automaton.nodes[child].(failureLink := 0)];
    }
  }

  method CompleteRoot(automaton: Automaton, ghost signatures: seq<Bytes>, ghost trie: seq<AutomatonNode>,
                      ghost goal: seq<AutomatonNode>, ghost before: seq<nat>)
    returns (children: seq<nat>)
    requires Prepared(trie, goal, automaton.labels, signatures)
    requires |before| == 1 && Passing(automaton.nodes, trie, goal, automaton.labels, before, 0, 0)
    modifies automaton`nodes
    ensures Passing(automaton.nodes, trie, goal, automaton.labels, before + children, 1, 0)
  {
    children := [];
    ghost var order := before;
    for b := 0 to 256
      invariant order == before + children
      invariant Passing(automaton.nodes, trie, goal, automaton.labels, order, 0, b)
    {
      var child := CompleteRootByte(automaton, signatures, trie, goal, order, b);
      children, order := children + Queued(child), order + Queued(child);
    }
    NextRow(automaton.nodes, trie, goal, automaton.labels, order, 0);
  }

  /** Breadth-first over the queue until it is empty; every node is processed once. */
  method BuildFailureLinks(automaton: Automaton, ghost signatures: seq<Bytes>)
    requires IsTrie(automaton.nodes, automaton.labels, signatures, |signatures|)
    modifies automaton`nodes
    ensures IsAhoCorasick(automaton.nodes, automaton.labels, signatures)
  {
    ghost var labels, trie := automaton.labels, automaton.nodes;
    ghost var goal := Prepare(trie, labels, signatures);
    var pending := CompleteRoot(automaton, signatures, trie, goal, [0]);
    ghost var order, h := [0] + pending, 1;
    while pending != []
      invariant 1 <= h <= |order| && pending == order[h..]
      invariant Passing(automaton.nodes, trie, goal, labels, order, h, 0)
      decreases Unprocessed(labels, order, h)
    {
      var state := pending[0];
      var children := CompleteState(automaton, signatures, trie, goal, order, h, state);
      pending := pending[1..] + children;
      Advance(labels, order, h, children);
      order, h := order + children, h + 1;
    }
    Completed(automaton.nodes, trie, goal, labels, signatures, order);
  }

  ghost function Unprocessed(labels: seq<Bytes>, order: seq<nat>, h: nat): set<nat>
    requires h <= |order|
  {
    set n: nat | n < |labels| && n !in order[..h]
  }

  lemma Advance(labels: seq<Bytes>, order: seq<nat>, h: nat, children: seq<nat>)
    requires h < |order| && NoDuplicates(order) && order[h] < |labels|
    ensures (order + children)[h + 1..] == order[h..][1..] + children
    ensures Unprocessed(labels, order + children, h + 1) < Unprocessed(labels, order, h)
  {
    assert order[h] !in order[..h];
    assert (order + children)[..h + 1] == order[..h] + [order[h]];
    assert order[h] in Unprocessed(labels, order, h);
  }
}
