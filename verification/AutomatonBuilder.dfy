// AutomatonBuilder::build: insertion of every non-empty signature, then the pass.
module AutomatonBuilder {
  import opened ByteStrings
  import opened Tries
  import opened Automata
  import TrieInsertion
  import FailureLinks

  function NonEmpty(signatures: seq<Bytes>): nat {
    if signatures == [] then 0
    else NonEmpty(signatures[..|signatures| - 1]) + if signatures[|signatures| - 1] == [] then 0 else 1
  }

  /** The positions of the list that hold a signature with at least one byte. */
  lemma {:induction false} NonEmptyCounts(signatures: seq<Bytes>)
    ensures NonEmpty(signatures) == |set i: nat | i < |signatures| && signatures[i] != []|
  {
    var all := set i: nat | i < |signatures| && signatures[i] != [];
    if signatures == [] {
      assert all == {};
    } else {
      var last := |signatures| - 1;
      var before := signatures[..last];
      NonEmptyCounts(before);
      assert all == (set i: nat | i < |before| && before[i] != []) + if signatures[last] == [] then {} else {last};
    }
  }

  method Build(signatures: seq<Bytes>) returns (automaton: Automaton)
    ensures fresh(automaton) && automaton.BuiltFor(signatures)
    ensures automaton.signatureCount == NonEmpty(signatures)
    ensures automaton.signatureCount == |set i: nat | i < |signatures| && signatures[i] != []|
  {
    automaton := new Automaton();
    StartEmpty(automaton.nodes, automaton.labels, signatures);
    for i := 0 to |signatures|
      invariant fresh(automaton)
      invariant IsTrie(automaton.nodes, automaton.labels, signatures, i)
      invariant automaton.signatureCount == NonEmpty(signatures[..i])
    {
      assert signatures[..i + 1][..i] == signatures[..i];
      if signatures[i] == [] {
        TrieInsertion.SkipEmpty(automaton.nodes, automaton.labels, signatures, i);
        continue;
      }
      TrieInsertion.AddSignature(automaton, signatures, i);
      automaton.signatureCount := automaton.signatureCount + 1;
    }
    assert signatures[..|signatures|] == signatures;
    NonEmptyCounts(signatures);
    FailureLinks.BuildFailureLinks(automaton, signatures);
    automaton.built := true;
  }

  lemma StartEmpty(nodes: seq<AutomatonNode>, labels: seq<Bytes>, signatures: seq<Bytes>)
    requires IsTrie(nodes, labels, [], 0)
    ensures IsTrie(nodes, labels, signatures, 0)
  {
    forall w: Bytes ensures w in labels <==> IsPrefixOfSome(signatures, 0, w) {
      assert w in labels <==> IsPrefixOfSome([], 0, w);
    }
    forall w: Bytes ensures Own([], 0, w) == Own(signatures, 0, w) { }
  }
}
