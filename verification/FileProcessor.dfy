// Scanning: one chunk through the automaton, a whole file chunk by chunk, and the
// translation of matched indices to the sorted list of signatures.
module Scanning {
  import opened Options
  import opened ByteStrings
  import opened Tries
  import opened Automata
  import opened OrderedBytes
  import AutomatonBuilder

  /** Indices of the non-empty signatures that occur in the text. */
  ghost function MatchesIn(signatures: seq<Bytes>, text: Bytes): set<nat> {
    set i: nat | i < |signatures| && signatures[i] != [] && Occurs(signatures[i], text)
  }

  lemma OccursAfterByte(s: Bytes, text: Bytes, b: Byte)
    ensures Occurs(s, text + [b]) <==> Occurs(s, text) || IsSuffix(s, text + [b])
  {
    var longer := text + [b];
    assert longer[..|longer|] == longer;
    if Occurs(s, text) {
      var end: nat :| end <= |text| && IsSuffix(s, text[..end]);
      assert longer[..end] == text[..end];
    }
    if Occurs(s, longer) {
      var end: nat :| end <= |longer| && IsSuffix(s, longer[..end]);
      if end <= |text| { assert longer[..end] == text[..end]; }
    }
  }

  /** Arriving at the state of a text reports exactly the signatures ending there. */
  lemma OutputsAreExact(nodes: seq<AutomatonNode>, labels: seq<Bytes>, signatures: seq<Bytes>, text: Bytes)
    requires IsAhoCorasick(nodes, labels, signatures)
    ensures [] in labels
    ensures forall i: nat :: i in nodes[LongestSuffix(labels, text)].output <==>
                               i < |signatures| && signatures[i] != [] && IsSuffix(signatures[i], text)
  {
    assert labels[0] == [];
    forall i | 0 <= i < |signatures| ensures signatures[i] in labels {
      assert IsPrefixOfSome(signatures, |signatures|, signatures[i]);
    }
    var state := LongestSuffix(labels, text);
    assert Finished(nodes[state], labels, signatures, labels[state]);
    MergedIsExact(labels, signatures, labels[state]);
    forall i: nat | i < |signatures|
      ensures IsSuffix(signatures[i], labels[state]) <==> IsSuffix(signatures[i], text)
    {
      if IsSuffix(signatures[i], text) { LongestSuffixIsLongest(labels, text, signatures[i]); }
      if IsSuffix(signatures[i], labels[state]) { SuffixTransitive(signatures[i], labels[state], text); }
    }
  }

  /** The transition from the state of a text is the state of the text one byte longer. */
  lemma TransitionIsExact(nodes: seq<AutomatonNode>, labels: seq<Bytes>, signatures: seq<Bytes>, text: Bytes, b: Byte)
    requires IsAhoCorasick(nodes, labels, signatures)
    ensures [] in labels
    ensures var state := LongestSuffix(labels, text);
            |nodes[state].next| == 256 && nodes[state].next[b] == LongestSuffix(labels, text + [b])
  {
    assert labels[0] == [];
    var state := LongestSuffix(labels, text);
    assert Finished(nodes[state], labels, signatures, labels[state]);
    StepFromSuffix(labels, text, b);
  }

  /**
   * Scans one chunk. `seen` is what earlier chunks held: the carried state and matches
   * describe it on entry, and it extended by this chunk on exit.
   */
  method ScanChunk(automaton: Automaton, data: Bytes, state: nat, matched: set<nat>,
                   ghost signatures: seq<Bytes>, ghost seen: Bytes)
    returns (state': nat, matched': set<nat>)
    requires automaton.BuiltFor(signatures)
    requires [] in automaton.labels && state == LongestSuffix(automaton.labels, seen)
    requires matched == MatchesIn(signatures, seen)
    ensures state' == LongestSuffix(automaton.labels, seen + data)
    ensures matched' == MatchesIn(signatures, seen + data)
  {
    state', matched' := state, matched;
    ghost var text := seen;
    for i := 0 to |data|
      invariant text == seen + data[..i]
      invariant [] in automaton.labels && state' == LongestSuffix(automaton.labels, text)
      invariant matched' == MatchesIn(signatures, text)
    {
      state', matched' := ScanByte(automaton, data[i], state', matched', signatures, text);
      OneByteMore(seen, data, i);
      text := text + [data[i]];
    }
    assert data[..|data|] == data;
  }

  lemma OneByteMore(seen: Bytes, data: Bytes, i: nat)
    requires i < |data|
    ensures seen + data[..i] + [data[i]] == seen + data[..i + 1]
  {
    assert data[..i + 1] == data[..i] + [data[i]];
  }

  /** The loop body: follow the transition, then collect the outputs of the new state. */
  method ScanByte(automaton: Automaton, b: Byte, state: nat, matched: set<nat>,
                  ghost signatures: seq<Bytes>, ghost seen: Bytes)
    returns (state': nat, matched': set<nat>)
    requires automaton.BuiltFor(signatures)
    requires [] in automaton.labels && state == LongestSuffix(automaton.labels, seen)
    requires matched == MatchesIn(signatures, seen)
    ensures state' == LongestSuffix(automaton.labels, seen + [b])
    ensures matched' == MatchesIn(signatures, seen + [b])
  {
    ScanStep(automaton.nodes, automaton.labels, signatures, seen, b);
    state' := automaton.Step(state, b);
    matched' := matched + set index | index in automaton.Outputs(state');
  }

  /** One step of the loop: the state and the matches move on together. */
  lemma ScanStep(nodes: seq<AutomatonNode>, labels: seq<Bytes>, signatures: seq<Bytes>, text: Bytes, b: Byte)
    requires IsAhoCorasick(nodes, labels, signatures)
    ensures [] in labels
    ensures var state := LongestSuffix(labels, text);
            && |nodes[state].next| == 256
            && var target := nodes[state].next[b];
            && target == LongestSuffix(labels, text + [b])
            && MatchesIn(signatures, text + [b]) ==
               MatchesIn(signatures, text) + set index | index in nodes[target].output
  {
    TransitionIsExact(nodes, labels, signatures, text, b);
    OutputsAreExact(nodes, labels, signatures, text + [b]);
    MatchesAfterByte(signatures, text, b, nodes[LongestSuffix(labels, text + [b])].output);
  }

  lemma MatchesAfterByte(signatures: seq<Bytes>, text: Bytes, b: Byte, outputs: seq<nat>)
    requires forall i: nat :: i in outputs <==>
                                i < |signatures| && signatures[i] != [] && IsSuffix(signatures[i], text + [b])
    ensures MatchesIn(signatures, text + [b]) == MatchesIn(signatures, text) + set index | index in outputs
  {
    forall i: nat | i < |signatures|
      ensures Occurs(signatures[i], text + [b]) <==> Occurs(signatures[i], text) || IsSuffix(signatures[i], text + [b])
    {
      OccursAfterByte(signatures[i], text, b);
    }
  }

  // ----- from indices to signatures -----

  /** How many of the given indices below k carry the signature x. */
  ghost function Times(signatures: seq<Bytes>, k: nat, indices: set<nat>, x: Bytes): nat
    requires k <= |signatures|
  {
    if k == 0 then 0
    else Times(signatures, k - 1, indices, x) + if k - 1 in indices && signatures[k - 1] == x then 1 else 0
  }

  lemma {:induction false} TimesGrows(signatures: seq<Bytes>, k: nat, indices: set<nat>, i: nat, x: Bytes)
    requires k <= |signatures| && i !in indices
    ensures Times(signatures, k, indices + {i}, x) ==
            Times(signatures, k, indices, x) + if i < k && signatures[i] == x then 1 else 0
  {
    if k == 0 {
    } else {
      TimesGrows(signatures, k - 1, indices, i, x);
    }
  }

  lemma {:induction false} TimesOfNone(signatures: seq<Bytes>, k: nat, x: Bytes)
    requires k <= |signatures|
    ensures Times(signatures, k, {}, x) == 0
  {
    if k == 0 {
    } else {
      TimesOfNone(signatures, k - 1, x);
    }
  }

  /** How often a signature is reported: at all, and more than once. */
  lemma {:induction false} TimesMeaning(signatures: seq<Bytes>, k: nat, indices: set<nat>, x: Bytes)
    requires k <= |signatures|
    ensures Times(signatures, k, indices, x) >= 1 <==> exists i: nat :: i < k && i in indices && signatures[i] == x
    ensures Times(signatures, k, indices, x) >= 2 <==>
              exists i: nat, j: nat ::
                i < j < k && i in indices && j in indices && signatures[i] == x && signatures[j] == x
  {
    if k == 0 {
    } else {
      TimesMeaning(signatures, k - 1, indices, x);
    }
  }

  method MatchedSignatures(signatures: seq<Bytes>, matches: set<nat>) returns (result: seq<Bytes>)
    ensures Sorted(result)
    ensures forall x: Bytes :: multiset(result)[x] == Times(signatures, |signatures|, matches, x)
  {
    result := [];
    var left := matches;
    assert matches - left == {};
    forall x: Bytes ensures Times(signatures, |signatures|, {}, x) == 0 {
      TimesOfNone(signatures, |signatures|, x);
    }
    while left != {}
      invariant left <= matches
      invariant forall x: Bytes :: multiset(result)[x] == Times(signatures, |signatures|, matches - left, x)
      decreases left
    {
      var index :| index in left;
      assert matches - (left - {index}) == matches - left + {index};
      forall x: Bytes
        ensures Times(signatures, |signatures|, matches - (left - {index}), x) ==
                Times(signatures, |signatures|, matches - left, x) +
                if index < |signatures| && signatures[index] == x then 1 else 0
      {
        TimesGrows(signatures, |signatures|, matches - left, index, x);
      }
      if index < |signatures| {
        result := result + [signatures[index]];
      }
      left := left - {index};
    }
    assert matches - {} == matches;
    SortSorts(result);
    result := Sort(result);
  }

  // ----- a whole file -----

  datatype File = Unopenable | Contents(bytes: Bytes)

  /**
   * The scan of one file against an automaton built for the same signatures. None stands
   * for a file that cannot be opened; otherwise exactly the occurring signatures, sorted.
   */
  method Process(automaton: Automaton, signatures: seq<Bytes>, file: File, chunkSize: nat)
    returns (result: Option<seq<Bytes>>)
    requires automaton.BuiltFor(signatures) && chunkSize > 0
    ensures result.None? <==> file.Unopenable?
    ensures result.Some? ==> IsReport(signatures, file.bytes, result.value)
  {
    if file.Unopenable? { return None; }
    var state, matched, position := 0, {}, 0;
    ghost var seen := file.bytes[..0];
    NothingSeen(automaton.labels, signatures, seen);
    while true
      invariant position <= |file.bytes| && seen == file.bytes[..position]
      invariant [] in automaton.labels && state == LongestSuffix(automaton.labels, seen)
      invariant matched == MatchesIn(signatures, seen)
      decreases |file.bytes| - position
    {
      var bytesRead := if |file.bytes| - position < chunkSize then |file.bytes| - position else chunkSize;
      if bytesRead <= 0 { break; }
      var chunk := file.bytes[position..position + bytesRead];
      OneChunkMore(file.bytes, position, bytesRead);
      state, matched := ScanChunk(automaton, chunk, state, matched, signatures, seen);
      seen := seen + chunk;
      position := position + bytesRead;
    }
    assert file.bytes[..position] == file.bytes;
    var found := MatchedSignatures(signatures, matched);
    result := Some(found);
  }

  lemma OneChunkMore(bytes: Bytes, position: nat, count: nat)
    requires position + count <= |bytes|
    ensures bytes[..position] + bytes[position..position + count] == bytes[..position + count]
  {
  }

  lemma NothingSeen(labels: seq<Bytes>, signatures: seq<Bytes>, seen: Bytes)
    requires WellLabelled(labels) && |seen| == 0
    ensures [] in labels && LongestSuffix(labels, seen) == 0 && MatchesIn(signatures, seen) == {}
  {
    assert labels[0] == seen;
  }

  /** What a scan returns for a text: the sorted matching signatures, once per matching index. */
  ghost predicate IsReport(signatures: seq<Bytes>, text: Bytes, report: seq<Bytes>) {
    && Sorted(report)
    && forall x: Bytes :: multiset(report)[x] == Times(signatures, |signatures|, MatchesIn(signatures, text), x)
  }

  /** The signatures of the given indices below k, as MatchedSignatures collects them. */
  lemma {:induction false} CollectedUpTo(signatures: seq<Bytes>, k: nat, indices: set<nat>) returns (found: seq<Bytes>)
    requires k <= |signatures|
    ensures forall x: Bytes :: multiset(found)[x] == Times(signatures, k, indices, x)
  {
    if k == 0 {
      found := [];
    } else {
      found := CollectedUpTo(signatures, k - 1, indices);
      if k - 1 in indices { found := found + [signatures[k - 1]]; }
    }
  }

  /** Every text has a report. */
  lemma ReportExists(signatures: seq<Bytes>, text: Bytes) returns (report: seq<Bytes>)
    ensures IsReport(signatures, text, report)
  {
    var found := CollectedUpTo(signatures, |signatures|, MatchesIn(signatures, text));
    SortSorts(found);
    report := Sort(found);
  }

  /** No false positives, no false negatives. */
  lemma ReportIsExact(signatures: seq<Bytes>, text: Bytes, report: seq<Bytes>)
    requires IsReport(signatures, text, report)
    ensures forall s: Bytes :: s in report <==> s != [] && s in signatures && Occurs(s, text)
    ensures report != [] <==> Infected(signatures, text)
  {
    forall s: Bytes ensures s in report <==> s != [] && s in signatures && Occurs(s, text) {
      TimesMeaning(signatures, |signatures|, MatchesIn(signatures, text), s);
      assert s in report <==> s in multiset(report);
    }
    if report != [] { assert report[0] in report; }
    if i :| 0 <= i < |signatures| && signatures[i] != [] && Occurs(signatures[i], text) {
      assert signatures[i] in report;
    }
  }

  /** The report does not depend on how the file was cut into chunks: the text determines it. */
  lemma ReportIsDetermined(signatures: seq<Bytes>, text: Bytes, a: seq<Bytes>, b: seq<Bytes>)
    requires IsReport(signatures, text, a) && IsReport(signatures, text, b)
    ensures a == b
  {
    assert forall x: Bytes :: multiset(a)[x] == multiset(b)[x];
    SortedIsUnique(a, b);
  }

  /**
   * FileProcessor.h calls the result unique. It is unless a signature that occurs in the
   * text is listed twice, and the loader does not remove duplicates.
   */
  lemma ReportIsUniqueIff(signatures: seq<Bytes>, text: Bytes, report: seq<Bytes>)
    requires IsReport(signatures, text, report)
    ensures NoDuplicates(report) <==>
              forall i, j ::
                0 <= i < j < |signatures| && signatures[i] == signatures[j] != [] ==> !Occurs(signatures[i], text)
  {
    forall s: Bytes
      ensures multiset(report)[s] >= 2 <==>
                exists i, j ::
                  0 <= i < j < |signatures| && s != [] && signatures[i] == s == signatures[j] && Occurs(s, text)
    {
      TimesMeaning(signatures, |signatures|, MatchesIn(signatures, text), s);
    }
    DuplicatesByCount(report);
  }

  /** Both listings of a signature are matched when it occurs. */
  lemma BothMatch(x: Bytes)
    requires x != []
    ensures MatchesIn([x, x], x) == {0, 1}
  {
    assert IsSuffix(x, x[..|x|]) && Occurs(x, x);
  }

  lemma TimesOfBoth(x: Bytes, y: Bytes)
    ensures Times([x, x], 2, {0, 1}, y) == if x == y then 2 else 0
  {
    assert Times([x, x], 0, {0, 1}, y) == 0;
    assert Times([x, x], 1, {0, 1}, y) == if x == y then 1 else 0;
  }

  lemma BothAreReported(x: Bytes)
    requires x != []
    ensures IsReport([x, x], x, [x, x])
  {
    BothMatch(x);
    forall y: Bytes ensures multiset([x, x])[y] == Times([x, x], 2, {0, 1}, y) { TimesOfBoth(x, y); }
  }

  /** A signature listed twice is, in a file that is this signature, the whole report, twice. */
  lemma ListedTwiceIsReportedTwice(x: Bytes)
    requires x != []
    ensures forall report :: IsReport([x, x], x, report) <==> report == [x, x]
    ensures !NoDuplicates([x, x])
  {
    BothAreReported(x);
    forall report | IsReport([x, x], x, report) ensures report == [x, x] {
      ReportIsDetermined([x, x], x, report, [x, x]);
    }
    var both := [x, x];
    assert both[0] == both[1];
  }

  lemma DuplicatesByCount(s: seq<Bytes>)
    ensures NoDuplicates(s) <==> forall x :: multiset(s)[x] < 2
  {
    forall i, j | 0 <= i < j < |s| && s[i] == s[j] ensures multiset(s)[s[i]] >= 2 {
      assert s == s[..i] + [s[i]] + s[i + 1..j] + [s[j]] + s[j + 1..];
    }
    if x :| multiset(s)[x] >= 2 {
      TwoPositions(s, x);
    }
  }

  lemma {:induction false} TwoPositions(s: seq<Bytes>, x: Bytes)
    requires multiset(s)[x] >= 2
    ensures !NoDuplicates(s)
  {
    assert s == [s[0]] + s[1..];
    if s[0] == x {
      assert x in multiset(s[1..]);
      var j :| 0 <= j < |s[1..]| && s[1..][j] == x;
      assert s[0] == s[j + 1];
    } else {
      TwoPositions(s[1..], x);
      var i, j :| 0 <= i < j < |s[1..]| && s[1..][i] == s[1..][j];
      assert s[i + 1] == s[j + 1];
    }
  }

  /** Build once, scan any file with any chunk size. */
  method BuildAndProcess(signatures: seq<Bytes>, file: File, chunkSize: nat) returns (result: Option<seq<Bytes>>)
    requires chunkSize > 0
    ensures result.None? <==> file.Unopenable?
    ensures result.Some? ==> IsReport(signatures, file.bytes, result.value)
  {
    var automaton := AutomatonBuilder.Build(signatures);
    result := Process(automaton, signatures, file, chunkSize);
  }
}
