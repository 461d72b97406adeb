// The checkpoint file: three lines of text, written whole to a temporary file and renamed
// into place. A write the stream does not report as failed may still be cut short.
module Checkpoint {
  import opened Options
  import opened ByteStrings

  datatype Record = Record(root: Bytes, status: Bytes, next: Bytes)

  const NEWLINE: Byte := 10
  const RUNNING: Bytes := [114, 117, 110, 110, 105, 110, 103]              // "running"
  const COMPLETED: Bytes := [99, 111, 109, 112, 108, 101, 116, 101, 100]   // "completed"

  predicate OneLine(text: Bytes) {
    NEWLINE !in text
  }

  /** What save() streams out. */
  function Text(r: Record): Bytes {
    r.root + [NEWLINE] + r.status + [NEWLINE] + r.next + [NEWLINE]
  }

  function FirstLine(text: Bytes): Bytes {
    if text == [] || text[0] == NEWLINE then [] else [text[0]] + FirstLine(text[1..])
  }

  function AfterFirstLine(text: Bytes): Bytes {
    if text == [] then [] else if text[0] == NEWLINE then text[1..] else AfterFirstLine(text[1..])
  }

  /** std::getline fails only when there is nothing left to read. */
  function Load(text: Bytes): Option<Record> {
    var second := AfterFirstLine(text);
    var third := AfterFirstLine(second);
    if text == [] || second == [] || third == [] then None
    else Some(Record(FirstLine(text), FirstLine(second), FirstLine(third)))
  }

  lemma {:induction false} LineSplit(line: Bytes, rest: Bytes)
    requires OneLine(line)
    ensures FirstLine(line + [NEWLINE] + rest) == line
    ensures AfterFirstLine(line + [NEWLINE] + rest) == rest
  {
    var whole := line + [NEWLINE] + rest;
    if line != [] {
      assert whole[1..] == line[1..] + [NEWLINE] + rest;
      LineSplit(line[1..], rest);
    }
  }

  lemma {:induction false} FirstLineIsPrefix(text: Bytes)
    ensures FirstLine(text) <= text && OneLine(FirstLine(text))
    ensures OneLine(text) ==> FirstLine(text) == text
    ensures FirstLine(text + [NEWLINE]) == FirstLine(text)
  {
    if text != [] && text[0] != NEWLINE {
      FirstLineIsPrefix(text[1..]);
      assert text == [text[0]] + text[1..];
      assert (text + [NEWLINE])[1..] == text[1..] + [NEWLINE];
    }
  }

  lemma {:induction false} FirstLineMonotone(text: Bytes, whole: Bytes)
    requires text <= whole
    ensures FirstLine(text) <= FirstLine(whole)
  {
    if text != [] && text[0] != NEWLINE { FirstLineMonotone(text[1..], whole[1..]); }
  }

  /** What a successful save is read back as: the path is cut at a newline in a file name. */
  lemma LoadOfSave(r: Record)
    requires OneLine(r.root) && OneLine(r.status)
    ensures Load(Text(r)) == Some(r.(next := FirstLine(r.next)))
  {
    var third := r.next + [NEWLINE];
    var second := r.status + [NEWLINE] + third;
    assert Text(r) == r.root + [NEWLINE] + second;
    LineSplit(r.root, second);
    LineSplit(r.status, third);
    FirstLineIsPrefix(r.next);
  }

  /** What std::getline yields, line after line. */
  function Lines(text: Bytes): seq<Bytes>
    decreases |text|
  {
    if text == [] then []
    else
      AfterFirstLineIsShorter(text);
      [FirstLine(text)] + Lines(AfterFirstLine(text))
  }

  lemma {:induction false} AfterFirstLineIsShorter(text: Bytes)
    requires text != []
    ensures |AfterFirstLine(text)| < |text|
  {
    if text[0] != NEWLINE && |text| > 1 {
      AfterFirstLineIsShorter(text[1..]);
    } else if text[0] != NEWLINE {
      assert text[1..] == [];
    }
  }

  /** Fewer than three lines are rejected; of more, the first three are root, status and path. */
  lemma LoadReadsThreeLines(text: Bytes)
    ensures |Lines(text)| < 3 ==> Load(text) == None
    ensures |Lines(text)| >= 3 ==> Load(text) == Some(Record(Lines(text)[0], Lines(text)[1], Lines(text)[2]))
  {
    var second := AfterFirstLine(text);
    var third := AfterFirstLine(second);
    if text != [] && second != [] && third != [] {
      assert Lines(second) == [FirstLine(second)] + ([FirstLine(third)] + Lines(AfterFirstLine(third)));
      assert Lines(text) == [FirstLine(text)] + Lines(second);
    }
  }

  /** A saved checkpoint has exactly the lines root, status and path, in this order. */
  lemma TextHasThreeLines(r: Record)
    requires OneLine(r.root) && OneLine(r.status) && OneLine(r.next)
    ensures Lines(Text(r)) == [r.root, r.status, r.next]
  {
    var third := r.next + [NEWLINE];
    var second := r.status + [NEWLINE] + third;
    assert Text(r) == r.root + [NEWLINE] + second;
    LineSplit(r.root, second);
    LineSplit(r.status, third);
    LineSplit(r.next, []);
    assert third == r.next + [NEWLINE] + [];
    assert Lines(third) == [r.next] + Lines([]);
  }

  /** The round trip, with the exact condition on the saved values. */
  lemma SaveLoadRoundTrip(r: Record)
    ensures Load(Text(r)) == Some(r) <==> OneLine(r.root) && OneLine(r.status) && OneLine(r.next)
  {
    if OneLine(r.root) && OneLine(r.status) && OneLine(r.next) {
      LoadOfSave(r);
      FirstLineIsPrefix(r.next);
    }
    if Load(Text(r)) == Some(r) {
      var text := Text(r);
      FirstLineIsPrefix(text);
      FirstLineIsPrefix(AfterFirstLine(text));
      FirstLineIsPrefix(AfterFirstLine(AfterFirstLine(text)));
    }
  }

  lemma {:induction false} TornLine(line: Bytes, rest: Bytes, k: nat)
    requires OneLine(line) && k <= |line| + 1 + |rest|
    ensures var torn := (line + [NEWLINE] + rest)[..k];
            if k <= |line| then AfterFirstLine(torn) == []
            else FirstLine(torn) == line && AfterFirstLine(torn) == rest[..k - |line| - 1]
  {
    var whole := line + [NEWLINE] + rest;
    if k <= |line| {
      assert whole[..k] == line[..k];
      NothingAfterOneLine(line[..k]);
    } else {
      assert whole[..k] == line + [NEWLINE] + rest[..k - |line| - 1];
      LineSplit(line, rest[..k - |line| - 1]);
    }
  }

  lemma {:induction false} NothingAfterOneLine(text: Bytes)
    requires OneLine(text)
    ensures AfterFirstLine(text) == []
  {
    if text == [] {
    } else {
      NothingAfterOneLine(text[1..]);
    }
  }

  /** A save cut short after k bytes is rejected or names a prefix of the saved path. */
  lemma TornSave(r: Record, k: nat)
    requires OneLine(r.root) && OneLine(r.status) && k <= |Text(r)|
    ensures var loaded := Load(Text(r)[..k]);
            loaded.Some? ==> loaded.value.root == r.root && loaded.value.status == r.status &&
                             loaded.value.next <= FirstLine(r.next)
  {
    var third := r.next + [NEWLINE];
    var second := r.status + [NEWLINE] + third;
    assert Text(r) == r.root + [NEWLINE] + second;
    TornLine(r.root, second, k);
    if k > |r.root| {
      var k2 := k - |r.root| - 1;
      TornLine(r.status, third, k2);
      if k2 > |r.status| {
        var k3 := k2 - |r.status| - 1;
        FirstLineMonotone(third[..k3], third);
        FirstLineIsPrefix(r.next);
      }
    }
  }

  lemma {:induction false} FirstLineSettled(text: Bytes, whole: Bytes)
    requires text <= whole && AfterFirstLine(text) != []
    ensures FirstLine(whole) == FirstLine(text)
  {
    if text[0] != NEWLINE { FirstLineSettled(text[1..], whole[1..]); }
  }

  lemma {:induction false} FirstLineOfLonger(a: Bytes, b: Bytes)
    requires !OneLine(a)
    ensures FirstLine(a + b) == FirstLine(a)
  {
    if a[0] != NEWLINE {
      assert (a + b)[1..] == a[1..] + b;
      FirstLineOfLonger(a[1..], b);
    }
  }

  lemma {:induction false} AfterFirstLineOfLonger(a: Bytes, b: Bytes)
    requires !OneLine(a)
    ensures AfterFirstLine(a + b) == AfterFirstLine(a) + b
  {
    if a[0] == NEWLINE {
      assert (a + b)[1..] == a[1..] + b;
    } else {
      assert (a + b)[1..] == a[1..] + b;
      AfterFirstLineOfLonger(a[1..], b);
    }
  }

  lemma {:induction false} AfterFirstLineMonotone(text: Bytes, whole: Bytes)
    requires text <= whole && AfterFirstLine(text) != []
    ensures AfterFirstLine(text) <= AfterFirstLine(whole)
  {
    if text[0] == NEWLINE {
      assert text[1..] <= whole[1..];
    } else {
      AfterFirstLineMonotone(text[1..], whole[1..]);
    }
  }

  /** A root with more than one line of which the second reads like a status. */
  predicate Misleading(root: Bytes) {
    var second := FirstLine(AfterFirstLine(root));
    !OneLine(root) && (second == RUNNING || second == COMPLETED)
  }

  /** What a torn text of three lines says is what the whole text says, line by line. */
  lemma TornLines(torn: Bytes, whole: Bytes)
    requires torn <= whole && Load(torn).Some?
    ensures FirstLine(torn) == FirstLine(whole)
    ensures FirstLine(AfterFirstLine(torn)) == FirstLine(AfterFirstLine(whole))
  {
    FirstLineSettled(torn, whole);
    AfterFirstLineMonotone(torn, whole);
    FirstLineSettled(AfterFirstLine(torn), AfterFirstLine(whole));
  }

  /** The first two lines of a text that begins with a root of several lines. */
  lemma LinesOfRoot(root: Bytes, rest: Bytes)
    requires !OneLine(root)
    ensures FirstLine(root + ([NEWLINE] + rest)) == FirstLine(root)
    ensures FirstLine(AfterFirstLine(root + ([NEWLINE] + rest))) == FirstLine(AfterFirstLine(root))
  {
    FirstLineOfLonger(root, [NEWLINE] + rest);
    AfterFirstLineOfLonger(root, [NEWLINE] + rest);
    var second := AfterFirstLine(root);
    FirstLineUpTo(second, rest);
    assert second + ([NEWLINE] + rest) == second + [NEWLINE] + rest;
  }

  /** A root with a newline in it is never read back as itself: its first two lines are. */
  lemma BrokenRoot(r: Record, k: nat)
    requires !OneLine(r.root) && k <= |Text(r)|
    ensures var loaded := Load(Text(r)[..k]);
            loaded.Some? ==>
              loaded.value.root == FirstLine(r.root) && loaded.value.status == FirstLine(AfterFirstLine(r.root))
  {
    var rest := r.status + [NEWLINE] + r.next + [NEWLINE];
    assert Text(r) == r.root + ([NEWLINE] + rest);
    LinesOfRoot(r.root, rest);
    if Load(Text(r)[..k]).Some? { TornLines(Text(r)[..k], Text(r)); }
  }

  lemma {:induction false} FirstLineUpTo(text: Bytes, rest: Bytes)
    ensures FirstLine(text + [NEWLINE] + rest) == FirstLine(text)
  {
    if text == [] {
    } else if text[0] != NEWLINE {
      assert (text + [NEWLINE] + rest)[1..] == text[1..] + [NEWLINE] + rest;
      FirstLineUpTo(text[1..], rest);
    }
  }
}
