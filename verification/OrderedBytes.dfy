// Sorted sequences of byte strings: std::ranges::sort on strings, and std::set<std::string>
// as the strictly ascending sequence of its elements.
module OrderedBytes {
  import opened ByteStrings

  ghost predicate Sorted(s: seq<Bytes>) {
    forall i, j :: 0 <= i < j < |s| ==> AtMost(s[i], s[j])
  }

  ghost predicate StrictlySorted(s: seq<Bytes>) {
    forall i, j :: 0 <= i < j < |s| ==> Less(s[i], s[j])
  }

  lemma AtMostTransitive(a: Bytes, b: Bytes, c: Bytes)
    requires AtMost(a, b) && AtMost(b, c)
    ensures AtMost(a, c)
  {
    if a != b && b != c { LessTransitive(a, b, c); }
  }

  function Insert(s: seq<Bytes>, x: Bytes): (r: seq<Bytes>)
    ensures multiset(r) == multiset(s) + multiset{x}
  {
    if s == [] then [x]
    else
      assert s == [s[0]] + s[1..];
      if AtMost(x, s[0]) then [x] + s else [s[0]] + Insert(s[1..], x)
  }

  lemma {:induction false} InsertSorts(s: seq<Bytes>, x: Bytes)
    requires Sorted(s)
    ensures Sorted(Insert(s, x))
  {
    if s == [] {
    } else {
      if AtMost(x, s[0]) {
        forall j | 0 <= j < |s| ensures AtMost(x, s[j]) {
          if j > 0 { AtMostTransitive(x, s[0], s[j]); }
        }
      } else {
        InsertSorts(s[1..], x);
        LessTotal(x, s[0]);
        var rest := Insert(s[1..], x);
        forall j | 0 <= j < |rest| ensures AtMost(s[0], rest[j]) {
          assert rest[j] in multiset(rest);
        }
      }
    }
  }

  /** Any sort of strings gives this result: it is the only sorted arrangement. */
  function Sort(s: seq<Bytes>): (r: seq<Bytes>)
    ensures multiset(r) == multiset(s)
  {
    if s == [] then []
    else
      assert s == [s[0]] + s[1..];
      Insert(Sort(s[1..]), s[0])
  }

  lemma {:induction false} SortSorts(s: seq<Bytes>)
    ensures Sorted(Sort(s))
  {
    if s == [] {
    } else {
      SortSorts(s[1..]);
      InsertSorts(Sort(s[1..]), s[0]);
    }
  }

  /** Two sorted arrangements of the same strings are the same sequence. */
  lemma {:induction false} SortedIsUnique(a: seq<Bytes>, b: seq<Bytes>)
    requires Sorted(a) && Sorted(b) && multiset(a) == multiset(b)
    ensures a == b
  {
    if a == [] || b == [] {
      assert |multiset(a)| == |a| && |multiset(b)| == |b|;
    } else {
      FirstOfSorted(a, b);
      FirstOfSorted(b, a);
      if a[0] != b[0] { LessAsymmetric(a[0], b[0]); }
      SameRest(a, b);
      SortedIsUnique(a[1..], b[1..]);
    }
  }

  lemma SameRest(a: seq<Bytes>, b: seq<Bytes>)
    requires a != [] && b != [] && a[0] == b[0] && multiset(a) == multiset(b)
    ensures a == [a[0]] + a[1..] && b == [b[0]] + b[1..] && multiset(a[1..]) == multiset(b[1..])
  {
    assert a == [a[0]] + a[1..] && b == [b[0]] + b[1..];
    assert multiset(a[1..]) == multiset(a) - multiset{a[0]};
    assert multiset(b[1..]) == multiset(b) - multiset{b[0]};
  }

  lemma FirstOfSorted(a: seq<Bytes>, b: seq<Bytes>)
    requires Sorted(a) && a != [] && b != [] && multiset(a) == multiset(b)
    ensures AtMost(a[0], b[0])
  {
    assert b[0] in multiset(a);
    var i :| 0 <= i < |a| && a[i] == b[0];
  }

  // ----- std::set<std::string> -----

  function SetInsert(s: seq<Bytes>, x: Bytes): (r: seq<Bytes>)
    ensures x in r
  {
    if x in s then s
    else
      assert x in multiset(Insert(s, x));
      Insert(s, x)
  }

  function SetErase(s: seq<Bytes>, x: Bytes): seq<Bytes> {
    if s == [] then []
    else if s[0] == x then s[1..]
    else [s[0]] + SetErase(s[1..], x)
  }

  lemma SetInsertKeeps(s: seq<Bytes>, x: Bytes)
    requires StrictlySorted(s)
    ensures StrictlySorted(SetInsert(s, x))
    ensures forall y :: y in SetInsert(s, x) <==> y in s || y == x
  {
    if x !in s {
      StrictInsert(s, x);
      assert forall y :: y in Insert(s, x) <==> y in multiset(Insert(s, x));
    }
  }

  lemma {:induction false} StrictInsert(s: seq<Bytes>, x: Bytes)
    requires StrictlySorted(s) && x !in s
    ensures StrictlySorted(Insert(s, x))
  {
    if s == [] {
    } else if AtMost(x, s[0]) {
      assert Less(x, s[0]);
      forall j | 0 <= j < |s| ensures Less(x, s[j]) {
        if j > 0 { LessTransitive(x, s[0], s[j]); }
      }
    } else {
      StrictInsert(s[1..], x);
      LessTotal(x, s[0]);
      InsertAbove(s, x);
    }
  }

  lemma InsertAbove(s: seq<Bytes>, x: Bytes)
    requires s != [] && StrictlySorted(s) && Less(s[0], x)
    ensures forall y :: y in Insert(s[1..], x) ==> Less(s[0], y)
  {
    var rest := Insert(s[1..], x);
    forall y | y in rest ensures Less(s[0], y) {
      assert y in multiset(rest);
      assert y == x || y in s[1..];
    }
  }

  lemma SetEraseKeeps(s: seq<Bytes>, x: Bytes)
    requires StrictlySorted(s)
    ensures StrictlySorted(SetErase(s, x))
    ensures forall y :: y in SetErase(s, x) <==> y in s && y != x
  {
    EraseElements(s, x);
    EraseSorted(s, x);
  }

  lemma {:induction false} EraseElements(s: seq<Bytes>, x: Bytes)
    requires StrictlySorted(s)
    ensures forall y :: y in SetErase(s, x) <==> y in s && y != x
  {
    if s == [] {
    } else {
      EraseElements(s[1..], x);
      LessIrreflexive(s[0]);
      assert forall y :: y in s <==> y == s[0] || y in s[1..];
    }
  }

  lemma {:induction false} EraseSorted(s: seq<Bytes>, x: Bytes)
    requires StrictlySorted(s)
    ensures StrictlySorted(SetErase(s, x))
  {
    if s != [] && s[0] != x {
      EraseSorted(s[1..], x);
      EraseElements(s[1..], x);
      var rest := SetErase(s[1..], x);
      forall j | 0 <= j < |rest| ensures Less(s[0], rest[j]) {
        assert rest[j] in s[1..];
      }
    }
  }

  /** begin() of a set is its least element. */
  lemma FirstIsLeast(s: seq<Bytes>, y: Bytes)
    requires StrictlySorted(s) && y in s
    ensures AtMost(s[0], y)
  {
    var i :| 0 <= i < |s| && s[i] == y;
  }
}
