// The cache's table, with SQL reduced to operations on a map from path to row. Sizes and
// generations are unsigned 64-bit in memory and signed 64-bit in the table.
module CacheStore {
  import opened ByteStrings

  datatype FileVerdict = Clean | Malicious | Error

  datatype FileMetadata = FileMetadata(lastModified: int, size: nat, signaturesLastModified: int)

  datatype CacheEntry = CacheEntry(path: Bytes, metadata: FileMetadata, verdict: FileVerdict, generation: nat)

  const TWO_63: int := 0x8000_0000_0000_0000
  const TWO_64: int := 0x1_0000_0000_0000_0000

  type Int64 = z: int | -TWO_63 <= z < TWO_63

  /** One table row behind its primary key. */
  datatype Row = Row(
    lastModified: int,
    size: Int64,
    signaturesLastModified: int,
    verdict: FileVerdict,
    generation: Int64)

  /** static_cast<std::int64_t> of an unsigned 64-bit value. */
  function ToSigned(n: nat): Int64 {
    var m := n % TWO_64;
    if m < TWO_63 then m else m - TWO_64
  }

  /** static_cast<std::uint64_t> of a signed 64-bit value. */
  function ToUnsigned(z: Int64): nat {
    z % TWO_64
  }

  function Encode(e: CacheEntry): Row {
    Row(e.metadata.lastModified, ToSigned(e.metadata.size), e.metadata.signaturesLastModified, e.verdict,
        ToSigned(e.generation))
  }

  function Decode(path: Bytes, r: Row): CacheEntry {
    CacheEntry(path, FileMetadata(r.lastModified, ToUnsigned(r.size), r.signaturesLastModified), r.verdict,
               ToUnsigned(r.generation))
  }

  predicate Fits(e: CacheEntry) {
    e.metadata.size < TWO_64 && e.generation < TWO_64
  }

  /** An entry that fits its 64-bit fields is read back as it was written, and only then. */
  lemma RowRoundTrip(e: CacheEntry)
    ensures Decode(e.path, Encode(e)) == e <==> Fits(e)
  {
    SignedRoundTrip(e.metadata.size);
    SignedRoundTrip(e.generation);
  }

  lemma SignedRoundTrip(n: nat)
    ensures ToUnsigned(ToSigned(n)) == n <==> n < TWO_64
    ensures ToUnsigned(ToSigned(n)) == n % TWO_64
  {
    var m := n % TWO_64;
    if m >= TWO_63 { assert (m - TWO_64) % TWO_64 == m; }
  }

  /** The table's signed comparison agrees with the unsigned one only on the same half. */
  lemma SignedOrder(a: nat, b: nat)
    requires a < TWO_64 && b < TWO_64
    ensures (ToSigned(a) < ToSigned(b) <==> a < b) <==> ((a < TWO_63 <==> b < TWO_63) || a == b)
  {
  }

  // ----- entries over entries -----

  /** A batch applied in order: a later entry for the same path replaces an earlier one. */
  function Apply(entries: map<Bytes, CacheEntry>, batch: seq<CacheEntry>): map<Bytes, CacheEntry>
    decreases |batch|
  {
    if batch == [] then entries else Apply(entries[batch[0].path := batch[0]], batch[1..])
  }

  lemma {:induction false} ApplyConcat(entries: map<Bytes, CacheEntry>, x: seq<CacheEntry>, y: seq<CacheEntry>)
    ensures Apply(entries, x + y) == Apply(Apply(entries, x), y)
    decreases |x|
  {
    if x == [] {
      assert x + y == y;
    } else {
      assert (x + y)[1..] == x[1..] + y;
      ApplyConcat(entries[x[0].path := x[0]], x[1..], y);
    }
  }

  lemma ApplyOne(entries: map<Bytes, CacheEntry>, x: seq<CacheEntry>, e: CacheEntry)
    ensures Apply(entries, x + [e]) == Apply(entries, x)[e.path := e]
  {
    ApplyConcat(entries, x, [e]);
  }

  /** A path either keeps its entry or takes one of the batch. */
  lemma {:induction false} ApplyOrigin(entries: map<Bytes, CacheEntry>, batch: seq<CacheEntry>, p: Bytes)
    ensures p in Apply(entries, batch) <==> p in entries || exists e :: e in batch && e.path == p
    ensures p in Apply(entries, batch) ==>
              (p in entries && Apply(entries, batch)[p] == entries[p] && forall e :: e in batch ==> e.path != p) ||
              (Apply(entries, batch)[p] in batch && Apply(entries, batch)[p].path == p)
    decreases |batch|
  {
    if batch == [] {
    } else {
      ApplyOrigin(entries[batch[0].path := batch[0]], batch[1..], p);
      assert forall e :: e in batch <==> e == batch[0] || e in batch[1..];
    }
  }

  /** The last entry of a batch for a path, if it has one. */
  ghost predicate LastFor(batch: seq<CacheEntry>, p: Bytes, i: int) {
    0 <= i < |batch| && batch[i].path == p && forall j :: i < j < |batch| ==> batch[j].path != p
  }

  /** A batch leaves for every path its last entry there, and where it has none the old one. */
  lemma {:induction false} ApplyIsLast(entries: map<Bytes, CacheEntry>, batch: seq<CacheEntry>, p: Bytes)
    ensures forall i :: LastFor(batch, p, i) ==> p in Apply(entries, batch) && Apply(entries, batch)[p] == batch[i]
    ensures (forall i :: 0 <= i < |batch| ==> batch[i].path != p) ==>
              (p in Apply(entries, batch) <==> p in entries) &&
              (p in entries ==> Apply(entries, batch)[p] == entries[p])
    decreases |batch|
  {
    if batch == [] {
    } else {
      var rest := batch[1..];
      ApplyIsLast(entries[batch[0].path := batch[0]], rest, p);
      forall i | LastFor(batch, p, i)
        ensures p in Apply(entries, batch) && Apply(entries, batch)[p] == batch[i]
      {
        if i > 0 {
          assert rest[i - 1] == batch[i] && LastFor(rest, p, i - 1);
        } else {
          assert forall j :: 0 <= j < |rest| ==> rest[j] == batch[j + 1] && rest[j].path != p;
        }
      }
    }
  }

  class SqliteCacheManager {
    var open: bool
    var rows: map<Bytes, Row>

    ghost function Entries(): map<Bytes, CacheEntry>
      reads this
    {
      Decoded(rows)
    }

    /**
     * Every row becomes an in-memory entry under its own path; none does without a database
     * or when reading the rows fails on the way.
     */
    method LoadAll(fails: bool) returns (cache: map<Bytes, CacheEntry>)
      ensures cache == if open && !fails then Entries() else map[]
    {
      cache := map[];
      if !open || fails { return; }
      var left := rows.Keys;
      while left != {}
        invariant left <= rows.Keys
        invariant cache.Keys == rows.Keys - left
        invariant forall p :: p in cache ==> cache[p] == Decode(p, rows[p])
        decreases left
      {
        var p :| p in left;
        cache := cache[p := Decode(p, rows[p])];
        left := left - {p};
      }
    }

    /** One transaction: the whole batch in order, or nothing when it fails. */
    method UpsertBatch(entries: seq<CacheEntry>, fails: bool) returns (ok: bool)
      requires forall e :: e in entries ==> Fits(e)
      modifies this`rows
      ensures ok <==> open && (entries == [] || !fails)
      ensures Entries() == if ok then Apply(old(Entries()), entries) else old(Entries())
    {
      if !open { return false; }
      if entries == [] { return true; }
      var transaction := rows;
      ghost var before := Entries();
      assert entries[..0] == [];
      for i := 0 to |entries|
        invariant rows == old(rows)
        invariant Decoded(transaction) == Apply(before, entries[..i])
      {
        assert entries[..i + 1] == entries[..i] + [entries[i]];
        ApplyOne(before, entries[..i], entries[i]);
        RowRoundTrip(entries[i]);
        transaction := transaction[entries[i].path := Encode(entries[i])];
      }
      assert entries[..|entries|] == entries;
      if fails { return false; }
      rows := transaction;
      return true;
    }

    static ghost function Decoded(rows: map<Bytes, Row>): map<Bytes, CacheEntry> {
      map p | p in rows :: Decode(p, rows[p])
    }

    /** The rows whose signed generation is smaller go; a failure removes nothing. */
    method CleanOldGenerations(currentGeneration: nat, fails: bool) returns (ok: bool)
      modifies this`rows
      ensures ok <==> open && !fails
      ensures Entries() == if ok then Unstale(old(Entries()), currentGeneration) else old(Entries())
    {
      if !open || fails { return false; }
      ghost var before := Entries();
      rows := map p | p in rows && !(rows[p].generation < ToSigned(currentGeneration)) :: rows[p];
      forall p | p in old(rows)
        ensures ToSigned(before[p].generation) == old(rows)[p].generation
      {
        assert before[p].generation == ToUnsigned(old(rows)[p].generation);
      }
      return true;
    }

    method ClearAll(fails: bool) returns (ok: bool)
      modifies this`rows
      ensures ok <==> open && !fails
      ensures Entries() == if ok then map[] else old(Entries())
    {
      if !open || fails { return false; }
      rows := map[];
      return true;
    }
  }

  /** What DELETE ... WHERE generation < ? leaves. */
  function Unstale(entries: map<Bytes, CacheEntry>, generation: nat): map<Bytes, CacheEntry> {
    map p | p in entries && !(ToSigned(entries[p].generation) < ToSigned(generation)) :: entries[p]
  }

  /** Exactly the older generations go iff no generation lies in the other half of 64 bits. */
  lemma UnstaleIsRecentIff(entries: map<Bytes, CacheEntry>, generation: nat)
    requires generation < TWO_64 && forall p :: p in entries ==> entries[p].generation < TWO_64
    ensures Unstale(entries, generation) == Recent(entries, generation) <==>
              forall p :: p in entries ==>
                (entries[p].generation < TWO_63 <==> generation < TWO_63) || entries[p].generation == generation
  {
    forall p | p in entries
      ensures (p in Unstale(entries, generation) <==> p in Recent(entries, generation)) <==>
                (entries[p].generation < TWO_63 <==> generation < TWO_63) || entries[p].generation == generation
    {
      SignedOrder(entries[p].generation, generation);
    }
  }

  function Recent(entries: map<Bytes, CacheEntry>, generation: nat): map<Bytes, CacheEntry> {
    map p | p in entries && entries[p].generation >= generation :: entries[p]
  }
}
