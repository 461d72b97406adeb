// CacheManager and CacheWriter as classes: what each call does to the in-memory map, the
// queue, the table and the generation file.
module CacheManagement {
  import opened Options
  import opened ByteStrings
  import opened CacheStore
  import opened CacheProtocol

  class CacheWriter {
    const storage: SqliteCacheManager
    const batchSize: nat
    var upsertQueue: seq<CacheEntry>
    var stop: bool
    var upserts: seq<CacheEntry> // what the background thread has taken and not written yet

    constructor (storage: SqliteCacheManager, batchSize: nat)
      requires batchSize > 0
      ensures this.storage == storage && this.batchSize == batchSize
      ensures upsertQueue == [] && upserts == [] && !stop
    {
      this.storage, this.batchSize := storage, batchSize;
      upsertQueue, upserts, stop := [], [], false;
    }

    ghost predicate Storable()
      reads this
    {
      forall e :: e in upserts || e in upsertQueue ==> Fits(e)
    }

    /** Queues an entry, or drops it when the writer is stopping. */
    method Submit(entry: CacheEntry) returns (wake: bool)
      modifies this`upsertQueue
      ensures upsertQueue == if stop then old(upsertQueue) else old(upsertQueue) + [entry]
      ensures wake <==> !stop && |upsertQueue| >= batchSize
    {
      wake := false;
      if stop { return; }
      upsertQueue := upsertQueue + [entry];
      if |upsertQueue| >= batchSize { wake := true; }
    }

    /** The critical section of the background loop: the whole queue becomes one batch. */
    method TakeBatch() returns (last: bool)
      requires stop || |upsertQueue| >= batchSize
      requires upserts == []
      modifies this`upsertQueue, this`upserts
      ensures upsertQueue == [] && upserts == old(upsertQueue) && last == stop
    {
      last := stop;
      upserts, upsertQueue := upsertQueue, [];
    }

    /** The rest of the round: the batch is written, or given up when that fails. */
    method WriteBatch(fails: bool)
      requires forall e :: e in upserts ==> Fits(e)
      modifies this`upserts, storage`rows
      ensures upserts == []
      ensures storage.Entries() ==
              if storage.open && !fails then Apply(old(storage.Entries()), old(upserts)) else old(storage.Entries())
    {
      if upserts != [] {
        var ok := storage.UpsertBatch(upserts, fails);
      }
      upserts := [];
    }

    /**
     * Stops the writer and waits for its thread: the batch in its hands is written first,
     * then what is queued; either may fail, and nothing is left over.
     */
    method Finish(fails: bool, lastFails: bool)
      requires Storable()
      modifies this, storage`rows
      ensures stop && upsertQueue == [] && upserts == []
      ensures var first := if storage.open && !fails then Apply(old(storage.Entries()), old(upserts))
                           else old(storage.Entries());
              storage.Entries() == if storage.open && !lastFails then Apply(first, old(upsertQueue)) else first
    {
      stop := true;
      WriteBatch(fails);
      var last := TakeBatch();
      WriteBatch(lastFails);
    }
  }

  /**
   * What draining leaves for a path: the last entry queued, else the last one in the thread's
   * hands, else the old row.
   */
  lemma DrainedIsLast(rows: map<Bytes, CacheEntry>, upserts: seq<CacheEntry>, queue: seq<CacheEntry>, p: Bytes)
    ensures var drained := Apply(Apply(rows, upserts), queue);
            && (forall i :: LastFor(queue, p, i) ==> p in drained && drained[p] == queue[i])
            && ((forall i :: 0 <= i < |queue| ==> queue[i].path != p) ==>
                  && (forall i :: LastFor(upserts, p, i) ==> p in drained && drained[p] == upserts[i])
                  && ((forall i :: 0 <= i < |upserts| ==> upserts[i].path != p) ==>
                        (p in drained <==> p in rows) && (p in rows ==> drained[p] == rows[p])))
  {
    ApplyIsLast(rows, upserts, p);
    ApplyIsLast(Apply(rows, upserts), queue, p);
  }

  class CacheManager {
    const storage: SqliteCacheManager
    const writer: CacheWriter
    var cacheEntries: map<Bytes, CacheEntry>
    var currentGeneration: nat
    var generationFile: Option<nat>

    constructor (storage: SqliteCacheManager, writer: CacheWriter, generationFile: Option<nat>)
      ensures this.storage == storage && this.writer == writer && this.generationFile == generationFile
      ensures cacheEntries == map[] && currentGeneration == 0
    {
      this.storage, this.writer, this.generationFile := storage, writer, generationFile;
      cacheEntries, currentGeneration := map[], 0;
    }

    function LastCompleted(): nat
      reads this`generationFile
    {
      if generationFile.None? then 0 else generationFile.value
    }

    method SaveLastCompleted(generation: nat, fails: bool) returns (ok: bool)
      modifies this`generationFile
      ensures ok == !fails
      ensures generationFile == if fails then old(generationFile) else Some(generation)
    {
      if fails { return false; }
      generationFile := Some(generation);
      return true;
    }

    /**
     * Memory becomes the table, or nothing when the rows cannot be read. The generation is
     * one past the last completed one; at the very last one everything starts over.
     */
    method LoadCache(clearFails: bool, saveFails: bool, readFails: bool) returns (ok: bool)
      modifies this, storage`rows
      ensures ok == storage.open
      ensures !ok ==> cacheEntries == old(cacheEntries) && storage.rows == old(storage.rows)
      ensures !ok ==> generationFile == old(generationFile) && currentGeneration == old(currentGeneration)
      ensures ok ==> cacheEntries == if readFails then map[] else storage.Entries()
      ensures ok && old(LastCompleted()) != TWO_64 - 1 ==>
                currentGeneration == old(LastCompleted()) + 1 && generationFile == old(generationFile) &&
                storage.Entries() == old(storage.Entries())
      ensures ok && old(LastCompleted()) == TWO_64 - 1 ==>
                currentGeneration == 1 && generationFile == (if saveFails then old(generationFile) else Some(0)) &&
                storage.Entries() == if clearFails then old(storage.Entries()) else map[]
    {
      if !storage.open { return false; }
      var lastCompleted := LastCompleted();
      if lastCompleted == TWO_64 - 1 {
        var cleared := storage.ClearAll(clearFails);
        lastCompleted := 0;
        var saved := SaveLastCompleted(0, saveFails);
      }
      cacheEntries := storage.LoadAll(readFails);
      currentGeneration := lastCompleted + 1;
      return true;
    }

    method Lookup(path: Bytes, metadata: FileMetadata) returns (verdict: Option<FileVerdict>)
      ensures verdict == CachedVerdict(cacheEntries, path, metadata)
    {
      if path !in cacheEntries { return None; }
      var entry := cacheEntries[path];
      if entry.metadata == metadata { return Some(entry.verdict); }
      return None;
    }

    /** The entry is stamped, visible at once, and on its way to the table. */
    method UpdateEntry(entry: CacheEntry)
      modifies this`cacheEntries, writer`upsertQueue
      ensures var stamped := entry.(generation := currentGeneration);
              && cacheEntries == old(cacheEntries)[entry.path := stamped]
              && writer.upsertQueue ==
                 if writer.stop then old(writer.upsertQueue) else old(writer.upsertQueue) + [stamped]
    {
      var stamped := entry.(generation := currentGeneration);
      cacheEntries := cacheEntries[stamped.path := stamped];
      var wake := writer.Submit(stamped);
    }

    /**
     * Drains the writer, prunes after a full scan, then records the generation. With every
     * step succeeding the table holds the drained entries, less those of older generations.
     */
    method CommitGeneration(fullSystemScan: bool, writeFails: bool, lastWriteFails: bool, cleanFails: bool,
                            saveFails: bool)
      requires writer.storage == storage && writer.Storable()
      modifies this`generationFile, writer, storage`rows
      ensures writer.stop && writer.upsertQueue == [] && writer.upserts == []
      ensures var first := if storage.open && !writeFails then Apply(old(storage.Entries()), old(writer.upserts))
                           else old(storage.Entries());
              var drained := if storage.open && !lastWriteFails then Apply(first, old(writer.upsertQueue)) else first;
              storage.Entries() ==
              if fullSystemScan && storage.open && !cleanFails then Unstale(drained, currentGeneration) else drained
      ensures generationFile == if saveFails then old(generationFile) else Some(currentGeneration)
    {
      writer.Finish(writeFails, lastWriteFails);
      if fullSystemScan {
        var cleaned := storage.CleanOldGenerations(currentGeneration, cleanFails);
      }
      var saved := SaveLastCompleted(currentGeneration, saveFails);
    }
  }
}
