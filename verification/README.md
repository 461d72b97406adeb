# Virus scanner: a Dafny verification project

The scanner walks a directory tree in sorted order, skips what is excluded, looks every
file up in a cache, searches the others for signatures with an Aho-Corasick automaton on a
bounded pool of workers, moves infected files to quarantine, and keeps a checkpoint so that
an interrupted scan can go on where it stopped. This project models those parts and proves
what they promise.

`dafny verify dfyconfig.toml` checks the whole project.

## What is modelled

| part | files |
|---|---|
| byte strings, their order, `std::set<std::string>` and sorting | `ByteStrings.dfy`, `OrderedBytes.dfy`, `Options.dfy`, `Counting.dfy` |
| automaton: trie insertion, in-place breadth-first completion, scan, file report | `Tries.dfy`, `Automaton.dfy`, `TrieInsertion.dfy`, `FailureLinks.dfy`, `AutomatonBuilder.dfy`, `FileProcessor.dfy` |
| paths, directory trees, the walk in full and resumed, exclusions | `Paths.dfy`, `FileTrees.dfy`, `WalkOrder.dfy`, `FileTreeWalker.dfy`, `Exclusion.dfy` |
| checkpoint text, resume manager, scans over many interrupted runs | `Checkpoint.dfy`, `ResumeManager.dfy`, `ResumeProtocol.dfy`, `ResumeTheorems.dfy` |
| thread pool as interleaved steps | `ThreadPool.dfy`, `ThreadPoolSafety.dfy` |
| cache table, writer, manager, and their runs | `CacheStore.dfy`, `CacheProtocol.dfy`, `CacheManager.dfy` |
| quarantine store, manager, and what faults and crashes can do | `QuarantineStore.dfy`, `QuarantineManager.dfy`, `QuarantineSafety.dfy`, `QuarantineCrashes.dfy` |
| one scan through the pipeline, alone and with the pool that runs its tasks | `ScanPipeline.dfy`, `PooledScan.dfy` |
| the whole scanner over many runs: pipeline, cache, reports and checkpoint together | `WholeScan.dfy`, `WholeScanTheorems.dfy`, `CacheUse.dfy` |
| histories of the whole scanner in which a file is lost, or a judged file's row is pruned | `Trails.dfy`, `LostFiles.dfy`, `PrunedRows.dfy` |

The automaton, the walker, the resume manager, the cache classes and the quarantine classes
are classes and methods over their own fields, proved against functions on values. The pool,
the cache writer's thread, the pipeline and the sequence of scan runs are state machines
whose steps are the critical sections and calls of the source, in any interleaving. In the
histories of the whole scanner the pipeline's wait step fires when no task is outstanding;
`PooledScan` proves that this is when the pool's own `wait()` returns.

Worker count, queue capacity, batch size, checkpoint interval and chunk size are parameters.
A failing or short write, a failing rename, copy or delete, a failing transaction and the
moment at which a process dies are inputs of the steps.

## Main results

1. **Matching is exact.** For every signature list and every file, `Process` on the automaton
   that `Build` returns reports exactly the non-empty signatures that occur in the file, in
   sorted order, whatever the chunk size.
2. **Resuming is safe exactly when the names allow it.** Over any number of runs, completion
   orders, failed or torn checkpoint writes and crashes, no scan ever reports completion with
   a file left out if and only if no two files that a walk hands over clash: a directory `m`
   and a neighbour whose name is `m` continued by a byte below `/` (`a/b` and `a.txt`). The
   walk goes by component, the unfinished set goes by whole text, and these are the cases in
   which they disagree. With newlines in names a clash counts only if it survives the cut of
   the checkpoint's line (`TolerantIffNoClashSurvives`). Where it fails, one stopped process is
   enough, with every write arriving; `LossyTreeLosesAFile` gives a tree. When the checkpoint
   changes, and to what, is exact, and no run writes one before the path it resumed from.
3. **The pool never loses a wakeup**, hence never deadlocks; `wait()` returns exactly when
   everything accepted has run, each task once; the destructor runs what is still queued
   (`ThreadPool/ThreadPool.h:18` says that leftovers are discarded, the code drains them).
4. **The cache is write-behind and transparent**; only a completed full scan prunes, and it
   keeps exactly the rows of paths that a batch written in its generation held. `JudgedRowIsPruned`
   shows that this is less than `Cache/CacheManager.cpp:84-85` says: a file judged by an
   interrupted run, its entry still queued, is skipped by the resumed run and loses its row.
5. **Quarantine loses no contents** under any faults, nor when the process dies between any
   two changes on disk, and a round trip restores path, contents, records and mode. What a
   crash can lose is the link between a file and its record, and exactly when is proved. A
   process that cannot read the records replaces all of them with its first save.
6. **The parts fit together.** In any history of the whole scanner, when the wait for the pool
   is over each file that the walk handed over has exactly one judgement: malicious if and
   only if it holds a signature, or counted as failed; the counters count these judgements,
   and they are durable once the writer has returned. A file is judged from the cache exactly
   when the memory loaded at the start knows it with its present metadata, and scanned exactly
   when not, and no run is ever stuck. A file that a task finds malicious is tried for
   quarantine once, no other is, and the counter is the number of successes. Updates of one path never collide, so
   the cache's assumption is met. Every history drives the checkpoint as the resume protocol
   does and the other way round, so result 2 holds of the whole scanner, with the same exact
   condition (`WholeScanLosesNoFileIff`).

Three documented promises hold only under a condition, which is proved to be exact, and each
failure is shown on an input:

- `Scan/FileProcessor.h:31` calls the report unique. It is, unless a signature that occurs in
  the file is listed twice (`ReportIsUniqueIff`, `ListedTwiceIsReportedTwice`); the signature
  loader keeps duplicates.
- Everything inside an excluded path is to be skipped. It is, on all trees, unless `/` is
  excluded and another root is scanned that lies in no excluded path
  (`ExclusionsAlwaysHonouredIff`, `ExcludedSlashIsIgnored`).
- Quarantine records keep their files, unless a quarantined file is itself quarantined again
  (`QuarantineAlwaysConsistentIff`, `QuarantinedAgainIsLost`).

## Model

| member | source | states |
|---|---|---|
| Automata.Automaton.constructor | Scan/Automaton/AutomatonBuilder.cpp:8-9 | a new automaton is the trie of no signatures: one root whose transitions are all missing |
| TrieInsertion.AddSignature | Scan/Automaton/AutomatonBuilder.cpp:26-50 | inserting signature k turns the trie of the first k signatures into that of the first k+1: labels are exactly the prefixes, outputs exactly the own indices, existing nodes keep their place |
| TrieInsertion.ChildOrNew | Scan/Automaton/AutomatonBuilder.cpp:37-47 | one step goes to the existing child or creates it, and the trie then spells one more byte |
| TrieInsertion.SkipEmpty | Scan/Automaton/AutomatonBuilder.cpp:12-14 | an empty signature leaves the trie as it is |
| TrieInsertion.Grow | Scan/Automaton/AutomatonBuilder.cpp:40-44 | appending a node and linking it keeps every edge, label and output of the trie right |
| Tries.LongestSuffixIsLongest | Scan/Automaton/Automaton.h:13-14 | the node meant by a failure link has every shorter label that is a suffix as its own suffix |
| Tries.StepFromSuffix | Scan/Automaton/AutomatonBuilder.cpp:78-85 | reading a byte from the longest suffix leads where reading it from the whole word leads |
| Tries.MergedIsExact | Scan/Automaton/AutomatonBuilder.cpp:87-92 | own outputs followed by those behind the failure link list each non-empty signature ending here once, and no other |
| FailureLinks.MissingEdge | Scan/Automaton/AutomatonBuilder.cpp:78-81 | a missing transition equals the transition of the failure node |
| FailureLinks.ChildGoal | Scan/Automaton/AutomatonBuilder.cpp:83-92 | a child's failure link and inherited outputs are those of its parent's failure node's transition |
| FailureLinks.ShallowerIsQueued | Scan/Automaton/AutomatonBuilder.cpp:68-96 | breadth first: when a state is processed every node no deeper than it has been queued |
| FailureLinks.ShallowerIsProcessed | Scan/Automaton/AutomatonBuilder.cpp:73-79 | and every strictly shallower node, so its failure node, is finished |
| FailureLinks.FrontierPush | Scan/Automaton/AutomatonBuilder.cpp:94 | a child is queued for the first time, and the queue stays in depth order |
| FailureLinks.CompleteRootByte | Scan/Automaton/AutomatonBuilder.cpp:59-66 | one byte of the root: a missing transition loops back, a child fails to the root and is queued |
| FailureLinks.CompleteByte | Scan/Automaton/AutomatonBuilder.cpp:75-95 | one byte of a queued state, in place: transition filled, or child linked, given its outputs and queued |
| FailureLinks.CompleteState | Scan/Automaton/AutomatonBuilder.cpp:70-96 | all bytes of one state: its row is finished and exactly its children are queued |
| FailureLinks.BuildFailureLinks | Scan/Automaton/AutomatonBuilder.cpp:52-97 | on exit every transition and failure link is the longest suffix in the trie and every output is exact; each node is processed once |
| AutomatonBuilder.Build | Scan/Automaton/AutomatonBuilder.cpp:5-24 | the automaton built is the Aho-Corasick automaton of the list, and its count is the number of positions that hold a non-empty signature |
| AutomatonBuilder.NonEmptyCounts | Scan/Automaton/AutomatonBuilder.cpp:11-20 | the signatures counted are those at least one byte long, each position of the list once |
| Scanning.OutputsAreExact | Scan/Automaton/AutomatonScanner.cpp:17-19 | the outputs met after reading a text are the signatures that end there |
| Scanning.TransitionIsExact | Scan/Automaton/AutomatonScanner.cpp:14-15 | one transition keeps the state equal to the longest suffix of the text read |
| Scanning.ScanChunk | Scan/Automaton/AutomatonScanner.cpp:8-21 | state and matches carried from earlier chunks are extended to exactly those of the longer text |
| Scanning.MatchedSignatures | Scan/FileProcessor.cpp:60-73 | the result is sorted and names each signature as often as it is indexed |
| Scanning.Process | Scan/FileProcessor.cpp:19-58 | any chunk size gives the exact report, and only an unopenable file gives none |
| Scanning.ReportIsExact | Scan/FileProcessor.h:30-31 | the report holds a string iff it is a non-empty listed signature that occurs; it is empty iff the file is clean |
| Scanning.ReportIsDetermined | Scan/FileProcessor.cpp:35-55 | the text alone determines the report, so splitting it into chunks does not matter |
| Scanning.ReportIsUniqueIff | Scan/FileProcessor.h:30-31 | no string is reported twice iff no signature that occurs is listed twice |
| Scanning.ListedTwiceIsReportedTwice | Scan/FileProcessor.cpp:60-73 | a signature listed twice is, in a file that is this signature, the whole report, twice |
| Scanning.BuildAndProcess | Scan/Pipeline/ScanPipeline.cpp:35-41 | building once and scanning any file gives the exact report |
| OrderedBytes.SortSorts | Scan/FileProcessor.cpp:71 | sorting yields a sorted arrangement |
| OrderedBytes.SetInsertKeeps | Resume/ResumeManager.cpp:44 | inserting into the ordered set adds one element and keeps the order |
| OrderedBytes.SetEraseKeeps | Resume/ResumeManager.cpp:55 | erasing removes that element only |
| OrderedBytes.FirstIsLeast | Resume/ResumeManager.cpp:45 | begin() is the least element |
| FileTrees.SortOrders | Scan/Traversal/FileTreeWalker.cpp:147-150 | the entries of a directory end up in strictly ascending name order |
| FileTrees.ChildrenBelow | Scan/Traversal/FileTreeWalker.cpp:68-121 | whatever a directory's walk hands over lies below one of its entries |
| WalkOrder.DirAscends | Scan/Traversal/FileTreeWalker.cpp:52-124 | the files of a directory are handed over in strictly ascending component order |
| WalkOrder.ChildResumes | Resume/ResumePathFilter.cpp:19-45 | the three-way decision for one entry keeps exactly its files that are not before the checkpoint |
| WalkOrder.ResumedIsFiltered | Scan/Traversal/FileTreeWalker.cpp:48-49 | for any tree and any checkpoint the resumed walk is the full walk without the files before the checkpoint |
| WalkOrder.ResumedIsSuffix | Scan/Traversal/FileTreeWalker.h:29-30 | the full walk is the skipped files, all before the checkpoint, followed by the resumed walk |
| WalkOrder.FilesAscend | Scan/Traversal/FileTreeWalker.h:16-17 | the full walk is strictly ascending and its paths are valid |
| Walker.ResumePathFilter.From | Resume/ResumePathFilter.cpp:5-12 | the filter holds the pieces of the checkpoint's text |
| Walker.ResumePathFilter.DecideEntry | Resume/ResumePathFilter.cpp:19-45 | the decision taken is the specified one |
| Walker.FileTreeWalker.ReadSortedChildren | Scan/Traversal/FileTreeWalker.cpp:126-152 | an openable directory gives all its entries sorted |
| Walker.FileTreeWalker.VisitChild | Scan/Traversal/FileTreeWalker.cpp:69-120 | one entry delivers exactly its specified files, until the handler declines |
| Walker.FileTreeWalker.WalkDirectory | Scan/Traversal/FileTreeWalker.cpp:52-124 | the recursion delivers exactly the specified files in order and stops when the handler declines |
| Walker.FileTreeWalker.Walk | Scan/Traversal/FileTreeWalker.cpp:17-50 | root check, filter and walk together deliver the specified files |
| Walker.DeliverAll | Scan/Pipeline/ScanPipeline.cpp:89-115 | a handler that always goes on sees every file |
| Walker.DeliverStops | Scan/Traversal/FileTreeWalker.cpp:112-120 | a handler sees the files one by one, up to and with the first that it declines |
| Exclusion.IsRootInsideExcludedPath | Exclude/ScanRootValidator.cpp:30-41 | the loop finds an excluded path that is the root or above it iff there is one |
| Exclusion.TextPrefixIsComponentPrefix | Exclude/ScanRootValidator.cpp:13-21 | on canonical paths the prefix-and-slash test is the component prefix test, except for `/` |
| Exclusion.DirIsExact | Exclude/PathFilter.cpp:14-30 | exact matching on the way down emits a file iff it is reachable and nothing from the directory down to it is excluded |
| Exclusion.WalkMeetsExclusions | Scan/Traversal/FileTreeWalker.cpp:29-34 | root test plus exact matching emit a file iff it is reachable and has no excluded ancestor-or-self |
| Exclusion.ExclusionsHonouredIff | Exclude/ScanRootValidator.h:15 | on a given tree the walk emits exactly the files free of exclusions iff `/` is not excluded, or is the root, or the root lies in an excluded path, or no reachable file is clear of exclusions from the root down |
| Exclusion.ExclusionsAlwaysHonouredIff | Exclude/ScanRootValidator.cpp:13-41 | on all trees it does iff `/` is not excluded, or is the root, or the root lies in an excluded path |
| Exclusion.ExcludedSlashIsIgnored | Exclude/ScanRootValidator.cpp:13-21 | with `/` excluded, a file directly in /h is handed over all the same |
| Paths.SplitJoin | Resume/ResumePathFilter.cpp:9-11 | a relative path survives being written as text and split again |
| Paths.PrefixSkipsLess | Resume/ResumePathFilter.cpp:31-35 | a checkpoint text cut short skips no file the full text would not |
| Paths.OrdersDisagreeIffClash | Resume/ResumeManager.cpp:44-45 | text order and walk order disagree on two paths iff a directory's name is continued by the other's entry with a byte below the slash |
| Paths.OrdersAgree | Resume/ResumeManager.cpp:66 | without such names the text order follows the walk order |
| Checkpoint.SaveLoadRoundTrip | Resume/ResumeManager.cpp:89-148 | what save writes is read back unchanged iff root, status and path hold no newline |
| Checkpoint.LoadReadsThreeLines | Resume/ResumeManager.cpp:89-110 | a text of fewer than three lines is rejected; of any other the first three lines are root, status and path |
| Checkpoint.TextHasThreeLines | Resume/ResumeManager.cpp:125-136 | what save writes has exactly the lines root, status and path, in this order |
| Checkpoint.LoadOfSave | Resume/ResumeManager.cpp:94-107 | a path with a newline is read back up to it |
| Checkpoint.TornSave | Resume/ResumeManager.cpp:125-136 | text cut anywhere is rejected or names the same root and status and a prefix of the path |
| Checkpoint.BrokenRoot | Resume/ResumeManager.cpp:133 | a root with a newline is read back as its first line, with its second line for a status |
| ResumeManagement.ResumeManager.BeginScan | Resume/ResumeManager.cpp:14-38 | begin resumes iff the file loads as running for this root, else it clears the path and saves |
| ResumeManagement.ResumeManager.Add | Resume/ResumeManager.cpp:40-49 | the file joins the set and the least element becomes the next file |
| ResumeManagement.ResumeManager.Complete | Resume/ResumeManager.cpp:51-68 | the file leaves the set; the last one after discovery saves completed, one that leaves files may save running, and the last one before the end of discovery saves nothing |
| ResumeManagement.ResumeManager.FinishDiscovery | Resume/ResumeManager.cpp:70-82 | discovery ends and completed or running is saved |
| ResumeManagement.ResumeManager.SaveStatus | Resume/ResumeManager.cpp:112-148 | a save replaces the file and resets the count, or fails and changes nothing |
| ResumeManagement.ResumeManager.MaybeSaveStatus | Resume/ResumeManager.cpp:150-157 | a save is attempted once the count reaches the interval |
| ResumeManagement.BeginIsExact | Resume/ResumeManager.cpp:14-38 | begin takes up a running checkpoint of its root and writes nothing, else it starts over and tries to write running with no path; the set is empty either way |
| ResumeManagement.AddIsExact | Resume/ResumeManager.cpp:40-49 | the set gains this file only, the next file is the least of the set, the rest stays |
| ResumeManagement.CompletionIsExact | Resume/ResumeManager.cpp:51-68 | the set loses this file only; emptied before the end of discovery it leaves disk, next file and count alone and reports success; emptied after it, completed is written; else the least file left is, when the count has reached the interval |
| ResumeManagement.DiscoveryFinishedIsExact | Resume/ResumeManager.cpp:70-82 | completed with no path is written if nothing is left, else running with the next file; the set stays |
| ResumeManagement.EveryIntervalSaves | Resume/ResumeManager.cpp:150-157 | the interval-th completion since the last save writes the state of that moment, and no earlier one writes |
| ResumeProtocol.MirrorsAdd | Resume/ResumeManager.cpp:40-49 | the unfinished set mirrors the open files after a discovery |
| ResumeProtocol.MirrorsErase | Resume/ResumeManager.cpp:51-57 | and after a completion |
| ResumeProtocol.LeastIsSafe | Resume/ResumeManager.cpp:66-67 | every file a resume from the least unfinished file would skip is done |
| ResumeProtocol.RunningIsSafe | Resume/ResumeManager.cpp:81 | whatever part of a running checkpoint arrives, resuming from it skips only done files |
| ResumeProtocol.CompletedIsSafe | Resume/ResumeManager.cpp:76-79 | whatever part of a completed checkpoint arrives, it is written only when all files are done |
| ResumeProtocol.StepKeepsInv | Scan/Pipeline/ScanPipeline.cpp:50-76 | starting, discovering, completing, ending discovery and dying all keep the invariant |
| ResumeProtocol.LastCompletionWrites | Resume/ResumeManager.cpp:57-63 | a completion that leaves no file open leaves the checkpoint and all but the set alone before the end of discovery, and writes completed after it |
| ResumeProtocol.OtherCompletionWrites | Resume/ResumeManager.cpp:66-67 | one that leaves files open writes the least of them, when it is the interval-th since the last save, and else nothing |
| ResumeProtocol.EndOfDiscoveryWrites | Resume/ResumeManager.cpp:70-82 | the end of discovery writes completed if no file is open, else running with the least open file |
| ResumeProtocol.NothingWrittenBeforeInterval | Resume/ResumeManager.cpp:150-157 | over any discoveries and completions before the end of discovery, nothing is written until as many completions as the interval have left files |
| ResumeProtocol.CheckpointNeverGoesBack | Resume/ResumeManager.h:17-18 | over every execution the checkpoint changes only at a start that does not resume, at a completion and at the end of discovery, and then to completed or to a file not before the path resumed from |
| ResumeProtocol.ReadBackIsNotBefore | Resume/ResumeManager.cpp:89-110 | a one-line path written as a running checkpoint and read back is not before a path it was not before when written |
| ResumeProtocol.ResumeIsSafeIff | Resume/ResumeManager.h:17-18 | over all histories a resume skips only completed files and completed means all files, iff the sites' files tolerate the text order; where they do not, a history with one stop and no failing write completes falsely |
| ResumeProtocol.LoseOne | Resume/ResumeManager.cpp:70-82 | for any two files the text order swaps, a run whose writes all arrive ends with a checkpoint at the smaller one and the other not done |
| ResumeProtocol.ReportSuccess | Resume/ResumeManager.cpp:57-61 | the next run then reports completion without that file |
| ResumeTheorems.StartWalksTheTree | Scan/Pipeline/ScanPipeline.cpp:51-70 | the files a run sets out for are those the walker hands over from its checkpoint, none when the root lies in an excluded path |
| ResumeTheorems.DeliveredIsFiltered | Scan/Traversal/FileTreeWalker.cpp:31-49 | root test and resumed walk hand over what the walk from the start does, less what is before the checkpoint |
| ResumeTheorems.ExcludedRootLosesNothing | Scan/Traversal/FileTreeWalker.cpp:31-34 | roots in excluded paths lose no file, whatever the names below them |
| ResumeTheorems.TolerantIffClashFree | Resume/ResumeManager.h:15 | for one-line names the condition is that no two files clash |
| ResumeTheorems.TolerantIffNoClashSurvives | Resume/ResumeManager.cpp:125-136 | for any names it is that no clash survives the cut of the saved path at its first newline |
| ResumeTheorems.LeastIsEarliest | Resume/ResumeManager.h:41-42 | without clashes the set's first element is the earliest unfinished file of the walk |
| ResumeTheorems.PlainNamesResumeSafely | Resume/ResumeManager.h:17-18 | delivered files whose names are free of bytes below the slash make every history safe |
| ResumeTheorems.ScanLosesNoFileIff | Resume/ResumeManager.h:17-18 | on any trees, no history completes falsely iff the files that the walks hand over tolerate the text order; with one-line names, iff no two of them clash |
| ResumeTheorems.LossyTreeLosesAFile | Scan/Traversal/FileTreeWalker.cpp:147-150 | on a tree with a/b and a.txt some history with one stop and no failing write reports completion without a/b, for every interval |
| ThreadPoolSafety.WorkerKeepsWakeups | ThreadPool/ThreadPool.cpp:70-107 | every step of a worker keeps the wakeup counts |
| ThreadPoolSafety.ProducerKeepsWakeups | ThreadPool/ThreadPool.cpp:44-60 | every step of enqueue keeps them, the notification after unlocking included |
| ThreadPoolSafety.OtherKeepsWakeups | ThreadPool/ThreadPool.cpp:26-42 | wait() and the destructor's broadcasts keep them |
| ThreadPoolSafety.WorkerKeepsConserved | ThreadPool/ThreadPool.cpp:85-101 | picking up, running and finishing keep accepted = queued + active + completed and the queue in order |
| ThreadPoolSafety.StepKeepsRunOnce | ThreadPool/ThreadPool.cpp:85-93 | no task is held by two workers or run twice |
| ThreadPoolSafety.StepKeepsInv | ThreadPool/ThreadPool.cpp:26-107 | every step of any thread keeps all pool invariants |
| ThreadPoolSafety.ReachableInv | ThreadPool/ThreadPool.cpp:16-24 | they hold in every state of every run |
| ThreadPoolSafety.AcceptedAreAccountedFor | ThreadPool/ThreadPool.h:35-45 | accepted tasks are queued, active or completed, and the queue is within its capacity |
| ThreadPoolSafety.StoppedOnlyDrains | ThreadPool/ThreadPool.cpp:26-60 | over any run, from stop on nothing is accepted and the queue is a suffix of what it was |
| ThreadPoolSafety.PickupIsFifo | ThreadPool/ThreadPool.cpp:85-86 | tasks start in the order they were accepted |
| ThreadPoolSafety.WaitReturnsIffAllRun | ThreadPool/ThreadPool.cpp:62-68 | wait() returns iff every accepted task has run, once |
| ThreadPoolSafety.JoinedMeansAllRun | ThreadPool/ThreadPool.cpp:81-83 | after the join every accepted task has run: the queue is drained, not discarded |
| ThreadPoolSafety.NoDeadlock | ThreadPool/ThreadPool.cpp:44-107 | when no thread can move, nothing is queued or running and no client is blocked |
| CacheStore.RowRoundTrip | Cache/SqliteCacheManager.cpp:91-105 | a row read back equals the entry written iff its sizes fit 64 bits |
| CacheStore.SignedOrder | Cache/SqliteCacheManager.cpp:121-124 | the table's signed comparison is the unsigned one iff both values lie in the same half or are equal |
| CacheStore.SqliteCacheManager.LoadAll | Cache/SqliteCacheManager.cpp:73-112 | every row becomes an entry under its path; none does without a database or when the read fails |
| CacheStore.SqliteCacheManager.UpsertBatch | Cache/SqliteCacheManager.cpp:146-176 | the whole batch is applied in order, or nothing |
| CacheStore.ApplyIsLast | Cache/SqliteCacheManager.cpp:146-176 | applied in order means: for every path its last entry in the batch, and where it has none the old row |
| CacheStore.SqliteCacheManager.CleanOldGenerations | Cache/SqliteCacheManager.cpp:114-130 | exactly the rows whose signed generation is smaller go, or none |
| CacheStore.UnstaleIsRecentIff | Cache/SqliteCacheManager.cpp:121-124 | these are the rows of older generations iff no generation lies in the other half of the 64-bit range |
| CacheStore.SqliteCacheManager.ClearAll | Cache/SqliteCacheManager.cpp:132-144 | all rows go, or none |
| CacheManagement.CacheWriter.Submit | Cache/CacheWriter.cpp:26-42 | an entry is queued, or dropped while stopping; a full batch wakes the writer |
| CacheManagement.CacheWriter.TakeBatch | Cache/CacheWriter.cpp:62-70 | the critical section of a round makes the whole queue one batch |
| CacheManagement.CacheWriter.WriteBatch | Cache/CacheWriter.cpp:72-78 | with storage open and no failure the whole batch is applied to the table, else the table stays; no batch is left |
| CacheManagement.CacheWriter.Finish | Cache/CacheWriter.cpp:44-54 | the batch in the thread's hands is applied to the table, then what is queued, each unless storage is closed or it fails; nothing is left over |
| CacheManagement.DrainedIsLast | Cache/CacheWriter.cpp:56-84 | after both batches a path's row is its last queued entry, else its last entry in the thread's hands, else the old row |
| CacheManagement.CacheManager.LoadCache | Cache/CacheManager.cpp:21-47 | memory is the table, or empty when it cannot be read; generation and generation file as they were plus one, or started over at the largest generation |
| CacheManagement.CacheManager.Lookup | Cache/CacheManager.cpp:49-65 | the verdict of an entry with the same metadata, else none |
| CacheManagement.CacheManager.UpdateEntry | Cache/CacheManager.cpp:67-77 | the entry is stamped, in memory and queued |
| CacheManagement.CacheManager.CommitGeneration | Cache/CacheManager.cpp:79-92 | in-flight batch and queue are applied to the table as by Finish, a full scan then leaves only the rows not older than this generation, and the generation is recorded |
| CacheProtocol.StepKeepsRefines | Cache/CacheWriter.cpp:56-84 | memory stays equal to table, in-flight batch, queue and unsubmitted updates laid over each other, off the paths that were lost or not read |
| CacheProtocol.FinishedMeansDurable | Cache/CacheManager.cpp:81-82 | in any reachable state with the writer returned and nothing unsubmitted the table equals memory, off the paths lost in failed batches or not read at the start |
| CacheProtocol.PartedExactly | Cache/CacheWriter.cpp:26-84 | within a run a path is lost iff an entry of it was given up, in a failed batch or submitted after the stop, and unread iff reading failed at the start, its row was there and no update of it has come |
| CacheProtocol.SubmitOrderMatters | Cache/CacheManager.cpp:72-76 | two updates queued in the other order agree with memory iff their paths differ or they are equal |
| CacheProtocol.ReportGivesTruth | Scan/Pipeline/ScanPipeline.cpp:176-177 | the verdict taken from a scan report is malicious iff some signature occurs |
| CacheProtocol.CacheIsTransparent | Cache/CacheManager.cpp:49-65 | in any reachable state a hit equals the verdict of a fresh scan and is never an error |
| CacheProtocol.SeenFilesHitNextRun | Cache/CacheManager.h:35-37 | over any history: a file that a scan, full or not, has seen by the time its writer returned, its entry not lost, is a hit at the next load, however the scan ends |
| CacheProtocol.UpdatedStaysHit | Cache/CacheManager.cpp:67-77 | over any history: from an update to the next one of its path, lookups hit iff they ask with the same metadata |
| CacheProtocol.StepKeepsGenerations | Cache/CacheManager.h:56-58 | stored generations never exceed the last completed one plus one |
| CacheProtocol.OnlyPruningRemoves | Cache/CacheManager.cpp:84-88 | in any reachable state only the prune step of a full scan, its writer returned, removes rows |
| CacheProtocol.PruneLeavesExactly | Cache/SqliteCacheManager.h:33-35 | a completed full scan leaves exactly the rows stamped with its generation |
| CacheProtocol.StampsSurviveRuns | Cache/CacheManager.cpp:69-71 | rows stamped by interrupted runs last until that generation is completed |
| CacheProtocol.HistoryInv | Cache/CacheManager.h:39-43 | all cache invariants hold over any history of runs |
| QuarantineManagement.FileSystem.Move | Quarantine/QuarantineFileOperations.cpp:69-87 | rename, else copy and delete, with any of the three failing |
| QuarantineManagement.QuarantineRepository.Drop | Quarantine/QuarantineRepository.cpp:77-90 | every record with the id goes, the others keep their order |
| QuarantineManagement.QuarantineRepository.FindById | Quarantine/QuarantineRepository.cpp:92-102 | the first record with the id |
| QuarantineManagement.QuarantineManager.LoadRecords | Quarantine/QuarantineManager.cpp:21-36 | the next process has the records of the metadata file, none when it is corrupt, and those it had when the directory cannot be made |
| QuarantineManagement.QuarantineManager.QuarantineFile | Quarantine/QuarantineManager.cpp:38-86 | move, record, save, and roll back when the save fails |
| QuarantineManagement.QuarantineManager.RestoreEntry | Quarantine/QuarantineManager.cpp:128-168 | refuses an occupied path, moves back, reapplies the mode, drops the record |
| QuarantineManagement.QuarantineManager.RestoreFile | Quarantine/QuarantineManager.cpp:88-97 | restore one and save |
| QuarantineManagement.QuarantineManager.RestoreEverything | Quarantine/QuarantineManager.cpp:99-109 | tries every record of a snapshot in order, then saves once |
| QuarantineManagement.QuarantineManager.RemoveFile | Quarantine/QuarantineManager.cpp:111-120 | delete the file, drop the record, save |
| QuarantineSafety.MoveKeeps | Quarantine/QuarantineFileOperations.cpp:69-87 | moving to a free path keeps all contents whichever primitive fails |
| QuarantineSafety.QuarantineKeeps | Quarantine/QuarantineManager.cpp:60-82 | quarantining keeps all contents, failed saves and rollbacks included |
| QuarantineSafety.HistoryKeeps | Quarantine/QuarantineManager.cpp:38-168 | so does any history of quarantines and restores |
| QuarantineSafety.QuarantineKeepsConsistentIff | Quarantine/QuarantineManager.cpp:65-82 | records and files stay in step iff the file is no record's own, or is not moved, or is put back after a failed save |
| QuarantineSafety.QuarantineAlwaysConsistentIff | Quarantine/QuarantineManager.cpp:38-86 | they stay in step whatever fails iff the file is no record's own |
| QuarantineSafety.QuarantinedAgainIsLost | Quarantine/QuarantineManager.cpp:45-64 | quarantining the file of the only record leaves that record without a file |
| QuarantineSafety.HistoryStaysConsistent | Quarantine/QuarantineRepository.h:10-12 | with fresh ids, and no record's own file quarantined, every record keeps a file of its own over any history |
| QuarantineSafety.RemoveGivesUpOne | Quarantine/QuarantineManager.cpp:170-186 | deleting succeeds iff the record exists and nothing fails; it gives up exactly that record and its file, the records on disk change only on success, and records and files stay in step |
| QuarantineSafety.QuarantineSucceedsIff | Quarantine/QuarantineManager.cpp:38-86 | quarantining succeeds iff the file exists, can be moved and the record can be saved; then memory and disk hold the old records followed by one with this id, path, destination, signatures and mode, found under its id, and the contents lie at the destination; else both are as before |
| QuarantineSafety.FailedSaveRollsBack | Quarantine/QuarantineManager.cpp:76-82 | when the record cannot be saved and moving back works, the file is back and records are as before |
| QuarantineSafety.RoundTrip | Quarantine/QuarantineManager.cpp:136-167 | quarantine and restore put back paths, contents and records, and the mode when reapplied; when it succeeds is exact |
| QuarantineSafety.RestoreSucceedsIff | Quarantine/QuarantineManager.cpp:88-97 | a restore succeeds iff the record exists, its place is free, the file can be moved and the records can be saved; exactly that record goes, and the records on disk change only on success |
| QuarantineSafety.RestoreAllKeepsFailures | Quarantine/QuarantineManager.h:38-40 | restoreAll keeps exactly the records whose restore failed, in order, saves these unless the save fails, and succeeds iff none is left and the save worked |
| QuarantineSafety.RestoreAllWithoutFaults | Quarantine/QuarantineManager.cpp:104-106 | without faults it restores the first record for each path that was free, when no record wants its file where another's lies |
| QuarantineSafety.RestoreAllAfterHistory | Quarantine/QuarantineManager.cpp:99-109 | so it does after any history from no records in which ids are fresh, destinations are nobody's original path and no record's file is quarantined |
| QuarantineSafety.UnsavedRestoreIsStale | Quarantine/QuarantineManager.cpp:92-96 | a restore that cannot be saved leaves a record on disk whose file is gone |
| QuarantineCrashes.TraceIsOperation | Quarantine/QuarantineManager.cpp:38-168 | each operation is the sequence of changes on disk it is spelled out as |
| QuarantineCrashes.CrashIsAFault | Quarantine/QuarantineManager.cpp:60-86 | dying after some of the changes leaves on disk what some later failures would |
| QuarantineCrashes.LifeKeeps | Quarantine/QuarantineManager.cpp:38-168 | any history of operations, faults, crashes and unreadable records keeps all contents |
| QuarantineCrashes.UnreadableThenQuarantine | Quarantine/QuarantineRepository.cpp:37-48 | after records that could not be read a successful quarantine leaves on disk just its own record, with all its fields, and every other file in place |
| QuarantineCrashes.UnreadableThenRestore | Quarantine/QuarantineManager.cpp:88-109 | then a restore does nothing, and restoreAll empties the records and reports success |
| QuarantineCrashes.CrashInQuarantine | Quarantine/QuarantineManager.cpp:60-82 | a crash leaves records and files in step, and the file neither in place nor on record exactly between the completed move and the next change |
| QuarantineCrashes.CrashInRestore | Quarantine/QuarantineManager.cpp:88-97 | a crash leaves the record stale exactly once the move out is done |
| ScanPipeline.StepKeepsInv | Scan/Pipeline/ScanPipeline.cpp:89-193 | every counter update and resume call of walker and tasks keeps the accounts and the log of judgements |
| ScanPipeline.CountersAgree | Scan/Pipeline/ScanSummary.h:11-17 | at any moment discovered = cached + scanned + failed + outstanding, discovered and files left add up to the walk, quarantined is the number of successful moves, and quarantined <= malicious <= cached + scanned |
| ScanPipeline.QuarantinedAreCounted | Scan/Pipeline/ScanPipeline.cpp:178-185 | at any moment the quarantined counter is the number of quarantines that succeeded |
| ScanPipeline.ReliableIffArrived | Resume/ResumeManager.cpp:112-148 | the writes count as reliable iff each one the scan has made arrived in full |
| ScanPipeline.NothingLeftAfterWait | Scan/Pipeline/ScanPipeline.cpp:72-76 | after the wait each file of the walk has exactly one judgement, all counters are counts of the judgements and successful moves, each file a task found malicious was tried for quarantine once and no other was, no file is unfinished, and if all writes arrived the checkpoint is completed |
| PooledScan.WaitReturnsWhenFinished | Scan/Pipeline/ScanPipeline.cpp:72-73 | when the pool's wait() returns, every task that the scan has enqueued is finished |
| PooledScan.StepsAreThePipelines | ThreadPool/ThreadPool.cpp:44-107 | every step of scan and pool together is a step of the pipeline or one it does not see |
| PooledScan.PoolFinishesTheScan | Scan/Pipeline/ScanPipeline.cpp:66-76 | so after the wait each file has one judgement, none is unfinished, and the pool has accepted exactly the scan's tasks |
| PooledScan.NeverStuck | ThreadPool/ThreadPool.cpp:44-107 | until the wait is over some thread of scan or pool can take a step other than a spurious wakeup, so no scan hangs in its pool |
| WholeScan.StepKeepsInv | Scan/Pipeline/ScanPipeline.cpp:25-193 | every step of a process, its cache writer and its death keeps judgements right, stamps in memory, and the checkpoint's credit |
| WholeScanTheorems.ScanJudgesEachFile | Scan/Pipeline/ScanPipeline.cpp:66-83 | in any history, after the wait each file handed over has one judgement, malicious iff infected, or is counted as failed; discovered, malicious and failed count them |
| CacheUse.LookupDecides | Scan/Pipeline/ScanPipeline.cpp:89-147 | in any history, when a lookup is left, the file has gained a judgement from the cache with its verdict if memory holds an entry with the same three metadata fields, and else is about to be queued with nothing judged |
| CacheUse.LookupIsPossible | Scan/Pipeline/ScanPipeline.cpp:105-112 | whatever memory holds, the matching step of the two can be taken |
| CacheUse.KnownFilesAreNotScanned | Scan/Pipeline/ScanPipeline.cpp:89-147 | at any moment a judgement is from the cache iff the memory found at the start knew the file, with the verdict known, and iff the file has no task |
| CacheUse.CachedAreTheKnown | Scan/Pipeline/ScanSummary.h:11-17 | at the end cached is the number of files known at the start, the others are scanned or failed; with all files known there are no tasks and nothing is scanned |
| CacheUse.StartFindsTheTable | Cache/CacheManager.cpp:21-47 | the memory a run starts with is the table, or empty when it cannot be read |
| CacheUse.RunsNeverGetStuck | Scan/Pipeline/ScanPipeline.cpp:66-80 | in every state of every history, until the generation is recorded, some step without failure or death is possible |
| CacheUse.WriterNeverGetsStuck | Cache/CacheWriter.cpp:56-84 | the writer can take a batch once one is full or the scan is over, and write what it has taken; it returns with the queue empty |
| WholeScanTheorems.UpdatesNeverCollide | Cache/CacheWriter.cpp:73 | an update the pipeline is about to make meets no other update of its path |
| WholeScanTheorems.JudgementsAreDurable | Scan/Pipeline/ScanPipeline.cpp:75-80 | once the writer has returned the table holds the judgement of every file that could be read, off failed batches |
| WholeScanTheorems.NothingLostWithoutFailure | Cache/CacheWriter.cpp:26-42 | in any history in which no batch fails no path is lost, so durability then has no exception: the pipeline submits nothing after the stop |
| WholeScanTheorems.OnlyFullScansRemoveRows | Scan/Pipeline/ScanPipeline.cpp:78-80 | in any history rows are removed only when a scan of / prunes after its walk and all its tasks |
| WholeScanTheorems.PruningRemovesIff | Cache/SqliteCacheManager.cpp:121-124 | pruning removes a row iff no batch written in its generation held the path, whoever has judged the file |
| WholeScanTheorems.PruningKeepsItsOwn | Cache/CacheManager.cpp:81-88 | it keeps the rows of all readable files its own run has judged, except those whose batch failed |
| PrunedRows.JudgedRowIsPruned | Cache/CacheManager.cpp:84-88 | some history with nothing failing prunes the row of a file that an earlier run of the same full scan has judged |
| WholeScanTheorems.HistoryIsExecution | Scan/Pipeline/ScanPipeline.cpp:50-76 | manager and checkpoint of every history are those of an execution of the resume protocol |
| WholeScanTheorems.CompletedScanJudgedEveryFile | Resume/ResumeManager.h:17-18 | with files that tolerate the text order, when the checkpoint says completed each file of the root has been judged soundly in one of the runs |
| LostFiles.ExecutionIsHistory | Scan/Pipeline/ScanPipeline.cpp:50-76 | each execution of the resume protocol is that of some history of the whole scanner, with no more deaths, and with every file read and every write arriving if its writes do |
| LostFiles.WholeScanLosesNoFileIff | Resume/ResumeManager.h:17-18 | no history of the whole scanner reports completion with a file not judged iff the delivered files tolerate the text order, with one-line names iff no two clash; where they do not, one death and no other failure is enough |

## Left out

- Root that is a regular file, or cannot be accessed: the walk then bypasses traversal and resume.
- Symbolic link resolution, `weakly_canonical` and case of names: excluded and scanned paths are canonical absolute paths, and a path's text is the form compared.
- The tree stays fixed over the runs of one scan; files that appear, change or are moved to quarantine between two of its runs are not followed.
- Read errors in the middle of a file: the read loop takes them for the end of the file, and a file is its full contents here.
- A signature index or automaton state beyond the range of `int`: states are unbounded, a list that large does not fit in memory.
- ResumeIsSafeIff: a scan root whose path holds a newline and whose second line is the word running or completed must not begin with the line that is another root, because its checkpoint reads as the other root's.
- A checkpoint that is neither written by this program nor absent at the first start.
- `fs::path` iteration over text with leading or doubled slashes: the manager never writes such text.
- Liveness under a scheduler: the pool results are invariants and freedom from deadlock.
- Tasks that throw: the pool swallows the exception, and the accounts then no longer hold.
- The wakeups of the cache writer's single condition variable: its thread runs whenever its predicate holds.
- Generations from 2^63 on in the histories of CacheProtocol, where the table's comparison is signed: one generation passes per completed scan. UnstaleIsRecentIff says what the comparison does there.
- A cache database that cannot be opened, and a generation file that cannot be read, in the histories; a table that is open and cannot be read is in them.
- A file that changes between being listed and being read: contents are a function of path, modification time and size.
- Two updates of one path under way at once in the histories of CacheProtocol: SubmitOrderMatters says what they would break, UpdatesNeverCollide that the pipeline makes none.
- The store of quarantined files in the histories of the whole scanner: whether a file could be quarantined is an input there.
- Random ids and the retry loop that reserves a destination: the id is fresh and the destination free when quarantine starts.
- An existence test that itself fails, and a copy that fails halfway: the file map knows only whole files.
- SQL text, JSON, timestamps, logging, console output, the command line and packaging.
- Loading signatures and exclusions from their files: trimming and comment lines.
