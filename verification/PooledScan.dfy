// A scan and the pool that runs its tasks: enqueue() and wait() are the pool's own steps, a
// task moves only while a worker works on it, and the wait is over when the pool says so.
module PooledScan {
  import opened Pipeline = ScanPipeline
  import opened Paths
  import opened ResumeManagement
  import opened ResumeProtocol
  import Pool = ThreadPool
  import PoolSafety = ThreadPoolSafety

  /** Task k of the scan is the task number k of the pool. */
  datatype Joint = Joint(scan: Scan, pool: Pool.Pool)

  datatype Act =
    | OfMain(step: Pipeline.Step)
    | OfTask(step: Pipeline.Step)
    | OfPool(event: Pool.Event)

  // ----- one step -----

  /** The walking thread is not inside enqueue() or wait(). */
  ghost predicate MainIsFree(p: Pool.Pool) {
    && |p.producers| == 1 && p.producers[0].Idle?
    && |p.waiters| == 1 && p.waiters[0].Idle?
  }

  ghost predicate WorkedOn(p: Pool.Pool, task: nat) {
    exists w :: 0 <= w < |p.workers| && p.workers[w] == Pool.WorkerPc.Working(task)
  }

  /** The pool takes the task in. */
  ghost predicate Accepts(p: Pool.Pool, e: Pool.Event)
    requires Pool.Enabled(p, e)
  {
    e.ProducerChecks? && !p.stop && |p.tasks| < p.capacity
  }

  /** wait() finds nothing queued and nothing running. */
  ghost predicate WaitIsOver(p: Pool.Pool, e: Pool.Event)
    requires Pool.Enabled(p, e)
  {
    e.WaiterChecks? && p.tasks == [] && p.active == 0
  }

  predicate InACall(e: Pipeline.Step) {
    e.Enqueue? || e.WaitReturns?
  }

  /** What the pool's clients ask of it, and when a worker is through with its task. */
  ghost predicate Driven(j: Joint, e: Pool.Event)
    requires Pool.Enabled(j.pool, e)
  {
    match e
    case ProducerCalls(_) => j.scan.main.MissAdded?
    case WaiterCalls(_) => j.scan.main.Waiting?
    case DestroyerCalls => j.scan.main.Done?
    case WorkerRuns(w) =>
      var task := j.pool.workers[w].task; task < |j.scan.tasks| && j.scan.tasks[task].pc.Finished?
    case _ => true
  }

  ghost predicate Possible(j: Joint, act: Act) {
    match act
    case OfMain(e) => Pipeline.Enabled(j.scan, e) && !ByTask(e) && !InACall(e) && MainIsFree(j.pool)
    case OfTask(e) => Pipeline.Enabled(j.scan, e) && ByTask(e) && WorkedOn(j.pool, e.i)
    case OfPool(e) => Pool.Enabled(j.pool, e) && Driven(j, e)
  }

  ghost function Next(j: Joint, act: Act): Joint
    requires Possible(j, act)
  {
    match act
    case OfMain(e) => j.(scan := Take(j.scan, e))
    case OfTask(e) => j.(scan := Take(j.scan, e))
    case OfPool(e) =>
      var pool := Pool.Step(j.pool, e);
      if Accepts(j.pool, e) && j.scan.main.MissAdded? then Joint(Take(j.scan, Enqueue), pool)
      else if WaitIsOver(j.pool, e) then Joint(j.scan.(main := Done), pool)
      else Joint(j.scan, pool)
  }

  // ----- invariants -----

  /** The pool has the tasks of the scan, and what it has run is finished. */
  ghost predicate SameTasks(j: Joint) {
    && j.pool.accepted == |j.scan.tasks|
    && forall k :: 0 <= k < |j.pool.ran| ==>
         j.pool.ran[k] < |j.scan.tasks| && j.scan.tasks[j.pool.ran[k]].pc.Finished?
  }

  /** The walking thread is where its call to the pool says. */
  ghost predicate InItsCall(j: Joint) {
    && |j.pool.producers| == 1 && |j.pool.waiters| == 1
    && (j.pool.producers[0].Idle? || j.pool.producers[0].Pushed? || j.scan.main.MissAdded?)
    && (j.pool.waiters[0].Idle? || j.scan.main.Waiting?)
    && (j.pool.destroyer.Outside? || j.scan.main.Done?)
  }

  ghost predicate Inv(j: Joint, files: seq<Path>) {
    && Pool.Inv(j.pool) && Pipeline.Inv(j.scan, files)
    && SameTasks(j) && InItsCall(j)
  }

  /** Finished tasks stay finished, and no step takes one away. */
  lemma FinishedStays(scan: Scan, e: Pipeline.Step, i: nat)
    requires Pipeline.Enabled(scan, e) && i < |scan.tasks| && scan.tasks[i].pc.Finished?
    ensures i < |Take(scan, e).tasks| && Take(scan, e).tasks[i].pc.Finished?
  {
  }

  lemma TasksAfter(scan: Scan, e: Pipeline.Step)
    requires Pipeline.Enabled(scan, e)
    ensures |Take(scan, e).tasks| == if e.Enqueue? then |scan.tasks| + 1 else |scan.tasks|
  {
  }

  lemma ScanKeepsSameTasks(j: Joint, e: Pipeline.Step)
    requires SameTasks(j) && Pipeline.Enabled(j.scan, e) && !e.Enqueue?
    ensures SameTasks(j.(scan := Take(j.scan, e)))
  {
    TasksAfter(j.scan, e);
    forall k | 0 <= k < |j.pool.ran| ensures Take(j.scan, e).tasks[j.pool.ran[k]].pc.Finished? {
      FinishedStays(j.scan, e, j.pool.ran[k]);
    }
  }

  lemma ScanKeepsInv(j: Joint, act: Act, files: seq<Path>)
    requires Inv(j, files) && Possible(j, act) && !act.OfPool?
    ensures Inv(Next(j, act), files)
  {
    Pipeline.StepKeepsInv(j.scan, act.step, files);
    ScanKeepsSameTasks(j, act.step);
    TaskLeavesMain(j.scan, act.step);
  }

  lemma TaskLeavesMain(scan: Scan, e: Pipeline.Step)
    requires Pipeline.Enabled(scan, e)
    ensures ByTask(e) ==> Take(scan, e).main == scan.main
    ensures scan.main.Done? ==> Take(scan, e).main.Done?
  {
  }

  /** When the pool lets wait() return, every task of the scan is finished. */
  lemma WaitMeansFinished(j: Joint, files: seq<Path>, e: Pool.Event)
    requires Inv(j, files) && Possible(j, OfPool(e)) && WaitIsOver(j.pool, e)
    ensures Pipeline.Enabled(j.scan, WaitReturns) && Next(j, OfPool(e)).scan == Take(j.scan, WaitReturns)
  {
    PoolSafety.IdleMeansAllRun(j.pool);
    forall i | 0 <= i < |j.scan.tasks| ensures j.scan.tasks[i].pc.Finished? {
      assert i in j.pool.ran;
      var k :| 0 <= k < |j.pool.ran| && j.pool.ran[k] == i;
    }
  }

  /** When the pool takes a task in, the walking thread is in the call that hands it over. */
  lemma AcceptMeansEnqueue(j: Joint, files: seq<Path>, e: Pool.Event)
    requires Inv(j, files) && Possible(j, OfPool(e)) && Accepts(j.pool, e)
    ensures Pipeline.Enabled(j.scan, Enqueue) && Next(j, OfPool(e)).scan == Take(j.scan, Enqueue)
  {
  }

  /** What a step of the pool does to the counts and lists the scan cares about. */
  lemma PoolCounts(p: Pool.Pool, e: Pool.Event)
    requires Pool.Enabled(p, e)
    ensures Pool.Step(p, e).accepted == if Accepts(p, e) then p.accepted + 1 else p.accepted
    ensures Pool.Step(p, e).ran == if e.WorkerRuns? then p.ran + [p.workers[e.i].task] else p.ran
    ensures |Pool.Step(p, e).producers| == |p.producers| && |Pool.Step(p, e).waiters| == |p.waiters|
    ensures Pool.Step(p, e).destroyer.Outside? ==> p.destroyer.Outside?
    ensures p.destroyer.Outside? && !e.DestroyerCalls? ==> Pool.Step(p, e).destroyer.Outside?
  {
  }

  lemma PoolKeepsSameTasks(j: Joint, files: seq<Path>, e: Pool.Event)
    requires Inv(j, files) && Possible(j, OfPool(e))
    ensures SameTasks(Next(j, OfPool(e)))
  {
    PoolCounts(j.pool, e);
    if Accepts(j.pool, e) {
      AcceptMeansEnqueue(j, files, e);
      TasksAfter(j.scan, Enqueue);
      forall k | 0 <= k < |j.pool.ran| ensures Take(j.scan, Enqueue).tasks[j.pool.ran[k]].pc.Finished? {
        FinishedStays(j.scan, Enqueue, j.pool.ran[k]);
      }
    }
  }

  lemma ClientsAfter(p: Pool.Pool, e: Pool.Event)
    requires Pool.Enabled(p, e) && |p.producers| == 1 && |p.waiters| == 1
    ensures var p' := Pool.Step(p, e);
            && (p.producers[0].Idle? && !e.ProducerCalls? ==> p'.producers[0].Idle?)
            && (p.producers[0].Pushed? ==> p'.producers[0].Pushed? || p'.producers[0].Idle?)
            && (Accepts(p, e) ==> p'.producers[0].Pushed?)
            && (p.waiters[0].Idle? && !e.WaiterCalls? ==> p'.waiters[0].Idle?)
            && (WaitIsOver(p, e) ==> p'.waiters[0].Idle?)
  {
  }

  lemma PoolKeepsInItsCall(j: Joint, files: seq<Path>, e: Pool.Event)
    requires Inv(j, files) && Possible(j, OfPool(e))
    ensures InItsCall(Next(j, OfPool(e)))
  {
    PoolCounts(j.pool, e);
    ClientsAfter(j.pool, e);
    if WaitIsOver(j.pool, e) { WaitMeansFinished(j, files, e); }
  }

  lemma PoolKeepsInv(j: Joint, files: seq<Path>, e: Pool.Event)
    requires Inv(j, files) && Possible(j, OfPool(e))
    ensures Inv(Next(j, OfPool(e)), files)
  {
    PoolSafety.StepKeepsInv(j.pool, e);
    PoolKeepsSameTasks(j, files, e);
    PoolKeepsInItsCall(j, files, e);
    if Accepts(j.pool, e) {
      AcceptMeansEnqueue(j, files, e);
      Pipeline.StepKeepsInv(j.scan, Enqueue, files);
    } else if WaitIsOver(j.pool, e) {
      WaitMeansFinished(j, files, e);
      Pipeline.StepKeepsInv(j.scan, WaitReturns, files);
    }
  }

  // ----- results -----

  /** A pool with one client and a scan about to start, and any steps from there. */
  ghost predicate IsHistory(states: seq<Joint>, acts: seq<Act>) {
    && |states| == |acts| + 1
    && Fresh(states[0].scan) && Pool.Initial(states[0].pool) && MainIsFree(states[0].pool)
    && forall k :: 0 <= k < |acts| ==> Possible(states[k], acts[k]) && states[k + 1] == Next(states[k], acts[k])
  }

  lemma {:induction false} HistoryInv(states: seq<Joint>, acts: seq<Act>, k: nat)
    requires IsHistory(states, acts) && k < |states|
    ensures Inv(states[k], states[0].scan.left)
  {
    if k == 0 {
      PoolSafety.InitialInv(states[0].pool);
      FreshInv(states[0].scan);
    } else {
      HistoryInv(states, acts, k - 1);
      var files := states[0].scan.left;
      match acts[k - 1]
      case OfPool(e) => PoolKeepsInv(states[k - 1], files, e);
      case _ => ScanKeepsInv(states[k - 1], acts[k - 1], files);
    }
  }

  /** When the pool's wait() returns, every task that the scan has enqueued is finished. */
  lemma WaitReturnsWhenFinished(states: seq<Joint>, acts: seq<Act>, k: nat)
    requires IsHistory(states, acts) && k < |acts|
    requires acts[k].OfPool? && WaitIsOver(states[k].pool, acts[k].event)
    ensures forall i :: 0 <= i < |states[k].scan.tasks| ==> states[k].scan.tasks[i].pc.Finished?
    ensures Pipeline.Enabled(states[k].scan, WaitReturns) && states[k + 1].scan == Take(states[k].scan, WaitReturns)
  {
    HistoryInv(states, acts, k);
    WaitMeansFinished(states[k], states[0].scan.left, acts[k].event);
  }

  /** Every step of the two together is a step of the pipeline, or one it does not see. */
  lemma StepsAreThePipelines(states: seq<Joint>, acts: seq<Act>, k: nat)
    requires IsHistory(states, acts) && k < |acts|
    ensures states[k + 1].scan == states[k].scan ||
            exists e :: Pipeline.Enabled(states[k].scan, e) && states[k + 1].scan == Take(states[k].scan, e)
  {
    HistoryInv(states, acts, k);
    if acts[k].OfPool? {
      if Accepts(states[k].pool, acts[k].event) {
        AcceptMeansEnqueue(states[k], states[0].scan.left, acts[k].event);
      } else if WaitIsOver(states[k].pool, acts[k].event) {
        WaitMeansFinished(states[k], states[0].scan.left, acts[k].event);
      }
    }
  }

  /** So when the wait is over each file of the walk has exactly one judgement, and none is unfinished. */
  lemma PoolFinishesTheScan(states: seq<Joint>, acts: seq<Act>, k: nat)
    requires IsHistory(states, acts) && k < |states| && states[k].scan.main.Done?
    ensures var s := states[k].scan;
            && JudgesEach(s.log, states[0].scan.left) && s.manager.unfinished == []
            && states[k].pool.accepted == |s.tasks|
            && forall i :: 0 <= i < |s.tasks| ==> s.tasks[i].pc.Finished?
  {
    HistoryInv(states, acts, k);
    var s := states[k].scan;
    DoneJudgesEach(s, states[0].scan.left);
    assert Open(s) == {};
    EmptyMirror(s.manager.unfinished, Open(s));
  }

  // ----- neither waits for the other in vain -----

  /** A task that is not finished has a step to take. */
  lemma TaskStep(scan: Scan, i: nat) returns (e: Pipeline.Step)
    requires i < |scan.tasks| && !scan.tasks[i].pc.Finished?
    ensures Pipeline.Enabled(scan, e) && ByTask(e) && e.i == i
  {
    match scan.tasks[i].pc
    case Queued => e := TaskScans(i, false);
    case Flagged => e := TaskFlags(i);
    case Moving => e := TaskMoves(i, true);
    case Closing => e := TaskCloses(i, Failed);
  }

  /** Outside its calls to the pool the walking thread has a step to take, or a call to make. */
  lemma FreeMainGoesOn(j: Joint) returns (act: Act)
    requires MainIsFree(j.pool) && !j.scan.main.Done?
    ensures Possible(j, act) && (act.OfPool? ==> act.event.ProducerCalls? || act.event.WaiterCalls?)
  {
    match j.scan.main
    case Walking => act := OfMain(if j.scan.left != [] then Pipeline.Discover else WalkEnds(Failed));
    case Looking(_) => act := OfMain(CacheMiss);
    case HitCounted(_, malicious) => act := OfMain(if malicious then HitIsMalicious else HitAdds);
    case HitAdded(_) => act := OfMain(HitCompletes(Failed));
    case MissAdded(_) => act := OfPool(Pool.ProducerCalls(0));
    case Waiting => act := OfPool(Pool.WaiterCalls(0));
  }

  /** A worker at work on a task either returns from it, or the task goes on. */
  lemma WorkGoesOn(j: Joint, files: seq<Path>, e: Pool.Event) returns (act: Act)
    requires Inv(j, files) && Pool.Enabled(j.pool, e) && PoolSafety.Moves(e)
    ensures Possible(j, act) && (act.OfPool? ==> PoolSafety.Moves(act.event))
  {
    if e.WorkerRuns? && !Driven(j, e) {
      var task := j.pool.workers[e.i].task;
      assert task < |j.scan.tasks|;
      var step := TaskStep(j.scan, task);
      act := OfTask(step);
    } else {
      act := OfPool(e);
    }
  }

  /**
   * No scan hangs in its pool: until the wait is over some thread can take a step, other than
   * a spurious wakeup.
   */
  lemma NeverStuck(states: seq<Joint>, acts: seq<Act>, k: nat) returns (act: Act)
    requires IsHistory(states, acts) && k < |states| && !states[k].scan.main.Done?
    ensures Possible(states[k], act)
    ensures act.OfPool? ==> PoolSafety.Moves(act.event) || act.event.ProducerCalls? || act.event.WaiterCalls?
  {
    HistoryInv(states, acts, k);
    var j := states[k];
    if MainIsFree(j.pool) {
      act := FreeMainGoesOn(j);
    } else {
      if PoolSafety.Stuck(j.pool) { PoolSafety.StuckIsQuiescent(j.pool); }
      var e :| PoolSafety.Moves(e) && Pool.Enabled(j.pool, e);
      act := WorkGoesOn(j, states[0].scan.left, e);
    }
  }
}
