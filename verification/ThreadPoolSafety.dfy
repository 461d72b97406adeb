// Every step of the pool keeps its invariants; what they mean for its users.
module ThreadPoolSafety {
  import opened Options
  import opened Counting
  import opened ThreadPool

  predicate ByAWorker(e: Event) {
    e.WorkerLocks? || e.WorkerChecks? || e.WorkerNotifies? || e.WorkerRuns? || e.WorkerRelocks? ||
    e.WorkerCompletes? || e.WorkerWakes?
  }

  predicate ByAProducer(e: Event) {
    e.ProducerCalls? || e.ProducerLocks? || e.ProducerChecks? || e.ProducerNotifies? || e.ProducerWakes?
  }

  // ----- the mutex -----

  lemma WorkerKeepsLocked(s: Pool, e: Event)
    requires Locked(s) && Enabled(s, e) && ByAWorker(e)
    ensures Locked(Step(s, e))
  {
  }

  lemma ProducerKeepsLocked(s: Pool, e: Event)
    requires Locked(s) && Enabled(s, e) && ByAProducer(e)
    ensures Locked(Step(s, e))
  {
  }

  lemma OtherKeepsLocked(s: Pool, e: Event)
    requires Locked(s) && Enabled(s, e) && !ByAWorker(e) && !ByAProducer(e)
    ensures Locked(Step(s, e))
  {
  }

  // ----- conservation -----

  lemma PickupKeepsConserved(s: Pool, i: nat)
    requires Conserved(s) && Enabled(s, WorkerChecks(i))
    ensures Conserved(Step(s, WorkerChecks(i)))
  {
    WorkerCounts(s.workers, i, Step(s, WorkerChecks(i)).workers[i]);
  }

  lemma WorkerKeepsConserved(s: Pool, e: Event)
    requires Conserved(s) && Enabled(s, e) && ByAWorker(e)
    ensures Conserved(Step(s, e))
  {
    if e.WorkerChecks? {
      PickupKeepsConserved(s, e.i);
    } else {
      WorkerCounts(s.workers, e.i, Step(s, e).workers[e.i]);
    }
  }

  lemma OtherKeepsConserved(s: Pool, e: Event)
    requires Conserved(s) && Enabled(s, e) && !ByAWorker(e)
    ensures Conserved(Step(s, e))
  {
    if e.ProducerNotifies? && e.target.Some? {
      WorkerCounts(s.workers, e.target.value, WorkerPc.Woken);
    } else if e.DestroyerNotifiesWorkers? {
      WakeWorkersCounts(s.workers);
    }
  }

  // ----- each task runs once -----

  /** A step that picks up nothing and runs nothing leaves the run-once bookkeeping alone. */
  lemma RunOnceFrame(s: Pool, s': Pool)
    requires RunOnce(s) && s'.ran == s.ran && PickedUp(s') == PickedUp(s) && |s'.tasks| <= s'.accepted
    requires |s'.workers| == |s.workers|
    requires forall i :: 0 <= i < |s.workers| && Unrun(s'.workers[i]) ==>
                           Unrun(s.workers[i]) && s'.workers[i].task == s.workers[i].task
    ensures RunOnce(s')
  {
  }

  lemma PickupKeepsRunOnce(s: Pool, i: nat)
    requires Conserved(s) && RunOnce(s) && Enabled(s, WorkerChecks(i)) && s.tasks != []
    ensures RunOnce(Step(s, WorkerChecks(i)))
  {
    var s' := Step(s, WorkerChecks(i));
    assert s.tasks[0] == PickedUp(s) && PickedUp(s') == PickedUp(s) + 1;
    assert s'.workers[i] == WorkerPc.Picked(PickedUp(s));
  }

  lemma RunningKeepsRunOnce(s: Pool, i: nat)
    requires RunOnce(s) && Enabled(s, WorkerRuns(i))
    ensures RunOnce(Step(s, WorkerRuns(i)))
  {
    var s' := Step(s, WorkerRuns(i));
    var task := s.workers[i].task;
    assert Unrun(s.workers[i]);
    forall j | 0 <= j < |s.workers| && Unrun(s'.workers[j])
      ensures s'.workers[j].task !in s'.ran
    {
      assert j != i;
      assert s.workers[j].task != task;
    }
  }

  lemma StepKeepsRunOnce(s: Pool, e: Event)
    requires Conserved(s) && RunOnce(s) && Enabled(s, e)
    ensures RunOnce(Step(s, e))
  {
    if e.WorkerChecks? && s.tasks != [] {
      PickupKeepsRunOnce(s, e.i);
    } else if e.WorkerRuns? {
      RunningKeepsRunOnce(s, e.i);
    } else {
      RunOnceFrame(s, Step(s, e));
    }
  }

  // ----- wakeups -----

  lemma WorkerCheckKeepsWakeups(s: Pool, i: nat)
    requires Conserved(s) && NoLostWakeup(s) && Enabled(s, WorkerChecks(i))
    ensures NoLostWakeup(Step(s, WorkerChecks(i)))
  {
    WorkerCounts(s.workers, i, Step(s, WorkerChecks(i)).workers[i]);
  }

  lemma WorkerNotifyKeepsWakeups(s: Pool, i: nat, target: Option<nat>)
    requires NoLostWakeup(s) && Enabled(s, WorkerNotifies(i, target))
    ensures NoLostWakeup(Step(s, WorkerNotifies(i, target)))
  {
    WorkerCounts(s.workers, i, WorkerPc.Working(s.workers[i].task));
    if target.Some? {
      ProducerCounts(s.producers, target.value, ProducerPc.Woken);
    } else {
      CountZero(s.producers, ProducerAsleep);
    }
  }

  lemma WorkerCompleteKeepsWakeups(s: Pool, i: nat)
    requires NoLostWakeup(s) && Enabled(s, WorkerCompletes(i))
    ensures NoLostWakeup(Step(s, WorkerCompletes(i)))
  {
    WorkerCounts(s.workers, i, WorkerPc.Entering);
  }

  lemma WorkerKeepsWakeups(s: Pool, e: Event)
    requires Conserved(s) && NoLostWakeup(s) && Enabled(s, e) && ByAWorker(e)
    ensures NoLostWakeup(Step(s, e))
  {
    if e.WorkerChecks? {
      WorkerCheckKeepsWakeups(s, e.i);
    } else if e.WorkerNotifies? {
      WorkerNotifyKeepsWakeups(s, e.i, e.target);
    } else if e.WorkerCompletes? {
      WorkerCompleteKeepsWakeups(s, e.i);
    } else {
      WorkerCounts(s.workers, e.i, Step(s, e).workers[e.i]);
    }
  }

  lemma ProducerNotifyKeepsWakeups(s: Pool, i: nat, target: Option<nat>)
    requires NoLostWakeup(s) && Enabled(s, ProducerNotifies(i, target))
    ensures NoLostWakeup(Step(s, ProducerNotifies(i, target)))
  {
    ProducerCounts(s.producers, i, ProducerPc.Idle);
    if target.Some? {
      WorkerCounts(s.workers, target.value, WorkerPc.Woken);
    } else {
      CountZero(s.workers, WorkerAsleep);
    }
  }

  lemma ProducerKeepsWakeups(s: Pool, e: Event)
    requires Conserved(s) && NoLostWakeup(s) && Enabled(s, e) && ByAProducer(e)
    ensures NoLostWakeup(Step(s, e))
  {
    if e.ProducerNotifies? {
      ProducerNotifyKeepsWakeups(s, e.i, e.target);
    } else {
      ProducerCounts(s.producers, e.i, Step(s, e).producers[e.i]);
    }
  }

  lemma OtherKeepsWakeups(s: Pool, e: Event)
    requires Conserved(s) && NoLostWakeup(s) && Stopped(s) && Enabled(s, e) && !ByAWorker(e) && !ByAProducer(e)
    ensures NoLostWakeup(Step(s, e))
  {
    if e.DestroyerNotifiesWorkers? {
      WakeWorkersCounts(s.workers);
    } else if e.DestroyerNotifiesProducers? {
      WakeProducersCounts(s.producers);
    }
  }

  // ----- shutdown -----

  lemma StepKeepsStopped(s: Pool, e: Event)
    requires Stopped(s) && Enabled(s, e)
    ensures Stopped(Step(s, e))
  {
  }

  lemma StepKeepsInv(s: Pool, e: Event)
    requires Inv(s) && Enabled(s, e)
    ensures Inv(Step(s, e))
  {
    StepKeepsRunOnce(s, e);
    StepKeepsStopped(s, e);
    if ByAWorker(e) {
      WorkerKeepsLocked(s, e);
      WorkerKeepsConserved(s, e);
      WorkerKeepsWakeups(s, e);
    } else {
      OtherKeepsConserved(s, e);
      if ByAProducer(e) {
        ProducerKeepsLocked(s, e);
        ProducerKeepsWakeups(s, e);
      } else {
        OtherKeepsLocked(s, e);
        OtherKeepsWakeups(s, e);
      }
    }
  }

  // ----- every reachable state -----

  /** A run: any interleaving of enabled steps from the initial state. */
  ghost predicate IsRun(states: seq<Pool>, events: seq<Event>) {
    && |states| == |events| + 1 && Initial(states[0])
    && forall k :: 0 <= k < |events| ==> Enabled(states[k], events[k]) && states[k + 1] == Step(states[k], events[k])
  }

  lemma InitialInv(s: Pool)
    requires Initial(s)
    ensures Inv(s)
  {
    AllZero(s.workers, WorkerAsleep);
    AllZero(s.workers, Unrun);
    AllZero(s.workers, Uncounted);
    AllZero(s.producers, ProducerAsleep);
    forall i | 0 <= i < |s.workers| ensures s.workers[i] == WorkerPc.Entering { assert s.workers[i] in s.workers; }
    forall i | 0 <= i < |s.producers| ensures s.producers[i] == ProducerPc.Idle {
      assert s.producers[i] in s.producers;
    }
    forall i | 0 <= i < |s.waiters| ensures s.waiters[i] == WaiterPc.Idle { assert s.waiters[i] in s.waiters; }
  }

  lemma {:induction false} ReachableInv(states: seq<Pool>, events: seq<Event>, k: nat)
    requires IsRun(states, events) && k < |states|
    ensures Inv(states[k])
  {
    if k == 0 {
      InitialInv(states[0]);
    } else {
      ReachableInv(states, events, k - 1);
      StepKeepsInv(states[k - 1], events[k - 1]);
    }
  }

  /** A state some run of the pool leads to. */
  ghost predicate Reached(s: Pool) {
    exists states, events :: IsRun(states, events) && states[|events|] == s
  }

  lemma ReachedInv(s: Pool)
    requires Reached(s)
    ensures Inv(s)
  {
    var states, events :| IsRun(states, events) && states[|events|] == s;
    ReachableInv(states, events, |events|);
  }

  // ----- what the invariants mean -----

  function Range(n: nat): (r: set<nat>)
    ensures |r| == n && forall x: nat :: x in r <==> x < n
  {
    if n == 0 then {} else Range(n - 1) + {n - 1}
  }

  lemma {:induction false} DistinctFit(s: seq<nat>, room: set<nat>)
    requires forall k :: 0 <= k < |s| ==> s[k] in room
    requires forall j, k :: 0 <= j < k < |s| ==> s[j] != s[k]
    ensures |s| <= |room|
  {
    if s == [] {
    } else {
      DistinctFit(s[..|s| - 1], room - {s[|s| - 1]});
    }
  }

  /** Distinct numbers below n, n of them, are all of them. */
  lemma Pigeonhole(s: seq<nat>, n: nat, x: nat)
    requires |s| == n && x < n
    requires forall k :: 0 <= k < |s| ==> s[k] < n
    requires forall j, k :: 0 <= j < k < |s| ==> s[j] != s[k]
    ensures x in s
  {
    if x !in s { DistinctFit(s, Range(n) - {x}); }
  }

  /** Every accepted task has been run, once, and counted. */
  ghost predicate AllRun(s: Pool) {
    && s.completed == s.accepted == |s.ran|
    && (forall t: nat :: t < s.accepted ==> t in s.ran)
    && (forall j, k :: 0 <= j < k < |s.ran| ==> s.ran[j] != s.ran[k])
  }

  lemma IdleMeansAllRun(s: Pool)
    requires Inv(s) && s.tasks == [] && s.active == 0
    ensures AllRun(s)
  {
    forall t: nat | t < s.accepted ensures t in s.ran { Pigeonhole(s.ran, s.accepted, t); }
  }

  /** wait() returns exactly when everything accepted so far has been run. */
  lemma WaitReturnsIffAllRun(s: Pool, i: nat)
    requires Reached(s) && Enabled(s, WaiterChecks(i))
    ensures Step(s, WaiterChecks(i)).waiters[i].Idle? <==> AllRun(s)
  {
    ReachedInv(s);
    if s.tasks == [] && s.active == 0 { IdleMeansAllRun(s); }
  }

  /** The destructor drains the queue: at the join every accepted task has been run. */
  lemma JoinedMeansAllRun(s: Pool)
    requires Reached(s) && s.destroyer.Joined?
    ensures AllRun(s)
  {
    ReachedInv(s);
    CountZero(s.workers, Unrun);
    CountZero(s.workers, Uncounted);
    assert s.workers[0].Exited?;
    IdleMeansAllRun(s);
  }

  /** Conservation: accepted tasks are queued, with a worker, or completed. */
  lemma AcceptedAreAccountedFor(s: Pool)
    requires Reached(s)
    ensures s.accepted == |s.tasks| + s.active + s.completed && 0 <= s.active <= |s.workers| && |s.tasks| <= s.capacity
  {
    ReachedInv(s);
    CountSum(s.workers);
  }

  lemma {:induction false} CountSum(ws: seq<WorkerPc>)
    ensures Count(ws, Unrun) + Count(ws, Uncounted) <= |ws|
  {
    if ws == [] {
    } else {
      CountSum(ws[1..]);
    }
  }

  /** One step accepts a task iff it is a producer finding room before stop. */
  lemma AcceptanceRule(s: Pool, e: Event)
    requires Enabled(s, e)
    ensures Step(s, e).accepted > s.accepted <==> e.ProducerChecks? && !s.stop && |s.tasks| < s.capacity
    ensures s.stop ==> Step(s, e).stop && Step(s, e).accepted == s.accepted
    ensures s.stop ==> Step(s, e).tasks == s.tasks || (s.tasks != [] && Step(s, e).tasks == s.tasks[1..])
  {
  }

  lemma OneStepDrains(before: Pool, s: Pool, e: Event, s': Pool)
    requires Enabled(s, e) && s' == Step(s, e) && s.stop
    requires |s.tasks| <= |before.tasks| && s.tasks == before.tasks[|before.tasks| - |s.tasks|..]
    ensures s'.stop && s'.accepted == s.accepted && |s'.tasks| <= |before.tasks|
    ensures s'.tasks == before.tasks[|before.tasks| - |s'.tasks|..]
  {
    AcceptanceRule(s, e);
  }

  /** Over any run: once stop is set nothing is accepted any more, and the queue only drains. */
  lemma {:induction false} StoppedOnlyDrains(states: seq<Pool>, events: seq<Event>, j: nat, k: nat)
    requires IsRun(states, events) && j <= k < |states| && states[j].stop
    ensures states[k].stop && states[k].accepted == states[j].accepted
    ensures |states[k].tasks| <= |states[j].tasks|
    ensures states[k].tasks == states[j].tasks[|states[j].tasks| - |states[k].tasks|..]
  {
    if j == k {
    } else {
      StoppedOnlyDrains(states, events, j, k - 1);
      OneStepDrains(states[j], states[k - 1], events[k - 1], states[k]);
    }
  }

  /** Tasks start in the order they were accepted. */
  lemma PickupIsFifo(s: Pool, i: nat)
    requires Reached(s) && Enabled(s, WorkerChecks(i)) && s.tasks != []
    ensures var pc := Step(s, WorkerChecks(i)).workers[i];
            pc.Picked? && pc.task == s.completed + s.active
  {
    ReachedInv(s);
    AcceptedAreAccountedFor(s);
    assert s.tasks[0] == PickedUp(s) + 0;
  }

  // ----- no deadlock -----

  /** Steps threads take by themselves: neither a new client call nor a spurious wakeup. */
  predicate Moves(e: Event) {
    !e.WorkerWakes? && !e.ProducerWakes? && !e.WaiterWakes? &&
    !e.ProducerCalls? && !e.WaiterCalls? && !e.DestroyerCalls?
  }

  ghost predicate Stuck(s: Pool) {
    forall e :: Moves(e) ==> !Enabled(s, e)
  }

  /** Nothing queued or running, no client blocked, every worker waiting for work or gone. */
  ghost predicate Quiescent(s: Pool) {
    && AllRun(s) && s.tasks == [] && s.active == 0 && s.owner == Free
    && (forall i :: 0 <= i < |s.producers| ==> s.producers[i].Idle?)
    && (forall i :: 0 <= i < |s.waiters| ==> s.waiters[i].Idle?)
    && (if s.stop then s.destroyer.Joined? && forall i :: 0 <= i < |s.workers| ==> s.workers[i].Exited?
        else s.destroyer.Outside? && forall i :: 0 <= i < |s.workers| ==> s.workers[i].Asleep?)
  }

  /** Whoever holds the mutex can go on. */
  lemma HolderMoves(s: Pool) returns (e: Event)
    requires Inv(s) && s.owner != Free
    ensures Moves(e) && Enabled(s, e)
  {
    match s.owner
    case ByWorker(w) => e := if s.workers[w].Checking? then WorkerChecks(w) else WorkerCompletes(w);
    case ByProducer(p) => e := ProducerChecks(p);
    case ByWaiter(q) => e := WaiterChecks(q);
    case ByDestroyer => e := DestroyerSets;
  }

  /** With the mutex free, a worker that neither sleeps nor has left can go on. */
  lemma WorkerMoves(s: Pool, i: nat) returns (e: Event)
    requires Inv(s) && s.owner == Free && i < |s.workers|
    requires !s.workers[i].Asleep? && !s.workers[i].Exited?
    ensures Moves(e) && Enabled(s, e)
  {
    if s.workers[i].Picked? {
      if j :| 0 <= j < |s.producers| && s.producers[j].Asleep? {
        e := WorkerNotifies(i, Some(j));
      } else {
        e := WorkerNotifies(i, None);
      }
    } else if s.workers[i].Working? {
      e := WorkerRuns(i);
    } else if s.workers[i].Leaving? {
      e := WorkerRelocks(i);
    } else {
      e := WorkerLocks(i);
    }
  }

  lemma ProducerMoves(s: Pool, i: nat) returns (e: Event)
    requires Inv(s) && s.owner == Free && i < |s.producers|
    requires !s.producers[i].Asleep? && !s.producers[i].Idle?
    ensures Moves(e) && Enabled(s, e)
  {
    if s.producers[i].Pushed? {
      if j :| 0 <= j < |s.workers| && s.workers[j].Asleep? {
        e := ProducerNotifies(i, Some(j));
      } else {
        e := ProducerNotifies(i, None);
      }
    } else {
      e := ProducerLocks(i);
    }
  }

  lemma StuckMutexIsFree(s: Pool)
    requires Inv(s) && Stuck(s)
    ensures s.owner == Free
  {
    if s.owner != Free { var e := HolderMoves(s); }
  }

  lemma StuckWorkers(s: Pool, i: nat)
    requires Inv(s) && Stuck(s) && i < |s.workers|
    ensures s.workers[i].Asleep? || s.workers[i].Exited?
  {
    StuckMutexIsFree(s);
    if !s.workers[i].Asleep? && !s.workers[i].Exited? { var e := WorkerMoves(s, i); }
  }

  lemma StuckProducers(s: Pool, i: nat)
    requires Inv(s) && Stuck(s) && i < |s.producers|
    ensures s.producers[i].Asleep? || s.producers[i].Idle?
  {
    StuckMutexIsFree(s);
    if !s.producers[i].Asleep? && !s.producers[i].Idle? { var e := ProducerMoves(s, i); }
  }

  lemma StuckOthers(s: Pool)
    requires Inv(s) && Stuck(s)
    ensures forall i :: 0 <= i < |s.waiters| ==> s.waiters[i].Asleep? || s.waiters[i].Idle?
    ensures s.destroyer.Outside? || s.destroyer.Joining? || s.destroyer.Joined?
  {
    StuckMutexIsFree(s);
    forall i | 0 <= i < |s.waiters| ensures s.waiters[i].Asleep? || s.waiters[i].Idle? {
      assert !Enabled(s, WaiterLocks(i));
    }
    assert !Enabled(s, DestroyerLocks);
    assert !Enabled(s, DestroyerNotifiesWorkers);
    assert !Enabled(s, DestroyerNotifiesProducers);
  }

  lemma StuckCounts(s: Pool)
    requires Inv(s) && Stuck(s)
    ensures Count(s.workers, Unrun) == 0 && Count(s.workers, Uncounted) == 0
    ensures Count(s.workers, WorkerUnchecked) == 0 && Count(s.workers, SpaceNotifying) == 0
    ensures Count(s.producers, TaskNotifying) == 0 && Count(s.producers, ProducerUnchecked) == 0
  {
    forall w | w in s.workers ensures w.Asleep? || w.Exited? {
      var i :| 0 <= i < |s.workers| && s.workers[i] == w;
      StuckWorkers(s, i);
    }
    forall p | p in s.producers ensures p.Asleep? || p.Idle? {
      var i :| 0 <= i < |s.producers| && s.producers[i] == p;
      StuckProducers(s, i);
    }
    AllZero(s.workers, Unrun);
    AllZero(s.workers, Uncounted);
    AllZero(s.workers, WorkerUnchecked);
    AllZero(s.workers, SpaceNotifying);
    AllZero(s.producers, TaskNotifying);
    AllZero(s.producers, ProducerUnchecked);
  }

  /** The pool never deadlocks: when nobody can move, there is nothing left to do. */
  lemma NoDeadlock(s: Pool)
    requires Reached(s) && Stuck(s)
    ensures Quiescent(s)
  {
    ReachedInv(s);
    StuckIsQuiescent(s);
  }

  lemma StuckIsQuiescent(s: Pool)
    requires Inv(s) && Stuck(s)
    ensures Quiescent(s)
  {
    StuckMutexIsFree(s);
    StuckCounts(s);
    StuckOthers(s);
    CountZero(s.workers, WorkerAsleep);
    CountZero(s.producers, ProducerAsleep);
    forall i | 0 <= i < |s.workers| ensures s.workers[i].Asleep? || s.workers[i].Exited? { StuckWorkers(s, i); }
    forall i | 0 <= i < |s.producers| ensures s.producers[i].Asleep? || s.producers[i].Idle? { StuckProducers(s, i); }
    assert s.workers[0].Asleep? || s.workers[0].Exited?;
    assert s.tasks == [];
    IdleMeansAllRun(s);
    assert !Enabled(s, DestroyerJoins);
  }
}
