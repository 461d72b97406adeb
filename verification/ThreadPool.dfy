// The bounded worker pool as interleaved steps. Every step is what one thread does between
// two points where another may run: taking the mutex, one critical section, one notify, or
// running a task. Notifications are sent after the mutex is released; a waiting thread may
// also wake on its own.
module ThreadPool {
  import opened Options
  import opened Counting

  datatype WorkerPc =
    | Entering            // wants the mutex at the top of the loop
    | Checking(woken: bool) // holds it and evaluates the predicate, after a wakeup or not
    | Asleep              // waits on task_available_cv_
    | Woken               // left the wait set, wants the mutex back
    | Picked(task: nat)   // released it with a task, has yet to notify queue_space_cv_
    | Working(task: nat)
    | Leaving             // task done, wants the mutex
    | Completing          // holds it to count the task as done
    | Exited

  datatype ProducerPc = Idle | Entering | Checking(woken: bool) | Asleep | Woken | Pushed

  datatype WaiterPc = Idle | Entering | Checking | Asleep | Woken

  datatype DestroyerPc = Outside | Entering | Setting | NotifyingWorkers | NotifyingProducers | Joining | Joined

  datatype Owner = Free | ByWorker(w: nat) | ByProducer(p: nat) | ByWaiter(q: nat) | ByDestroyer

  /**
   * tasks, active and stop are the guarded fields. Tasks are numbered in the order they are
   * accepted; ran lists them in the order they were run, completed counts those accounted for.
   */
  datatype Pool = Pool(
    capacity: nat,
    owner: Owner,
    tasks: seq<nat>,
    active: int,
    stop: bool,
    accepted: nat,
    ran: seq<nat>,
    completed: nat,
    workers: seq<WorkerPc>,
    producers: seq<ProducerPc>,
    waiters: seq<WaiterPc>,
    destroyer: DestroyerPc)

  datatype Event =
    | WorkerLocks(i: nat)
    | WorkerChecks(i: nat)
    | WorkerNotifies(i: nat, target: Option<nat>)
    | WorkerRuns(i: nat)
    | WorkerRelocks(i: nat)
    | WorkerCompletes(i: nat)
    | WorkerWakes(i: nat)
    | ProducerCalls(i: nat)
    | ProducerLocks(i: nat)
    | ProducerChecks(i: nat)
    | ProducerNotifies(i: nat, target: Option<nat>)
    | ProducerWakes(i: nat)
    | WaiterCalls(i: nat)
    | WaiterLocks(i: nat)
    | WaiterChecks(i: nat)
    | WaiterWakes(i: nat)
    | DestroyerCalls
    | DestroyerLocks
    | DestroyerSets
    | DestroyerNotifiesWorkers
    | DestroyerNotifiesProducers
    | DestroyerJoins

  /** All workers at the top of their loop, nothing queued, clients outside. */
  ghost predicate Initial(s: Pool) {
    && s.capacity > 0 && |s.workers| > 0
    && s.owner == Free && s.tasks == [] && s.active == 0 && !s.stop
    && s.accepted == 0 && s.ran == [] && s.completed == 0
    && (forall w :: w in s.workers ==> w == WorkerPc.Entering)
    && (forall p :: p in s.producers ==> p == ProducerPc.Idle)
    && (forall q :: q in s.waiters ==> q == WaiterPc.Idle)
    && s.destroyer == Outside
  }

  // ----- waking -----

  function WakeWorkers(ws: seq<WorkerPc>): (r: seq<WorkerPc>)
    ensures |r| == |ws|
    ensures forall i :: 0 <= i < |ws| ==> r[i] == if ws[i].Asleep? then WorkerPc.Woken else ws[i]
  {
    if ws == [] then [] else [if ws[0].Asleep? then WorkerPc.Woken else ws[0]] + WakeWorkers(ws[1..])
  }

  function WakeProducers(ps: seq<ProducerPc>): (r: seq<ProducerPc>)
    ensures |r| == |ps|
    ensures forall i :: 0 <= i < |ps| ==> r[i] == if ps[i].Asleep? then ProducerPc.Woken else ps[i]
  {
    if ps == [] then [] else [if ps[0].Asleep? then ProducerPc.Woken else ps[0]] + WakeProducers(ps[1..])
  }

  function WakeWaiters(qs: seq<WaiterPc>): (r: seq<WaiterPc>)
    ensures |r| == |qs|
    ensures forall i :: 0 <= i < |qs| ==> r[i] == if qs[i].Asleep? then WaiterPc.Woken else qs[i]
  {
    if qs == [] then [] else [if qs[0].Asleep? then WaiterPc.Woken else qs[0]] + WakeWaiters(qs[1..])
  }

  /** notify_one: some sleeping worker, or nobody when none sleeps. */
  ghost predicate CanWakeWorker(ws: seq<WorkerPc>, target: Option<nat>) {
    match target
    case Some(j) => j < |ws| && ws[j].Asleep?
    case None => forall j :: 0 <= j < |ws| ==> !ws[j].Asleep?
  }

  ghost predicate CanWakeProducer(ps: seq<ProducerPc>, target: Option<nat>) {
    match target
    case Some(j) => j < |ps| && ps[j].Asleep?
    case None => forall j :: 0 <= j < |ps| ==> !ps[j].Asleep?
  }

  // ----- enabledness and effect -----

  ghost predicate Enabled(s: Pool, e: Event) {
    match e
    case WorkerLocks(i) => i < |s.workers| && (s.workers[i].Entering? || s.workers[i].Woken?) && s.owner == Free
    case WorkerChecks(i) => i < |s.workers| && s.workers[i].Checking?
    case WorkerNotifies(i, target) => i < |s.workers| && s.workers[i].Picked? && CanWakeProducer(s.producers, target)
    case WorkerRuns(i) => i < |s.workers| && s.workers[i].Working?
    case WorkerRelocks(i) => i < |s.workers| && s.workers[i].Leaving? && s.owner == Free
    case WorkerCompletes(i) => i < |s.workers| && s.workers[i].Completing?
    case WorkerWakes(i) => i < |s.workers| && s.workers[i].Asleep?
    case ProducerCalls(i) => i < |s.producers| && s.producers[i].Idle?
    case ProducerLocks(i) => i < |s.producers| && (s.producers[i].Entering? || s.producers[i].Woken?) && s.owner == Free
    case ProducerChecks(i) => i < |s.producers| && s.producers[i].Checking?
    case ProducerNotifies(i, target) => i < |s.producers| && s.producers[i].Pushed? && CanWakeWorker(s.workers, target)
    case ProducerWakes(i) => i < |s.producers| && s.producers[i].Asleep?
    case WaiterCalls(i) => i < |s.waiters| && s.waiters[i].Idle?
    case WaiterLocks(i) => i < |s.waiters| && (s.waiters[i].Entering? || s.waiters[i].Woken?) && s.owner == Free
    case WaiterChecks(i) => i < |s.waiters| && s.waiters[i].Checking?
    case WaiterWakes(i) => i < |s.waiters| && s.waiters[i].Asleep?
    case DestroyerCalls => s.destroyer.Outside?
    case DestroyerLocks => s.destroyer.Entering? && s.owner == Free
    case DestroyerSets => s.destroyer.Setting?
    case DestroyerNotifiesWorkers => s.destroyer.NotifyingWorkers?
    case DestroyerNotifiesProducers => s.destroyer.NotifyingProducers?
    case DestroyerJoins => s.destroyer.Joining? && forall i :: 0 <= i < |s.workers| ==> s.workers[i].Exited?
  }

  function Step(s: Pool, e: Event): Pool
    requires Enabled(s, e)
  {
    match e
    case WorkerLocks(i) =>
      s.(owner := ByWorker(i), workers := s.workers[i := WorkerPc.Checking(s.workers[i].Woken?)])
    case WorkerChecks(i) =>
      if !s.stop && s.tasks == [] then s.(owner := Free, workers := s.workers[i := WorkerPc.Asleep])
      else if s.tasks == [] then s.(owner := Free, workers := s.workers[i := WorkerPc.Exited])
      else s.(owner := Free, tasks := s.tasks[1..], active := s.active + 1,
              workers := s.workers[i := WorkerPc.Picked(s.tasks[0])])
    case WorkerNotifies(i, target) =>
      s.(workers := s.workers[i := WorkerPc.Working(s.workers[i].task)],
         producers := if target.None? then s.producers else s.producers[target.value := ProducerPc.Woken])
    case WorkerRuns(i) =>
      s.(ran := s.ran + [s.workers[i].task], workers := s.workers[i := WorkerPc.Leaving])
    case WorkerRelocks(i) => s.(owner := ByWorker(i), workers := s.workers[i := WorkerPc.Completing])
    case WorkerCompletes(i) =>
      s.(owner := Free, active := s.active - 1, completed := s.completed + 1,
         workers := s.workers[i := WorkerPc.Entering],
         waiters := if s.tasks == [] && s.active == 1 then WakeWaiters(s.waiters) else s.waiters)
    case WorkerWakes(i) => s.(workers := s.workers[i := WorkerPc.Woken])
    case ProducerCalls(i) => s.(producers := s.producers[i := ProducerPc.Entering])
    case ProducerLocks(i) =>
      s.(owner := ByProducer(i), producers := s.producers[i := ProducerPc.Checking(s.producers[i].Woken?)])
    case ProducerChecks(i) =>
      if !s.stop && |s.tasks| >= s.capacity then s.(owner := Free, producers := s.producers[i := ProducerPc.Asleep])
      else if s.stop then s.(owner := Free, producers := s.producers[i := ProducerPc.Idle])
      else s.(owner := Free, tasks := s.tasks + [s.accepted], accepted := s.accepted + 1,
              producers := s.producers[i := ProducerPc.Pushed])
    case ProducerNotifies(i, target) =>
      s.(producers := s.producers[i := ProducerPc.Idle],
         workers := if target.None? then s.workers else s.workers[target.value := WorkerPc.Woken])
    case ProducerWakes(i) => s.(producers := s.producers[i := ProducerPc.Woken])
    case WaiterCalls(i) => s.(waiters := s.waiters[i := WaiterPc.Entering])
    case WaiterLocks(i) => s.(owner := ByWaiter(i), waiters := s.waiters[i := WaiterPc.Checking])
    case WaiterChecks(i) =>
      s.(owner := Free,
         waiters := s.waiters[i := if s.tasks == [] && s.active == 0 then WaiterPc.Idle else WaiterPc.Asleep])
    case WaiterWakes(i) => s.(waiters := s.waiters[i := WaiterPc.Woken])
    case DestroyerCalls => s.(destroyer := DestroyerPc.Entering)
    case DestroyerLocks => s.(owner := ByDestroyer, destroyer := Setting)
    case DestroyerSets => s.(owner := Free, stop := true, destroyer := NotifyingWorkers)
    case DestroyerNotifiesWorkers => s.(workers := WakeWorkers(s.workers), destroyer := NotifyingProducers)
    case DestroyerNotifiesProducers => s.(producers := WakeProducers(s.producers), destroyer := Joining)
    case DestroyerJoins => s.(destroyer := Joined)
  }

  // ----- counting threads -----

  predicate WorkerAsleep(w: WorkerPc) { w.Asleep? }
  predicate WorkerUnchecked(w: WorkerPc) { w.Woken? || w == WorkerPc.Checking(true) }
  predicate SpaceNotifying(w: WorkerPc) { w.Picked? }
  predicate Unrun(w: WorkerPc) { w.Picked? || w.Working? }
  predicate Uncounted(w: WorkerPc) { w.Leaving? || w.Completing? }
  predicate ProducerAsleep(p: ProducerPc) { p.Asleep? }
  predicate ProducerUnchecked(p: ProducerPc) { p.Woken? || p == ProducerPc.Checking(true) }
  predicate TaskNotifying(p: ProducerPc) { p.Pushed? }

  lemma WorkerCounts(ws: seq<WorkerPc>, i: nat, v: WorkerPc)
    requires i < |ws|
    ensures Count(ws[i := v], WorkerAsleep) == Count(ws, WorkerAsleep) - One(ws[i].Asleep?) + One(v.Asleep?)
    ensures Count(ws[i := v], WorkerUnchecked) ==
            Count(ws, WorkerUnchecked) - One(WorkerUnchecked(ws[i])) + One(WorkerUnchecked(v))
    ensures Count(ws[i := v], SpaceNotifying) == Count(ws, SpaceNotifying) - One(ws[i].Picked?) + One(v.Picked?)
    ensures Count(ws[i := v], Unrun) == Count(ws, Unrun) - One(Unrun(ws[i])) + One(Unrun(v))
    ensures Count(ws[i := v], Uncounted) == Count(ws, Uncounted) - One(Uncounted(ws[i])) + One(Uncounted(v))
  {
    CountUpdate(ws, i, v, WorkerAsleep);
    CountUpdate(ws, i, v, WorkerUnchecked);
    CountUpdate(ws, i, v, SpaceNotifying);
    CountUpdate(ws, i, v, Unrun);
    CountUpdate(ws, i, v, Uncounted);
  }

  lemma ProducerCounts(ps: seq<ProducerPc>, i: nat, v: ProducerPc)
    requires i < |ps|
    ensures Count(ps[i := v], ProducerAsleep) == Count(ps, ProducerAsleep) - One(ps[i].Asleep?) + One(v.Asleep?)
    ensures Count(ps[i := v], ProducerUnchecked) ==
            Count(ps, ProducerUnchecked) - One(ProducerUnchecked(ps[i])) + One(ProducerUnchecked(v))
    ensures Count(ps[i := v], TaskNotifying) == Count(ps, TaskNotifying) - One(ps[i].Pushed?) + One(v.Pushed?)
  {
    CountUpdate(ps, i, v, ProducerAsleep);
    CountUpdate(ps, i, v, ProducerUnchecked);
    CountUpdate(ps, i, v, TaskNotifying);
  }

  lemma {:induction false} WakeWorkersCounts(ws: seq<WorkerPc>)
    ensures Count(WakeWorkers(ws), WorkerAsleep) == 0
    ensures Count(WakeWorkers(ws), SpaceNotifying) == Count(ws, SpaceNotifying)
    ensures Count(WakeWorkers(ws), Unrun) == Count(ws, Unrun)
    ensures Count(WakeWorkers(ws), Uncounted) == Count(ws, Uncounted)
  {
    if ws == [] {
    } else {
      WakeWorkersCounts(ws[1..]);
      assert WakeWorkers(ws)[1..] == WakeWorkers(ws[1..]);
    }
  }

  lemma {:induction false} WakeProducersCounts(ps: seq<ProducerPc>)
    ensures Count(WakeProducers(ps), ProducerAsleep) == 0
    ensures Count(WakeProducers(ps), TaskNotifying) == Count(ps, TaskNotifying)
  {
    if ps == [] {
    } else {
      WakeProducersCounts(ps[1..]);
      assert WakeProducers(ps)[1..] == WakeProducers(ps[1..]);
    }
  }

  // ----- the invariants -----

  /** The mutex has the owner its holder's program counter says. */
  ghost predicate Locked(s: Pool) {
    && (forall i :: 0 <= i < |s.workers| ==>
                      ((s.workers[i].Checking? || s.workers[i].Completing?) <==> s.owner == ByWorker(i)))
    && (forall i :: 0 <= i < |s.producers| ==> (s.producers[i].Checking? <==> s.owner == ByProducer(i)))
    && (forall i :: 0 <= i < |s.waiters| ==> (s.waiters[i].Checking? <==> s.owner == ByWaiter(i)))
    && (s.destroyer.Setting? <==> s.owner == ByDestroyer)
    && (s.owner.ByWorker? ==> s.owner.w < |s.workers|)
    && (s.owner.ByProducer? ==> s.owner.p < |s.producers|)
    && (s.owner.ByWaiter? ==> s.owner.q < |s.waiters|)
  }

  function PickedUp(s: Pool): int {
    s.accepted - |s.tasks|
  }

  /** First in, first out; every accepted task is queued, held by one worker, or has run once. */
  ghost predicate Conserved(s: Pool) {
    && |s.tasks| <= s.capacity && |s.tasks| <= s.accepted
    && (forall k :: 0 <= k < |s.tasks| ==> s.tasks[k] == PickedUp(s) + k)
    && s.active == Count(s.workers, Unrun) + Count(s.workers, Uncounted)
    && s.completed + Count(s.workers, Uncounted) == |s.ran|
    && |s.ran| + Count(s.workers, Unrun) == PickedUp(s)
  }

  ghost predicate RunOnce(s: Pool) {
    && |s.tasks| <= s.accepted
    && (forall k :: 0 <= k < |s.ran| ==> s.ran[k] < PickedUp(s))
    && (forall j, k :: 0 <= j < k < |s.ran| ==> s.ran[j] != s.ran[k])
    && (forall i :: 0 <= i < |s.workers| && Unrun(s.workers[i]) ==>
                      s.workers[i].task < PickedUp(s) && s.workers[i].task !in s.ran)
    && (forall i, j :: 0 <= i < j < |s.workers| && Unrun(s.workers[i]) && Unrun(s.workers[j]) ==>
                         s.workers[i].task != s.workers[j].task)
  }

  /**
   * No wakeup is lost. While a worker sleeps, every queued task has a notification on its way
   * or a woken worker about to look; likewise free slots for sleeping producers; a sleeping
   * wait() caller has work left to wait for; after stop only the destroyer's broadcast can
   * find anyone asleep.
   */
  ghost predicate NoLostWakeup(s: Pool) {
    && (Count(s.workers, WorkerAsleep) > 0 ==>
          |s.tasks| <= Count(s.producers, TaskNotifying) + Count(s.workers, WorkerUnchecked))
    && (!s.stop && Count(s.producers, ProducerAsleep) > 0 ==>
          s.capacity - |s.tasks| <= Count(s.workers, SpaceNotifying) + Count(s.producers, ProducerUnchecked))
    && ((exists i :: 0 <= i < |s.waiters| && s.waiters[i].Asleep?) ==> s.tasks != [] || s.active > 0)
    && (s.stop && Count(s.workers, WorkerAsleep) > 0 ==> s.destroyer.NotifyingWorkers?)
    && (s.stop && Count(s.producers, ProducerAsleep) > 0 ==>
          s.destroyer.NotifyingWorkers? || s.destroyer.NotifyingProducers?)
  }

  ghost predicate Stopped(s: Pool) {
    && (s.stop <==> s.destroyer.NotifyingWorkers? || s.destroyer.NotifyingProducers? ||
                    s.destroyer.Joining? || s.destroyer.Joined?)
    && (forall i :: 0 <= i < |s.workers| && s.workers[i].Exited? ==> s.stop && s.tasks == [])
    && (s.destroyer.Joined? ==> forall i :: 0 <= i < |s.workers| ==> s.workers[i].Exited?)
  }

  ghost predicate Inv(s: Pool) {
    s.capacity > 0 && |s.workers| > 0 && Locked(s) && Conserved(s) && RunOnce(s) && NoLostWakeup(s) && Stopped(s)
  }
}
