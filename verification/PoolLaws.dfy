/** What the balanced books of a pool say about its counters, its memory and its units. */
module PoolLaws {
  import opened Basics
  import opened Loads
  import opened Intakes
  import opened Pools
  import T = Threads

  function Count<X>(s: seq<X>, f: X -> bool): nat
  {
    if |s| == 0 then 0 else Count(s[..|s| - 1], f) + (if f(s[|s| - 1]) then 1 else 0)
  }

  predicate InSubmit(t: Task)
  {
    t.Armed? || t.Parked? || t.Slotted? || (t.Leaving? && OwesPending in t.owes)
  }

  predicate HasSlot(t: Task)
  {
    t.Slotted? || (t.Leaving? && OwesSlot in t.owes)
  }

  /** The submission found no slot and never entered the queue. */
  predicate FailedOnFullQueue(t: Task)
  {
    (t.Left? || (t.Leaving? && OwesFull !in t.owes)) && t.full
  }

  predicate ShedForRoom(t: Task)
  {
    (t.Left? || (t.Leaving? && OwesShed !in t.owes)) && (t.why == Refused(OverBudget) || t.why == Refused(Saturated))
  }

  predicate Uncounted(w: Worker)
  {
    w.transit.Dequeued?
  }

  predicate InTransit(w: Worker)
  {
    w.transit != Clear
  }

  /** The units that the threads counted, and those they hold without an outcome. */
  function Handled(workers: seq<Worker>): nat
  {
    if |workers| == 0 then 0 else Handled(workers[..|workers| - 1]) + workers[|workers| - 1].thread.handled
  }

  function HeldUnits(workers: seq<Worker>): nat
  {
    if |workers| == 0 then 0 else HeldUnits(workers[..|workers| - 1]) + T.InHand(workers[|workers| - 1].thread)
  }

  lemma {:induction false} TasksExplained(tasks: seq<Task>)
    ensures var l := Total(tasks, TaskLoad);
            && l.slots == Count(tasks, HasSlot) && l.pending == Count(tasks, InSubmit)
            && l.failed == Count(tasks, FailedOnFullQueue) && l.shed == Count(tasks, ShedForRoom)
            && l.units == 0
  {
    if |tasks| > 0 {
      TasksExplained(tasks[..|tasks| - 1]);
    }
  }

  lemma {:induction false} WorkersExplained(workers: seq<Worker>, g: T.Signals)
    requires forall w | w in workers :: WorkerSound(w, g)
    ensures var l := Total(workers, WorkerLoad);
            && l.slots == Count(workers, InTransit) && l.pending == Count(workers, Uncounted)
            && l.failed == l.shed == 0
            && l.units == Count(workers, InTransit) + Handled(workers) + HeldUnits(workers)
  {
    if |workers| > 0 {
      var last := workers[|workers| - 1];
      assert WorkerSound(last, g);
      assert last.thread.pulled == last.thread.handled + T.InHand(last.thread);
      WorkersExplained(workers[..|workers| - 1], g);
    }
  }

  /** The slots: free, held by submitters, queued, or on the way out of the queue. So the unbounded
      channel never holds more than 1024 entries. */
  lemma SlotsConserved(p: Pool)
    requires Inv(p)
    ensures p.freeSlots + Count(p.tasks, HasSlot) + |p.queue| + Count(p.workers, InTransit) == INTAKE_SLOTS
    ensures |p.queue| <= INTAKE_SLOTS
  {
    hide Total, Count;
    TasksExplained(p.tasks);
    QueueLoad(p.queue);
    WorkersExplained(p.workers, p.signals);
  }

  /** The pending counter counts the submissions that are not through, the queue, and the entries just
      taken off it. It never underflows. After the queue is destroyed its entries stay counted. */
  lemma PendingExplained(p: Pool)
    requires Inv(p)
    ensures p.pending == Count(p.tasks, InSubmit) + |p.queue| + Count(p.workers, Uncounted) + p.lost
    ensures p.failed == Count(p.tasks, FailedOnFullQueue)
    ensures p.shed == Count(p.tasks, ShedForRoom)
  {
    hide Total, Count;
    TasksExplained(p.tasks);
    QueueLoad(p.queue);
    WorkersExplained(p.workers, p.signals);
  }

  lemma {:induction false} CountsOne<X>(s: seq<X>, f: X -> bool, i: nat)
    requires i < |s| && f(s[i])
    ensures Count(s, f) >= 1
  {
    if i < |s| - 1 {
      CountsOne(s[..|s| - 1], f, i);
    }
  }

  /** Whatever subtracts from the pending counter finds it positive. */
  lemma PendingNeverUnderflows(p: Pool, s: Step)
    requires Inv(p) && Enabled(p, s)
    requires s.CountDown? || (s.Pay? && s.debt == OwesPending)
    ensures p.pending >= 1
  {
    PendingExplained(p);
    if s.CountDown? {
      CountsOne(p.workers, Uncounted, s.j);
    } else {
      CountsOne(p.tasks, InSubmit, s.i);
    }
  }

  /** The bytes: free, or held by a body that is buffered, queued or on its way out. The bodies that
      are stored never cost more than the budget, however many requests there are. */
  lemma BodiesWithinBudget(p: Pool)
    requires Inv(p)
    ensures p.freeBytes + Held(p).bytes == BODY_BUDGET
    ensures 0 <= Held(p).stored <= Held(p).bytes <= BODY_BUDGET
  {
    forall t | t in p.tasks ensures Sound(TaskLoad(t)) {
      assert TaskSound(t);
    }
    TotalSound(p.tasks, TaskLoad);
    QueueSound(p.queue);
    forall w | w in p.workers ensures Sound(WorkerLoad(w)) {
      assert WorkerSound(w, p.signals);
    }
    TotalSound(p.workers, WorkerLoad);
  }

  /** Exactly-once accounting: every sent entry is queued, on its way out, in hand without an outcome,
      or counted once by the thread that pulled it. Only a destroyed queue loses entries. */
  lemma UnitsCountedOnce(p: Pool)
    requires Inv(p)
    ensures p.sent == |p.queue| + Count(p.workers, InTransit) + HeldUnits(p.workers) + Handled(p.workers) + p.lost
    ensures p.live ==> p.lost == 0
  {
    hide Total, Count;
    TasksExplained(p.tasks);
    QueueLoad(p.queue);
    WorkersExplained(p.workers, p.signals);
  }

  predicate AtRest(p: Pool)
  {
    && |p.queue| == 0 && (forall t | t in p.tasks :: Idle(t))
    && (forall w | w in p.workers :: w.transit == Clear && T.InHand(w.thread) == 0)
  }

  lemma NothingMoves(p: Pool)
    requires AtRest(p)
    ensures Count(p.tasks, HasSlot) + |p.queue| + Count(p.workers, InTransit) == 0
    ensures Count(p.tasks, InSubmit) + |p.queue| + Count(p.workers, Uncounted) == 0
  {
    IdleTasks(p.tasks);
    RestingWorkers(p.workers);
  }

  lemma FreeAtRest(p: Pool)
    requires AtRest(p)
    requires p.freeSlots + Count(p.tasks, HasSlot) + |p.queue| + Count(p.workers, InTransit) == INTAKE_SLOTS
    requires p.pending == Count(p.tasks, InSubmit) + |p.queue| + Count(p.workers, Uncounted) + p.lost
    ensures p.freeSlots == INTAKE_SLOTS && p.pending == p.lost
  {
    NothingMoves(p);
  }

  lemma RestHoldsNoSlots(p: Pool)
    requires Inv(p) && AtRest(p)
    ensures p.freeSlots == INTAKE_SLOTS && p.pending == p.lost
  {
    SlotsConserved(p);
    PendingExplained(p);
    FreeAtRest(p);
  }

  lemma RestHandledAll(p: Pool)
    requires Inv(p) && AtRest(p)
    ensures p.sent == Handled(p.workers) + p.lost
  {
    RestingWorkers(p.workers);
    UnitsCountedOnce(p);
  }

  /** A pool at rest got every permit back, has nothing pending and has handled all it was sent. */
  lemma RestReturnsEverything(p: Pool)
    requires Inv(p) && AtRest(p)
    ensures p.freeSlots == INTAKE_SLOTS && p.freeBytes == BODY_BUDGET
    ensures p.pending == p.lost && p.sent == Handled(p.workers) + p.lost
  {
    RestHoldsNoSlots(p);
    RestHandledAll(p);
    RestHoldsNoBytes(p);
    FreeBytes(p);
  }

  lemma FreeBytes(p: Pool)
    requires Inv(p)
    ensures p.freeBytes + Held(p).bytes == BODY_BUDGET
  {
  }

  lemma EmptyQueueBytes(queue: seq<Entry>)
    requires |queue| == 0
    ensures Total(queue, EntryLoad).bytes == 0
  {
  }

  lemma HeldBytes(p: Pool)
    requires Total(p.tasks, TaskLoad).bytes == Total(p.queue, EntryLoad).bytes == Total(p.workers, WorkerLoad).bytes == 0
    ensures Held(p).bytes == 0
  {
  }

  lemma RestHoldsNoBytes(p: Pool)
    requires AtRest(p)
    ensures Held(p).bytes == 0
  {
    IdleTasks(p.tasks);
    RestingWorkers(p.workers);
    EmptyQueueBytes(p.queue);
    HeldBytes(p);
  }

  lemma {:induction false} IdleTasks(tasks: seq<Task>)
    requires forall t | t in tasks :: Idle(t)
    ensures Total(tasks, TaskLoad).bytes == 0
    ensures Count(tasks, HasSlot) == Count(tasks, InSubmit) == 0
  {
    if |tasks| > 0 {
      IdleTasks(tasks[..|tasks| - 1]);
      assert Idle(tasks[|tasks| - 1]);
    }
  }

  lemma {:induction false} RestingWorkers(workers: seq<Worker>)
    requires forall w | w in workers :: w.transit == Clear && T.InHand(w.thread) == 0
    ensures Total(workers, WorkerLoad).bytes == 0
    ensures Count(workers, InTransit) == Count(workers, Uncounted) == HeldUnits(workers) == 0
  {
    if |workers| > 0 {
      RestingWorkers(workers[..|workers| - 1]);
      assert workers[|workers| - 1].transit == Clear;
    }
  }

  /** What holds of every thread at every point of every run: one unit at most is without an outcome and
      it is the one in the slot; a reclaimed box stays reclaimed; a generation stays within its quota;
      and a draining thread shows neither idle nor active. */
  lemma EveryThreadSafe(p: Pool, j: nat)
    requires Inv(p) && j < |p.workers|
    ensures var t := p.workers[j].thread;
            && T.InHand(t) <= 1
            && (forall i | 0 <= i < |t.boxes| :: t.boxes[i].live && !t.boxes[i].settled ==> t.unit == Some(i))
            && (forall i | 0 <= i < |t.boxes| :: t.boxes[i].owned ==> t.boxes[i].live)
            && (t.unit.Some? ==> t.unit.value < |t.boxes| && t.boxes[t.unit.value].live)
            && (t.phase != T.Off && t.quota.max > 0 ==> t.generation <= t.quota.max)
            && (t.draining ==> t.slot != T.SlotIdle && t.slot != T.SlotActive)
  {
    assert WorkerSound(p.workers[j], p.signals);
  }

  /** A state that some run of the protocol, from a pool that just started, leads to. */
  ghost predicate Reachable(q: Pool)
  {
    exists p, steps :: Initial(p) && Run(p, steps, q)
  }

  lemma ReachableInv(q: Pool)
    requires Reachable(q)
    ensures Inv(q)
  {
    var p, steps :| Initial(p) && Run(p, steps, q);
    InitialInv(p);
    EveryRunBalances(p, steps, q);
  }

  /** The laws, at every reachable state. */
  lemma EveryReachableState(q: Pool)
    requires Reachable(q)
    ensures q.freeSlots + Count(q.tasks, HasSlot) + |q.queue| + Count(q.workers, InTransit) == 1024
    ensures q.freeBytes + Held(q).bytes == 64 * 1024 * 1024 && 0 <= Held(q).stored <= Held(q).bytes
    ensures q.pending == Count(q.tasks, InSubmit) + |q.queue| + Count(q.workers, Uncounted) + q.lost
    ensures q.failed == Count(q.tasks, FailedOnFullQueue) && q.shed == Count(q.tasks, ShedForRoom)
    ensures q.sent == |q.queue| + Count(q.workers, InTransit) + HeldUnits(q.workers) + Handled(q.workers) + q.lost
    ensures AtRest(q) ==> q.freeSlots == 1024 && q.freeBytes == 64 * 1024 * 1024 && q.pending == q.lost
  {
    hide Inv, Count, Held, Total, HeldUnits, Handled, AtRest;
    ReachableInv(q);
    SlotsConserved(q);
    BodiesWithinBudget(q);
    PendingExplained(q);
    UnitsCountedOnce(q);
    if AtRest(q) {
      RestReturnsEverything(q);
    }
  }

  /** Nothing that can happen next at a reachable state subtracts from a pending counter of zero, and every
      thread keeps its discipline there. */
  lemma EveryReachableThread(q: Pool, j: nat, s: Step)
    requires Reachable(q) && j < |q.workers|
    ensures Enabled(q, s) && (s.CountDown? || (s.Pay? && s.debt == OwesPending)) ==> q.pending >= 1
    ensures var t := q.workers[j].thread;
            && T.InHand(t) <= 1
            && (forall i | 0 <= i < |t.boxes| :: t.boxes[i].live && !t.boxes[i].settled ==> t.unit == Some(i))
            && (forall i | 0 <= i < |t.boxes| :: t.boxes[i].owned ==> t.boxes[i].live)
            && (t.unit.Some? ==> t.unit.value < |t.boxes| && t.boxes[t.unit.value].live)
            && (t.phase != T.Off && t.quota.max > 0 ==> t.generation <= t.quota.max)
            && (t.draining ==> t.slot != T.SlotIdle && t.slot != T.SlotActive)
  {
    hide Inv, Enabled;
    ReachableInv(q);
    EveryThreadSafe(q, j);
    if Enabled(q, s) && (s.CountDown? || (s.Pay? && s.debt == OwesPending)) {
      PendingNeverUnderflows(q, s);
    }
  }
}
