/** The intake protocol of one pool: submitter tasks, the queue, and the PHP threads that drain it.

    Each step is one atomic action of one participant, so a run is any interleaving. A task can be
    cancelled wherever it waits, and it gives back what it holds one thing at a time. */
module Pools {
  import opened Basics
  import opened Loads
  import opened Intakes
  import T = Threads

  datatype Refusal = Gone | Refused(why: Refused)

  /** What a request that gives up still has to do: count itself as shed, count itself off the pending
      submissions, count the full queue it met, and return its slot and its bytes. */
  datatype Debt = OwesShed | OwesPending | OwesFull | OwesSlot | OwesBytes

  /** A request: it buffers its body, arms the pending guard, finds a queue slot, waiting if there is
      none, and sends. `full` records that it once found no slot. */
  datatype Task =
    | Reading(held: nat, stored: nat)
    | Armed(held: nat, stored: nat)
    | Parked(held: nat, stored: nat)
    | Slotted(held: nat, stored: nat, full: bool)
    | Leaving(held: nat, stored: nat, owes: set<Debt>, full: bool, why: Refusal)
    | Entered(full: bool)
    | Left(full: bool, why: Refusal)

  datatype Entry = Entry(held: nat, stored: nat)

  /** An entry that left the queue: the pending count, the body permits and the slot follow one by one. */
  datatype Transit = Clear | Dequeued(entry: Entry) | Counted(entry: Entry) | BytesFreed

  datatype Worker = Worker(thread: T.Thread, transit: Transit)

  datatype Pool = Pool(
    freeSlots: int,
    freeBytes: int,
    slotsClosed: bool,
    budgetClosed: bool,
    tasks: seq<Task>,
    queue: seq<Entry>,
    workers: seq<Worker>,
    pending: int,
    failed: int,
    shed: int,
    sent: int,
    live: bool,
    lost: nat,
    signals: T.Signals)

  /** Refusals for lack of room are counted as shed. */
  predicate Counts(why: Refusal)
  {
    why.Refused? && !why.why.Stopped?
  }

  function TaskLoad(t: Task): Load
  {
    match t
    case Reading(held, stored) => Load(0, held, 0, 0, 0, 0, Needed(stored))
    case Armed(held, stored) => Load(0, held, 1, 0, 0, 0, Needed(stored))
    case Parked(held, stored) => Load(0, held, 1, 0, 0, 0, Needed(stored))
    case Slotted(held, stored, _) => Load(1, held, 1, 0, 0, 0, Needed(stored))
    case Leaving(held, stored, owes, full, why) =>
      Load(if OwesSlot in owes then 1 else 0, if OwesBytes in owes then held else 0,
           if OwesPending in owes then 1 else 0, if full && OwesFull !in owes then 1 else 0,
           if Counts(why) && OwesShed !in owes then 1 else 0, 0, if OwesBytes in owes then Needed(stored) else 0)
    case Entered(_) => ZERO
    case Left(full, why) =>
      Load(0, 0, 0, if full then 1 else 0, if Counts(why) then 1 else 0, 0, 0)
  }

  function EntryLoad(e: Entry): Load
  {
    Load(1, e.held, 1, 0, 0, 1, Needed(e.stored))
  }

  function WorkerLoad(w: Worker): Load
  {
    var n := w.thread.pulled;
    match w.transit
    case Clear => Load(0, 0, 0, 0, 0, n, 0)
    case Dequeued(e) => Load(1, e.held, 1, 0, 0, n + 1, Needed(e.stored))
    case Counted(e) => Load(1, e.held, 0, 0, 0, n + 1, Needed(e.stored))
    case BytesFreed => Load(1, 0, 0, 0, 0, n + 1, 0)
  }

  /** Everything that is held somewhere in the pool. */
  function Held(p: Pool): Load
  {
    Plus(Plus(Total(p.tasks, TaskLoad), Total(p.queue, EntryLoad)), Total(p.workers, WorkerLoad))
  }

  /** The shared counters account for all of it. */
  predicate Balanced(p: Pool)
  {
    var held := Held(p);
    && p.freeSlots + held.slots == INTAKE_SLOTS
    && p.freeBytes + held.bytes == BODY_BUDGET
    && p.pending == held.pending + p.lost
    && p.failed == held.failed
    && p.shed == held.shed
    && p.sent == held.units + p.lost
  }

  predicate Idle(t: Task)
  {
    t.Entered? || t.Left?
  }

  /** Still on its way in, with its reservation. */
  predicate Holds(t: Task)
  {
    t.Reading? || t.Armed? || t.Parked? || t.Slotted?
  }

  /** Whoever leaves owes the counters that its way asks for, and nothing else. */
  predicate OwesRightly(t: Task)
  {
    t.Leaving? ==> t.owes != {} && (OwesFull in t.owes ==> t.full) && (OwesShed in t.owes ==> Counts(t.why))
  }

  predicate TaskSound(t: Task)
  {
    Sound(TaskLoad(t)) && OwesRightly(t)
  }

  predicate EntrySound(e: Entry)
  {
    Sound(EntryLoad(e))
  }

  /** A thread with an entry on its way is in the pull that took it off the queue. */
  predicate Workable(w: Worker, g: T.Signals)
  {
    match w.transit
    case Clear => T.Good(w.thread, g)
    case _ => T.Good(w.thread, g) && T.Enabled(w.thread, T.PullUnit, g)
  }

  predicate WorkerSound(w: Worker, g: T.Signals)
  {
    Workable(w, g) && Sound(WorkerLoad(w))
  }

  ghost predicate Inv(p: Pool)
  {
    && Balanced(p)
    && p.freeSlots >= 0 && p.freeBytes >= 0
    && (forall t | t in p.tasks :: TaskSound(t))
    && (forall e | e in p.queue :: EntrySound(e))
    && (forall w | w in p.workers :: WorkerSound(w, p.signals))
    && (p.signals.closed || !p.live ==> |p.queue| == 0)
    && (p.signals.closed ==> forall t | t in p.tasks :: Idle(t))
    && (p.lost > 0 ==> !p.live)
  }

  /** A pool that just started: everything is free and no thread has pulled anything. */
  predicate Initial(p: Pool)
  {
    && p.freeSlots == INTAKE_SLOTS && p.freeBytes == BODY_BUDGET
    && |p.tasks| == 0 && |p.queue| == 0
    && p.pending == p.failed == p.shed == p.sent == p.lost == 0
    && p.live
    && forall w | w in p.workers :: StartingWorker(w)
  }

  datatype Step =
    | Arrive
    | GrowTo(i: nat, bytes: nat)
    | GrowBy(i: nat, bytes: nat)
    | Quit(i: nat)
    | Submit(i: nat)
    | TrySlot(i: nat)
    | Unpark(i: nat)
    | GiveUp(i: nat, timedOut: bool)
    | Pay(i: nat, debt: Debt)
    | Send(i: nat)
    | CloseSlots
    | CloseBudget
    | Stop
    | SendersGone
    | DestroyQueue
    | Dequeue(j: nat)
    | CountDown(j: nat)
    | FreeBytes(j: nat)
    | Deliver(j: nat)
    | ThreadStep(j: nat, a: T.Action)

  predicate Enabled(p: Pool, s: Step)
  {
    match s
    case Arrive => !p.signals.closed
    case GrowTo(i, _) => i < |p.tasks| && p.tasks[i].Reading?
    case GrowBy(i, _) => i < |p.tasks| && p.tasks[i].Reading?
    case Quit(i) => i < |p.tasks| && p.tasks[i].Reading?
    case Submit(i) => i < |p.tasks| && p.tasks[i].Reading?
    case TrySlot(i) => i < |p.tasks| && p.tasks[i].Armed?
    case Unpark(i) => i < |p.tasks| && p.tasks[i].Parked? && !p.slotsClosed && p.freeSlots > 0
    case GiveUp(i, _) => i < |p.tasks| && p.tasks[i].Parked?
    case Pay(i, debt) => i < |p.tasks| && p.tasks[i].Leaving? && debt in p.tasks[i].owes
    case Send(i) => i < |p.tasks| && p.tasks[i].Slotted?
    case SendersGone => |p.queue| == 0 && forall t | t in p.tasks :: Idle(t)
    case DestroyQueue => forall w | w in p.workers :: w.transit == Clear && w.thread.phase == T.Off
    case Dequeue(j) =>
      && j < |p.workers| && p.live && |p.queue| > 0 && p.workers[j].transit == Clear
      && p.workers[j].thread.hand.Waiting? && !p.workers[j].thread.hand.closed
    case CountDown(j) => j < |p.workers| && p.workers[j].transit.Dequeued?
    case FreeBytes(j) => j < |p.workers| && p.workers[j].transit.Counted?
    case Deliver(j) => j < |p.workers| && p.workers[j].transit == BytesFreed
    case ThreadStep(j, a) =>
      && j < |p.workers| && p.workers[j].transit == Clear && !a.PullUnit?
      && T.Enabled(p.workers[j].thread, a, p.signals)
    case _ => true
  }

  /** A submitter gives up; everything that it holds or owes is still to come. */
  function Leave(p: Pool, i: nat, why: Refusal): Pool
    requires i < |p.tasks| && Holds(p.tasks[i])
  {
    var t := p.tasks[i];
    var full := t.Parked? || (t.Slotted? && t.full);
    var owes := {OwesBytes} + (if t.Slotted? then {OwesSlot} else {}) + (if t.Reading? then {} else {OwesPending})
                + (if full then {OwesFull} else {}) + (if Counts(why) then {OwesShed} else {});
    p.(tasks := p.tasks[i := Leaving(t.held, t.stored, owes, full, why)])
  }

  /** Pays one debt; the submitter is gone when it owes nothing. */
  function PayDebt(p: Pool, i: nat, debt: Debt): Pool
    requires i < |p.tasks| && p.tasks[i].Leaving? && debt in p.tasks[i].owes
  {
    var t := p.tasks[i];
    var owes := t.owes - {debt};
    var q := p.(tasks := p.tasks[i := if owes == {} then Left(t.full, t.why) else t.(owes := owes)]);
    match debt
    case OwesShed => q.(shed := q.shed + 1)
    case OwesPending => q.(pending := q.pending - 1)
    case OwesFull => q.(failed := q.failed + 1)
    case OwesSlot => q.(freeSlots := q.freeSlots + 1)
    case OwesBytes => q.(freeBytes := q.freeBytes + t.held)
  }

  function Grow(p: Pool, i: nat, bytes: nat, stored: nat): Pool
    requires i < |p.tasks| && p.tasks[i].Reading?
  {
    var t := p.tasks[i];
    var extra := Extra(t.held, bytes);
    if extra > 0 && p.budgetClosed then Leave(p, i, Refused(Stopped))
    else if p.freeBytes < extra then Leave(p, i, Refused(OverBudget))
    else p.(freeBytes := p.freeBytes - extra, tasks := p.tasks[i := Reading(t.held + extra, stored)])
  }

  function Next(p: Pool, s: Step): Pool
    requires Enabled(p, s) && forall w | w in p.workers :: Workable(w, p.signals)
  {
    match s
    case Arrive =>
      p.(tasks := p.tasks + [if p.budgetClosed then Left(false, Refused(Stopped)) else Reading(0, 0)])
    case GrowTo(i, bytes) => Grow(p, i, bytes, bytes)
    case GrowBy(i, bytes) => Grow(p, i, p.tasks[i].held + bytes, p.tasks[i].stored + bytes)
    case Quit(i) => Leave(p, i, Gone)
    case Submit(i) =>
      p.(pending := p.pending + 1, tasks := p.tasks[i := Armed(p.tasks[i].held, p.tasks[i].stored)])
    case TrySlot(i) =>
      var t := p.tasks[i];
      if p.slotsClosed then Leave(p, i, Refused(Stopped))
      else if p.freeSlots > 0 then p.(freeSlots := p.freeSlots - 1, tasks := p.tasks[i := Slotted(t.held, t.stored, false)])
      else p.(tasks := p.tasks[i := Parked(t.held, t.stored)])
    case Unpark(i) =>
      var t := p.tasks[i];
      p.(freeSlots := p.freeSlots - 1, tasks := p.tasks[i := Slotted(t.held, t.stored, true)])
    case GiveUp(i, timedOut) =>
      if p.slotsClosed then Leave(p, i, Refused(Stopped))
      else if timedOut then Leave(p, i, Refused(Saturated))
      else Leave(p, i, Gone)
    case Pay(i, debt) => PayDebt(p, i, debt)
    case Send(i) =>
      var t := p.tasks[i];
      if !p.live then Leave(p, i, Refused(Stopped))
      else p.(sent := p.sent + 1, queue := p.queue + [Entry(t.held, t.stored)], tasks := p.tasks[i := Entered(t.full)])
    case CloseSlots => p.(slotsClosed := true)
    case CloseBudget => p.(budgetClosed := true)
    case Stop => p.(signals := p.signals.(stopping := true))
    case SendersGone => p.(signals := p.signals.(closed := true))
    case DestroyQueue =>
      p.(live := false, queue := [], lost := p.lost + |p.queue|,
         freeSlots := p.freeSlots + Total(p.queue, EntryLoad).slots,
         freeBytes := p.freeBytes + Total(p.queue, EntryLoad).bytes)
    case Dequeue(j) =>
      p.(queue := p.queue[1..], workers := p.workers[j := p.workers[j].(transit := Dequeued(p.queue[0]))])
    case CountDown(j) =>
      p.(pending := p.pending - 1, workers := p.workers[j := p.workers[j].(transit := Counted(p.workers[j].transit.entry))])
    case FreeBytes(j) =>
      p.(freeBytes := p.freeBytes + p.workers[j].transit.entry.held,
         workers := p.workers[j := p.workers[j].(transit := BytesFreed)])
    case Deliver(j) =>
      assert Workable(p.workers[j], p.signals);
      p.(freeSlots := p.freeSlots + 1,
         workers := p.workers[j := Worker(T.Apply(p.workers[j].thread, T.PullUnit, p.signals), Clear)])
    case ThreadStep(j, a) =>
      assert Workable(p.workers[j], p.signals);
      p.(workers := p.workers[j := p.workers[j].(thread := T.Apply(p.workers[j].thread, a, p.signals))])
  }

  lemma InitialInv(p: Pool)
    requires Initial(p)
    ensures Inv(p)
  {
    NothingHeld(p);
    StartingWorkersSound(p.workers, p.signals);
  }

  lemma NothingHeld(p: Pool)
    requires |p.tasks| == |p.queue| == 0 && forall w | w in p.workers :: StartingWorker(w)
    ensures Held(p) == ZERO
  {
    NothingPulled(p.workers);
    assert Total(p.tasks, TaskLoad) == ZERO;
    assert Total(p.queue, EntryLoad) == ZERO;
  }

  lemma StartingWorkersSound(workers: seq<Worker>, g: T.Signals)
    requires forall w | w in workers :: StartingWorker(w)
    ensures forall w | w in workers :: WorkerSound(w, g)
  {
    forall w | w in workers {
      StartingWorkerSound(w, g);
    }
  }

  predicate StartingWorker(w: Worker)
  {
    w.transit == Clear && T.Starting(w.thread)
  }

  lemma StartingWorkerSound(w: Worker, g: T.Signals)
    requires StartingWorker(w)
    ensures WorkerSound(w, g) && WorkerLoad(w) == ZERO
  {
    T.StartingGood(w.thread, g);
  }

  lemma {:induction false} NothingPulled(workers: seq<Worker>)
    requires forall w | w in workers :: StartingWorker(w)
    ensures Total(workers, WorkerLoad) == ZERO
  {
    if workers != [] {
      var last := workers[|workers| - 1];
      StartingWorkerSound(last, T.Signals(false, false));
      NothingPulled(workers[..|workers| - 1]);
    }
  }

  /** What a step moves between the shared counters and the one participant it changes. */
  predicate Moves(p: Pool, q: Pool, before: Load, after: Load)
  {
    && q.freeSlots - p.freeSlots == before.slots - after.slots
    && q.freeBytes - p.freeBytes == before.bytes - after.bytes
    && q.pending - p.pending == after.pending - before.pending
    && q.failed - p.failed == after.failed - before.failed
    && q.shed - p.shed == after.shed - before.shed
    && q.sent - p.sent == after.units - before.units
    && q.freeSlots >= 0 && q.freeBytes >= 0
    && q.lost == p.lost && q.live == p.live
  }

  /** A step that changes one submitter keeps the books if it moves what the submitter does. */
  lemma TaskStepInv(p: Pool, q: Pool, i: nat, t: Task)
    requires Inv(p) && i < |p.tasks| && TaskSound(t) && !Idle(p.tasks[i])
    requires q.tasks == p.tasks[i := t] && q.queue == p.queue && q.workers == p.workers && q.signals == p.signals
    requires Moves(p, q, TaskLoad(p.tasks[i]), TaskLoad(t))
    ensures Inv(q)
  {
    hide Total;
    TotalUpdate(p.tasks, i, t, TaskLoad);
    forall x | x in q.tasks
      ensures TaskSound(x)
    {
      assert x == t || x in p.tasks;
    }
    assert p.tasks[i] in p.tasks;
  }

  /** The same for one worker. */
  lemma WorkerStepInv(p: Pool, q: Pool, j: nat, w: Worker)
    requires Inv(p) && j < |p.workers| && WorkerSound(w, p.signals)
    requires q.workers == p.workers[j := w] && q.queue == p.queue && q.tasks == p.tasks && q.signals == p.signals
    requires Moves(p, q, WorkerLoad(p.workers[j]), WorkerLoad(w))
    ensures Inv(q)
  {
    hide Total;
    TotalUpdate(p.workers, j, w, WorkerLoad);
    forall x | x in q.workers
      ensures WorkerSound(x, q.signals)
    {
      assert x == w || x in p.workers;
    }
  }

  /** Giving up moves nothing yet. */
  lemma LeaveInv(p: Pool, i: nat, why: Refusal)
    requires Inv(p) && i < |p.tasks| && Holds(p.tasks[i])
    ensures Inv(Leave(p, i, why))
  {
    var q := Leave(p, i, why);
    assert TaskSound(p.tasks[i]);
    TaskStepInv(p, q, i, q.tasks[i]);
  }

  /** Each debt that is paid, in any order, moves its counter by what the submitter held. */
  lemma PayInv(p: Pool, i: nat, debt: Debt)
    requires Inv(p) && Enabled(p, Pay(i, debt))
    ensures Inv(Next(p, Pay(i, debt)))
  {
    hide TaskLoad, Balanced;
    var t, q := p.tasks[i], PayDebt(p, i, debt);
    assert TaskSound(t);
    PaidLoad(t, debt, q.tasks[i]);
    TaskStepInv(p, q, i, q.tasks[i]);
    assert Next(p, Pay(i, debt)) == q;
  }

  /** What a debt stands for in the books is gone when it is paid. */
  lemma PaidLoad(t: Task, debt: Debt, u: Task)
    requires t.Leaving? && debt in t.owes && OwesRightly(t)
    requires u == if t.owes - {debt} == {} then Left(t.full, t.why) else t.(owes := t.owes - {debt})
    ensures OwesRightly(u)
    ensures match debt
            case OwesShed => TaskLoad(t).shed == 0 && TaskLoad(u) == TaskLoad(t).(shed := 1)
            case OwesPending => TaskLoad(t).pending == 1 && TaskLoad(u) == TaskLoad(t).(pending := 0)
            case OwesFull => TaskLoad(t).failed == 0 && TaskLoad(u) == TaskLoad(t).(failed := 1)
            case OwesSlot => TaskLoad(t).slots == 1 && TaskLoad(u) == TaskLoad(t).(slots := 0)
            case OwesBytes => TaskLoad(t).bytes == t.held && TaskLoad(u) == TaskLoad(t).(bytes := 0, stored := 0)
  {
  }

  lemma GrowInv(p: Pool, i: nat, bytes: nat, stored: nat)
    requires Inv(p) && i < |p.tasks| && p.tasks[i].Reading?
    requires Needed(stored) <= Max(p.tasks[i].held, Needed(bytes))
    ensures Inv(Grow(p, i, bytes, stored))
  {
    var t := p.tasks[i];
    var extra := Extra(t.held, bytes);
    if extra > 0 && p.budgetClosed {
      LeaveInv(p, i, Refused(Stopped));
    } else if p.freeBytes < extra {
      LeaveInv(p, i, Refused(OverBudget));
    } else {
      TaskStepInv(p, p.(freeBytes := p.freeBytes - extra, tasks := p.tasks[i := Reading(t.held + extra, stored)]), i,
                  Reading(t.held + extra, stored));
    }
  }

  lemma SlotNextInv(p: Pool, s: Step)
    requires Inv(p) && Enabled(p, s) && (s.Submit? || s.TrySlot? || s.Unpark?)
    ensures Inv(Next(p, s))
  {
    hide Total, Balanced, T.Enabled, T.Apply, T.Good;
    assert TaskSound(p.tasks[s.i]);
    if s.TrySlot? && p.slotsClosed {
      LeaveInv(p, s.i, Refused(Stopped));
    } else {
      TaskStepInv(p, Next(p, s), s.i, Next(p, s).tasks[s.i]);
    }
  }

  lemma GrowNextInv(p: Pool, s: Step)
    requires Inv(p) && Enabled(p, s) && (s.GrowTo? || s.GrowBy?)
    ensures Inv(Next(p, s))
  {
    hide Grow, Leave, Balanced;
    var t := p.tasks[s.i];
    var bytes := if s.GrowTo? then s.bytes else t.held + s.bytes;
    var stored := if s.GrowTo? then s.bytes else t.stored + s.bytes;
    assert TaskSound(t);
    GrowInv(p, s.i, bytes, stored);
    assert Next(p, s) == Grow(p, s.i, bytes, stored);
  }

  lemma QuitInv(p: Pool, i: nat)
    requires Inv(p) && Enabled(p, Quit(i))
    ensures Inv(Next(p, Quit(i)))
  {
    LeaveInv(p, i, Gone);
    assert Next(p, Quit(i)) == Leave(p, i, Gone);
  }

  lemma GiveUpInv(p: Pool, i: nat, timedOut: bool)
    requires Inv(p) && Enabled(p, GiveUp(i, timedOut))
    ensures Inv(Next(p, GiveUp(i, timedOut)))
  {
    var why := if p.slotsClosed then Refused(Stopped) else if timedOut then Refused(Saturated) else Gone;
    LeaveInv(p, i, why);
    assert Next(p, GiveUp(i, timedOut)) == Leave(p, i, why);
  }

  lemma EnqueueInv(p: Pool, i: nat, t: Task, e: Entry, q: Pool)
    requires Inv(p) && i < |p.tasks| && p.tasks[i].Slotted? && p.live
    requires t == Entered(p.tasks[i].full) && e == Entry(p.tasks[i].held, p.tasks[i].stored)
    requires q == p.(sent := p.sent + 1, queue := p.queue + [e], tasks := p.tasks[i := t])
    ensures Inv(q)
  {
    hide Total;
    assert TaskSound(p.tasks[i]);
    TotalUpdate(p.tasks, i, t, TaskLoad);
    TotalAppend(p.queue, e, EntryLoad);
    forall x | x in q.tasks ensures TaskSound(x) {
      assert x == t || x in p.tasks;
    }
    assert EntrySound(e);
    assert p.tasks[i] in p.tasks && !Idle(p.tasks[i]);
  }

  lemma SendInv(p: Pool, i: nat)
    requires Inv(p) && Enabled(p, Send(i))
    ensures Inv(Next(p, Send(i)))
  {
    var t := p.tasks[i];
    if p.live {
      EnqueueInv(p, i, Entered(t.full), Entry(t.held, t.stored), Next(p, Send(i)));
    } else {
      LeaveInv(p, i, Refused(Stopped));
    }
  }

  lemma ArriveInv(p: Pool, t: Task)
    requires Inv(p) && Enabled(p, Arrive) && TaskLoad(t) == ZERO && !t.Leaving?
    ensures Inv(p.(tasks := p.tasks + [t]))
  {
    TotalAppend(p.tasks, t, TaskLoad);
    assert TaskSound(t);
  }

  lemma ArriveNextInv(p: Pool)
    requires Inv(p) && Enabled(p, Arrive)
    ensures Inv(Next(p, Arrive))
  {
    var t := if p.budgetClosed then Left(false, Refused(Stopped)) else Reading(0, 0);
    ArriveInv(p, t);
    assert Next(p, Arrive) == p.(tasks := p.tasks + [t]);
  }

  lemma DequeueInv(p: Pool, j: nat)
    requires Inv(p) && Enabled(p, Dequeue(j))
    ensures Inv(Next(p, Dequeue(j)))
  {
    hide Total, T.Good;
    var w := p.workers[j].(transit := Dequeued(p.queue[0]));
    assert EntrySound(p.queue[0]) && WorkerSound(p.workers[j], p.signals);
    TotalDropFirst(p.queue, EntryLoad);
    TotalUpdate(p.workers, j, w, WorkerLoad);
    var q := Next(p, Dequeue(j));
    assert WorkerSound(w, p.signals);
    forall x | x in q.workers ensures WorkerSound(x, q.signals) {
      assert x == w || x in p.workers;
    }
  }

  lemma TransitInv(p: Pool, s: Step)
    requires Inv(p) && Enabled(p, s) && (s.CountDown? || s.FreeBytes?)
    ensures Inv(Next(p, s))
  {
    hide Total, Balanced, T.Enabled, T.Apply, T.Good;
    assert WorkerSound(p.workers[s.j], p.signals);
    WorkerStepInv(p, Next(p, s), s.j, Next(p, s).workers[s.j]);
  }

  /** A thread's action keeps its worker sound and moves no more than the units it pulls. */
  lemma Applied(w: Worker, a: T.Action, g: T.Signals) returns (v: Worker)
    requires WorkerSound(w, g) && T.Enabled(w.thread, a, g)
    requires if a.PullUnit? then w.transit == BytesFreed else w.transit == Clear
    ensures v == Worker(T.Apply(w.thread, a, g), Clear) && WorkerSound(v, g)
    ensures WorkerLoad(v) == WorkerLoad(w).(slots := 0)
  {
    hide T.Apply, T.Enabled, T.Good;
    T.ApplyGood(w.thread, a, g);
    T.ApplyPulls(w.thread, a, g);
    v := Worker(T.Apply(w.thread, a, g), Clear);
  }

  lemma DeliverInv(p: Pool, j: nat)
    requires Inv(p) && Enabled(p, Deliver(j))
    ensures Inv(Next(p, Deliver(j)))
  {
    hide T.Apply, T.Good;
    assert WorkerSound(p.workers[j], p.signals);
    var v := Applied(p.workers[j], T.PullUnit, p.signals);
    WorkerStepInv(p, Next(p, Deliver(j)), j, v);
  }

  lemma ThreadStepInv(p: Pool, j: nat, a: T.Action)
    requires Inv(p) && Enabled(p, ThreadStep(j, a))
    ensures Inv(Next(p, ThreadStep(j, a)))
  {
    hide T.Apply, T.Good, T.Enabled;
    assert WorkerSound(p.workers[j], p.signals);
    var v := Applied(p.workers[j], a, p.signals);
    WorkerStepInv(p, Next(p, ThreadStep(j, a)), j, v);
  }

  lemma WorkersLater(workers: seq<Worker>, g: T.Signals, h: T.Signals)
    requires T.Later(g, h) && forall w | w in workers :: WorkerSound(w, g)
    ensures forall w | w in workers :: WorkerSound(w, h)
  {
    forall w | w in workers
      ensures WorkerSound(w, h)
    {
      assert WorkerSound(w, g);
      T.LaterGood(w.thread, g, h);
    }
  }

  /** Closing, stopping and the end of the channel. */
  lemma SignalInv(p: Pool, q: Pool)
    requires Inv(p) && T.Later(p.signals, q.signals)
    requires q == p.(signals := q.signals, slotsClosed := q.slotsClosed, budgetClosed := q.budgetClosed)
    requires q.signals.closed ==> |p.queue| == 0 && forall t | t in p.tasks :: Idle(t)
    ensures Inv(q)
  {
    WorkersLater(p.workers, p.signals, q.signals);
    assert Held(q) == Held(p);
  }

  /** What happens to the pool when its queue is destroyed. */
  predicate Destroyed(p: Pool, q: Pool)
  {
    var l := Total(p.queue, EntryLoad);
    && q.tasks == p.tasks && q.workers == p.workers && |q.queue| == 0 && q.signals == p.signals
    && q.freeSlots == p.freeSlots + l.slots && q.freeBytes == p.freeBytes + l.bytes
    && q.pending == p.pending && q.failed == p.failed && q.shed == p.shed && q.sent == p.sent
    && q.lost == p.lost + |p.queue| && !q.live
  }

  lemma DestroyBalanced(p: Pool, q: Pool, held: Load)
    requires Inv(p) && Destroyed(p, q) && held == Held(p)
    ensures Balanced(q) && q.freeSlots >= 0 && q.freeBytes >= 0
  {
    QueueLoad(p.queue);
    QueueSound(p.queue);
    HeldWithoutQueue(p, q);
  }

  lemma DestroyInv(p: Pool, q: Pool)
    requires Inv(p) && Destroyed(p, q)
    ensures Inv(q)
  {
    DestroyBalanced(p, q, Held(p));
  }

  lemma QueueSound(queue: seq<Entry>)
    requires forall e | e in queue :: EntrySound(e)
    ensures Sound(Total(queue, EntryLoad))
  {
    forall e | e in queue ensures Sound(EntryLoad(e)) {
      assert EntrySound(e);
    }
    TotalSound(queue, EntryLoad);
  }

  lemma HeldWithoutQueue(p: Pool, q: Pool)
    requires q.tasks == p.tasks && q.workers == p.workers && |q.queue| == 0
    ensures Held(q) == Minus(Held(p), Total(p.queue, EntryLoad))
  {
    assert Total(q.queue, EntryLoad) == ZERO;
  }

  /** Every queued entry is one slot, one pending submission and one unit. */
  lemma {:induction false} QueueLoad(queue: seq<Entry>)
    ensures var l := Total(queue, EntryLoad);
            l.slots == l.pending == l.units == |queue| && l.failed == l.shed == 0
  {
    if queue != [] {
      QueueLoad(queue[..|queue| - 1]);
    }
  }

  predicate ByTask(s: Step)
  {
    s.Arrive? || s.Send? || s.Submit? || s.TrySlot? || s.Unpark? || s.GrowTo? || s.GrowBy? || s.Quit? || s.GiveUp? || s.Pay?
  }

  lemma TaskNextInv(p: Pool, s: Step)
    requires Inv(p) && Enabled(p, s) && ByTask(s)
    ensures Inv(Next(p, s))
  {
    if s.Arrive? {
      ArriveNextInv(p);
    } else if s.Send? {
      SendInv(p, s.i);
    } else if s.Submit? || s.TrySlot? || s.Unpark? {
      SlotNextInv(p, s);
    } else if s.GrowTo? || s.GrowBy? {
      GrowNextInv(p, s);
    } else if s.Quit? {
      QuitInv(p, s.i);
    } else if s.GiveUp? {
      GiveUpInv(p, s.i, s.timedOut);
    } else {
      PayInv(p, s.i, s.debt);
    }
  }

  lemma PoolNextInv(p: Pool, s: Step)
    requires Inv(p) && Enabled(p, s) && !ByTask(s)
    ensures Inv(Next(p, s))
  {
    if s.DestroyQueue? {
      DestroyInv(p, Next(p, s));
    } else if s.Dequeue? {
      DequeueInv(p, s.j);
    } else if s.CloseSlots? || s.CloseBudget? || s.Stop? || s.SendersGone? {
      SignalInv(p, Next(p, s));
    } else if s.CountDown? || s.FreeBytes? {
      TransitInv(p, s);
    } else if s.Deliver? {
      DeliverInv(p, s.j);
    } else {
      ThreadStepInv(p, s.j, s.a);
    }
  }

  /** Every step of every participant keeps the books. */
  lemma NextInv(p: Pool, s: Step)
    requires Inv(p) && Enabled(p, s)
    ensures Inv(Next(p, s))
  {
    if ByTask(s) {
      TaskNextInv(p, s);
    } else {
      PoolNextInv(p, s);
    }
  }

  ghost predicate Ready(p: Pool)
  {
    forall w | w in p.workers :: Workable(w, p.signals)
  }

  /** `steps` lead from `p` to `q`. */
  ghost predicate Run(p: Pool, steps: seq<Step>, q: Pool)
    decreases |steps|
  {
    if |steps| == 0 then p == q
    else Enabled(p, steps[0]) && (Ready(p) ==> Run(Next(p, steps[0]), steps[1..], q))
  }

  /** The books balance after every run of the protocol, whatever the interleaving. */
  lemma {:induction false} EveryRunBalances(p: Pool, steps: seq<Step>, q: Pool)
    requires Inv(p) && Run(p, steps, q)
    ensures Inv(q)
    decreases |steps|
  {
    if |steps| > 0 {
      InvReady(p);
      NextInv(p, steps[0]);
      EveryRunBalances(Next(p, steps[0]), steps[1..], q);
    }
  }

  lemma InvReady(p: Pool)
    requires Inv(p)
    ensures Ready(p)
  {
    forall w | w in p.workers
      ensures Workable(w, p.signals)
    {
      assert WorkerSound(w, p.signals);
    }
  }
}
