/** What happened to each submission of a pool, told from the states of the run and not from the submission's own
    notes: who met a full queue, who was refused and why, who entered; and the order of the queue. */
module PoolRuns {
  import opened Basics
  import opened Intakes
  import opened Loads
  import opened Pools
  import opened PoolLaws
  import T = Threads

  lemma {:induction false} RunSnoc(p: Pool, steps: seq<Step>, q: Pool) returns (m: Pool)
    requires Inv(p) && Run(p, steps, q) && |steps| > 0
    ensures Run(p, steps[..|steps| - 1], m) && Inv(m) && Ready(m)
    ensures Enabled(m, steps[|steps| - 1]) && q == Next(m, steps[|steps| - 1])
    decreases |steps|
  {
    hide Inv, Enabled, Next;
    InvReady(p);
    var n := |steps| - 1;
    if n == 0 {
      m := p;
      assert steps[1..] == [];
    } else {
      NextInv(p, steps[0]);
      m := RunSnoc(Next(p, steps[0]), steps[1..], q);
      assert steps[1..][n - 1] == steps[n] && steps[1..][..n - 1] == steps[..n][1..];
    }
  }

  lemma {:induction false} RunUnique(p: Pool, steps: seq<Step>, q: Pool, r: Pool)
    requires Inv(p) && Run(p, steps, q) && Run(p, steps, r)
    ensures q == r
    decreases |steps|
  {
    if |steps| > 0 {
      hide Inv, Enabled, Next;
      InvReady(p);
      NextInv(p, steps[0]);
      RunUnique(Next(p, steps[0]), steps[1..], q, r);
    }
  }

  type Moment = (Pool, Step) -> bool

  /** At its k-th step, from the state `m`, the run did this. */
  ghost predicate HappenedAt(p: Pool, steps: seq<Step>, f: Moment, k: int, m: Pool)
  {
    0 <= k < |steps| && Run(p, steps[..k], m) && f(m, steps[k])
  }

  ghost predicate Happened(p: Pool, steps: seq<Step>, f: Moment)
  {
    exists k, m :: HappenedAt(p, steps, f, k, m)
  }

  lemma HappenedNext(p: Pool, steps: seq<Step>, f: Moment, m: Pool)
    requires Inv(p) && |steps| > 0 && Run(p, steps[..|steps| - 1], m)
    ensures Happened(p, steps, f) <==> Happened(p, steps[..|steps| - 1], f) || f(m, steps[|steps| - 1])
  {
    hide Inv, Run;
    var n := |steps| - 1;
    if Happened(p, steps, f) {
      var k, at :| HappenedAt(p, steps, f, k, at);
      if k < n {
        assert steps[..n][..k] == steps[..k];
        assert HappenedAt(p, steps[..n], f, k, at);
      } else {
        RunUnique(p, steps[..n], at, m);
      }
    }
    if Happened(p, steps[..n], f) {
      var k, at :| HappenedAt(p, steps[..n], f, k, at);
      assert steps[..n][..k] == steps[..k];
      assert HappenedAt(p, steps, f, k, at);
    }
    if f(m, steps[n]) {
      assert HappenedAt(p, steps, f, n, m);
    }
  }

  predicate Has(p: Pool, i: nat, g: Task -> bool)
  {
    i < |p.tasks| && g(p.tasks[i])
  }

  /** Submission `i` comes to be so in the steps that `f` names, and stays so. */
  ghost predicate ComesFrom(i: nat, g: Task -> bool, f: Moment)
  {
    forall m, s {:trigger Enabled(m, s)} :: Inv(m) && Ready(m) && Enabled(m, s) ==> (Has(Next(m, s), i, g) <==> Has(m, i, g) || f(m, s))
  }

  lemma {:induction false} ExactlyThose(p: Pool, steps: seq<Step>, q: Pool, i: nat, g: Task -> bool, f: Moment)
    requires Initial(p) && Run(p, steps, q) && ComesFrom(i, g, f)
    ensures Has(q, i, g) <==> Happened(p, steps, f)
    decreases |steps|
  {
    InitialInv(p);
    hide Inv, Initial, Enabled, Next;
    if |steps| == 0 {
      NoTasks(p);
    } else {
      var m := RunSnoc(p, steps, q);
      ExactlyThose(p, steps[..|steps| - 1], m, i, g, f);
      HappenedNext(p, steps, f, m);
    }
  }

  lemma NoTasks(p: Pool)
    requires Initial(p)
    ensures p.tasks == []
  {
  }

  /** It looked for a slot while there was none. */
  function FoundNone(i: nat): Moment
  {
    (m: Pool, s: Step) => s == TrySlot(i) && !m.slotsClosed && m.freeSlots <= 0
  }

  /** It waited for a slot until its time was up. */
  function TimedOut(i: nat): Moment
  {
    (m: Pool, s: Step) => s == GiveUp(i, true) && !m.slotsClosed
  }

  /** The body that a step announces, all of it, when submission `i` grows by it. */
  function Announced(m: Pool, s: Step, i: nat): Option<nat>
  {
    if i >= |m.tasks| || !m.tasks[i].Reading? then None
    else
      match s
      case GrowTo(j, bytes) => if i == j then Some(bytes) else None
      case GrowBy(j, bytes) => if i == j then Some(m.tasks[i].held + bytes) else None
      case _ => None
  }

  /** Its body, or as much of it as the whole budget, was more than it held and what was free. */
  function NoRoom(i: nat): Moment
  {
    (m: Pool, s: Step) =>
      Announced(m, s, i).Some? && !m.budgetClosed
      && Min(Announced(m, s, i).value, 64 * 1024 * 1024) > m.tasks[i].held + m.freeBytes
  }

  /** It was sent while somebody could still receive it. */
  function WasSent(i: nat): Moment
  {
    (m: Pool, s: Step) => s == Send(i) && m.live
  }

  predicate Marked(t: Task)
  {
    t.Parked? || ((t.Slotted? || t.Leaving? || t.Entered? || t.Left?) && t.full)
  }

  predicate Saturates(t: Task)
  {
    (t.Leaving? || t.Left?) && t.why == Refused(Intakes.Saturated)
  }

  predicate Overdraws(t: Task)
  {
    (t.Leaving? || t.Left?) && t.why == Refused(Intakes.OverBudget)
  }

  predicate Enters(t: Task)
  {
    t.Entered?
  }

  /** A step changes one submission at most, and only the one that acts. */
  lemma OthersStay(m: Pool, s: Step, i: nat)
    requires Ready(m) && Enabled(m, s) && i < |m.tasks| && !(ByTask(s) && !s.Arrive? && s.i == i)
    ensures i < |Next(m, s).tasks| && Next(m, s).tasks[i] == m.tasks[i]
  {
    if ByTask(s) {
      OtherTasksStay(m, s, i);
    } else {
      hide T.Apply, T.Enabled, T.Good, Total, Needed;
    }
  }

  /** A submission's step changes its own entry and the counters, and may send. */
  lemma GrowShape(m: Pool, s: Step)
    requires Ready(m) && Enabled(m, s) && (s.GrowTo? || s.GrowBy?)
    ensures var q := Next(m, s);
            && s.i < |m.tasks| == |q.tasks| && q.tasks == m.tasks[s.i := q.tasks[s.i]]
            && q.slotsClosed == m.slotsClosed && q.budgetClosed == m.budgetClosed && q.signals == m.signals && q.live == m.live
            && q.workers == m.workers && q.queue == m.queue + SentBy(m, s)
  {
    hide T.Apply, T.Enabled, T.Good, Total, Needed;
  }

  lemma SlotShape(m: Pool, s: Step)
    requires Ready(m) && Enabled(m, s) && (s.Submit? || s.TrySlot? || s.Unpark?)
    ensures var q := Next(m, s);
            && s.i < |m.tasks| == |q.tasks| && q.tasks == m.tasks[s.i := q.tasks[s.i]]
            && q.slotsClosed == m.slotsClosed && q.budgetClosed == m.budgetClosed && q.signals == m.signals && q.live == m.live
            && q.workers == m.workers && q.queue == m.queue + SentBy(m, s)
  {
    hide T.Apply, T.Enabled, T.Good, Total, Needed;
  }

  lemma LeaverShape(m: Pool, s: Step)
    requires Ready(m) && Enabled(m, s) && (s.Quit? || s.GiveUp? || s.Pay? || s.Send?)
    ensures var q := Next(m, s);
            && s.i < |m.tasks| == |q.tasks| && q.tasks == m.tasks[s.i := q.tasks[s.i]]
            && q.slotsClosed == m.slotsClosed && q.budgetClosed == m.budgetClosed && q.signals == m.signals && q.live == m.live
            && q.workers == m.workers && q.queue == m.queue + SentBy(m, s)
  {
    hide T.Apply, T.Enabled, T.Good, Total, Needed;
  }

  lemma TaskShape(m: Pool, s: Step)
    requires Ready(m) && Enabled(m, s) && ByTask(s)
    ensures var q := Next(m, s);
            && (!s.Arrive? ==> s.i < |m.tasks| == |q.tasks| && q.tasks == m.tasks[s.i := q.tasks[s.i]])
            && (s.Arrive? ==> |q.tasks| == |m.tasks| + 1 && q.tasks[..|m.tasks|] == m.tasks)
            && q.slotsClosed == m.slotsClosed && q.budgetClosed == m.budgetClosed && q.signals == m.signals && q.live == m.live
            && q.workers == m.workers && q.queue == m.queue + SentBy(m, s)
  {
    if s.Arrive? {
      assert m.queue + [] == m.queue;
    } else {
      hide Enabled, Next, SentBy;
      if s.GrowTo? || s.GrowBy? {
        GrowShape(m, s);
      } else if s.Submit? || s.TrySlot? || s.Unpark? {
        SlotShape(m, s);
      } else {
        LeaverShape(m, s);
      }
    }
  }

  lemma OtherTasksStay(m: Pool, s: Step, i: nat)
    requires Ready(m) && Enabled(m, s) && i < |m.tasks| && ByTask(s) && (!s.Arrive? ==> s.i != i)
    ensures i < |Next(m, s).tasks| && Next(m, s).tasks[i] == m.tasks[i]
  {
    hide Enabled, Next, SentBy;
    TaskShape(m, s);
    assert s.Arrive? ==> Next(m, s).tasks[..|m.tasks|][i] == Next(m, s).tasks[i];
  }

  lemma NewOnesAreClean(m: Pool, s: Step, i: nat)
    requires Ready(m) && Enabled(m, s) && |m.tasks| <= i < |Next(m, s).tasks|
    ensures s.Arrive? && Next(m, s).tasks[i] == if m.budgetClosed then Left(false, Refused(Stopped)) else Reading(0, 0)
  {
    hide T.Apply, T.Enabled, T.Good, Total;
  }

  lemma GrowActs(m: Pool, s: Step, i: nat)
    requires Ready(m) && Enabled(m, s) && (s.GrowTo? || s.GrowBy?) && s.i == i && m.freeBytes >= 0
    ensures i < |m.tasks| && i < |Next(m, s).tasks| && !Marked(m.tasks[i]) && !Marked(Next(m, s).tasks[i])
    ensures !Saturates(Next(m, s).tasks[i]) && !Enters(Next(m, s).tasks[i])
    ensures Overdraws(Next(m, s).tasks[i]) <==> NoRoom(i)(m, s)
    ensures !FoundNone(i)(m, s) && !TimedOut(i)(m, s) && !WasSent(i)(m, s)
  {
    hide T.Apply, T.Enabled, T.Good, Total;
  }

  /** What the other steps make of the submission that acts. */
  lemma SlotActs(m: Pool, s: Step, i: nat)
    requires Ready(m) && Enabled(m, s) && (s.Submit? || s.TrySlot? || s.Unpark?) && s.i == i && i < |m.tasks|
    ensures i < |Next(m, s).tasks|
    ensures Marked(Next(m, s).tasks[i]) <==> Marked(m.tasks[i]) || FoundNone(i)(m, s)
    ensures Saturates(Next(m, s).tasks[i]) <==> Saturates(m.tasks[i]) || TimedOut(i)(m, s)
    ensures Overdraws(Next(m, s).tasks[i]) <==> Overdraws(m.tasks[i])
    ensures Enters(Next(m, s).tasks[i]) <==> Enters(m.tasks[i]) || WasSent(i)(m, s)
    ensures !NoRoom(i)(m, s)
  {
    hide T.Apply, T.Enabled, T.Good, Total, Needed;
  }

  lemma LeaverActs(m: Pool, s: Step, i: nat)
    requires Ready(m) && Enabled(m, s) && (s.Quit? || s.GiveUp? || s.Pay? || s.Send?) && s.i == i && i < |m.tasks|
    ensures i < |Next(m, s).tasks|
    ensures Marked(Next(m, s).tasks[i]) <==> Marked(m.tasks[i]) || FoundNone(i)(m, s)
    ensures Saturates(Next(m, s).tasks[i]) <==> Saturates(m.tasks[i]) || TimedOut(i)(m, s)
    ensures Overdraws(Next(m, s).tasks[i]) <==> Overdraws(m.tasks[i])
    ensures Enters(Next(m, s).tasks[i]) <==> Enters(m.tasks[i]) || WasSent(i)(m, s)
    ensures !NoRoom(i)(m, s)
  {
    hide T.Apply, T.Enabled, T.Good, Total, Needed;
  }

  lemma MustExist(m: Pool, s: Step, i: nat)
    requires Enabled(m, s)
    ensures FoundNone(i)(m, s) || TimedOut(i)(m, s) || NoRoom(i)(m, s) || WasSent(i)(m, s) ==>
              i < |m.tasks| && ByTask(s) && !s.Arrive? && s.i == i
  {
  }

  lemma FateOfActor(m: Pool, s: Step, i: nat)
    requires Inv(m) && Ready(m) && Enabled(m, s) && i < |m.tasks| && ByTask(s) && !s.Arrive? && s.i == i
    ensures Has(Next(m, s), i, Marked) <==> Has(m, i, Marked) || FoundNone(i)(m, s)
    ensures Has(Next(m, s), i, Saturates) <==> Has(m, i, Saturates) || TimedOut(i)(m, s)
    ensures Has(Next(m, s), i, Overdraws) <==> Has(m, i, Overdraws) || NoRoom(i)(m, s)
    ensures Has(Next(m, s), i, Enters) <==> Has(m, i, Enters) || WasSent(i)(m, s)
  {
    assert m.freeBytes >= 0;
    hide Inv, Enabled, Next, NoRoom, FoundNone, TimedOut, WasSent, Saturates, Overdraws, Enters, Marked;
    if s.GrowTo? || s.GrowBy? {
      GrowActs(m, s, i);
      GrowReads(m, s, i);
    } else if s.Submit? || s.TrySlot? || s.Unpark? {
      SlotActs(m, s, i);
    } else {
      LeaverActs(m, s, i);
    }
  }

  /** What becomes of submission `i` in one step, and why. */
  lemma StepFate(m: Pool, s: Step, i: nat)
    requires Inv(m) && Ready(m) && Enabled(m, s)
    ensures Has(Next(m, s), i, Marked) <==> Has(m, i, Marked) || FoundNone(i)(m, s)
    ensures Has(Next(m, s), i, Saturates) <==> Has(m, i, Saturates) || TimedOut(i)(m, s)
    ensures Has(Next(m, s), i, Overdraws) <==> Has(m, i, Overdraws) || NoRoom(i)(m, s)
    ensures Has(Next(m, s), i, Enters) <==> Has(m, i, Enters) || WasSent(i)(m, s)
  {
    hide Inv, Enabled, Next, NoRoom, FoundNone, TimedOut, WasSent, Saturates, Overdraws, Enters, Marked;
    if i < |m.tasks| && ByTask(s) && !s.Arrive? && s.i == i {
      FateOfActor(m, s, i);
    } else {
      MustExist(m, s, i);
      if i < |m.tasks| {
        OthersStay(m, s, i);
      } else if i < |Next(m, s).tasks| {
        NewOnesAreClean(m, s, i);
        CleanTasks(Next(m, s).tasks[i]);
      }
    }
  }

  lemma GrowReads(m: Pool, s: Step, i: nat)
    requires Enabled(m, s) && (s.GrowTo? || s.GrowBy?) && s.i == i
    ensures i < |m.tasks| && !Saturates(m.tasks[i]) && !Overdraws(m.tasks[i])
    ensures !Enters(m.tasks[i])
  {
  }

  lemma CleanTasks(t: Task)
    requires t == Left(false, Refused(Stopped)) || t == Reading(0, 0)
    ensures !Marked(t) && !Enters(t) && !Saturates(t) && !Overdraws(t)
  {
  }

  lemma AllFates(i: nat)
    ensures ComesFrom(i, Marked, FoundNone(i))
    ensures ComesFrom(i, Saturates, TimedOut(i))
    ensures ComesFrom(i, Overdraws, NoRoom(i))
    ensures ComesFrom(i, Enters, WasSent(i))
  {
    hide Inv, Enabled, Next, NoRoom, FoundNone, TimedOut, WasSent;
    forall m, s | Inv(m) && Ready(m) && Enabled(m, s)
      ensures Has(Next(m, s), i, Marked) <==> Has(m, i, Marked) || FoundNone(i)(m, s)
      ensures Has(Next(m, s), i, Saturates) <==>
                Has(m, i, Saturates) || TimedOut(i)(m, s)
      ensures Has(Next(m, s), i, Overdraws) <==>
              Has(m, i, Overdraws) || NoRoom(i)(m, s)
      ensures Has(Next(m, s), i, Enters) <==> Has(m, i, Enters) || WasSent(i)(m, s)
    {
      StepFate(m, s, i);
    }
  }

  /** The fate of every submission of every run. It is marked as having met a full queue exactly if it looked for a
      slot while none was free; refused as saturated exactly if its time was up; over budget exactly if its body was
      more than it held and what was free; and in the queue, or through it, exactly if it was sent in time. */
  lemma FateOfASubmission(p: Pool, steps: seq<Step>, q: Pool, i: nat)
    requires Initial(p) && Run(p, steps, q)
    ensures Has(q, i, Marked) <==> Happened(p, steps, FoundNone(i))
    ensures Has(q, i, Saturates) <==> Happened(p, steps, TimedOut(i))
    ensures Has(q, i, Overdraws) <==> Happened(p, steps, NoRoom(i))
    ensures Has(q, i, Enters) <==> Happened(p, steps, WasSent(i))
  {
    hide Run, Initial, ComesFrom, Happened, Has;
    AllFates(i);
    ExactlyThose(p, steps, q, i, Marked, FoundNone(i));
    ExactlyThose(p, steps, q, i, Saturates, TimedOut(i));
    ExactlyThose(p, steps, q, i, Overdraws, NoRoom(i));
    ExactlyThose(p, steps, q, i, Enters, WasSent(i));
  }

  lemma {:induction false} RunExtend(p: Pool, steps: seq<Step>, m: Pool, s: Step)
    requires Inv(p) && Run(p, steps, m) && Enabled(m, s) && Ready(m)
    ensures Run(p, steps + [s], Next(m, s))
    decreases |steps|
  {
    hide Inv, Enabled, Next;
    InvReady(p);
    if |steps| == 0 {
      assert (steps + [s])[1..] == [];
      assert Run(Next(m, s), [], Next(m, s));
    } else {
      NextInv(p, steps[0]);
      RunExtend(Next(p, steps[0]), steps[1..], m, s);
      assert (steps + [s])[1..] == steps[1..] + [s];
    }
  }

  /** Whoever looks for a slot, or waits for one, while one is free holds it afterwards. */
  lemma FreeSlotIsTaken(p: Pool, steps: seq<Step>, m: Pool, s: Step)
    requires Initial(p) && Run(p, steps, m) && Enabled(m, s) && (s.TrySlot? || s.Unpark?)
    requires !m.slotsClosed && m.freeSlots > 0
    ensures Ready(m) && Run(p, steps + [s], Next(m, s))
    ensures Next(m, s).freeSlots == m.freeSlots - 1 && s.i < |Next(m, s).tasks| && Next(m, s).tasks[s.i].Slotted?
  {
    hide Run, Inv, Initial, Enabled, Next, Ready;
    InitialInv(p);
    EveryRunBalances(p, steps, m);
    InvReady(m);
    RunExtend(p, steps, m, s);
    SlotGoes(m, s);
  }

  lemma SlotGoes(m: Pool, s: Step)
    requires Ready(m) && Enabled(m, s) && (s.TrySlot? || s.Unpark?) && !m.slotsClosed && m.freeSlots > 0
    ensures Next(m, s).freeSlots == m.freeSlots - 1 && s.i < |Next(m, s).tasks| && Next(m, s).tasks[s.i].Slotted?
  {
    hide T.Apply, T.Enabled, T.Good, Total, Needed;
  }

  lemma {:induction false} CountIsSize(tasks: seq<Task>, f: Task -> bool)
    ensures Count(tasks, f) == |set i | 0 <= i < |tasks| && f(tasks[i])|
    decreases |tasks|
  {
    if |tasks| > 0 {
      var n := |tasks| - 1;
      CountIsSize(tasks[..n], f);
      var before := set i | 0 <= i < n && f(tasks[..n][i]);
      var all := set i | 0 <= i < |tasks| && f(tasks[i]);
      assert all == if f(tasks[n]) then before + {n} else before;
    }
  }

  lemma SameCount(tasks: seq<Task>, f: Task -> bool, chosen: set<int>)
    requires chosen == set i | 0 <= i < |tasks| && f(tasks[i])
    ensures Count(tasks, f) == |chosen|
  {
    CountIsSize(tasks, f);
  }

  /** What the two counters mean once everybody is in or gone: failed_on_full_queue is the number of submissions that
      found no slot and were never sent, and shed the number of those that timed out or had no room for their body. */
  lemma CountersAtRest(p: Pool, steps: seq<Step>, q: Pool)
    requires Initial(p) && Run(p, steps, q) && forall t | t in q.tasks :: Idle(t)
    ensures q.failed == |set i: int | 0 <= i < |q.tasks| && Happened(p, steps, FoundNone(i)) && !Happened(p, steps, WasSent(i))|
    ensures q.shed == |set i: int | 0 <= i < |q.tasks| && (Happened(p, steps, TimedOut(i)) || Happened(p, steps, NoRoom(i)))|
  {
    hide Inv, Initial, Run, Happened, Count;
    InitialInv(p);
    EveryRunBalances(p, steps, q);
    PendingExplained(q);
    forall i: nat | i < |q.tasks|
      ensures FailedOnFullQueue(q.tasks[i]) <==> Happened(p, steps, FoundNone(i)) && !Happened(p, steps, WasSent(i))
      ensures ShedForRoom(q.tasks[i]) <==> Happened(p, steps, TimedOut(i)) || Happened(p, steps, NoRoom(i))
    {
      RestingFate(p, steps, q, i);
    }
    SameCount(q.tasks, FailedOnFullQueue,
              set i: int | 0 <= i < |q.tasks| && Happened(p, steps, FoundNone(i)) && !Happened(p, steps, WasSent(i)));
    SameCount(q.tasks, ShedForRoom,
              set i: int | 0 <= i < |q.tasks| && (Happened(p, steps, TimedOut(i)) || Happened(p, steps, NoRoom(i))));
  }

  lemma RestingFate(p: Pool, steps: seq<Step>, q: Pool, i: nat)
    requires Initial(p) && Run(p, steps, q) && i < |q.tasks| && Idle(q.tasks[i])
    ensures FailedOnFullQueue(q.tasks[i]) <==> Happened(p, steps, FoundNone(i)) && !Happened(p, steps, WasSent(i))
    ensures ShedForRoom(q.tasks[i]) <==> Happened(p, steps, TimedOut(i)) || Happened(p, steps, NoRoom(i))
  {
    hide Initial, Run, Happened;
    FateOfASubmission(p, steps, q, i);
  }

  /** The bodies that a run sends, and the ones that its threads take off the queue, in order. */
  ghost function Sents(p: Pool, steps: seq<Step>): seq<Entry>
    decreases |steps|
  {
    if |steps| == 0 || !Enabled(p, steps[0]) || !Ready(p) then []
    else SentBy(p, steps[0]) + Sents(Next(p, steps[0]), steps[1..])
  }

  ghost function Takens(p: Pool, steps: seq<Step>): seq<Entry>
    decreases |steps|
  {
    if |steps| == 0 || !Enabled(p, steps[0]) || !Ready(p) then []
    else TakenBy(p, steps[0]) + Takens(Next(p, steps[0]), steps[1..])
  }

  function SentBy(p: Pool, s: Step): seq<Entry>
    requires Enabled(p, s)
  {
    if s.Send? && p.live then [Entry(p.tasks[s.i].held, p.tasks[s.i].stored)] else []
  }

  /** What the thread has on its way after the step. */
  ghost function TakenBy(p: Pool, s: Step): seq<Entry>
    requires Enabled(p, s) && Ready(p)
  {
    if s.Dequeue? && Next(p, s).workers[s.j].transit.Dequeued? then [Next(p, s).workers[s.j].transit.entry] else []
  }

  lemma TaskQueueMoves(p: Pool, s: Step)
    requires Enabled(p, s) && Ready(p) && ByTask(s)
    ensures Next(p, s).live ==> p.live && p.queue + SentBy(p, s) == TakenBy(p, s) + Next(p, s).queue
    ensures !Next(p, s).live ==> Next(p, s).queue == [] || Next(p, s).queue == p.queue
    ensures !Next(p, s).live ==> SentBy(p, s) == TakenBy(p, s) == []
  {
    TaskShape(p, s);
    hide Enabled, Next;
    assert [] + Next(p, s).queue == Next(p, s).queue;
  }

  lemma QueueMoves(p: Pool, s: Step)
    requires Enabled(p, s) && Ready(p)
    ensures Next(p, s).live ==> p.live && p.queue + SentBy(p, s) == TakenBy(p, s) + Next(p, s).queue
    ensures !Next(p, s).live ==> Next(p, s).queue == [] || Next(p, s).queue == p.queue
    ensures !Next(p, s).live ==> SentBy(p, s) == TakenBy(p, s) == []
  {
    if ByTask(s) {
      TaskQueueMoves(p, s);
    } else {
      hide T.Apply, T.Enabled, T.Good, Total, Needed;
    }
  }

  lemma {:induction false} DeadSendsNothing(p: Pool, steps: seq<Step>)
    requires Inv(p) && !p.live
    ensures Sents(p, steps) == []
    decreases |steps|
  {
    if |steps| > 0 && Enabled(p, steps[0]) && Ready(p) {
      NextInv(p, steps[0]);
      QueueMoves(p, steps[0]);
      hide Inv, Enabled, Next, SentBy, TakenBy;
      DeadSendsNothing(Next(p, steps[0]), steps[1..]);
    }
  }

  /** The queue is first in, first out: what the threads took is the beginning of what was queued and sent, and as
      long as the queue lives the rest of it is what is still queued. */
  lemma {:induction false} FirstInFirstOut(p: Pool, steps: seq<Step>, q: Pool)
    requires Inv(p) && Run(p, steps, q)
    ensures Takens(p, steps) <= p.queue + Sents(p, steps)
    ensures q.live ==> p.live && p.queue + Sents(p, steps) == Takens(p, steps) + q.queue
    decreases |steps|
  {
    if |steps| > 0 {
      InvReady(p);
      NextInv(p, steps[0]);
      var m := Next(p, steps[0]);
      DeadIsEmpty(m);
      hide Inv, Enabled, Next, SentBy, TakenBy;
      FirstInFirstOut(m, steps[1..], q);
      QueueMoves(p, steps[0]);
      if m.live {
        Moved(p.queue, SentBy(p, steps[0]), TakenBy(p, steps[0]), m.queue, Sents(m, steps[1..]), Takens(m, steps[1..]), q.queue);
      } else {
        DeadSendsNothing(m, steps[1..]);
      }
    }
  }

  lemma DeadIsEmpty(p: Pool)
    requires Inv(p)
    ensures !p.live ==> p.queue == []
  {
  }

  lemma Moved(queue: seq<Entry>, sent: seq<Entry>, taken: seq<Entry>, left: seq<Entry>, more: seq<Entry>,
              gone: seq<Entry>, rest: seq<Entry>)
    requires queue + sent == taken + left && gone <= left + more
    ensures taken + gone <= queue + (sent + more)
    ensures left + more == gone + rest ==> queue + (sent + more) == (taken + gone) + rest
  {
    assert queue + (sent + more) == (queue + sent) + more == (taken + left) + more == taken + (left + more);
    assert left + more == gone + (left + more)[|gone|..];
    assert taken + (gone + (left + more)[|gone|..]) == (taken + gone) + (left + more)[|gone|..];
    assert taken + (gone + rest) == (taken + gone) + rest;
  }

  /** How a body's reservation grows: not at all where it is enough, by what is missing where that is free, and
      otherwise the request is refused; one body reserves 64 MiB at most. */
  lemma GrowthIsExact(m: Pool, s: Step)
    requires Inv(m) && Ready(m) && Enabled(m, s) && (s.GrowTo? || s.GrowBy?)
    ensures var t := m.tasks[s.i];
            var want := Min(if s.GrowTo? then s.bytes else t.held + s.bytes, 64 * 1024 * 1024);
            var stored := if s.GrowTo? then s.bytes else t.stored + s.bytes;
            var q := Next(m, s);
            && s.i < |q.tasks|
            && if want <= t.held then q.tasks[s.i] == Reading(t.held, stored) && q.freeBytes == m.freeBytes
               else if m.budgetClosed then q.tasks[s.i].Leaving? && q.tasks[s.i].why == Refused(Intakes.Stopped)
               else if want - t.held > m.freeBytes then q.tasks[s.i].Leaving? && q.tasks[s.i].why == Refused(Intakes.OverBudget)
               else q.tasks[s.i] == Reading(want, stored) && q.freeBytes == m.freeBytes - (want - t.held)
  {
    assert m.freeBytes >= 0;
    hide Inv, T.Apply, T.Enabled, T.Good, Total;
  }

  lemma FlagsMove(m: Pool, s: Step)
    requires Ready(m) && Enabled(m, s)
    ensures Next(m, s).slotsClosed <==> m.slotsClosed || s.CloseSlots?
    ensures Next(m, s).budgetClosed <==> m.budgetClosed || s.CloseBudget?
    ensures Next(m, s).signals.stopping <==> m.signals.stopping || s.Stop?
    ensures Next(m, s).signals.closed <==> m.signals.closed || s.SendersGone?
    ensures Next(m, s).live <==> m.live && !s.DestroyQueue?
  {
    if ByTask(s) {
      TaskShape(m, s);
      hide Enabled, Next;
    } else {
      hide T.Apply, T.Enabled, T.Good, Total, Needed;
    }
  }

  lemma InSteps(steps: seq<Step>, s: Step)
    requires |steps| > 0
    ensures s in steps <==> s == steps[0] || s in steps[1..]
  {
    assert steps == [steps[0]] + steps[1..];
  }

  /** What is closed, and whether the queue lives, is what the steps of the run have closed and destroyed. */
  lemma {:induction false} FlagsOfARun(p: Pool, steps: seq<Step>, q: Pool)
    requires Inv(p) && Run(p, steps, q)
    ensures q.slotsClosed <==> p.slotsClosed || CloseSlots in steps
    ensures q.budgetClosed <==> p.budgetClosed || CloseBudget in steps
    ensures q.signals.stopping <==> p.signals.stopping || Step.Stop in steps
    ensures q.signals.closed <==> p.signals.closed || SendersGone in steps
    ensures q.live <==> p.live && DestroyQueue !in steps
    decreases |steps|
  {
    if |steps| > 0 {
      hide Inv, Enabled, Next, Ready;
      InvReady(p);
      NextInv(p, steps[0]);
      FlagsMove(p, steps[0]);
      FlagsOfARun(Next(p, steps[0]), steps[1..], q);
      InSteps(steps, CloseSlots);
      InSteps(steps, CloseBudget);
      InSteps(steps, Step.Stop);
      InSteps(steps, SendersGone);
      InSteps(steps, DestroyQueue);
    }
  }

  predicate Stops(t: Task)
  {
    (t.Leaving? || t.Left?) && t.why == Refused(Intakes.Stopped)
  }

  /** It came upon what was closed already: the budget, when it arrived or needed more of it, the slots, when it
      looked or waited for one, or the queue. */
  function CameLate(i: nat): Moment
  {
    (m: Pool, s: Step) =>
      || (s.Arrive? && i == |m.tasks| && m.budgetClosed)
      || (Announced(m, s, i).Some? && m.budgetClosed && Min(Announced(m, s, i).value, 64 * 1024 * 1024) > m.tasks[i].held)
      || ((s == TrySlot(i) || (s.GiveUp? && s.i == i)) && m.slotsClosed)
      || (s == Send(i) && !m.live)
  }

  lemma GrowStops(m: Pool, s: Step, i: nat)
    requires Ready(m) && Enabled(m, s) && (s.GrowTo? || s.GrowBy?) && s.i == i && m.freeBytes >= 0
    ensures i < |m.tasks| && i < |Next(m, s).tasks|
    ensures Stops(Next(m, s).tasks[i]) <==> Stops(m.tasks[i]) || CameLate(i)(m, s)
  {
    hide T.Apply, T.Enabled, T.Good, Total;
  }

  lemma SlotStops(m: Pool, s: Step, i: nat)
    requires s.Submit? || s.TrySlot? || s.Unpark? || s.Quit? || s.GiveUp? || s.Pay? || s.Send?
    requires Ready(m) && Enabled(m, s) && i < |m.tasks| && s.i == i && m.freeBytes >= 0
    ensures i < |Next(m, s).tasks| && (Stops(Next(m, s).tasks[i]) <==> Stops(m.tasks[i]) || CameLate(i)(m, s))
  {
    hide T.Apply, T.Enabled, T.Good, Total, Needed, Grow;
  }

  lemma OnlyActorsComeLate(m: Pool, s: Step, i: nat)
    requires Enabled(m, s) && CameLate(i)(m, s)
    ensures (s.Arrive? && i == |m.tasks|) || (i < |m.tasks| && ByTask(s) && !s.Arrive? && s.i == i)
  {
  }

  lemma NewcomerStops(m: Pool, s: Step, i: nat)
    requires Ready(m) && Enabled(m, s) && s.Arrive?
    ensures i == |m.tasks| ==> i < |Next(m, s).tasks| && (Stops(Next(m, s).tasks[i]) <==> CameLate(i)(m, s))
    ensures |Next(m, s).tasks| == |m.tasks| + 1
  {
  }

  lemma StoppedFate(m: Pool, s: Step, i: nat)
    requires Inv(m) && Ready(m) && Enabled(m, s)
    ensures Has(Next(m, s), i, Stops) <==> Has(m, i, Stops) || CameLate(i)(m, s)
  {
    assert m.freeBytes >= 0;
    hide Inv, Enabled, Next, CameLate, Stops;
    if CameLate(i)(m, s) { OnlyActorsComeLate(m, s, i); }
    if i < |m.tasks| && ByTask(s) && !s.Arrive? && s.i == i {
      if s.GrowTo? || s.GrowBy? {
        GrowStops(m, s, i);
      } else {
        SlotStops(m, s, i);
      }
    } else if i < |m.tasks| {
      OthersStay(m, s, i);
    } else if s.Arrive? {
      NewcomerStops(m, s, i);
    } else if i < |Next(m, s).tasks| {
      NewOnesAreClean(m, s, i);
    }
  }

  /** A submission is refused as stopped exactly if it came upon something closed. */
  lemma StoppedExactly(p: Pool, steps: seq<Step>, q: Pool, i: nat)
    requires Initial(p) && Run(p, steps, q)
    ensures Has(q, i, Stops) <==> Happened(p, steps, CameLate(i))
  {
    hide Inv, Initial, Run, Happened, Enabled, Next, CameLate, Stops, Has;
    forall m, s | Inv(m) && Ready(m) && Enabled(m, s)
      ensures Has(Next(m, s), i, Stops) <==> Has(m, i, Stops) || CameLate(i)(m, s)
    {
      StoppedFate(m, s, i);
    }
    ExactlyThose(p, steps, q, i, Stops, CameLate(i));
  }
}
