/** The PHP thread as the program keeps it: thread-local cells that the scoreboard, the quota, release()
    and receive() update in place. */
module PhpThreads {
  import opened Basics
  import opened Threads

  /** What a pull finds on the intake. */
  datatype Find = Unit(cancelled: bool) | Nothing

  /** The number of units among the finds. */
  function Units(finds: seq<Find>): nat
  {
    if finds == [] then 0 else Units(finds[..|finds| - 1]) + (if finds[|finds| - 1].Unit? then 1 else 0)
  }

  datatype Pulled = PulledUnit(cancelled: bool) | PulledEmpty | PulledClosed

  /** Try and a zero timeout never wait; a wait first tries once with the timer of the last unit armed. */
  datatype RecvMode = Wait(zero: bool) | Try

  datatype Received = Busy | Received | NoWork | TimedOut | Closed

  class PhpThread {
    var slot: SlotState
    var draining: bool
    var handled: nat
    var errors: nat
    var recycles: nat
    var quota: Quota
    var boxes: seq<Box>
    var unit: Option<nat>
    var received: bool
    var phase: Phase
    var hand: Hand
    var pulled: nat
    var generation: nat

    ghost function View(): Thread
      reads this
    {
      Thread(slot, draining, handled, errors, recycles, quota, boxes, unit, received, phase, hand, pulled, generation)
    }

    method Tick()
      modifies this`slot, this`draining, this`handled, this`errors, this`recycles, this`quota, this`generation
      ensures View() == Threads.Tick(old(View()))
      decreases 1
    {
      if quota.max == 0 || quota.draining {
        return;
      }
      quota := quota.(served := quota.served + 1);
      if quota.served == quota.max {
        quota := quota.(draining := true);
        SbUpdate(Draining);
      }
    }

    method SbUpdate(e: Event)
      modifies this`slot, this`draining, this`handled, this`errors, this`recycles, this`quota, this`generation
      ensures View() == Update(old(View()), e)
      ensures e == Draining ==> quota == old(quota) && handled == old(handled) && errors == old(errors)
      decreases if e.Handled? then 2 else 0
    {
      hide Threads.Tick;
      match e
      case Handled(errored) =>
        if errored {
          errors := errors + 1;
        }
        handled := handled + 1;
        generation := generation + 1;
        Tick();
      case Shed =>
        errors := errors + 1;
        handled := handled + 1;
      case Recycled =>
        recycles := recycles + 1;
      case Idle =>
        slot := if draining then SlotDraining else SlotIdle;
      case Active =>
        slot := SlotActive;
      case Draining =>
        draining := true;
        slot := SlotDraining;
      case BootFailed =>
        slot := if draining then SlotDraining else SlotStarting;
    }

    method ForgetHeld(i: nat)
      modifies this`unit
      ensures View() == Threads.ForgetHeld(old(View()), i)
    {
      if unit == Some(i) {
        unit := None;
      }
    }

    method Release(i: nat)
      requires i < |boxes| && boxes[i].live
      modifies this
      ensures View() == Threads.Release(old(View()), i)
    {
      ForgetHeld(i);
      boxes := boxes[i := boxes[i].(live := false, owned := false)];
      if !boxes[i].settled {
        SbUpdate(Handled(true));
      }
    }

    method ReclaimCurrent()
      requires Reclaimable(View())
      modifies this
      ensures View() == Threads.ReclaimCurrent(old(View()))
    {
      if unit.Some? {
        Release(unit.value);
      }
    }

    method CycleReset()
      requires Reclaimable(View())
      modifies this
      ensures View() == Threads.CycleReset(old(View()))
    {
      ReclaimCurrent();
      unit := None;
      received := false;
    }

    method Settle(i: nat, errored: bool)
      requires i < |boxes|
      modifies this
      ensures View() == Threads.Settle(old(View()), i, errored)
    {
      if boxes[i].settled {
        return;
      }
      boxes := boxes[i := boxes[i].(settled := true)];
      SbUpdate(Handled(errored));
    }

    /** One pull inside a cycle. The slot shows the wait, and what came of it. */
    method Pull(waits: bool, find: Find, g: Signals) returns (p: Pulled)
      requires Good(View(), g) && phase == Up && hand == Empty && !Unsettled(View())
      modifies this
      ensures Good(View(), g) && phase == Up && boxes == old(boxes) && unit == old(unit) && handled == old(handled)
      ensures hand == if p.PulledUnit? then Holding else Empty
      ensures pulled == old(pulled) + (if p.PulledUnit? then 1 else 0)
      ensures p == if old(quota).draining || g.stopping || g.closed then PulledClosed
                   else if find.Unit? then PulledUnit(find.cancelled) else PulledEmpty
      ensures slot == if p.PulledClosed? then SlotDraining else SlotActive
      ensures quota == old(quota)
      ensures p.PulledClosed? ==> draining
    {
      hide Discipline, WithinQuota;
      ghost var before := View();
      if quota.draining {
        PullGood(before, PullDrained, g);
        SbUpdate(Idle);
        return PulledClosed;
      }
      if g.stopping {
        PullGood(before, Action.PullStopped(waits), g);
        if waits {
          SbUpdate(Idle);
        }
        SbUpdate(Draining);
        return PulledClosed;
      }
      p := PullFrom(find, g);
    }

    /** The pull itself, on an intake that is not stopping. */
    method PullFrom(find: Find, g: Signals) returns (p: Pulled)
      requires Good(View(), g) && phase == Up && hand == Empty && !Unsettled(View())
      requires !quota.draining && !g.stopping
      modifies this`slot, this`draining, this`handled, this`errors, this`recycles, this`quota, this`generation, this`hand, this`pulled
      ensures Good(View(), g) && handled == old(handled) && quota == old(quota)
      ensures hand == if p.PulledUnit? then Holding else Empty
      ensures pulled == old(pulled) + (if p.PulledUnit? then 1 else 0)
      ensures p == if g.closed then PulledClosed else if find.Unit? then PulledUnit(find.cancelled) else PulledEmpty
      ensures slot == if p.PulledClosed? then SlotDraining else SlotActive
      ensures p.PulledClosed? ==> draining
    {
      hide Discipline, Shown, WithinQuota;
      PullGood(View(), PullStart, g);
      SbUpdate(Idle);
      hand := Waiting(g.closed);
      ghost var during := View();
      if g.closed {
        PullGood(during, PullClosed, g);
        SbUpdate(Draining);
        hand := Empty;
        return PulledClosed;
      }
      p := Found(find, g);
    }

    /** What came of a wait on an intake that was not closed. */
    method Found(find: Find, g: Signals) returns (p: Pulled)
      requires Good(View(), g) && phase == Up && hand == Waiting(false)
      modifies this`slot, this`draining, this`handled, this`errors, this`recycles, this`quota, this`generation, this`hand, this`pulled
      ensures Good(View(), g) && handled == old(handled) && quota == old(quota)
      ensures hand == if p.PulledUnit? then Holding else Empty
      ensures pulled == old(pulled) + (if p.PulledUnit? then 1 else 0)
      ensures p == if find.Unit? then PulledUnit(find.cancelled) else PulledEmpty
      ensures slot == SlotActive
    {
      hide Discipline, Shown, WithinQuota;
      PullGood(View(), if find.Unit? then PullUnit else PullNothing, g);
      SbUpdate(Active);
      match find
      case Unit(cancelled) =>
        hand, pulled := Holding, pulled + 1;
        p := PulledUnit(cancelled);
      case Nothing =>
        hand := Empty;
        p := PulledEmpty;
    }

    /** Sheds a pulled unit whose client left, or attaches it to a new object. */
    method Admit(cancelled: bool, g: Signals)
      requires Good(View(), g) && phase == Up && hand == Holding
      modifies this
      ensures Good(View(), g) && phase == Up && hand == Empty && pulled == old(pulled)
      ensures cancelled ==> handled == old(handled) + 1 && boxes == old(boxes) && unit == old(unit) && !Unsettled(View())
      ensures !cancelled ==> handled == old(handled) && boxes == old(boxes) + [Box(true, true, false)] && unit == Some(|boxes| - 1)
      ensures quota == old(quota)
    {
      HeldGood(View(), if cancelled then ShedHeld else AttachHeld, g);
      if cancelled {
        SbUpdate(Shed);
        hand := Empty;
      } else {
        boxes := boxes + [Box(true, true, false)];
        unit, received, hand := Some(|boxes| - 1), true, Empty;
      }
    }

    /** The pull loop of receive(), with no unsettled unit in the way. `g(k)` is what the pool showed when the
        k-th pull was decided, and `pulls` counts the pulls. */
    method TakeUnit(mode: RecvMode, finds: seq<Find>, g: nat -> Signals)
      returns (r: Received, at: nat, skipped: nat, pulls: nat)
      requires Steady(g) && Good(View(), g(0)) && phase == Up && hand == Empty && !Unsettled(View())
      modifies this
      ensures pulls > 0 && Good(View(), g(pulls - 1)) && phase == Up && hand == Empty && r != Busy
      ensures r == Received ==> boxes == old(boxes) + [Box(true, true, false)] && unit == Some(|boxes| - 1)
      ensures r != Received ==> boxes == old(boxes) && unit == old(unit)
      ensures at <= |finds| && skipped <= at
      ensures r == Received ==> skipped < at && finds[at - 1] == Unit(false)
      ensures forall k | 0 <= k < at :: finds[k] == Unit(false) ==> r == Received && k == at - 1
      ensures Units(finds[..at]) == skipped + (if r == Received then 1 else 0)
      ensures pulled == old(pulled) + skipped + (if r == Received then 1 else 0)
      ensures handled == old(handled) + skipped
      ensures r == Closed ==> quota.draining || Ends(g(pulls - 1))
      ensures Ends(g(pulls - 1)) ==> r == Closed
      ensures old(quota).draining || Ends(g(0)) ==> r == Closed
      ensures old(quota).draining || Ends(g(0)) ==> at == 0
      ensures r == NoWork ==> mode.Try?
      ensures r == TimedOut ==> mode.Wait?
    {
      hide Good, Units, Later;
      UnitsNone(finds);
      skipped, at, pulls := 0, 0, 0;
      var armed := mode.Wait? && !mode.zero;
      while true
        invariant skipped <= at <= |finds|
        invariant Good(View(), g(pulls)) && phase == Up && hand == Empty && !Unsettled(View())
        invariant boxes == old(boxes) && unit == old(unit) && (at == 0 ==> quota.draining == old(quota).draining)
        invariant at > 0 ==> !old(quota).draining && !Ends(g(0))
        invariant Units(finds[..at]) == skipped && forall k | 0 <= k < at :: finds[k] != Unit(false)
        invariant pulled == old(pulled) + skipped && handled == old(handled) + skipped
        decreases |finds| - at, armed
      {
        var find := if at < |finds| then finds[at] else Nothing;
        var got := Pull(!armed && mode.Wait? && !mode.zero, find, g(pulls));
        LaterPulls(g, 0, pulls);
        if !got.PulledClosed? && at < |finds| {
          UnitsNext(finds, at);
          at := at + 1;
        }
        if got.PulledUnit? {
          Admit(got.cancelled, g(pulls));
          if !got.cancelled {
            return Received, at, skipped, pulls + 1;
          }
          skipped := skipped + 1;
        } else if armed {
          armed := false;
        } else {
          return if got.PulledClosed? then Closed else if mode.Try? then NoWork else TimedOut, at, skipped, pulls + 1;
        }
        LaterGood(View(), g(pulls), g(pulls + 1));
        pulls := pulls + 1;
      }
    }

    /** receive() and tryReceive(): `clientLeft` says whether the client of the held unit is gone, `finds`
        what the pulls find one after the other, until nothing is there any more, and `g` what the pool shows
        each of them. `at` of the finds were used, and `skipped` units among them had lost their client while
        they were queued. */
    method ReceiveInto(mode: RecvMode, clientLeft: bool, finds: seq<Find>, g: nat -> Signals)
      returns (r: Received, at: nat, skipped: nat, pulls: nat)
      requires Steady(g) && Good(View(), g(0)) && phase == Up && hand == Empty
      modifies this
      ensures Good(View(), g(if pulls == 0 then 0 else pulls - 1)) && phase == Up && hand == Empty
      ensures r == Busy <==> old(Unsettled(View())) && !clientLeft
      ensures r == Busy ==> View() == old(View()) && at == skipped == 0
      ensures r == Received ==> |boxes| == old(|boxes|) + 1
      ensures r == Received ==> unit == Some(|boxes| - 1) && boxes[|boxes| - 1] == Box(true, true, false)
      ensures r != Received ==> |boxes| == old(|boxes|) && unit == old(unit) && (r == Busy || !Unsettled(View()))
      ensures at <= |finds| && skipped <= at
      ensures r == Received ==> skipped < at && finds[at - 1] == Unit(false)
      ensures forall k | 0 <= k < at :: finds[k] == Unit(false) ==> r == Received && k == at - 1
      ensures Units(finds[..at]) == skipped + (if r == Received then 1 else 0)
      ensures pulled == old(pulled) + skipped + (if r == Received then 1 else 0)
      ensures handled == old(handled) + skipped + (if old(Unsettled(View())) && clientLeft then 1 else 0)
      ensures r == Closed ==> quota.draining || (pulls > 0 && Ends(g(pulls - 1)))
      ensures r != Busy && (old(quota).draining || Ends(g(0))) ==> r == Closed
      ensures r == NoWork ==> mode.Try?
      ensures r == TimedOut ==> mode.Wait?
    {
      hide Shown, WithinQuota;
      if unit.Some? && !boxes[unit.value].settled && clientLeft {
        SettleGood(View(), unit.value, true, g(0));
        Settle(unit.value, true);
      }
      if unit.Some? && !boxes[unit.value].settled {
        return Busy, 0, 0, 0;
      }
      r, at, skipped, pulls := TakeUnit(mode, finds, g);
    }
  }

  lemma UnitsNone(finds: seq<Find>)
    ensures Units(finds[..0]) == 0
  {
  }

  lemma UnitsNext(finds: seq<Find>, at: nat)
    requires at < |finds|
    ensures Units(finds[..at + 1]) == Units(finds[..at]) + (if finds[at].Unit? then 1 else 0)
  {
    assert finds[..at + 1][..at] == finds[..at];
  }

  /** The flags that the pool shows stay set. */
  ghost predicate Steady(g: nat -> Signals)
  {
    forall k: nat :: Later(g(k), g(k + 1))
  }

  predicate Ends(g: Signals)
  {
    g.stopping || g.closed
  }

  lemma LaterPulls(g: nat -> Signals, i: nat, k: nat)
    requires Steady(g) && i <= k
    ensures Later(g(i), g(k))
    decreases k - i
  {
    if i < k {
      LaterPulls(g, i, k - 1);
      assert Later(g(k - 1), g(k - 1 + 1));
    }
  }
}
