/** Whole generations of a PHP thread: how many units it takes, when it drains, and what it counts as an error. */
module ThreadRuns {
  import opened Basics
  import opened Threads

  /** An action, and what the pool shows the thread at that moment. */
  datatype Act = Act(action: Action, shown: Signals)

  /** The flags of the pool stay once they are set. */
  predicate Rising(acts: seq<Act>)
  {
    forall k | 0 < k < |acts| :: Later(acts[k - 1].shown, acts[k].shown)
  }

  ghost predicate Goes(t: Thread, acts: seq<Act>, u: Thread)
    decreases |acts|
  {
    if |acts| == 0 then t == u
    else
      && Enabled(t, acts[0].action, acts[0].shown)
      && (Good(t, acts[0].shown) ==> Goes(Apply(t, acts[0].action, acts[0].shown), acts[1..], u))
  }

  function Count(acts: seq<Act>, f: Action -> bool): nat
  {
    if |acts| == 0 then 0 else (if f(acts[0].action) then 1 else 0) + Count(acts[1..], f)
  }

  predicate Pulls(a: Action)
  {
    a.PullUnit?
  }

  predicate Sheds(a: Action)
  {
    a.ShedHeld?
  }

  predicate Fails(a: Action)
  {
    a.Unhealthy?
  }

  /** The books of one generation: `pulls` units taken and `sheds` of them shed since it began with nothing in
      hand, and `failed` if it was found unhealthy. */
  predicate Books(t: Thread, max: nat, base: int, pulls: int, sheds: int, failed: bool)
  {
    && t.quota.max == max
    && t.handled == base + t.generation + sheds && t.pulled == base + pulls
    && (max > 0 ==> t.generation + InHand(t) <= max)
    && (t.quota.draining <==> failed || (max > 0 && t.generation == max))
    && (!t.quota.draining ==> max > 0 ==> t.quota.served == t.generation)
  }

  lemma BeginBooks(t: Thread, max: nat, g: Signals)
    requires Good(t, g) && Enabled(t, Begin(max), g)
    ensures var u := Apply(t, Begin(max), g);
            Books(u, max, u.handled, 0, 0, false) && u.phase == Down && InHand(u) == 0
  {
    ApplyGood(t, Begin(max), g);
  }

  lemma PhaseBooks(t: Thread, a: Action, g: Signals, max: nat, base: int, pulls: int, sheds: int, failed: bool)
    requires Good(t, g) && Enabled(t, a, g) && Books(t, max, base, pulls, sheds, failed)
    requires a.CycleStart? || a.CycleEnd? || a.EndGeneration? || a.Unhealthy? || a.Recycle? || a.Reclaim?
    ensures Books(Apply(t, a, g), max, base, pulls, sheds, failed || a.Unhealthy?)
  {
  }

  lemma PullBooks(t: Thread, a: Action, g: Signals, max: nat, base: int, pulls: int, sheds: int, failed: bool)
    requires Good(t, g) && Enabled(t, a, g) && Books(t, max, base, pulls, sheds, failed)
    requires a.PullDrained? || a.PullStopped? || a.PullStart? || a.PullStartToShed? || a.PullUnit? || a.PullNothing? || a.PullClosed?
    ensures Books(Apply(t, a, g), max, base, pulls + (if a.PullUnit? then 1 else 0), sheds, failed)
  {
  }

  lemma UnitBooks(t: Thread, a: Action, g: Signals, max: nat, base: int, pulls: int, sheds: int, failed: bool)
    requires Good(t, g) && Enabled(t, a, g) && Books(t, max, base, pulls, sheds, failed)
    requires a.ShedHeld? || a.HandleHeld? || a.AttachHeld?
    ensures Books(Apply(t, a, g), max, base, pulls, sheds + (if a.ShedHeld? then 1 else 0), failed)
  {
  }

  lemma BoxBooks(t: Thread, a: Action, g: Signals, max: nat, base: int, pulls: int, sheds: int, failed: bool)
    requires Good(t, g) && Enabled(t, a, g) && Books(t, max, base, pulls, sheds, failed) && (a.SettleBox? || a.FreeObject?)
    ensures Books(Apply(t, a, g), max, base, pulls, sheds, failed)
  {
  }

  lemma StepBooks(t: Thread, a: Action, g: Signals, max: nat, base: int, pulls: int, sheds: int, failed: bool)
    requires Good(t, g) && Enabled(t, a, g) && Books(t, max, base, pulls, sheds, failed) && !a.Begin?
    ensures Books(Apply(t, a, g), max, base, pulls + (if a.PullUnit? then 1 else 0), sheds + (if a.ShedHeld? then 1 else 0),
                  failed || a.Unhealthy?)
  {
    hide Good, Enabled, Apply, Books;
    if a.CycleStart? || a.CycleEnd? || a.EndGeneration? || a.Unhealthy? || a.Recycle? || a.Reclaim? {
      PhaseBooks(t, a, g, max, base, pulls, sheds, failed);
    } else if a.SettleBox? || a.FreeObject? {
      BoxBooks(t, a, g, max, base, pulls, sheds, failed);
    } else if a.ShedHeld? || a.HandleHeld? || a.AttachHeld? {
      UnitBooks(t, a, g, max, base, pulls, sheds, failed);
    } else {
      PullBooks(t, a, g, max, base, pulls, sheds, failed);
    }
  }

  lemma RisingTail(acts: seq<Act>)
    requires |acts| > 0 && Rising(acts)
    ensures Rising(acts[1..]) && (|acts| > 1 ==> Later(acts[0].shown, acts[1..][0].shown))
  {
    forall k | 0 < k < |acts| - 1 ensures Later(acts[1..][k - 1].shown, acts[1..][k].shown) {
      assert Later(acts[k].shown, acts[k + 1].shown);
    }
    assert |acts| > 1 ==> Later(acts[0].shown, acts[1].shown);
  }

  lemma {:induction false} RunBooks(t: Thread, acts: seq<Act>, u: Thread, now: Signals, max: nat, base: int, pulls: int,
                                    sheds: int, failed: bool)
    requires Rising(acts) && Goes(t, acts, u) && forall a | a in acts :: !a.action.Begin?
    requires Good(t, now) && (|acts| > 0 ==> Later(now, acts[0].shown))
    requires Books(t, max, base, pulls, sheds, failed)
    ensures Books(u, max, base, pulls + Count(acts, Pulls), sheds + Count(acts, Sheds), failed || Count(acts, Fails) > 0)
    ensures Good(u, if |acts| == 0 then now else acts[|acts| - 1].shown)
    decreases |acts|
  {
    if |acts| > 0 {
      hide Good, Enabled, Apply, Books, Later, Rising;
      var a, g := acts[0].action, acts[0].shown;
      LaterGood(t, now, g);
      ApplyGood(t, a, g);
      StepBooks(t, a, g, max, base, pulls, sheds, failed);
      RisingTail(acts);
      RunBooks(Apply(t, a, g), acts[1..], u, g, max, base, pulls + (if a.PullUnit? then 1 else 0),
               sheds + (if a.ShedHeld? then 1 else 0), failed || a.Unhealthy?);
    }
  }

  /** One generation, told from what the thread did since it began: with a quota it takes no more units than that,
      those aside whose client had left; it drains exactly once so many have an outcome, or it was found unhealthy; and a
      draining generation shows it. */
  lemma GenerationKeepsQuota(t: Thread, max: nat, acts: seq<Act>, u: Thread)
    requires |acts| > 0 && acts[0].action == Begin(max) && forall k | 0 < k < |acts| :: !acts[k].action.Begin?
    requires Rising(acts) && Good(t, acts[0].shown) && Goes(t, acts, u)
    ensures max > 0 ==> Count(acts, Pulls) - Count(acts, Sheds) <= max
    ensures u.quota.draining <==>
              Count(acts, Fails) > 0 || (max > 0 && Count(acts, Pulls) - Count(acts, Sheds) - InHand(u) == max)
    ensures u.phase != Off ==>
              var g := acts[|acts| - 1].shown;
              && (u.quota.draining ==> u.draining && u.slot == SlotDraining)
              && (u.draining ==> u.quota.draining || g.stopping || g.closed)
  {
    hide Enabled, Apply, Later, Books, Good, Rising, InHand, Count;
    var g := acts[0].shown;
    FirstAct(t, acts, u);
    var begun := Apply(t, Begin(max), g);
    BeginBooks(t, max, g);
    ApplyGood(t, Begin(max), g);
    RisingTail(acts);
    CountTail(acts);
    RunBooks(begun, acts[1..], u, g, max, begun.handled, 0, 0, false);
    ReadBooks(u, acts[|acts| - 1].shown, max, begun.handled, Count(acts, Pulls), Count(acts, Sheds), Count(acts, Fails) > 0);
  }

  lemma FirstAct(t: Thread, acts: seq<Act>, u: Thread)
    requires |acts| > 0 && Good(t, acts[0].shown) && Goes(t, acts, u)
    ensures Enabled(t, acts[0].action, acts[0].shown) && Goes(Apply(t, acts[0].action, acts[0].shown), acts[1..], u)
  {
  }

  lemma CountTail(acts: seq<Act>)
    requires |acts| > 0 && acts[0].action.Begin? && forall k | 0 < k < |acts| :: !acts[k].action.Begin?
    ensures Count(acts, Pulls) == Count(acts[1..], Pulls) && Count(acts, Sheds) == Count(acts[1..], Sheds)
    ensures Count(acts, Fails) == Count(acts[1..], Fails)
    ensures forall a | a in acts[1..] :: !a.action.Begin?
  {
    forall a | a in acts[1..] ensures !a.action.Begin? {
      var k :| 0 <= k < |acts| - 1 && acts[1..][k] == a;
      assert acts[k + 1] == a;
    }
  }

  lemma ReadBooks(u: Thread, g: Signals, max: nat, base: int, pulls: int, sheds: int, failed: bool)
    requires Good(u, g) && Books(u, max, base, pulls, sheds, failed)
    ensures max > 0 ==> pulls - sheds <= max
    ensures u.quota.draining <==> failed || (max > 0 && pulls - sheds - InHand(u) == max)
    ensures u.phase != Off ==>
              && (u.quota.draining ==> u.draining && u.slot == SlotDraining)
              && (u.draining ==> u.quota.draining || g.stopping || g.closed)
  {
  }

  lemma BoxErrors(t: Thread, a: Action, g: Signals)
    requires Good(t, g) && Enabled(t, a, g)
    requires a.Begin? || a.CycleStart? || a.SettleBox? || a.FreeObject? || a.Reclaim?
    ensures var u := Apply(t, a, g);
            && t.handled <= u.handled <= t.handled + 1
            && u.errors == t.errors + (if u.handled == t.handled || a == HandleHeld(false) || (a.SettleBox? && !a.errored) then 0 else 1)
            && u.recycles == t.recycles + (if a.Recycle? then 1 else 0)
  {
    hide Shown, WithinQuota, Tick;
    TickCounts();
  }

  /** A unit that gets its outcome counts as an error unless PHP answered it without one. */
  lemma ErrorsAreCounted(t: Thread, a: Action, g: Signals)
    requires Good(t, g) && Enabled(t, a, g)
    ensures var u := Apply(t, a, g);
            && t.handled <= u.handled <= t.handled + 1
            && u.errors == t.errors + (if u.handled == t.handled || a == HandleHeld(false) || (a.SettleBox? && !a.errored) then 0 else 1)
            && u.recycles == t.recycles + (if a.Recycle? then 1 else 0)
  {
    if a.Begin? || a.CycleStart? || a.SettleBox? || a.FreeObject? || a.Reclaim? {
      BoxErrors(t, a, g);
    } else {
      hide Shown, WithinQuota, Tick, Discipline;
      TickCounts();
    }
  }

  lemma TickCounts()
    ensures forall t {:trigger Tick(t)} :: var u := Tick(t);
              u.handled == t.handled && u.errors == t.errors && u.recycles == t.recycles && u.boxes == t.boxes && u.unit == t.unit
  {
  }

  /** Inside a cycle the slot tells what the thread is doing: waiting shows idle, or draining; working shows active. */
  predicate Tells(t: Thread)
  {
    t.phase == Up ==>
      && (t.hand.Waiting? ==> t.slot == if t.draining then SlotDraining else SlotIdle)
      && (t.hand == Holding ==> t.slot == SlotActive)
  }

  lemma SlotTells(t: Thread, a: Action, g: Signals)
    requires Good(t, g) && Enabled(t, a, g) && Tells(t)
    ensures Tells(Apply(t, a, g))
  {
  }
}
