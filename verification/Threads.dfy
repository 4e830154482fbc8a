/** One PHP thread: its scoreboard slot, its request quota, and the units that receive() handed out.

    A unit that PHP holds lives in a box. `unit` is the cycle's slot for the one unit that has no
    outcome yet; an owned box belongs to a PHP object, which frees it when it goes. */
module Threads {
  import opened Basics

  datatype SlotState = SlotFree | SlotStarting | SlotIdle | SlotActive | SlotDraining

  datatype Event = Handled(errored: bool) | Shed | Recycled | Idle | Active | Draining | BootFailed

  datatype Quota = Quota(served: nat, max: nat, draining: bool, unhealthy: bool)

  datatype Box = Box(live: bool, owned: bool, settled: bool)

  /** A pull in progress remembers whether the intake was already closed and empty when it began. */
  datatype Hand = Empty | Waiting(closed: bool) | Holding

  /** Off is between generations, Down between two cycles of a generation, Up inside a cycle. */
  datatype Phase = Off | Down | Up

  datatype Thread = Thread(
    slot: SlotState,
    draining: bool,
    handled: nat,
    errors: nat,
    recycles: nat,
    quota: Quota,
    boxes: seq<Box>,
    unit: Option<nat>,
    received: bool,
    phase: Phase,
    hand: Hand,
    pulled: nat,
    generation: nat)

  /** A thread before its first generation. */
  predicate Starting(t: Thread)
  {
    |t.boxes| == 0 && t.unit.None? && t.phase == Off && t.hand == Empty && t.pulled == t.handled == 0 && !t.draining
  }

  function DrainingOr(t: Thread, state: SlotState): SlotState
  {
    if t.draining then SlotDraining else state
  }

  function Drain(t: Thread): Thread
  {
    t.(draining := true, slot := SlotDraining)
  }

  /** Counts a handled unit against the quota of the generation. */
  function Tick(t: Thread): Thread
  {
    var q := t.quota;
    if q.max == 0 || q.draining then t
    else if q.served + 1 == q.max then Drain(t.(quota := q.(served := q.served + 1, draining := true)))
    else t.(quota := q.(served := q.served + 1))
  }

  function Update(t: Thread, e: Event): Thread
  {
    match e
    case Handled(errored) =>
      Tick(t.(errors := t.errors + (if errored then 1 else 0), handled := t.handled + 1, generation := t.generation + 1))
    case Shed => t.(errors := t.errors + 1, handled := t.handled + 1)
    case Recycled => t.(recycles := t.recycles + 1)
    case Idle => t.(slot := DrainingOr(t, SlotIdle))
    case Active => t.(slot := SlotActive)
    case Draining => Drain(t)
    case BootFailed => t.(slot := DrainingOr(t, SlotStarting))
  }

  function ForgetHeld(t: Thread, i: nat): Thread
  {
    if t.unit == Some(i) then t.(unit := None) else t
  }

  /** Reclaims box `i`: the caller owns it and nobody reclaimed it before. */
  function Release(t: Thread, i: nat): Thread
    requires i < |t.boxes| && t.boxes[i].live
  {
    var u := ForgetHeld(t, i).(boxes := t.boxes[i := t.boxes[i].(live := false, owned := false)]);
    if t.boxes[i].settled then u else Update(u, Handled(true))
  }

  /** The outcome of box `i`, committed or discarded. */
  function Settle(t: Thread, i: nat, errored: bool): Thread
    requires i < |t.boxes|
  {
    if t.boxes[i].settled then t
    else Update(t.(boxes := t.boxes[i := t.boxes[i].(settled := true)]), Handled(errored))
  }

  predicate Reclaimable(t: Thread)
  {
    t.unit.Some? ==> t.unit.value < |t.boxes| && t.boxes[t.unit.value].live
  }

  function ReclaimCurrent(t: Thread): Thread
    requires Reclaimable(t)
  {
    if t.unit.None? then t else Release(t, t.unit.value)
  }

  function CycleReset(t: Thread): Thread
    requires Reclaimable(t)
  {
    ReclaimCurrent(t).(unit := None, received := false)
  }

  predicate Unsettled(t: Thread)
  {
    t.unit.Some? && t.unit.value < |t.boxes| && !t.boxes[t.unit.value].settled
  }

  function Attach(t: Thread): Thread
  {
    t.(boxes := t.boxes + [Box(true, true, false)], unit := Some(|t.boxes|), received := true, hand := Empty)
  }

  /** What the whole pool shows a thread: both flags stay once they are set. `closed` means that every
      sender is gone and the queue is empty. */
  datatype Signals = Signals(stopping: bool, closed: bool)

  datatype Action =
    | Begin(max: nat)
    | CycleStart
    | CycleEnd
    | EndGeneration
    | Unhealthy
    | PullDrained
    | PullStopped(shows: bool)
    | PullStart
    | PullStartToShed
    | PullUnit
    | PullNothing
    | PullClosed
    | ShedHeld
    | HandleHeld(errored: bool)
    | AttachHeld
    | SettleBox(index: nat, errored: bool)
    | FreeObject(index: nat)
    | Reclaim
    | Recycle

  /** When the code, or PHP, can do this. */
  predicate Enabled(t: Thread, a: Action, g: Signals)
  {
    match a
    case Begin(_) => t.phase == Off && t.hand == Empty
    case CycleStart => t.phase == Down && t.hand == Empty
    case CycleEnd => t.phase == Up && t.hand == Empty
    case EndGeneration => t.phase == Down && t.hand == Empty && t.unit.None?
    case Unhealthy => t.phase != Off && t.hand == Empty
    case PullDrained => t.phase != Off && t.hand == Empty && t.quota.draining
    case PullStopped(_) => t.phase != Off && t.hand == Empty && !t.quota.draining && g.stopping
    case PullStart => t.phase == Up && t.hand == Empty && !t.quota.draining && !g.stopping && !Unsettled(t)
    case PullStartToShed => t.phase == Down && t.hand == Empty && !t.quota.draining && !g.stopping && !t.received
    case PullUnit => t.hand.Waiting? && !t.hand.closed
    case PullNothing => t.hand.Waiting? && !t.hand.closed
    case PullClosed => t.hand.Waiting? && (g.stopping || g.closed)
    case ShedHeld => t.hand == Holding
    case HandleHeld(_) => t.hand == Holding && t.phase == Up
    case AttachHeld => t.hand == Holding && t.phase == Up
    case SettleBox(i, _) => t.phase == Up && t.hand == Empty && i < |t.boxes| && t.boxes[i].owned
    case FreeObject(i) => t.phase == Up && t.hand == Empty && i < |t.boxes| && t.boxes[i].owned
    case Reclaim => t.phase != Up && t.hand == Empty
    case Recycle => t.phase == Off && t.hand == Empty
  }

  function Show(t: Thread, e: Event): Thread
  {
    if t.phase == Up then Update(t, e) else t
  }

  function Apply(t: Thread, a: Action, g: Signals): Thread
    requires Enabled(t, a, g) && Good(t, g)
  {
    match a
    case Begin(max) =>
      CycleReset(Update(t.(draining := false), BootFailed)).(quota := Quota(0, max, false, false), generation := 0, phase := Down)
    case CycleStart => Update(CycleReset(t), BootFailed).(phase := Up)
    case CycleEnd => t.(phase := Down, boxes := seq(|t.boxes|, i requires 0 <= i < |t.boxes| => t.boxes[i].(owned := false)))
    case EndGeneration => Update(t, Draining).(phase := Off)
    case Unhealthy => Update(t.(quota := t.quota.(unhealthy := true, draining := true)), Draining)
    case PullDrained => Show(t, Idle)
    case PullStopped(shows) => if shows then Show(Show(t, Idle), Draining) else Show(t, Draining)
    case PullStart => Update(t, Idle).(hand := Waiting(g.closed))
    case PullStartToShed => t.(hand := Waiting(g.closed))
    case PullUnit => Show(t, Active).(hand := Holding, pulled := t.pulled + 1)
    case PullNothing => Show(t, Active).(hand := Empty)
    case PullClosed => Show(t, Draining).(hand := Empty)
    case ShedHeld => Update(t, Shed).(hand := Empty)
    case HandleHeld(errored) => Update(t, Handled(errored)).(hand := Empty, received := true)
    case AttachHeld => Attach(t)
    case SettleBox(i, errored) => Settle(t, i, errored)
    case FreeObject(i) => Release(t, i)
    case Reclaim => ReclaimCurrent(t)
    case Recycle => Update(t, Recycled)
  }

  /** The number of units that the thread pulled and has not counted yet. */
  function InHand(t: Thread): nat
  {
    (if t.hand == Holding then 1 else 0) + (if Unsettled(t) then 1 else 0)
  }

  /** Exactly one place refers to a unit without an outcome, and a box is reclaimed at most once. */
  predicate Discipline(t: Thread)
  {
    && Reclaimable(t)
    && (forall i | 0 <= i < |t.boxes| ::
          && (t.boxes[i].owned ==> t.boxes[i].live && t.phase == Up)
          && (t.boxes[i].live && !t.boxes[i].settled ==> t.unit == Some(i)))
    && (t.unit.Some? ==> t.received && t.phase != Off)
    && (t.hand != Empty ==> t.phase != Off && !Unsettled(t))
  }

  /** A draining slot never shows idle or active, and every reason to drain lasts. */
  predicate Shown(t: Thread, g: Signals)
  {
    && (t.draining ==> t.slot != SlotIdle && t.slot != SlotActive)
    && (t.phase != Off && t.draining ==> t.quota.draining || g.stopping || g.closed)
    && (t.phase != Off && t.quota.draining ==> t.draining && t.slot == SlotDraining)
    && (t.hand.Waiting? ==> (t.draining ==> t.hand.closed) && (t.hand.closed ==> g.closed) && !t.quota.draining)
  }

  /** The generation stays within its quota, with the unit in hand counted in. */
  predicate WithinQuota(t: Thread)
  {
    t.phase != Off && t.quota.max > 0 ==>
      && t.quota.served <= t.generation
      && (!t.quota.draining ==> t.quota.served == t.generation < t.quota.max)
      && t.generation + InHand(t) <= t.quota.max
  }

  predicate Good(t: Thread, g: Signals)
  {
    && Discipline(t) && Shown(t, g) && WithinQuota(t)
    && t.pulled == t.handled + InHand(t)
  }

  predicate Later(g: Signals, h: Signals)
  {
    (g.stopping ==> h.stopping) && (g.closed ==> h.closed)
  }

  lemma StartingGood(t: Thread, g: Signals)
    requires Starting(t)
    ensures Good(t, g)
  {
  }

  lemma LaterGood(t: Thread, g: Signals, h: Signals)
    requires Good(t, g) && Later(g, h)
    ensures Good(t, h)
  {
  }

  lemma ReleaseGood(t: Thread, i: nat, g: Signals)
    requires Good(t, g) && t.hand == Empty && i < |t.boxes| && t.boxes[i].live
    ensures Good(Release(t, i), g)
    ensures Release(t, i).phase == t.phase && Release(t, i).hand == Empty
    ensures t.unit == Some(i) ==> Release(t, i).unit.None?
    ensures t.unit.None? ==> Release(t, i).unit.None?
  {
  }

  lemma CycleResetGood(t: Thread, g: Signals)
    requires Good(t, g) && t.hand == Empty
    ensures Good(CycleReset(t), g) && CycleReset(t).unit.None?
    ensures Good(ReclaimCurrent(t), g)
    ensures CycleReset(t).phase == t.phase && CycleReset(t).hand == Empty
  {
    if t.unit.Some? {
      ReleaseGood(t, t.unit.value, g);
    }
  }

  lemma SettleGood(t: Thread, i: nat, errored: bool, g: Signals)
    requires Good(t, g) && t.hand == Empty && i < |t.boxes| && t.boxes[i].live
    ensures Good(Settle(t, i, errored), g)
  {
  }

  lemma PhaseGood(t: Thread, a: Action, g: Signals)
    requires Good(t, g) && Enabled(t, a, g)
    requires a.Begin? || a.CycleStart? || a.CycleEnd? || a.EndGeneration? || a.Unhealthy? || a.Recycle?
    ensures Good(Apply(t, a, g), g)
  {
    if t.hand == Empty {
      CycleResetGood(t, g);
    }
  }

  lemma PullBeginGood(t: Thread, a: Action, g: Signals)
    requires Good(t, g) && Enabled(t, a, g)
    requires a.PullDrained? || a.PullStopped? || a.PullStart? || a.PullStartToShed?
    ensures Good(Apply(t, a, g), g)
  {
  }

  lemma PullEndGood(t: Thread, a: Action, g: Signals)
    requires Good(t, g) && Enabled(t, a, g) && (a.PullUnit? || a.PullNothing? || a.PullClosed?)
    ensures Good(Apply(t, a, g), g)
  {
  }

  lemma PullGood(t: Thread, a: Action, g: Signals)
    requires Good(t, g) && Enabled(t, a, g)
    requires a.PullDrained? || a.PullStopped? || a.PullStart? || a.PullStartToShed?
             || a.PullUnit? || a.PullNothing? || a.PullClosed?
    ensures Good(Apply(t, a, g), g)
  {
    hide Good, Enabled, Apply;
    if a.PullUnit? || a.PullNothing? || a.PullClosed? {
      PullEndGood(t, a, g);
    } else {
      PullBeginGood(t, a, g);
    }
  }

  lemma HeldGood(t: Thread, a: Action, g: Signals)
    requires Good(t, g) && Enabled(t, a, g) && (a.ShedHeld? || a.HandleHeld? || a.AttachHeld?)
    ensures Good(Apply(t, a, g), g)
  {
  }

  /** Every step of a thread keeps the discipline, the accounting, the quota and the drain signal. */
  lemma ApplyGood(t: Thread, a: Action, g: Signals)
    requires Good(t, g) && Enabled(t, a, g)
    ensures Good(Apply(t, a, g), g)
  {
    match a
    case FreeObject(i) => ReleaseGood(t, i, g);
    case Reclaim => CycleResetGood(t, g);
    case SettleBox(i, errored) => SettleGood(t, i, errored, g);
    case ShedHeld => HeldGood(t, a, g);
    case HandleHeld(_) => HeldGood(t, a, g);
    case AttachHeld => HeldGood(t, a, g);
    case Begin(_) => PhaseGood(t, a, g);
    case CycleStart => PhaseGood(t, a, g);
    case CycleEnd => PhaseGood(t, a, g);
    case EndGeneration => PhaseGood(t, a, g);
    case Unhealthy => PhaseGood(t, a, g);
    case Recycle => PhaseGood(t, a, g);
    case _ => PullGood(t, a, g);
  }

  lemma UpdatePulls()
    ensures forall t, e {:trigger Update(t, e)} ::
              var u := Update(t, e); u.pulled == t.pulled && u.unit == t.unit && u.boxes == t.boxes
  {
  }

  /** Only a pull that finds a unit raises the number of pulled units. */
  lemma ApplyPulls(t: Thread, a: Action, g: Signals)
    requires Good(t, g) && Enabled(t, a, g)
    ensures Apply(t, a, g).pulled == t.pulled + (if a.PullUnit? then 1 else 0)
  {
    hide Shown, WithinQuota, Update;
    UpdatePulls();
  }

  /** The quota of a generation: the configured one plus a part that the thread's hash spreads. */
  function EffectiveQuota(max: u64, hash: u64): u64
  {
    if max == 0 then 0 else Min(U64 - 1, max + 1 + hash % Max(max / 2, 1))
  }

  /** No limit stays no limit; any other lies above the configured one by at most half of it. */
  lemma EffectiveQuotaBounds(max: u64, hash: u64)
    ensures var q := EffectiveQuota(max, hash);
            && (q == 0 <==> max == 0)
            && (max > 0 && q < U64 - 1 ==> max + 1 <= q <= max + Max(1, max / 2))
            && (q == U64 - 1 ==> max + Max(1, max / 2) >= U64 - 1)
  {
    if max > 0 {
      var n := Max(max / 2, 1);
      assert 0 <= hash % n < n;
    }
  }

  /** The hash spreads the quotas: below saturation every quota between the bounds is some thread's. */
  lemma EffectiveQuotaSpreads(max: u64, quota: u64)
    requires 0 < max && max + 1 <= quota <= max + Max(1, max / 2) && max + Max(1, max / 2) < U64 - 1
    ensures exists hash: u64 :: EffectiveQuota(max, hash) == quota
  {
    var hash: u64 := quota - max - 1;
    var n := Max(max / 2, 1);
    assert hash % n == hash;
    assert EffectiveQuota(max, hash) == quota;
  }
}
