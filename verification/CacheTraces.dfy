/** Whole runs of cache operations: the shortcut against a store that sweeps every time, and the budget. */
module CacheTraces {
  import opened Basics
  import opened CacheSpec

  /** One operation under the lock. A room or a put reads its clock there; a revalidation brings an older one. */
  datatype Op =
    | Take(path: Path)
    | Revalidate(path: Path, meta: Meta, now: Time)
    | Room(path: Path, body: nat, now: Time)
    | Put(path: Path, entry: Entry)

  function ClockAfter(clock: Time, op: Op): Time
  {
    match op
    case Room(_, _, now) => now
    case Put(_, entry) => entry.checked
    case _ => clock
  }

  /** One operation of the store, with or without the shortcut. Only a room request is answered. */
  ghost predicate Steps(fast: bool, s: Store, op: Op, answer: bool, t: Store)
  {
    match op
    case Take(path) => answer && t == Without(s, path)
    case Revalidate(path, meta, now) => answer && t == Revalidated(s, path, meta, now)
    case Room(path, body, now) => Made(fast, s, path, body, now, answer, t)
    case Put(path, entry) => PutBy(fast, s, path, entry, answer, t)
  }

  ghost predicate Made(fast: bool, s: Store, path: Path, body: nat, now: Time, ok: bool, t: Store)
  {
    if fast then MadeRoom(s, path, body, now, ok, t) else MadeRoomSlowly(s, path, body, now, ok, t)
  }

  ghost predicate PutBy(fast: bool, s: Store, path: Path, entry: Entry, ok: bool, t: Store)
  {
    exists room :: Made(fast, s, path, |entry.body|, entry.checked, ok, room)
                   && t == if ok then Inserted(room, path, entry) else room
  }

  ghost predicate Run(fast: bool, s: Store, ops: seq<Op>, answers: seq<bool>, t: Store)
    decreases |ops|
  {
    if |ops| == 0 then |answers| == 0 && t == s
    else |answers| == |ops| && exists m :: Continues(fast, s, ops, answers, m, t)
  }

  ghost predicate Continues(fast: bool, s: Store, ops: seq<Op>, answers: seq<bool>, m: Store, t: Store)
    requires |ops| > 0 && |answers| == |ops|
    decreases |ops|, 0
  {
    Steps(fast, s, ops[0], answers[0], m) && Run(fast, m, ops[1..], answers[1..], t)
  }

  /** The clock that is read under the lock never runs backwards. */
  predicate Rising(clock: Time, ops: seq<Op>)
    decreases |ops|
  {
    |ops| == 0 || (clock <= ClockAfter(clock, ops[0]) && Rising(ClockAfter(clock, ops[0]), ops[1..]))
  }

  predicate Same(s: Store, u: Store)
  {
    s.entries == u.entries && s.bytes == u.bytes
  }

  lemma StepValid(s: Store, op: Op, clock: Time, answer: bool, t: Store)
    requires Valid(s, clock) && clock <= ClockAfter(clock, op) && Steps(true, s, op, answer, t)
    ensures Valid(t, ClockAfter(clock, op))
  {
    match op {
      case Take(path) => WithoutValid(s, path, clock);
      case Revalidate(path, meta, now) => RevalidatedValid(s, path, meta, now, clock);
      case Room(path, body, now) => RoomValid(s, path, body, clock, now, answer, t);
      case Put(path, entry) =>
        var room :| Made(true, s, path, |entry.body|, entry.checked, answer, room)
                    && t == if answer then Inserted(room, path, entry) else room;
        RoomValid(s, path, |entry.body|, clock, entry.checked, answer, room);
        if answer {
          InsertedValid(room, path, entry, entry.checked);
        }
    }
  }

  lemma PutRefines(s: Store, u: Store, clock: Time, path: Path, entry: Entry, a: bool, t: Store, b: bool, v: Store)
    requires Valid(s, clock) && Same(s, u)
    requires PutBy(true, s, path, entry, a, t) && PutBy(false, u, path, entry, b, v)
    ensures a == b && Same(t, v)
  {
    hide MadeRoom, MadeRoomSlowly;
    var room :| Made(true, s, path, |entry.body|, entry.checked, a, room)
                && t == if a then Inserted(room, path, entry) else room;
    var slow :| Made(false, u, path, |entry.body|, entry.checked, b, slow)
                && v == if b then Inserted(slow, path, entry) else slow;
    ShortcutRefines(s, u, clock, path, |entry.body|, entry.checked, a, room, b, slow);
  }

  lemma StepRefines(s: Store, u: Store, op: Op, clock: Time, a: bool, t: Store, b: bool, v: Store)
    requires Valid(s, clock) && Same(s, u)
    requires Steps(true, s, op, a, t) && Steps(false, u, op, b, v)
    ensures a == b && Same(t, v)
  {
    match op {
      case Take(path) =>
      case Revalidate(path, meta, now) =>
      case Room(path, body, now) => ShortcutRefines(s, u, clock, path, body, now, a, t, b, v);
      case Put(path, entry) => PutRefines(s, u, clock, path, entry, a, t, b, v);
    }
  }

  /** Over every run of operations the cache with the shortcut answers and holds what a cache that sweeps
      whenever a body does not fit answers and holds. */
  lemma {:induction false} RunsAgree(s: Store, u: Store, clock: Time, ops: seq<Op>,
                                     a: seq<bool>, t: Store, b: seq<bool>, v: Store)
    requires Valid(s, clock) && Same(s, u) && Rising(clock, ops)
    requires Run(true, s, ops, a, t) && Run(false, u, ops, b, v)
    ensures a == b && Same(t, v)
    decreases |ops|
  {
    if |ops| > 0 {
      var m :| Continues(true, s, ops, a, m, t);
      var n :| Continues(false, u, ops, b, n, v);
      StepRefines(s, u, ops[0], clock, a[0], m, b[0], n);
      StepValid(s, ops[0], clock, a[0], m);
      RunsAgree(m, n, ClockAfter(clock, ops[0]), ops[1..], a[1..], t, b[1..], v);
      assert a == [a[0]] + a[1..] && b == [b[0]] + b[1..];
    }
  }

  /** Over every run the byte count is the cost of the resident entries, within the budget. */
  lemma {:induction false} EveryRunKeepsBudget(s: Store, clock: Time, ops: seq<Op>, answers: seq<bool>, t: Store)
    requires Valid(s, clock) && Rising(clock, ops) && Run(true, s, ops, answers, t)
    ensures 0 <= t.bytes <= MAX_TOTAL && t.bytes == Cost(t.entries)
    decreases |ops|
  {
    if |ops| > 0 {
      var m :| Continues(true, s, ops, answers, m, t);
      StepValid(s, ops[0], clock, answers[0], m);
      EveryRunKeepsBudget(m, ClockAfter(clock, ops[0]), ops[1..], answers[1..], t);
    }
  }
}
