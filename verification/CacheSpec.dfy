/** The file cache as a value: which entries are resident, what they cost, and what each operation does
    to them. Times are nanoseconds of a clock that never runs backwards. */
module CacheSpec {
  import opened Basics

  type Path = string

  type Time = nat

  const MAX_FILE := 256 * 1024
  const MAX_TOTAL := 16 * 1024 * 1024
  const TTL := 1_000_000_000
  const ENTRY_OVERHEAD := 256

  datatype Meta = Meta(isDir: bool, modified: Option<nat>, len: nat)

  datatype Entry = Entry(body: Bytes, meta: Meta, checked: Time)

  type Entries = map<Path, Entry>

  datatype Store = Store(entries: Entries, bytes: int, nextExpiry: Option<Time>)

  /** The validators that a client sees come from these two values. */
  predicate SameFile(a: Meta, b: Meta)
  {
    a.modified == b.modified && a.len == b.len
  }

  function Footprint(path: Path, body: nat): nat
  {
    body + |path| + ENTRY_OVERHEAD
  }

  /** A time that lies ahead counts as now. */
  predicate IsFresh(e: Entry, now: Time)
  {
    Max(now - e.checked, 0) < TTL
  }

  function Fresh(s: Store, path: Path, now: Time): Option<Entry>
  {
    if path in s.entries && IsFresh(s.entries[path], now) then Some(s.entries[path]) else None
  }

  function Reclaimed(s: Store, path: Path): nat
  {
    if path in s.entries then Footprint(path, |s.entries[path].body|) else 0
  }

  predicate Fits(s: Store, path: Path, body: nat)
  {
    s.bytes - Reclaimed(s, path) + Footprint(path, body) <= MAX_TOTAL
  }

  function Without(s: Store, path: Path): Store
  {
    s.(entries := s.entries - {path}, bytes := s.bytes - Reclaimed(s, path))
  }

  ghost function Pick(m: Entries): Path
    requires |m| > 0
    ensures Pick(m) in m
  {
    assert m.Keys != {};
    var p :| p in m.Keys; p
  }

  /** What the resident entries cost together. */
  ghost function Cost(m: Entries): nat
    decreases |m|
  {
    if |m| == 0 then 0
    else
      var p := Pick(m);
      Shrinks(m, p);
      Footprint(p, |m[p].body|) + Cost(m - {p})
  }

  lemma Shrinks(m: Entries, p: Path)
    requires p in m
    ensures |m - {p}| == |m| - 1
  {
    assert (m - {p}).Keys == m.Keys - {p};
    assert |(m - {p}).Keys| == |m.Keys| - 1;
  }

  lemma {:induction false} CostRemove(m: Entries, p: Path)
    requires p in m
    ensures Cost(m) == Footprint(p, |m[p].body|) + Cost(m - {p})
    decreases |m|
  {
    var q := Pick(m);
    Shrinks(m, q);
    if p != q {
      CostRemove(m - {q}, p);
      Shrinks(m, p);
      CostRemove(m - {p}, q);
      assert m - {q} - {p} == m - {p} - {q};
    }
  }

  lemma CostPut(m: Entries, p: Path, e: Entry)
    ensures Cost(m[p := e]) == Footprint(p, |e.body|) + Cost(m - {p})
  {
    CostRemove(m[p := e], p);
    assert m[p := e] - {p} == m - {p};
  }

  lemma CostAbsent(m: Entries, p: Path)
    requires p !in m
    ensures m - {p} == m
  {
  }

  /** The entries that a stat or fill confirmed within the last second. */
  function Sweep(m: Entries, now: Time): Entries
  {
    map p | p in m && IsFresh(m[p], now) :: m[p]
  }

  /** The oldest confirmation among the entries, or `now` when none is older. */
  predicate IsOldest(t: int, m: Entries, now: Time)
  {
    && t <= now
    && (forall p | p in m :: t <= m[p].checked)
    && (t == now || exists p | p in m :: m[p].checked == t)
  }

  lemma KeepsOldest(t: Time, m: Entries, p: Path, e: Entry, now: Time)
    requires IsOldest(t, m, now) && p !in m
    ensures IsOldest(Min(t, e.checked), m[p := e], now)
  {
    var n := m[p := e];
    if e.checked < t {
      assert n[p].checked == e.checked;
    } else if t != now {
      var q :| q in m && m[q].checked == t;
      assert n[q].checked == t;
    }
  }

  ghost predicate Swept(s: Store, now: Time, t: Store)
  {
    && t.entries == Sweep(s.entries, now)
    && t.bytes == s.bytes - (Cost(s.entries) - Cost(t.entries))
    && t.nextExpiry.Some? && IsOldest(t.nextExpiry.value - TTL, t.entries, now)
  }

  /** Room for a body: a full cache sweeps, but not before an entry can have expired. */
  ghost predicate MadeRoom(s: Store, path: Path, body: nat, now: Time, ok: bool, t: Store)
  {
    if Fits(s, path, body) then ok && t == s
    else if s.nextExpiry.Some? && now < s.nextExpiry.value then !ok && t == s
    else Swept(s, now, t) && ok == Fits(t, path, body)
  }

  /** The same without the shortcut. */
  ghost predicate MadeRoomSlowly(s: Store, path: Path, body: nat, now: Time, ok: bool, t: Store)
  {
    if Fits(s, path, body) then ok && t == s
    else Swept(s, now, t) && ok == Fits(t, path, body)
  }

  function Revalidated(s: Store, path: Path, meta: Meta, now: Time): Store
  {
    if path !in s.entries then s
    else if SameFile(s.entries[path].meta, meta) then
      s.(entries := s.entries[path := s.entries[path].(checked := now)],
         nextExpiry := if s.nextExpiry.Some? then Some(Min(s.nextExpiry.value, now + TTL)) else None)
    else Without(s, path)
  }

  function Inserted(s: Store, path: Path, e: Entry): Store
  {
    var t := Without(s, path);
    t.(entries := t.entries[path := e], bytes := t.bytes + Footprint(path, |e.body|))
  }

  /** A put makes room before anything else; without room the entry that is there stays. */
  ghost predicate PutSpec(s: Store, path: Path, e: Entry, ok: bool, t: Store)
  {
    exists room :: PutVia(s, path, e, ok, t, room)
  }

  ghost predicate PutVia(s: Store, path: Path, e: Entry, ok: bool, t: Store, room: Store)
  {
    MadeRoom(s, path, |e.body|, e.checked, ok, room) && t == if ok then Inserted(room, path, e) else room
  }

  /** The invariant, at a moment when the latest clock read under the lock was `clock`. */
  ghost predicate Valid(s: Store, clock: Time)
  {
    && s.bytes == Cost(s.entries) <= MAX_TOTAL
    && (s.nextExpiry.Some? ==>
          && s.nextExpiry.value <= clock + TTL
          && forall p | p in s.entries :: s.nextExpiry.value <= s.entries[p].checked + TTL)
  }

  lemma WithoutValid(s: Store, path: Path, clock: Time)
    requires Valid(s, clock)
    ensures Valid(Without(s, path), clock)
    ensures Reclaimed(s, path) <= s.bytes
  {
    if path in s.entries {
      CostRemove(s.entries, path);
    } else {
      CostAbsent(s.entries, path);
    }
  }

  lemma {:induction false} CostSub(m: Entries, n: Entries)
    requires forall p | p in n :: p in m && n[p] == m[p]
    ensures Cost(n) <= Cost(m)
    decreases |m|
  {
    if p :| p in n {
      CostRemove(n, p);
      CostRemove(m, p);
      Shrinks(m, p);
      CostSub(m - {p}, n - {p});
    } else {
      assert |n.Keys| == 0;
    }
  }

  lemma SweptValid(s: Store, clock: Time, now: Time, t: Store)
    requires Valid(s, clock) && Swept(s, now, t)
    ensures Valid(t, now)
  {
    CostSub(s.entries, t.entries);
  }

  lemma RevalidatedValid(s: Store, path: Path, meta: Meta, now: Time, clock: Time)
    requires Valid(s, clock)
    ensures Valid(Revalidated(s, path, meta, now), clock)
  {
    WithoutValid(s, path, clock);
    if path in s.entries {
      CostRemove(s.entries, path);
      CostPut(s.entries, path, s.entries[path].(checked := now));
    }
  }

  lemma InsertedValid(s: Store, path: Path, e: Entry, clock: Time)
    requires Valid(s, clock) && Fits(s, path, |e.body|) && clock <= e.checked
    ensures Valid(Inserted(s, path, e), e.checked)
  {
    WithoutValid(s, path, clock);
    CostPut(Without(s, path).entries, path, e);
    CostAbsent(Without(s, path).entries, path);
  }

  lemma RoomValid(s: Store, path: Path, body: nat, clock: Time, now: Time, ok: bool, t: Store)
    requires Valid(s, clock) && clock <= now && MadeRoom(s, path, body, now, ok, t)
    ensures Valid(t, now) && (ok ==> Fits(t, path, body))
    ensures forall p | p in t.entries :: p in s.entries && t.entries[p] == s.entries[p]
  {
    if !Fits(s, path, body) && !(s.nextExpiry.Some? && now < s.nextExpiry.value) {
      SweptValid(s, clock, now, t);
    }
  }

  /** While an entry cannot have expired, sweeping changes nothing. */
  lemma SweepNothing(s: Store, clock: Time, now: Time)
    requires Valid(s, clock) && s.nextExpiry.Some? && now < s.nextExpiry.value
    ensures Sweep(s.entries, now) == s.entries
  {
  }

  /** The shortcut gives the same answer and leaves the same entries as sweeping every time. */
  lemma ShortcutRefines(s: Store, u: Store, clock: Time, path: Path, body: nat, now: Time,
                        ok: bool, t: Store, slowOk: bool, v: Store)
    requires Valid(s, clock) && u.entries == s.entries && u.bytes == s.bytes
    requires MadeRoom(s, path, body, now, ok, t) && MadeRoomSlowly(u, path, body, now, slowOk, v)
    ensures ok == slowOk && t.entries == v.entries && t.bytes == v.bytes
  {
    if s.nextExpiry.Some? && now < s.nextExpiry.value {
      SweepNothing(s, clock, now);
    }
  }

  /** A reload of the same size always fits. */
  lemma SameSizeFits(s: Store, clock: Time, path: Path, body: nat)
    requires Valid(s, clock) && path in s.entries && body <= |s.entries[path].body|
    ensures Fits(s, path, body)
  {
  }

  /** A refused entry leaves every fresh resident entry where it is, its own path included. */
  lemma RefusalKeepsFresh(s: Store, path: Path, body: nat, now: Time, t: Store, p: Path)
    requires MadeRoom(s, path, body, now, false, t)
    ensures Fresh(t, p, now) == Fresh(s, p, now)
  {
  }
}
