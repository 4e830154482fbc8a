/** The budget in bytes: what the resident bodies and paths take, counted without the program's own footprint. */
module CacheBudget {
  import opened Basics
  import opened CacheSpec
  import opened CacheTraces
  import CacheRuns

  ghost function BodyBytes(m: Entries): nat
    decreases |m|
  {
    if |m| == 0 then 0
    else
      var p := Pick(m);
      Shrinks(m, p);
      |m[p].body| + BodyBytes(m - {p})
  }

  ghost function PathBytes(m: Entries): nat
    decreases |m|
  {
    if |m| == 0 then 0
    else
      var p := Pick(m);
      Shrinks(m, p);
      |p| + PathBytes(m - {p})
  }

  /** Every body byte and every path byte counts, and 256 more for each entry. */
  ghost function Weight(m: Entries): nat
  {
    BodyBytes(m) + PathBytes(m) + 256 * |m|
  }

  lemma {:induction false} CostIsWeight(m: Entries)
    ensures Cost(m) == Weight(m)
    decreases |m|
  {
    if |m| > 0 {
      var p := Pick(m);
      Shrinks(m, p);
      CostIsWeight(m - {p});
    }
  }

  /** The body of any resident entry is among the bytes. */
  lemma {:induction false} BodyIsCounted(m: Entries, p: Path)
    requires p in m
    ensures BodyBytes(m) == |m[p].body| + BodyBytes(m - {p})
    decreases |m|
  {
    var q := Pick(m);
    Shrinks(m, q);
    if p != q {
      BodyIsCounted(m - {q}, p);
      Shrinks(m, p);
      BodyIsCounted(m - {p}, q);
      assert m - {q} - {p} == m - {p} - {q};
    }
  }

  /** Over every run of operations the byte count is the weight of the resident entries, and so their bodies never
      take more than 16 MiB. */
  lemma EveryRunBoundsBodies(s: Store, clock: Time, ops: seq<Op>, answers: seq<bool>, t: Store)
    requires Valid(s, clock) && Rising(clock, ops) && Run(true, s, ops, answers, t)
    ensures t.bytes == Weight(t.entries) && BodyBytes(t.entries) <= 16 * 1024 * 1024
  {
    EveryRunKeepsBudget(s, clock, ops, answers, t);
    CostIsWeight(t.entries);
  }

  /** The same for every interleaving of stats and fills. */
  lemma EveryInterleavingBoundsBodies(fs: CacheRuns.Fs, s: CacheRuns.Sys, actions: seq<CacheRuns.Action>, t: CacheRuns.Sys)
    requires CacheRuns.Identifies(fs) && CacheRuns.Steady(fs) && CacheRuns.SysInv(fs, s) && CacheRuns.Run(fs, s, actions, t)
    ensures t.store.bytes == Weight(t.store.entries) && BodyBytes(t.store.entries) <= 16 * 1024 * 1024
  {
    hide CacheRuns.Identifies, CacheRuns.Steady, CacheRuns.Run;
    CacheRuns.EveryRunCoherent(fs, s, actions, t);
    CostIsWeight(t.store.entries);
  }

  /** The entries that a put has to leave room beside: those confirmed within the last second, the path's own
      old one apart. */
  ghost function Others(m: Entries, path: Path, now: Time): Entries
  {
    map p | p in m && p != path && now < m[p].checked + 1_000_000_000 :: m[p]
  }

  lemma OthersAreSwept(m: Entries, path: Path, now: Time)
    ensures Others(m, path, now) == Sweep(m, now) - {path}
  {
  }

  lemma CostWithout(m: Entries, path: Path)
    ensures Cost(m - {path}) == Cost(m) - (if path in m then Footprint(path, |m[path].body|) else 0)
  {
    if path in m {
      CostRemove(m, path);
    } else {
      CostAbsent(m, path);
    }
  }

  /** A put, or a request for room, is refused exactly when the body does not fit beside the fresh entries of other
      paths, whatever stale entries there are and whichever way the room was looked for. */
  lemma RefusedExactlyWhenFull(s: Store, clock: Time, path: Path, body: nat, now: Time, ok: bool, t: Store)
    requires Valid(s, clock) && MadeRoom(s, path, body, now, ok, t)
    ensures ok <==> Weight(Others(s.entries, path, now)) + body + |path| + 256 <= 16 * 1024 * 1024
  {
    hide Cost;
    var others := Others(s.entries, path, now);
    OthersAreSwept(s.entries, path, now);
    CostIsWeight(others);
    CostWithout(s.entries, path);
    CostWithout(Sweep(s.entries, now), path);
    if Fits(s, path, body) {
      CostSub(s.entries - {path}, others);
    } else if s.nextExpiry.Some? && now < s.nextExpiry.value {
      SweepNothing(s, clock, now);
    } else {
      SweptCost(s, clock, now, t);
    }
  }

  lemma SweptCost(s: Store, clock: Time, now: Time, t: Store)
    requires Valid(s, clock) && Swept(s, now, t)
    ensures t.bytes == Cost(Sweep(s.entries, now)) && t.entries == Sweep(s.entries, now)
  {
  }

  /** What a put leaves behind: the new entry, if it was let in; and of the others, all the fresh ones as they were,
      and nothing that was not there. */
  lemma PutResult(s: Store, clock: Time, path: Path, e: Entry, ok: bool, t: Store)
    requires Valid(s, clock) && clock <= e.checked && PutSpec(s, path, e, ok, t)
    ensures ok <==> Weight(Others(s.entries, path, e.checked)) + |e.body| + |path| + 256 <= 16 * 1024 * 1024
    ensures ok ==> path in t.entries && t.entries[path] == e
    ensures forall p | p in t.entries && (p != path || !ok) :: p in s.entries && t.entries[p] == s.entries[p]
    ensures forall p | p in s.entries && (p != path || !ok) && e.checked < s.entries[p].checked + 1_000_000_000 ::
              p in t.entries && t.entries[p] == s.entries[p]
    ensures ok ==> forall now: Time | now < e.checked + 1_000_000_000 :: Fresh(t, path, now) == Some(e)
  {
    hide Cost;
    var room :| PutVia(s, path, e, ok, t, room);
    RefusedExactlyWhenFull(s, clock, path, |e.body|, e.checked, ok, room);
  }

  /** A stat that finds the entry's validators makes it fresh for one second from the stat's clock; one that does not
      removes the entry; and no other entry changes. */
  lemma RevalidateResult(s: Store, path: Path, meta: Meta, now: Time)
    requires path in s.entries
    ensures var t, e := Revalidated(s, path, meta, now), s.entries[path];
            if e.meta.modified == meta.modified && e.meta.len == meta.len then
              forall at: Time | at < now + 1_000_000_000 :: Fresh(t, path, at) == Some(e.(checked := now))
            else path !in t.entries
    ensures forall p | p != path :: (p in s.entries <==> p in Revalidated(s, path, meta, now).entries)
    ensures forall p | p in s.entries && p != path :: Revalidated(s, path, meta, now).entries[p] == s.entries[p]
  {
  }

  /** No body over 256 KiB is resident, or on its way in. */
  ghost predicate Small(s: CacheRuns.Sys)
  {
    && (forall p | p in s.store.entries :: |s.store.entries[p].body| <= 256 * 1024)
    && (forall k | k in s.tasks && (k.FillAdmitted? || k.FillRead?) :: k.meta.len <= 256 * 1024)
  }

  lemma TasksStaySmall(s: CacheRuns.Sys, i: nat, k: CacheRuns.Task)
    requires Small(s) && i < |s.tasks| && (k.FillAdmitted? || k.FillRead? ==> k.meta.len <= 256 * 1024)
    ensures Small(CacheRuns.Becomes(s, i, k))
  {
    forall x | x in CacheRuns.Becomes(s, i, k).tasks && (x.FillAdmitted? || x.FillRead?) ensures x.meta.len <= 256 * 1024 {
      assert x == k || x in s.tasks;
    }
  }

  lemma ActsSmall(fs: CacheRuns.Fs, s: CacheRuns.Sys, a: CacheRuns.Action, t: CacheRuns.Sys)
    requires Valid(s.store, s.clock) && Small(s) && CacheRuns.Acts(fs, s, a, t)
    ensures Small(t)
  {
    if a.Tick? || a.BeginStat? || a.BeginOpen? {
    } else {
      var k := s.tasks[a.i];
      TasksStaySmall(s, a.i, t.tasks[a.i]);
      if a.Admit? && k.meta.len <= MAX_FILE {
        RoomValid(s.store, k.path, k.meta.len, s.clock, s.clock, a.ok, t.store);
      } else if a.Keep? && t.store != Without(s.store, k.path) {
        PutResult(s.store, s.clock, k.path, Entry(k.body, k.meta, s.clock), a.ok, t.store);
      }
    }
  }

  /** Over every interleaving of stats and fills no body over 256 KiB becomes resident. */
  lemma {:induction false} EveryBodyIsSmall(fs: CacheRuns.Fs, s: CacheRuns.Sys, actions: seq<CacheRuns.Action>, t: CacheRuns.Sys)
    requires CacheRuns.Identifies(fs) && CacheRuns.Steady(fs) && CacheRuns.SysInv(fs, s) && Small(s)
    requires CacheRuns.Run(fs, s, actions, t)
    ensures Small(t)
    decreases |actions|
  {
    if |actions| > 0 {
      hide CacheRuns.Acts, CacheRuns.Identifies, CacheRuns.Steady, Small;
      var m :| CacheRuns.Acts(fs, s, actions[0], m) && CacheRuns.Run(fs, m, actions[1..], t);
      CacheRuns.ActsInv(fs, s, actions[0], m);
      ActsSmall(fs, s, actions[0], m);
      EveryBodyIsSmall(fs, m, actions[1..], t);
    }
  }
}
