/** The file cache as the program keeps it: one map, its byte count and the first possible expiry, all
    updated in place under the lock. */
module CacheStores {
  import opened Basics
  import opened CacheSpec

  /** What a sweep has not dropped when it still has `left` to look at. */
  function Remaining(before: Entries, left: set<Path>, now: Time): Entries
  {
    map p | p in before && (p in left || IsFresh(before[p], now)) :: before[p]
  }

  /** What it has looked at and kept. */
  function Seen(before: Entries, left: set<Path>, now: Time): Entries
  {
    map p | p in before && p !in left && IsFresh(before[p], now) :: before[p]
  }

  lemma NoneSeen(before: Entries, now: Time)
    ensures Remaining(before, before.Keys, now) == before
    ensures IsOldest(now, Seen(before, before.Keys, now), now)
  {
  }

  lemma AllSeen(before: Entries, now: Time)
    ensures Remaining(before, {}, now) == Sweep(before, now) == Seen(before, {}, now)
  {
  }

  lemma RemainingHas(before: Entries, left: set<Path>, path: Path, now: Time)
    requires path in left && path in before
    ensures path in Remaining(before, left, now) && Remaining(before, left, now)[path] == before[path]
  {
  }

  lemma KeepOne(before: Entries, left: set<Path>, path: Path, now: Time)
    requires path in left && path in before && IsFresh(before[path], now)
    ensures path !in Seen(before, left, now)
    ensures Seen(before, left - {path}, now) == Seen(before, left, now)[path := before[path]]
    ensures Remaining(before, left - {path}, now) == Remaining(before, left, now)
  {
  }

  lemma DropOne(before: Entries, left: set<Path>, path: Path, now: Time)
    requires path in left && path in before && !IsFresh(before[path], now)
    ensures Seen(before, left - {path}, now) == Seen(before, left, now)
    ensures Remaining(before, left - {path}, now) == Remaining(before, left, now) - {path}
  {
  }

  lemma PutEnds(s: Store, path: Path, e: Entry, ok: bool, room: Store, t: Store)
    requires MadeRoom(s, path, |e.body|, e.checked, ok, room)
    requires t == if ok then Inserted(room, path, e) else room
    ensures exists ok' :: PutSpec(s, path, e, ok', t)
  {
    assert PutVia(s, path, e, ok, t, room);
    assert PutSpec(s, path, e, ok, t);
  }

  class FileStore {
    var entries: Entries
    var bytes: int
    var nextExpiry: Option<Time>
    /** The latest clock that was read under the lock. */
    ghost var clock: Time

    ghost predicate Valid()
      reads this
    {
      CacheSpec.Valid(View(), clock)
    }

    ghost function View(): Store
      reads this
    {
      Store(entries, bytes, nextExpiry)
    }

    constructor ()
      ensures Valid() && View() == Store(map[], 0, None)
    {
      entries, bytes, nextExpiry, clock := map[], 0, None, 0;
    }

    method Fresh(path: Path, now: Time) returns (e: Option<Entry>)
      ensures e.Some? <==> path in entries && now < entries[path].checked + TTL
      ensures e.Some? ==> e.value == entries[path]
      ensures e == CacheSpec.Fresh(View(), path, now)
    {
      e := if path in entries && Max(now - entries[path].checked, 0) < TTL then Some(entries[path]) else None;
    }

    method Take(path: Path)
      requires Valid()
      modifies this`entries, this`bytes
      ensures Valid() && View() == Without(old(View()), path) && bytes >= 0
    {
      WithoutValid(View(), path, clock);
      if path in entries {
        bytes := bytes - Footprint(path, |entries[path].body|);
        entries := entries - {path};
      } else {
        CostAbsent(entries, path);
      }
    }

    method Fits(path: Path, body: nat) returns (fits: bool)
      requires Valid()
      ensures fits == CacheSpec.Fits(View(), path, body)
    {
      var reclaimed := if path in entries then Footprint(path, |entries[path].body|) else 0;
      WithoutValid(View(), path, clock);
      assert reclaimed <= bytes;
      fits := bytes - reclaimed + Footprint(path, body) <= MAX_TOTAL;
    }

    /** Keeps the fresh entries; `freed` is what the others cost, and `oldest` the oldest time kept. */
    method Retain(now: Time) returns (freed: int, oldest: Time)
      modifies this`entries
      ensures entries == Sweep(old(entries), now)
      ensures freed == Cost(old(entries)) - Cost(entries)
      ensures IsOldest(oldest, entries, now)
    {
      freed, oldest := 0, now;
      hide Cost, Remaining, Seen, Sweep, IsOldest;
      ghost var before := entries;
      var left := entries.Keys;
      NoneSeen(before, now);
      while left != {}
        invariant left <= before.Keys
        invariant entries == Remaining(before, left, now)
        invariant freed == Cost(before) - Cost(entries)
        invariant IsOldest(oldest, Seen(before, left, now), now)
        decreases left
      {
        var path :| path in left;
        RemainingHas(before, left, path, now);
        var e := entries[path];
        if Max(now - e.checked, 0) < TTL {
          KeepOne(before, left, path, now);
          KeepsOldest(oldest, Seen(before, left, now), path, e, now);
          oldest := Min(oldest, e.checked);
        } else {
          freed := freed + Footprint(path, |e.body|);
          CostRemove(entries, path);
          DropOne(before, left, path, now);
          entries := entries - {path};
        }
        left := left - {path};
      }
      AllSeen(before, now);
    }

    method DropExpired(now: Time)
      requires Valid() && clock <= now
      modifies this
      ensures Valid() && clock == now && Swept(old(View()), now, View())
    {
      var freed, oldest := Retain(now);
      bytes := bytes - freed;
      nextExpiry := Some(oldest + TTL);
      SweptValid(old(View()), clock, now, View());
      clock := now;
    }

    method MakeRoom(path: Path, body: nat, now: Time) returns (ok: bool)
      requires Valid() && clock <= now
      modifies this
      ensures Valid() && clock == now && MadeRoom(old(View()), path, body, now, ok, View())
      ensures ok ==> CacheSpec.Fits(View(), path, body)
    {
      clock := now;
      ok := Fits(path, body);
      if ok {
        return;
      }
      if nextExpiry.Some? && now < nextExpiry.value {
        return;
      }
      DropExpired(now);
      ok := Fits(path, body);
    }

    method Revalidate(path: Path, meta: Meta, now: Time)
      requires Valid()
      modifies this`entries, this`bytes, this`nextExpiry
      ensures Valid() && View() == Revalidated(old(View()), path, meta, now)
    {
      RevalidatedValid(View(), path, meta, now, clock);
      if path in entries {
        if SameFile(entries[path].meta, meta) {
          entries := entries[path := entries[path].(checked := now)];
          if nextExpiry.Some? {
            nextExpiry := Some(Min(nextExpiry.value, now + TTL));
          }
        } else {
          Take(path);
        }
      }
    }

    method Put(path: Path, body: Bytes, meta: Meta, now: Time)
      requires Valid() && clock <= now
      modifies this
      ensures Valid() && clock == now
      ensures exists ok :: PutSpec(old(View()), path, Entry(body, meta, now), ok, View())
    {
      ghost var before, e := View(), Entry(body, meta, now);
      var ok := MakeRoom(path, |body|, now);
      ghost var room := View();
      hide MadeRoom, Valid;
      if !ok {
        PutEnds(before, path, e, ok, room, room);
        return;
      }
      InsertedValid(room, path, e, clock);
      Take(path);
      bytes := bytes + Footprint(path, |body|);
      entries := entries[path := Entry(body, meta, now)];
      PutEnds(before, path, e, ok, room, View());
    }
  }
}
