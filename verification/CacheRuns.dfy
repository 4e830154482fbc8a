/** The cache under interleaved stats and fills, over a filesystem that changes while they run. */
module CacheRuns {
  import opened Basics
  import opened CacheSpec

  datatype Version = Version(meta: Meta, body: Bytes)

  /** The history of the filesystem: which file a path names, and what each file holds. */
  datatype Fs = Fs(bound: (Path, Time) -> Option<nat>, version: (nat, Time) -> Version)

  /** Modification time and length identify a version among the files that a path ever names. */
  ghost predicate Identifies(fs: Fs)
  {
    forall p: Path, s: Time, u: Time, f, g, t: Time, v: Time {:trigger fs.bound(p, s), fs.bound(p, u), fs.version(f, t), fs.version(g, v)} ::
      fs.bound(p, s) == Some(f) && fs.bound(p, u) == Some(g) && SameFile(fs.version(f, t).meta, fs.version(g, v).meta) ==>
        fs.version(f, t) == fs.version(g, v)
  }

  /** A version that was replaced does not come back, and a file is as long as its metadata says. */
  ghost predicate Steady(fs: Fs)
  {
    && (forall f: nat, t: Time, u: Time, v: Time {:trigger fs.version(f, t), fs.version(f, u), fs.version(f, v)} ::
          t <= u <= v && fs.version(f, t) == fs.version(f, v) ==> fs.version(f, u) == fs.version(f, t))
    && (forall f: nat, t: Time {:trigger fs.version(f, t)} :: fs.version(f, t).meta.len == |fs.version(f, t).body|)
  }

  datatype Task =
    | StatStarted(path: Path, now: Time)
    | StatMissed(path: Path, now: Time)
    | StatSaw(path: Path, now: Time, meta: Meta, at: Time)
    | Lost(path: Path)
    | FillMissed(path: Path)
    | FillOpened(path: Path, file: nat, openedAt: Time)
    | FillMeasured(path: Path, file: nat, openedAt: Time, meta: Meta, measured: Time)
    | FillAdmitted(path: Path, file: nat, openedAt: Time, meta: Meta, measured: Time)
    | FillRead(path: Path, file: nat, openedAt: Time, meta: Meta, body: Bytes, again: Meta, reread: Time)
    | Finished

  /** Where a resident entry has its version from: a stat saw it at the path at `at`; or a fill opened `file`
      at `openedAt`, its second stat was at `reread`, and it was put at `put`. */
  datatype Origin =
    | Stat(at: Time)
    | Fill(file: nat, openedAt: Time, reread: Time, put: Time)

  /** `origins` is history: the program does not keep it. */
  datatype Sys = Sys(clock: Time, store: Store, tasks: seq<Task>, origins: map<Path, Origin>)

  /** One atomic action. `i` is the stat or fill that acts. */
  datatype Action =
    | Tick(time: nat)
    | BeginStat(path: Path)
    | BeginOpen(path: Path)
    | LookUp(i: nat)
    | See(i: nat)
    | Confirm(i: nat)
    | Forget(i: nat)
    | Open(i: nat)
    | Measure(i: nat)
    | Admit(i: nat, ok: bool)
    | ReadAll(i: nat, body: Bytes)
    | Keep(i: nat, ok: bool)
    | Abandon(i: nat)

  predicate Acting(s: Sys, i: nat)
  {
    i < |s.tasks|
  }

  function Becomes(s: Sys, i: nat, t: Task): Sys
    requires Acting(s, i)
  {
    s.(tasks := s.tasks[i := t])
  }

  /** A read that saw one version all along returns its bytes, one more than the first stat promised at most. */
  ghost predicate ReadBack(fs: Fs, file: nat, from: Time, to: Time, len: nat, body: Bytes)
  {
    (forall t: Time | from <= t <= to :: fs.version(file, t) == fs.version(file, from)) ==>
      body == (var all := fs.version(file, from).body; if |all| <= len + 1 then all else all[..len + 1])
  }

  ghost predicate Acts(fs: Fs, s: Sys, a: Action, t: Sys)
  {
    match a
    case Tick(time) => t == s.(clock := s.clock + time)
    case BeginStat(path) => t == s.(tasks := s.tasks + [StatStarted(path, s.clock)])
    case BeginOpen(path) =>
      t == s.(tasks := s.tasks + [if Fresh(s.store, path, s.clock).Some? then Finished else FillMissed(path)])
    case LookUp(i) =>
      && Acting(s, i) && s.tasks[i].StatStarted?
      && var k := s.tasks[i];
         t == Becomes(s, i, if Fresh(s.store, k.path, k.now).Some? then Finished else StatMissed(k.path, k.now))
    case See(i) =>
      && Acting(s, i) && s.tasks[i].StatMissed?
      && var k := s.tasks[i];
         var file := fs.bound(k.path, s.clock);
         t == Becomes(s, i, if file.None? then Lost(k.path)
                            else StatSaw(k.path, k.now, fs.version(file.value, s.clock).meta, s.clock))
    case Confirm(i) =>
      && Acting(s, i) && s.tasks[i].StatSaw?
      && var k := s.tasks[i];
         t == Becomes(s, i, Finished).(store := Revalidated(s.store, k.path, k.meta, k.now),
                                       origins := s.origins[k.path := Stat(k.at)])
    case Forget(i) =>
      && Acting(s, i) && s.tasks[i].Lost?
      && t == Becomes(s, i, Finished).(store := Without(s.store, s.tasks[i].path))
    case Open(i) =>
      && Acting(s, i) && s.tasks[i].FillMissed?
      && var path := s.tasks[i].path;
         var file := fs.bound(path, s.clock);
         t == Becomes(s, i, if file.None? then Lost(path) else FillOpened(path, file.value, s.clock))
    case Measure(i) =>
      && Acting(s, i) && s.tasks[i].FillOpened?
      && var k := s.tasks[i];
         var meta := fs.version(k.file, s.clock).meta;
         t == Becomes(s, i, if meta.isDir then Finished else FillMeasured(k.path, k.file, k.openedAt, meta, s.clock))
    case Admit(i, ok) =>
      && Acting(s, i) && s.tasks[i].FillMeasured?
      && var k := s.tasks[i];
         if k.meta.len > MAX_FILE then t == Becomes(s, i, Finished)
         else
           && MadeRoom(s.store, k.path, k.meta.len, s.clock, ok, t.store)
           && t == Becomes(s, i, if ok then FillAdmitted(k.path, k.file, k.openedAt, k.meta, k.measured) else Finished).(store := t.store)
    case ReadAll(i, body) =>
      && Acting(s, i) && s.tasks[i].FillAdmitted?
      && var k := s.tasks[i];
         && ReadBack(fs, k.file, k.measured, s.clock, k.meta.len, body)
         && t == Becomes(s, i, FillRead(k.path, k.file, k.openedAt, k.meta, body, fs.version(k.file, s.clock).meta, s.clock))
    case Abandon(i) => Acting(s, i) && t == Becomes(s, i, Finished)
    case Keep(i, ok) =>
      && Acting(s, i) && s.tasks[i].FillRead?
      && var k := s.tasks[i];
         if !SameFile(k.again, k.meta) || |k.body| != k.meta.len then
           t == Becomes(s, i, Finished).(store := Without(s.store, k.path))
         else
           && PutSpec(s.store, k.path, Entry(k.body, k.meta, s.clock), ok, t.store)
           && t == Becomes(s, i, Finished).(
                     store := t.store,
                     origins := if ok then s.origins[k.path := Fill(k.file, k.openedAt, k.reread, s.clock)] else s.origins)
  }

  /** At time `u` the path named a file with this content. */
  predicate Had(fs: Fs, path: Path, u: Time, v: Version)
  {
    fs.bound(path, u).Some? && fs.version(fs.bound(path, u).value, u) == v
  }

  /** The origin of an entry vouches for its version and for the time of its confirmation. */
  predicate Vouches(fs: Fs, path: Path, e: Entry, o: Origin)
  {
    match o
    case Stat(at) => e.checked <= at && Had(fs, path, at, Version(e.meta, e.body))
    case Fill(file, openedAt, reread, put) =>
      && openedAt <= reread <= put == e.checked
      && fs.bound(path, openedAt) == Some(file)
      && fs.version(file, reread) == Version(e.meta, e.body)
  }

  ghost predicate EntriesCoherent(fs: Fs, m: Entries, origins: map<Path, Origin>)
  {
    forall p | p in m :: p in origins && Vouches(fs, p, m[p], origins[p])
  }

  /** What a stat or fill knows is true of the past. */
  ghost predicate TaskTrue(fs: Fs, clock: Time, k: Task)
  {
    match k
    case StatStarted(_, now) => now <= clock
    case StatMissed(_, now) => now <= clock
    case StatSaw(path, now, meta, at) =>
      now <= at <= clock && fs.bound(path, at).Some? && fs.version(fs.bound(path, at).value, at).meta == meta
    case FillOpened(path, file, openedAt) => openedAt <= clock && fs.bound(path, openedAt) == Some(file)
    case FillMeasured(path, file, openedAt, meta, measured) =>
      openedAt <= measured <= clock && fs.bound(path, openedAt) == Some(file) && fs.version(file, measured).meta == meta
    case FillAdmitted(path, file, openedAt, meta, measured) =>
      openedAt <= measured <= clock && fs.bound(path, openedAt) == Some(file) && fs.version(file, measured).meta == meta
    case FillRead(path, file, openedAt, meta, body, again, reread) =>
      && openedAt <= reread <= clock && fs.bound(path, openedAt) == Some(file)
      && (SameFile(again, meta) && |body| == meta.len ==> fs.version(file, reread) == Version(meta, body))
    case _ => true
  }

  ghost predicate SysInv(fs: Fs, s: Sys)
  {
    && Valid(s.store, s.clock)
    && EntriesCoherent(fs, s.store.entries, s.origins)
    && forall k | k in s.tasks :: TaskTrue(fs, s.clock, k)
  }

  lemma StartInv(fs: Fs, clock: Time)
    ensures SysInv(fs, Sys(clock, Store(map[], 0, None), [], map[]))
  {
  }

  /** The two stats of a fill agree only if the file kept one version between them. */
  lemma ReadIsOneVersion(fs: Fs, path: Path, file: nat, o: Time, from: Time, to: Time, meta: Meta, body: Bytes)
    requires Identifies(fs) && Steady(fs) && from <= to
    requires fs.bound(path, o) == Some(file) && fs.version(file, from).meta == meta
    requires ReadBack(fs, file, from, to, meta.len, body) && SameFile(fs.version(file, to).meta, meta)
    ensures fs.version(file, to) == Version(meta, body)
  {
    assert fs.version(file, to) == fs.version(file, from);
  }

  /** A stat that finds the entry's validators confirms the whole entry, although its clock is older. */
  lemma ConfirmCoherent(fs: Fs, path: Path, e: Entry, o: Origin, meta: Meta, now: Time, at: Time)
    requires Identifies(fs) && Vouches(fs, path, e, o) && SameFile(e.meta, meta)
    requires now <= at && fs.bound(path, at).Some? && fs.version(fs.bound(path, at).value, at).meta == meta
    ensures Vouches(fs, path, e.(checked := now), Stat(at))
  {
    var g := fs.bound(path, at).value;
    match o {
      case Stat(u) => assert fs.version(fs.bound(path, u).value, u) == fs.version(g, at);
      case Fill(file, openedAt, reread, put) => assert fs.version(fs.bound(path, openedAt).value, reread) == fs.version(g, at);
    }
  }

  lemma PutCoherent(fs: Fs, s: Store, origins: map<Path, Origin>, path: Path, e: Entry, o: Origin, ok: bool, t: Store,
                    clock: Time)
    requires Valid(s, clock) && clock <= e.checked && PutSpec(s, path, e, ok, t)
    requires EntriesCoherent(fs, s.entries, origins) && Vouches(fs, path, e, o)
    ensures Valid(t, e.checked) && EntriesCoherent(fs, t.entries, if ok then origins[path := o] else origins)
  {
    var room :| PutVia(s, path, e, ok, t, room);
    RoomValid(s, path, |e.body|, clock, e.checked, ok, room);
    if ok {
      InsertedValid(room, path, e, e.checked);
    }
  }

  lemma TasksAge(fs: Fs, clock: Time, later: Time, tasks: seq<Task>)
    requires clock <= later && forall k | k in tasks :: TaskTrue(fs, clock, k)
    ensures forall k | k in tasks :: TaskTrue(fs, later, k)
  {
    forall k | k in tasks
      ensures TaskTrue(fs, later, k)
    {
      assert TaskTrue(fs, clock, k);
    }
  }

  lemma TaskBecomes(fs: Fs, s: Sys, i: nat, k: Task)
    requires SysInv(fs, s) && Acting(s, i) && TaskTrue(fs, s.clock, k)
    ensures forall x | x in Becomes(s, i, k).tasks :: TaskTrue(fs, s.clock, x)
  {
    forall x | x in Becomes(s, i, k).tasks
      ensures TaskTrue(fs, s.clock, x)
    {
      assert x == k || x in s.tasks;
    }
  }

  /** Looking, opening, measuring and reading change nothing but what the stat or fill knows. */
  lemma ObserveInv(fs: Fs, s: Sys, a: Action, t: Sys)
    requires Identifies(fs) && Steady(fs) && SysInv(fs, s) && Acts(fs, s, a, t)
    requires a.LookUp? || a.See? || a.Open? || a.Measure? || a.ReadAll? || a.Abandon?
    ensures SysInv(fs, t)
  {
    var k := s.tasks[a.i];
    assert TaskTrue(fs, s.clock, k);
    if a.ReadAll? && SameFile(fs.version(k.file, s.clock).meta, k.meta) {
      ReadIsOneVersion(fs, k.path, k.file, k.openedAt, k.measured, s.clock, k.meta, a.body);
    }
    TaskBecomes(fs, s, a.i, t.tasks[a.i]);
  }

  /** The actions that take the lock to change the store. */
  lemma StoreInv(fs: Fs, s: Sys, a: Action, t: Sys)
    requires Identifies(fs) && SysInv(fs, s) && Acts(fs, s, a, t)
    requires a.Confirm? || a.Forget? || a.Admit? || a.Keep?
    ensures SysInv(fs, t)
  {
    var k := s.tasks[a.i];
    assert TaskTrue(fs, s.clock, k);
    TaskBecomes(fs, s, a.i, t.tasks[a.i]);
    match a {
      case Confirm(i) =>
        RevalidatedValid(s.store, k.path, k.meta, k.now, s.clock);
        if k.path in s.store.entries && SameFile(s.store.entries[k.path].meta, k.meta) {
          ConfirmCoherent(fs, k.path, s.store.entries[k.path], s.origins[k.path], k.meta, k.now, k.at);
        }
      case Forget(i) => WithoutValid(s.store, k.path, s.clock);
      case Admit(i, ok) =>
        if k.meta.len <= MAX_FILE {
          RoomValid(s.store, k.path, k.meta.len, s.clock, s.clock, ok, t.store);
        }
      case Keep(i, ok) =>
        if !SameFile(k.again, k.meta) || |k.body| != k.meta.len {
          WithoutValid(s.store, k.path, s.clock);
        } else {
          PutCoherent(fs, s.store, s.origins, k.path, Entry(k.body, k.meta, s.clock),
                      Fill(k.file, k.openedAt, k.reread, s.clock), ok, t.store, s.clock);
        }
    }
  }

  /** Time passes, or a new stat or open begins. */
  lemma BeginInv(fs: Fs, s: Sys, a: Action, t: Sys)
    requires SysInv(fs, s) && Acts(fs, s, a, t) && (a.Tick? || a.BeginStat? || a.BeginOpen?)
    ensures SysInv(fs, t)
  {
    if a.Tick? {
      TasksAge(fs, s.clock, t.clock, s.tasks);
    }
  }

  /** Every action of every stat and fill keeps the store within its budget and each entry one version of its file. */
  lemma ActsInv(fs: Fs, s: Sys, a: Action, t: Sys)
    requires Identifies(fs) && Steady(fs) && SysInv(fs, s) && Acts(fs, s, a, t)
    ensures SysInv(fs, t)
  {
    hide Acts, SysInv;
    if a.Tick? || a.BeginStat? || a.BeginOpen? {
      BeginInv(fs, s, a, t);
    } else if a.Confirm? || a.Forget? || a.Admit? || a.Keep? {
      StoreInv(fs, s, a, t);
    } else {
      ObserveInv(fs, s, a, t);
    }
  }

  ghost predicate Run(fs: Fs, s: Sys, actions: seq<Action>, t: Sys)
    decreases |actions|
  {
    if |actions| == 0 then s == t
    else exists m :: Acts(fs, s, actions[0], m) && Run(fs, m, actions[1..], t)
  }

  lemma {:induction false} EveryRunCoherent(fs: Fs, s: Sys, actions: seq<Action>, t: Sys)
    requires Identifies(fs) && Steady(fs) && SysInv(fs, s) && Run(fs, s, actions, t)
    ensures SysInv(fs, t)
    decreases |actions|
  {
    if |actions| > 0 {
      var m :| Acts(fs, s, actions[0], m) && Run(fs, m, actions[1..], t);
      ActsInv(fs, s, actions[0], m);
      EveryRunCoherent(fs, m, actions[1..], t);
    }
  }

  /** A stat of the path at time `u` shows these validators. */
  predicate Shows(fs: Fs, path: Path, u: Time, meta: Meta)
  {
    fs.bound(path, u).Some? && SameFile(fs.version(fs.bound(path, u).value, u).meta, meta)
  }

  /** The time at which the version of an entry was last seen: by the stat that confirmed it, or by the second
      stat of the fill that put it. */
  function SeenAt(o: Origin): Time
  {
    match o
    case Stat(at) => at
    case Fill(_, _, reread, _) => reread
  }

  /** How long a fill took from its second stat to the put. */
  function Gap(o: Origin): int
  {
    match o
    case Stat(_) => 0
    case Fill(_, _, reread, put) => put - reread
  }

  /** The file that showed the version at that time. */
  predicate SeenIn(fs: Fs, path: Path, o: Origin, v: Version)
  {
    match o
    case Stat(at) => Had(fs, path, at, v)
    case Fill(file, openedAt, reread, _) => openedAt <= reread && fs.bound(path, openedAt) == Some(file) && fs.version(file, reread) == v
  }

  /** Every put of the run comes at most `d` after the second stat of its fill. */
  ghost predicate Prompt(fs: Fs, d: nat, s: Sys, a: Action)
  {
    a.Keep? && Acting(s, a.i) && s.tasks[a.i].FillRead? ==> s.clock - s.tasks[a.i].reread <= d
  }

  ghost predicate PromptRun(fs: Fs, d: nat, s: Sys, actions: seq<Action>, t: Sys)
    decreases |actions|
  {
    if |actions| == 0 then s == t
    else exists m :: Acts(fs, s, actions[0], m) && Prompt(fs, d, s, actions[0]) && PromptRun(fs, d, m, actions[1..], t)
  }

  ghost predicate GapsWithin(d: nat, origins: map<Path, Origin>)
  {
    forall p | p in origins :: Gap(origins[p]) <= d
  }

  lemma ActsPrompt(fs: Fs, d: nat, s: Sys, a: Action, t: Sys)
    requires Acts(fs, s, a, t) && Prompt(fs, d, s, a) && GapsWithin(d, s.origins)
    ensures GapsWithin(d, t.origins)
  {
  }

  lemma {:induction false} EveryPromptRun(fs: Fs, d: nat, s: Sys, actions: seq<Action>, t: Sys)
    requires Identifies(fs) && Steady(fs) && SysInv(fs, s) && GapsWithin(d, s.origins)
    requires PromptRun(fs, d, s, actions, t)
    ensures SysInv(fs, t) && GapsWithin(d, t.origins)
    decreases |actions|
  {
    if |actions| > 0 {
      var m :| Acts(fs, s, actions[0], m) && Prompt(fs, d, s, actions[0]) && PromptRun(fs, d, m, actions[1..], t);
      ActsInv(fs, s, actions[0], m);
      ActsPrompt(fs, d, s, actions[0], m);
      EveryPromptRun(fs, d, m, actions[1..], t);
    }
  }

  /** Staleness: from an empty cache, when every put follows the second stat of its fill within `d`, a hit
      serves a version that was seen less than a second plus `d` ago: by a stat of the path, or in the file
      that the entry's own fill had opened at the path. */
  lemma HitIsRecent(fs: Fs, d: nat, clock: Time, actions: seq<Action>, t: Sys, path: Path, now: Time)
    requires Identifies(fs) && Steady(fs)
    requires PromptRun(fs, d, Sys(clock, Store(map[], 0, None), [], map[]), actions, t)
    requires Fresh(t.store, path, now).Some?
    ensures path in t.origins
    ensures var e, o := Fresh(t.store, path, now).value, t.origins[path];
            && SeenIn(fs, path, o, Version(e.meta, e.body))
            && now < SeenAt(o) + TTL + Gap(o) && 0 <= Gap(o) <= d
  {
    StartInv(fs, clock);
    EveryPromptRun(fs, d, Sys(clock, Store(map[], 0, None), [], map[]), actions, t);
    assert Vouches(fs, path, t.store.entries[path], t.origins[path]);
  }

  /** At the moment an entry's version was last seen, the path itself had it exactly when a stat of the path
      then would have shown the entry's validators. */
  lemma PathHadItToo(fs: Fs, s: Sys, path: Path)
    requires Identifies(fs) && SysInv(fs, s) && path in s.store.entries
    ensures var e, o := s.store.entries[path], s.origins[path];
            Had(fs, path, SeenAt(o), Version(e.meta, e.body)) <==> Shows(fs, path, SeenAt(o), e.meta)
  {
    var e, o := s.store.entries[path], s.origins[path];
    assert Vouches(fs, path, e, o);
  }

  /** A stat that shows the validators shows the version. */
  lemma ShowsVersion(fs: Fs, path: Path, e: Entry, o: Origin, u: Time)
    requires Identifies(fs) && Vouches(fs, path, e, o) && Shows(fs, path, u, e.meta)
    ensures Had(fs, path, u, Version(e.meta, e.body))
  {
    var g := fs.bound(path, u).value;
    match o {
      case Stat(at) => assert fs.version(fs.bound(path, at).value, at) == fs.version(g, u);
      case Fill(file, openedAt, reread, put) => assert fs.version(fs.bound(path, openedAt).value, reread) == fs.version(g, u);
    }
  }

  /** A hit at `now` serves what the path had, no later than at `until`, within a second plus the gap of the fill. */
  ghost predicate PathRecent(fs: Fs, path: Path, e: Entry, o: Origin, now: Time, until: Time)
  {
    exists u: Time | u <= until :: now < u + TTL + Gap(o) && Had(fs, path, u, Version(e.meta, e.body))
  }

  /** Every moment at which the entry is fresh is such a hit. */
  ghost predicate AlwaysPathRecent(fs: Fs, path: Path, e: Entry, o: Origin, until: Time)
  {
    forall now: Time | now < e.checked + TTL :: PathRecent(fs, path, e, o, now, until)
  }

  /** From the moment the version was last seen, until `until`, some stat of the path shows the validators. */
  ghost predicate ShowsAgain(fs: Fs, path: Path, e: Entry, o: Origin, until: Time)
  {
    exists u: Time | SeenAt(o) <= u <= until :: Shows(fs, path, u, e.meta)
  }

  /** The last moment at which the entry is fresh asks for the most. */
  lemma LastMoment(fs: Fs, path: Path, e: Entry, o: Origin, until: Time)
    requires Vouches(fs, path, e, o) && SeenAt(o) <= until && AlwaysPathRecent(fs, path, e, o, until)
    ensures ShowsAgain(fs, path, e, o, until)
  {
    assert PathRecent(fs, path, e, o, e.checked + TTL - 1, until);
    var u: Time :| u <= until && e.checked + TTL - 1 < u + TTL + Gap(o) && Had(fs, path, u, Version(e.meta, e.body));
    if o.Stat? {
      assert Shows(fs, path, o.at, e.meta);
    } else {
      assert Shows(fs, path, u, e.meta) && SeenAt(o) <= u;
    }
  }

  lemma StatShows(fs: Fs, path: Path, e: Entry, o: Origin, until: Time)
    requires Vouches(fs, path, e, o) && o.Stat? && o.at <= until
    ensures ShowsAgain(fs, path, e, o, until)
  {
    assert Shows(fs, path, o.at, e.meta);
  }

  lemma ShownLater(fs: Fs, path: Path, e: Entry, o: Origin, until: Time)
    requires Identifies(fs) && Vouches(fs, path, e, o) && ShowsAgain(fs, path, e, o, until)
    ensures AlwaysPathRecent(fs, path, e, o, until)
  {
    var u: Time :| SeenAt(o) <= u <= until && Shows(fs, path, u, e.meta);
    ShowsVersion(fs, path, e, o, u);
    forall now: Time | now < e.checked + TTL ensures PathRecent(fs, path, e, o, now, until) {
      assert now < u + TTL + Gap(o);
    }
  }

  /** The bound of a second plus the gap holds of the path itself, at every fresh hit, exactly when some stat of
      the path shows the validators at the moment the version was last seen or later. The times that count may
      end anywhere from that moment on: with the entry's own last fresh moment, say. */
  lemma PathBoundHolds(fs: Fs, s: Sys, path: Path, until: Time)
    requires Identifies(fs) && SysInv(fs, s) && path in s.store.entries
    requires SeenAt(s.origins[path]) <= until
    ensures var e, o := s.store.entries[path], s.origins[path];
            && (AlwaysPathRecent(fs, path, e, o, until) <==> ShowsAgain(fs, path, e, o, until))
            && (o.Stat? ==> AlwaysPathRecent(fs, path, e, o, until))
  {
    hide AlwaysPathRecent, ShowsAgain, Vouches;
    var e, o := s.store.entries[path], s.origins[path];
    assert Vouches(fs, path, e, o);
    if o.Stat? {
      StatShows(fs, path, e, o, until);
    }
    if AlwaysPathRecent(fs, path, e, o, until) {
      LastMoment(fs, path, e, o, until);
    }
    if ShowsAgain(fs, path, e, o, until) {
      ShownLater(fs, path, e, o, until);
    }
  }

  const OLD := Version(Meta(false, Some(10), 1), [7])
  const NEW := Version(Meta(false, Some(20), 1), [8])

  /** A path whose file is replaced by another one at time 2. */
  function Replaced(): Fs
  {
    Fs((p, t) => if t < 2 then Some(0) else Some(1), (f, t) => if f == 0 then OLD else NEW)
  }

  lemma RunStep(fs: Fs, d: nat, s: Sys, a: Action, m: Sys, actions: seq<Action>, t: Sys)
    requires Acts(fs, s, a, m) && Prompt(fs, d, s, a) && PromptRun(fs, d, m, actions, t)
    ensures PromptRun(fs, d, s, [a] + actions, t)
  {
    assert ([a] + actions)[1..] == actions;
  }

  function Late(gap: nat): Entry
  {
    Entry(OLD.body, OLD.meta, 3 + gap)
  }

  /** The end of the fill below: read at 3, and kept when the gap has passed. */
  lemma ReplacedFileKept(path: Path, gap: nat) returns (actions: seq<Action>, t: Sys)
    requires |path| < 1000
    ensures t.store.entries == map[path := Late(gap)] && t.origins == map[path := Fill(0, 1, 3, 3 + gap)]
    ensures var read := FillRead(path, 0, 1, OLD.meta, OLD.body, OLD.meta, 3);
            PromptRun(Replaced(), gap, Sys(3, Store(map[], 0, None), [read], map[]), actions, t)
  {
    var fs, empty, read := Replaced(), Store(map[], 0, None), FillRead(path, 0, 1, OLD.meta, OLD.body, OLD.meta, 3);
    var store := Inserted(empty, path, Late(gap));
    var late := Sys(3 + gap, empty, [read], map[]);
    t := Sys(3 + gap, store, [Finished], map[path := Fill(0, 1, 3, 3 + gap)]);
    assert PutVia(empty, path, Late(gap), true, store, empty);
    actions := [];
    RunStep(fs, gap, late, Keep(0, true), t, actions, t);
    actions := [Keep(0, true)] + actions;
    RunStep(fs, gap, Sys(3, empty, [read], map[]), Tick(gap), late, actions, t);
    actions := [Tick(gap)] + actions;
  }

  /** The middle of it: measured and read at 3. */
  lemma ReplacedFileRead(path: Path, gap: nat) returns (actions: seq<Action>, t: Sys)
    requires |path| < 1000
    ensures t.store.entries == map[path := Late(gap)] && t.origins == map[path := Fill(0, 1, 3, 3 + gap)]
    ensures PromptRun(Replaced(), gap, Sys(3, Store(map[], 0, None), [FillOpened(path, 0, 1)], map[]), actions, t)
  {
    var fs, empty := Replaced(), Store(map[], 0, None);
    var begun := Sys(3, empty, [FillOpened(path, 0, 1)], map[]);
    var measured := Sys(3, empty, [FillMeasured(path, 0, 1, OLD.meta, 3)], map[]);
    var admitted := Sys(3, empty, [FillAdmitted(path, 0, 1, OLD.meta, 3)], map[]);
    var read := Sys(3, empty, [FillRead(path, 0, 1, OLD.meta, OLD.body, OLD.meta, 3)], map[]);
    actions, t := ReplacedFileKept(path, gap);
    RunStep(fs, gap, admitted, ReadAll(0, OLD.body), read, actions, t);
    actions := [ReadAll(0, OLD.body)] + actions;
    RunStep(fs, gap, measured, Admit(0, true), admitted, actions, t);
    actions := [Admit(0, true)] + actions;
    RunStep(fs, gap, begun, Measure(0), measured, actions, t);
    actions := [Measure(0)] + actions;
  }

  lemma ReplacedIsRegular()
    ensures Identifies(Replaced()) && Steady(Replaced())
  {
  }

  /** The bound is about the opened file. When the path is given another file while a fill has the old one
      open, a hit can serve a version that the path itself lost longer ago than a second plus the gap. */
  lemma ReplacedFileServedLate(path: Path, gap: nat) returns (actions: seq<Action>, t: Sys, now: Time)
    requires |path| < 1000
    ensures var fs := Replaced();
            && Identifies(fs) && Steady(fs)
            && PromptRun(fs, gap, Sys(1, Store(map[], 0, None), [], map[]), actions, t)
            && Fresh(t.store, path, now) == Some(Late(gap))
            && forall u: Time | now < u + TTL + gap :: !Had(fs, path, u, OLD)
  {
    hide Identifies, Steady;
    ReplacedIsRegular();
    var fs, empty := Replaced(), Store(map[], 0, None);
    now := 2 + TTL + gap;
    var s, missed, early := Sys(1, empty, [], map[]), Sys(1, empty, [FillMissed(path)], map[]),
                            Sys(1, empty, [FillOpened(path, 0, 1)], map[]);
    actions, t := ReplacedFileRead(path, gap);
    RunStep(fs, gap, early, Tick(2), Sys(3, empty, [FillOpened(path, 0, 1)], map[]), actions, t);
    actions := [Tick(2)] + actions;
    RunStep(fs, gap, missed, Open(0), early, actions, t);
    actions := [Open(0)] + actions;
    RunStep(fs, gap, s, BeginOpen(path), missed, actions, t);
    actions := [BeginOpen(path)] + actions;
  }

  /** A file that holds another version from 2 to 3 and gets the first one back, its modification time included. */
  function Restored(): Fs
  {
    Fs((p, t) => Some(0), (f, t) => if t == 2 || t == 3 then NEW else OLD)
  }

  lemma RestoredIdentifies()
    ensures Identifies(Restored()) && !Steady(Restored())
  {
    var fs := Restored();
    assert fs.version(0, 1) == fs.version(0, 4) == OLD && fs.version(0, 2) == NEW;
  }

  /** Coherence needs that no replaced version comes back. Where one does, with its modification time, both stats
      of a fill can agree on it around a read of the other: the entry pairs bytes with metadata that never went
      together. */
  lemma RestoredFileIsMixedUp(path: Path) returns (actions: seq<Action>, t: Sys)
    requires |path| < 1000
    ensures var fs := Restored();
            && Identifies(fs) && !Steady(fs)
            && Run(fs, Sys(1, Store(map[], 0, None), [], map[]), actions, t)
            && path in t.store.entries
            && forall f: nat, u: Time :: fs.version(f, u) != Version(t.store.entries[path].meta, t.store.entries[path].body)
  {
    hide Identifies, Steady;
    RestoredIdentifies();
    var fs, empty := Restored(), Store(map[], 0, None);
    var start, missed := Sys(1, empty, [], map[]), Sys(1, empty, [FillMissed(path)], map[]);
    var begun := Sys(1, empty, [FillOpened(path, 0, 1)], map[]);
    actions, t := RestoredFileRead(path);
    RunStep(fs, 0, missed, Open(0), begun, actions, t);
    actions := [Open(0)] + actions;
    RunStep(fs, 0, start, BeginOpen(path), missed, actions, t);
    actions := [BeginOpen(path)] + actions;
    PromptIsRun(fs, 0, start, actions, t);
  }

  /** The middle of that fill: measured and admitted before the other version, read after it. */
  lemma RestoredFileRead(path: Path) returns (actions: seq<Action>, t: Sys)
    requires |path| < 1000
    ensures t.store.entries == map[path := Entry(NEW.body, OLD.meta, 4)]
    ensures PromptRun(Restored(), 0, Sys(1, Store(map[], 0, None), [FillOpened(path, 0, 1)], map[]), actions, t)
  {
    var fs, empty := Restored(), Store(map[], 0, None);
    var begun := Sys(1, empty, [FillOpened(path, 0, 1)], map[]);
    var measured := Sys(1, empty, [FillMeasured(path, 0, 1, OLD.meta, 1)], map[]);
    var admitted := Sys(1, empty, [FillAdmitted(path, 0, 1, OLD.meta, 1)], map[]);
    var later := Sys(4, empty, [FillAdmitted(path, 0, 1, OLD.meta, 1)], map[]);
    actions, t := RestoredFileKept(path);
    RunStep(fs, 0, admitted, Tick(3), later, actions, t);
    actions := [Tick(3)] + actions;
    RunStep(fs, 0, measured, Admit(0, true), admitted, actions, t);
    actions := [Admit(0, true)] + actions;
    RunStep(fs, 0, begun, Measure(0), measured, actions, t);
    actions := [Measure(0)] + actions;
  }

  /** The end of that fill: the other version's bytes are read, and kept with the first version's metadata. */
  lemma RestoredFileKept(path: Path) returns (actions: seq<Action>, t: Sys)
    requires |path| < 1000
    ensures t.store.entries == map[path := Entry(NEW.body, OLD.meta, 4)]
    ensures PromptRun(Restored(), 0, Sys(4, Store(map[], 0, None), [FillAdmitted(path, 0, 1, OLD.meta, 1)], map[]), actions, t)
  {
    var fs, empty, mixed := Restored(), Store(map[], 0, None), Entry(NEW.body, OLD.meta, 4);
    var read := Sys(4, empty, [FillRead(path, 0, 1, OLD.meta, NEW.body, OLD.meta, 4)], map[]);
    var store := Inserted(empty, path, mixed);
    t := Sys(4, store, [Finished], map[path := Fill(0, 1, 4, 4)]);
    assert PutVia(empty, path, mixed, true, store, empty);
    actions := [];
    RunStep(fs, 0, read, Keep(0, true), t, actions, t);
    actions := [Keep(0, true)] + actions;
    assert fs.version(0, 2) == NEW != fs.version(0, 1);
    RunStep(fs, 0, Sys(4, empty, [FillAdmitted(path, 0, 1, OLD.meta, 1)], map[]), ReadAll(0, NEW.body), read, actions, t);
    actions := [ReadAll(0, NEW.body)] + actions;
  }

  lemma {:induction false} PromptIsRun(fs: Fs, d: nat, s: Sys, actions: seq<Action>, t: Sys)
    requires PromptRun(fs, d, s, actions, t)
    ensures Run(fs, s, actions, t)
    decreases |actions|
  {
    if |actions| > 0 {
      var m :| Acts(fs, s, actions[0], m) && Prompt(fs, d, s, actions[0]) && PromptRun(fs, d, m, actions[1..], t);
      PromptIsRun(fs, d, m, actions[1..], t);
    }
  }
}
