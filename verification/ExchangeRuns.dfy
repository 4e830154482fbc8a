/** What every run of the response producer keeps, from construction to drop. */
module ExchangeRuns {
  import opened Basics
  import opened Frames
  import opened ExchangeSpec

  /** The part of an offered payload that an outcome accepts into the response. */
  function AcceptedAs(s: State, v: Verb, o: Outcome): Bytes
  {
    match Offered(v)
    case None => []
    case Some(p) =>
      match o
      case Ok => Content(p)
      case ContentLengthExceeded => if v.WriteBody? then TakeUpTo(v.data, s.declared, s.sentBody) else []
      case _ => []
  }

  function Accepted(s: State, v: Verb): Bytes
    requires Possible(v) && Counted(s)
  {
    AcceptedAs(s, v, Step(s, v).1)
  }

  function TakeUpTo(data: Bytes, declared: Option<u64>, sent: u64): Bytes
  {
    if declared.Some? && sent <= declared.value <= sent + |data| then data[..declared.value - sent] else data
  }

  /** The bytes that a response with these flags shows for the accepted ones. */
  function Shown(bodiless: bool, acc: Bytes): Bytes
  {
    if bodiless then [] else acc
  }

  /** The invariant of every run in which the verbs have accepted `acc` so far. The byte count has no part in
      it, so it outlives a wrap. */
  predicate Inv(s: State, acc: Bytes)
  {
    var r := s.seen;
    && Counted(s)
    && s.sender == (s.stage != Finalized)
    && s.handled == (if s.stage == Finalized then [s.discarded] else [])
    && (s.stage != Finalized ==> !s.discarded && (s.headSent || s.sentBody == 0))
    && match s.stage
       case Open => r == Empty && !s.headSent && acc == [] && s.declared.None? && s.pending.None?
       case HeadCommitted => if s.headSent then Shows(s, acc, s.declared) else r == Empty && acc == []
       case Finalized =>
         match r
         case Empty => s.discarded ==> acc == []
         case Body(start, body) =>
           && start.bodiless == s.bodiless && body <= Shown(s.bodiless, acc)
           && (s.discarded ==> body == Shown(s.bodiless, acc))
         case Complete(start, body, truncated) =>
           && start.bodiless == s.bodiless && body == Shown(s.bodiless, acc)
           && !truncated && !s.discarded
         case Malformed => false
  }

  /** The head went out with length `cl` and the accepted bytes followed. */
  predicate Shows(s: State, acc: Bytes, cl: Option<u64>)
  {
    && s.seen.Body? && s.seen.start.contentLength == cl && s.seen.start.bodiless == s.bodiless
    && s.seen.body == Shown(s.bodiless, acc)
  }

  lemma NewKeeps(head: bool, fuse: nat)
    ensures Inv(New(head, fuse), [])
  {
  }

  /** A verb is under way: the head, with length `cl`, is out, unless the receiver is gone for good. */
  predicate Streaming(s: State, acc: Bytes, cl: Option<u64>)
  {
    && Counted(s) && s.stage == HeadCommitted && s.headSent && s.sender && s.handled == [] && !s.discarded
    && (Shows(s, acc, cl) || (s.seen == Empty && acc == [] && s.fuse == 0))
  }

  lemma EmitHeadStreams(s: State, acc: Bytes, finalizing: Option<u64>)
    requires Inv(s, acc) && s.stage != Finalized
    ensures var t := EmitHead(s, finalizing);
            && Streaming(t, acc, if s.headSent then s.declared else HeadLength(s, finalizing))
            && t == s.(stage := HeadCommitted, headSent := true, pending := t.pending, seen := t.seen, fuse := t.fuse)
            && (HeadGoesOut(s) <==> t.seen.Body?)
            && (s.headSent ==> t == s)
  {
  }

  lemma FrameOfContent(p: Payload, n: nat)
    requires InRange(p) && n <= Size(p)
    ensures |Content(p)| == Size(p)
    ensures FrameBody(FrameOf(p, n)) == Content(p)[..n]
    ensures 0 < n ==> BodyFrame(FrameOf(p, n))
  {
  }

  /** Queues the first `n` bytes of a payload, unless the response has no body or the receiver left. */
  lemma PushPayload(s: State, acc: Bytes, p: Payload, n: nat, cl: Option<u64>)
    requires Streaming(s, acc, cl) && s.seen.Body? && InRange(p) && n <= Size(p)
    ensures |Content(p)| == Size(p)
    ensures n == 0 || s.bodiless || CanSend(s) ==>
              Streaming(if 0 < n && !s.bodiless then Send(s, FrameOf(p, n)) else s, acc + Content(p)[..n], cl)
  {
    FrameOfContent(p, n);
    assert n == 0 ==> acc + Content(p)[..n] == acc;
  }

  lemma SealKeeps(s: State, acc: Bytes, cl: Option<u64>)
    requires Streaming(s, acc, cl)
    ensures Inv(Seal(s, false), acc)
  {
  }

  /** The last bytes were accepted but the receiver went before they could be queued. */
  lemma SealLostKeeps(s: State, acc: Bytes, lost: Bytes, cl: Option<u64>)
    requires Streaming(s, acc, cl) && s.fuse == 0
    ensures Inv(Seal(s, false), acc + lost)
  {
  }

  lemma DiscardKeeps(s: State, acc: Bytes, cl: Option<u64>)
    requires Inv(s, acc) || Streaming(s, acc, cl)
    ensures Inv(DiscardUnit(s), acc)
  {
  }

  /** Between verbs the head declares exactly what writeHead declared. */
  lemma StreamingRests(s: State, acc: Bytes)
    requires Streaming(s, acc, s.declared) && s.seen.Body?
    ensures Inv(s, acc)
  {
  }

  /** A write past the declared length: the part that fits goes out and the response seals. */
  lemma CutKeeps(s: State, acc: Bytes, p: Payload)
    requires Inv(s, acc) && s.stage != Finalized && InRange(p) && Exceeds(s, Size(p))
    requires |Content(p)| == Size(p) && s.declared.value - s.sentBody < Size(p)
    ensures Inv(SendCut(s, p), acc + Content(p)[..s.declared.value - s.sentBody])
  {
    hide Inv, EmitHead, Content, FrameOf, HeadFrame;
    InvCounted(s, acc);
    var cl := s.declared.value;
    var fit := cl - s.sentBody;
    EmitHeadStreams(s, acc, Some(cl));
    var a := EmitHead(s, Some(cl)).(sentBody := cl);
    var part := Content(p)[..fit];
    if a.seen.Body? && (fit == 0 || s.bodiless || CanSend(a)) {
      var b := if 0 < fit && !s.bodiless then Send(a, FrameOf(p, fit)) else a;
      assert SendCut(s, p) == Seal(b, false);
      PushPayload(a, acc, p, fit, Some(cl));
      SealKeeps(b, acc + part, Some(cl));
    } else {
      assert SendCut(s, p) == Seal(a, false);
      SealLostKeeps(a, acc, part, Some(cl));
    }
  }

  /** The receiver was gone when the head, or the body after it, should have been queued. */
  lemma LostKeeps(s: State, acc: Bytes, p: Payload, eos: bool)
    requires Inv(s, acc) && s.stage != Finalized && InRange(p) && !Exceeds(s, Size(p))
    requires SendBody(s, p, eos).1 == Discarded
    ensures Inv(SendBody(s, p, eos).0, acc)
  {
    var finalizing := OneShot(s, p, eos);
    var cl := if s.headSent then s.declared else HeadLength(s, finalizing);
    EmitHeadStreams(s, acc, finalizing);
    var a := EmitHead(s, finalizing);
    if HeadGoesOut(s) {
      DiscardKeeps(a.(sentBody := Add64(s.sentBody, Size(p))), acc, cl);
    } else {
      DiscardKeeps(a, acc, cl);
    }
  }

  lemma WithinKeeps(s: State, acc: Bytes, p: Payload, eos: bool)
    requires Inv(s, acc) && s.stage != Finalized && InRange(p) && !Exceeds(s, Size(p))
    requires SendBody(s, p, eos).1 == Ok
    ensures Inv(SendBody(s, p, eos).0, acc + Content(p))
  {
    var len := Size(p);
    var finalizing := OneShot(s, p, eos);
    var cl := if s.headSent then s.declared else HeadLength(s, finalizing);
    EmitHeadStreams(s, acc, finalizing);
    var b := EmitHead(s, finalizing).(sentBody := Add64(s.sentBody, len));
    PushPayload(b, acc, p, len, cl);
    assert Content(p)[..len] == Content(p);
    var c := if len > 0 && !s.bodiless then Send(b, FrameOf(p, len)) else b;
    if eos {
      SealKeeps(c, acc + Content(p), cl);
    } else {
      StreamingRests(c, acc + Content(p));
    }
  }

  /** writeTrailers and flush. */
  lemma ControlKeeps(s: State, acc: Bytes)
    requires Inv(s, acc) && s.stage != Finalized
    ensures var a := EmitHead(s, None);
            Inv(if HeadGoesOut(s) then a else DiscardUnit(a), acc)
    ensures var a := EmitHead(s, Some(s.sentBody));
            Inv(if HeadGoesOut(s) then Seal(a, false) else DiscardUnit(a), acc)
  {
    EmitHeadStreams(s, acc, None);
    DiscardKeeps(EmitHead(s, None), acc, s.declared);
    EmitHeadStreams(s, acc, Some(s.sentBody));
    var cl := if s.headSent then s.declared else HeadLength(s, Some(s.sentBody));
    SealKeeps(EmitHead(s, Some(s.sentBody)), acc, cl);
    DiscardKeeps(EmitHead(s, Some(s.sentBody)), acc, cl);
  }

  lemma CutIsTakeUpTo(s: State, p: Payload)
    requires Counted(s) && InRange(p) && Exceeds(s, Size(p)) && |Content(p)| == Size(p)
    ensures s.declared.value - s.sentBody < Size(p)
    ensures TakeUpTo(Content(p), s.declared, s.sentBody) == Content(p)[..s.declared.value - s.sentBody]
  {
  }

  /** A write keeps the invariant and accepts what its outcome says. */
  lemma SendBodyKeeps(s: State, acc: Bytes, p: Payload, eos: bool)
    requires Inv(s, acc) && s.stage != Finalized && InRange(p)
    ensures var (t, o) := SendBody(s, p, eos);
            match o
            case Ok => Inv(t, acc + Content(p))
            case ContentLengthExceeded => Exceeds(s, Size(p)) && Inv(t, acc + TakeUpTo(Content(p), s.declared, s.sentBody))
            case _ => o == Discarded && Inv(t, acc)
  {
    hide Inv, Content, TakeUpTo, SendCut, EmitHead;
    InvCounted(s, acc);
    if Exceeds(s, Size(p)) {
      FrameOfContent(p, Size(p));
      CutIsTakeUpTo(s, p);
      CutKeeps(s, acc, p);
    } else if SendBody(s, p, eos).1 == Ok {
      WithinKeeps(s, acc, p, eos);
    } else {
      LostKeeps(s, acc, p, eos);
    }
  }

  lemma InvCounted(s: State, acc: Bytes)
    requires Inv(s, acc)
    ensures Counted(s)
  {
  }

  lemma OpenSliceInRange(content: Option<Bytes>, offset: i63, length: Option<i63>)
    ensures var p := OpenSlice(content, offset, length);
            p.Some? ==> p.value.offset + p.value.len <= |p.value.file| && p.value.offset == offset
  {
  }

  /** One verb keeps the invariant and accepts exactly what its outcome says. */
  lemma StepKeeps(s: State, acc: Bytes, v: Verb)
    requires Inv(s, acc) && Possible(v)
    ensures Inv(Step(s, v).0, acc + Accepted(s, v))
  {
    hide LiveStep, DiscardUnit, Content;
    assert acc + [] == acc;
    var t := AfterCheck(s);
    if v.Discard? {
      DiscardKeeps(s, acc, None);
    } else if Cancelled(s) {
      DiscardKeeps(t, acc, None);
    } else if t.stage != Finalized {
      LiveStepKeeps(t, acc, v);
    }
  }

  lemma LiveStepKeeps(s: State, acc: Bytes, v: Verb)
    requires Inv(s, acc) && s.stage != Finalized && Possible(v)
    ensures Inv(LiveStep(s, v).0, acc + AcceptedAs(s, v, LiveStep(s, v).1))
  {
    assert acc + [] == acc;
    match v
    case WriteBody(data, eos) =>
      if data != [] || eos {
        SendBodyKeeps(s, acc, Buffer(data), eos);
      }
    case SendFile(content, offset, length, eos) =>
      var slice := OpenSlice(content, offset, length);
      if slice.Some? && !Exceeds(s, Size(slice.value)) {
        SendBodyKeeps(s, acc, slice.value, eos);
      }
    case Discard => DiscardKeeps(s, acc, None);
    case WriteHead(_, _, _) =>
    case _ => ControlKeeps(s, acc);
  }

  /** The bytes that the verbs of a run accepted, in order. */
  function RunAccepted(s: State, vs: seq<Verb>): Bytes
    requires AllPossible(vs) && Counted(s)
    decreases |vs|
  {
    if vs == [] then [] else Accepted(s, vs[0]) + RunAccepted(Step(s, vs[0]).0, vs[1..])
  }

  /** The state after the first verb of a run, with the bytes it accepted. */
  lemma NextState(s: State, acc: Bytes, vs: seq<Verb>) returns (t: State, more: Bytes)
    requires vs != [] && AllPossible(vs) && Inv(s, acc)
    ensures Counted(t) && Inv(t, acc + more)
    ensures Run(s, vs) == Run(t, vs[1..])
    ensures RunAccepted(s, vs) == more + RunAccepted(t, vs[1..])
  {
    StepKeeps(s, acc, vs[0]);
    return Step(s, vs[0]).0, Accepted(s, vs[0]);
  }

  /** Every run keeps the invariant, whatever the verbs are and whenever the receiver goes. */
  lemma {:induction false} RunKeeps(s: State, acc: Bytes, vs: seq<Verb>)
    requires AllPossible(vs) && Inv(s, acc)
    ensures Inv(Run(s, vs), acc + RunAccepted(s, vs))
    decreases |vs|
  {
    if vs == [] {
      assert acc + [] == acc;
    } else {
      hide Inv, Run, RunAccepted;
      var t, more := NextState(s, acc, vs);
      RunKeeps(t, acc + more, vs[1..]);
      Regroup(acc, more, RunAccepted(t, vs[1..]));
    }
  }

  lemma Regroup(a: Bytes, b: Bytes, c: Bytes)
    ensures (a + b) + c == a + (b + c)
  {
  }

  /** Drop settles the unit if nothing else did, and never turns an unfinished body into a clean end. */
  lemma DropKeeps(s: State, acc: Bytes, cycleDied: bool, full: bool)
    requires Inv(s, acc)
    ensures var t := Drop(s, cycleDied, full);
            && |t.handled| == 1
            && t.seen != Malformed
            && (t.seen != Empty ==> t.seen.start.bodiless == t.bodiless && t.seen.body <= Shown(t.bodiless, acc))
            && (t.seen.Complete? && !t.seen.truncated ==>
                  t.seen.start.bodiless == t.bodiless && t.seen.body == Shown(t.bodiless, acc))
            && (s.stage != Finalized && acc != [] ==> !(t.seen.Complete? && !t.seen.truncated))
  {
  }

  /** The state of the exchange after `vs`, and after its drop if `dropped` says so. */
  function After(head: bool, fuse: nat, vs: seq<Verb>, dropped: Option<(bool, bool)>): State
    requires AllPossible(vs)
  {
    var t := Run(New(head, fuse), vs);
    match dropped
    case None => t
    case Some((cycleDied, full)) => Drop(t, cycleDied, full)
  }

  /** What a state shows of the bytes that were accepted on the way to it. */
  predicate Faithful(t: State, acc: Bytes)
  {
    && t.seen != Malformed
    && |t.handled| <= 1
    && (t.seen != Empty && !t.seen.start.bodiless ==> t.seen.body <= acc)
    && (t.seen.Complete? && !t.seen.truncated && !t.seen.start.bodiless ==> t.seen.body == acc)
  }

  lemma InvFaithful(s: State, acc: Bytes)
    requires Inv(s, acc)
    ensures Faithful(s, acc)
  {
  }

  lemma DropFaithful(s: State, acc: Bytes, cycleDied: bool, full: bool)
    requires Inv(s, acc)
    ensures Faithful(Drop(s, cycleDied, full), acc) && |Drop(s, cycleDied, full).handled| == 1
  {
    hide Inv, Drop;
    DropKeeps(s, acc, cycleDied, full);
  }

  lemma AfterFaithful(head: bool, fuse: nat, vs: seq<Verb>, dropped: Option<(bool, bool)>)
    requires AllPossible(vs)
    ensures Faithful(After(head, fuse, vs, dropped), RunAccepted(New(head, fuse), vs))
    ensures dropped.Some? ==> |After(head, fuse, vs, dropped).handled| == 1
  {
    hide Inv, Faithful, Run, RunAccepted, Drop;
    var s := New(head, fuse);
    var acc := RunAccepted(s, vs);
    NewKeeps(head, fuse);
    RunKeeps(s, [], vs);
    assert [] + acc == acc;
    if dropped.Some? {
      DropFaithful(Run(s, vs), acc, dropped.value.0, dropped.value.1);
    } else {
      InvFaithful(Run(s, vs), acc);
    }
  }

  /** At every point of every run the queued frames obey the grammar, and the unit is counted at most once,
      and exactly once when it is gone. */
  lemma EveryRunWellFramed(head: bool, fuse: nat, vs: seq<Verb>, dropped: Option<(bool, bool)>, log: seq<Frame>)
    requires AllPossible(vs)
    requires Read(log) == After(head, fuse, vs, dropped).seen
    ensures Grammar(log)
    ensures |After(head, fuse, vs, dropped).handled| <= 1
    ensures dropped.Some? ==> |After(head, fuse, vs, dropped).handled| == 1
  {
    AfterFaithful(head, fuse, vs, dropped);
    WellFramed(log);
  }

  /** Whatever the verbs were and whenever the receiver left, the queued body is the beginning of what the
      verbs accepted. */
  lemma QueuedInOrder(head: bool, fuse: nat, vs: seq<Verb>, dropped: Option<(bool, bool)>, log: seq<Frame>)
    requires AllPossible(vs)
    requires Read(log) == After(head, fuse, vs, dropped).seen
    requires log != [] && log[0].Head? && !log[0].bodiless
    ensures BodyOf(log) <= RunAccepted(New(head, fuse), vs)
  {
    AfterFaithful(head, fuse, vs, dropped);
    WellFramed(log);
  }

  /** Once settled, an exchange stays as it is and every verb reports the same outcome for good. */
  lemma {:induction false} OutcomesAbsorb(s: State, vs: seq<Verb>, v: Verb)
    requires AllPossible(vs) && Possible(v) && Counted(s)
    requires s.stage == Finalized && !s.sender && !v.Discard?
    ensures Run(s, vs) == s
    ensures Step(Run(s, vs), v) ==
              (s, if s.discarded then Discarded else if v.WriteHead? then HeadWritten else AlreadyFinalized)
    decreases |vs|
  {
    if vs != [] {
      OutcomesAbsorb(Step(s, vs[0]).0, vs[1..], v);
    }
  }

  /** A write that makes the u64 count wrap, under a declared length that a body should keep, while the
      receiver is there to take it. */
  predicate Breaks(s: State, v: Verb)
  {
    var t := AfterCheck(s);
    && !v.Discard? && !Cancelled(s) && s.stage != Finalized && t.fuse > 0
    && s.declared.Some? && !s.bodiless
    && s.sentBody + OfferedSize(v) >= U64
  }

  predicate RunBreaks(s: State, vs: seq<Verb>)
    requires AllPossible(vs) && Counted(s)
    decreases |vs|
  {
    vs != [] && (Breaks(s, vs[0]) || RunBreaks(Step(s, vs[0]).0, vs[1..]))
  }

  /** As long as the stream keeps its declared length, the count is the number of accepted bytes. */
  predicate Exact(s: State, acc: Bytes)
  {
    s.stage != Finalized && s.declared.Some? && !s.bodiless ==> Overlong(s.seen) || s.sentBody == |acc|
  }

  /** The state in which a verb leaves the stream as long as it should be. */
  predicate Tracks(s: State, t: State, acc: Bytes, broken: bool)
  {
    (Overlong(t.seen) <==> Overlong(s.seen) || broken) && Exact(t, acc)
  }

  lemma CutTracks(s: State, acc: Bytes, p: Payload)
    requires Inv(s, acc) && Exact(s, acc) && s.stage != Finalized && InRange(p) && Exceeds(s, Size(p))
    ensures Overlong(SendCut(s, p).seen) <==> Overlong(s.seen)
  {
    FrameOfContent(p, s.declared.value - s.sentBody);
  }

  /** After the head, a write that goes through makes the body longer by its bytes. */
  lemma RestGrows(s: State, acc: Bytes, p: Payload, eos: bool, cl: Option<u64>)
    requires Streaming(s, acc, cl) && s.seen.Body? && InRange(p)
    ensures |Content(p)| == Size(p)
    ensures var (t, o) := SendRest(s, p, eos);
            && (o == Ok <==> Size(p) == 0 || s.bodiless || CanSend(s))
            && (t.seen.Body? || t.seen.Complete?) && t.seen.start == s.seen.start
            && t.seen.body == Shown(s.bodiless, if o == Ok then acc + Content(p) else acc)
            && t.sentBody == s.sentBody && t.declared == s.declared && t.bodiless == s.bodiless
            && (o != Ok ==> o == Discarded && t.stage == Finalized && t.seen == s.seen)
            && (o == Ok ==> t.stage == if eos then Finalized else HeadCommitted)
            && (t.seen.Complete? ==> eos && o == Ok && !t.seen.truncated)
  {
    FrameOfContent(p, Size(p));
    assert Content(p)[..Size(p)] == Content(p);
    assert Size(p) == 0 ==> acc + Content(p) == acc;
  }

  lemma WithinTracks(s: State, acc: Bytes, p: Payload, eos: bool)
    requires Inv(s, acc) && Exact(s, acc) && s.stage != Finalized && InRange(p) && !Exceeds(s, Size(p))
    ensures var broken := s.declared.Some? && !s.bodiless && CanSend(s) && s.sentBody + Size(p) >= U64;
            var (t, o) := SendBody(s, p, eos);
            Tracks(s, t, if o == Ok then acc + Content(p) else acc, broken)
  {
    hide EmitHead, SendRest, Content, ReadOne, HeadFrame;
    var finalizing := OneShot(s, p, eos);
    EmitHeadStreams(s, acc, finalizing);
    var a := EmitHead(s, finalizing);
    if HeadGoesOut(s) {
      var cl := if s.headSent then s.declared else HeadLength(s, finalizing);
      RestGrows(a.(sentBody := Add64(s.sentBody, Size(p))), acc, p, eos, cl);
    }
  }

  lemma ControlTracks(s: State, acc: Bytes, v: Verb)
    requires Inv(s, acc) && Exact(s, acc) && s.stage != Finalized && Possible(v) && Offered(v).None?
    ensures Tracks(s, LiveStep(s, v).0, acc, false)
  {
  }

  lemma SlicesInRange(v: Verb)
    requires Possible(v) && Offered(v).Some?
    ensures InRange(Offered(v).value)
  {
  }

  lemma LiveStepTracks(s: State, acc: Bytes, v: Verb)
    requires Inv(s, acc) && Exact(s, acc) && s.stage != Finalized && Possible(v)
    ensures var broken := s.declared.Some? && !s.bodiless && CanSend(s) && s.sentBody + OfferedSize(v) >= U64;
            Tracks(s, LiveStep(s, v).0, acc + AcceptedAs(s, v, LiveStep(s, v).1), broken)
  {
    assert acc + [] == acc;
    if Offered(v).None? {
      ControlTracks(s, acc, v);
    } else {
      SlicesInRange(v);
      var p := Offered(v).value;
      if !Exceeds(s, Size(p)) {
        WithinTracks(s, acc, p, v.eos);
      } else {
        CutTracks(s, acc, p);
      }
    }
  }

  lemma StepTracks(s: State, acc: Bytes, v: Verb)
    requires Inv(s, acc) && Exact(s, acc) && Possible(v)
    ensures Tracks(s, Step(s, v).0, acc + Accepted(s, v), Breaks(s, v))
  {
    assert acc + [] == acc;
    var t := AfterCheck(s);
    if !v.Discard? && !Cancelled(s) && t.stage != Finalized {
      LiveStepTracks(t, acc, v);
    }
  }

  lemma {:induction false} RunTracks(s: State, acc: Bytes, vs: seq<Verb>)
    requires AllPossible(vs) && Inv(s, acc) && Exact(s, acc)
    ensures Overlong(Run(s, vs).seen) <==> Overlong(s.seen) || RunBreaks(s, vs)
    decreases |vs|
  {
    if vs != [] {
      hide Inv, Exact, Overlong, Breaks, Accepted;
      StepKeeps(s, acc, vs[0]);
      StepTracks(s, acc, vs[0]);
      RunTracks(Step(s, vs[0]).0, acc + Accepted(s, vs[0]), vs[1..]);
    }
  }

  lemma DropNotLonger(s: State, acc: Bytes, cycleDied: bool, full: bool)
    requires Inv(s, acc)
    ensures Overlong(Drop(s, cycleDied, full).seen) <==> Overlong(s.seen)
  {
  }

  lemma AfterTracks(head: bool, fuse: nat, vs: seq<Verb>, dropped: Option<(bool, bool)>)
    requires AllPossible(vs)
    ensures Overlong(After(head, fuse, vs, dropped).seen) <==> RunBreaks(New(head, fuse), vs)
  {
    hide Inv, Run, RunAccepted, RunBreaks, Drop;
    var s := New(head, fuse);
    NewKeeps(head, fuse);
    RunTracks(s, [], vs);
    RunKeeps(s, [], vs);
    if dropped.Some? {
      DropNotLonger(Run(s, vs), [] + RunAccepted(s, vs), dropped.value.0, dropped.value.1);
    }
  }

  /** The u64 byte count is the limit of the framing promise. A run exceeds its declared length exactly when
      one of its writes makes the count wrap while the receiver is there. */
  lemma OverflowBreaksFraming(head: bool, fuse: nat, vs: seq<Verb>, dropped: Option<(bool, bool)>, log: seq<Frame>)
    requires AllPossible(vs)
    requires Read(log) == After(head, fuse, vs, dropped).seen
    ensures Bounded(log) <==> !RunBreaks(New(head, fuse), vs)
  {
    hide After, RunBreaks, Read, Bounded;
    AfterTracks(head, fuse, vs, dropped);
    AfterFaithful(head, fuse, vs, dropped);
    WellFramed(log);
  }

  /** End to end (section 6.3 of RFC 9112): a consumer that ends cleanly delivered exactly the accepted
      bytes, in order; and exactly as many as the head declared, unless a write of the run wrapped the count. */
  lemma EndToEnd(head: bool, fuse: nat, vs: seq<Verb>, dropped: Option<(bool, bool)>,
                 log: seq<Frame>, declared: Option<u64>, delivered: Bytes)
    requires AllPossible(vs)
    requires Read(log) == After(head, fuse, vs, dropped).seen
    requires log != [] && log[0].Head? && log[0].contentLength == declared && !log[0].bodiless
    requires CleanEnd(log, declared, delivered)
    ensures delivered == RunAccepted(New(head, fuse), vs)
    ensures declared.Some? ==> (|delivered| == declared.value <==> !RunBreaks(New(head, fuse), vs))
  {
    hide After, RunBreaks, RunAccepted, Read, Bounded;
    AfterFaithful(head, fuse, vs, dropped);
    OverflowBreaksFraming(head, fuse, vs, dropped, log);
    WellFramed(log);
    CleanEndIsExact(log, declared, delivered);
  }

  function TotalOffered(vs: seq<Verb>): nat
  {
    if vs == [] then 0 else OfferedSize(vs[0]) + TotalOffered(vs[1..])
  }

  lemma SendRestCounts(s: State, p: Payload, eos: bool)
    ensures SendRest(s, p, eos).0.sentBody == s.sentBody
  {
    hide ReadOne, FrameOf;
  }

  lemma SendBodyCounts(s: State, p: Payload, eos: bool)
    requires Size(p) < I64 && Counted(s) && s.sentBody + Size(p) < U64
    ensures SendBody(s, p, eos).0.sentBody <= s.sentBody + Size(p)
  {
    hide SendCut, SendRest, ReadOne, FrameOf;
    if Exceeds(s, Size(p)) {
      SendCutCounted(s, p);
    } else {
      SendRestCounts(EmitHead(s, OneShot(s, p, eos)).(sentBody := Add64(s.sentBody, Size(p))), p, eos);
    }
  }

  lemma StepCounts(s: State, v: Verb)
    requires Possible(v) && Counted(s) && s.sentBody + OfferedSize(v) < U64
    ensures Step(s, v).0.sentBody <= s.sentBody + OfferedSize(v)
  {
    if Offered(v).Some? {
      SendBodyCounts(AfterCheck(s), Offered(v).value, v.eos);
    }
  }

  /** It takes 2^64 offered bytes to break the length. */
  lemma {:induction false} SmallOffersDoNotBreak(s: State, vs: seq<Verb>)
    requires AllPossible(vs) && Counted(s) && s.sentBody + TotalOffered(vs) < U64
    ensures !RunBreaks(s, vs)
    decreases |vs|
  {
    if vs != [] {
      StepCounts(s, vs[0]);
      SmallOffersDoNotBreak(Step(s, vs[0]).0, vs[1..]);
    }
  }

  function Slice62(file: Bytes): Verb
  {
    SendFile(Some(file), 0, None, false)
  }

  /** A slice of 2^62 bytes fits as long as the count does not wrap. */
  lemma NextSlice(s: State, file: Bytes)
    requires s.stage == HeadCommitted && s.declared == Some(U64 - 1) && !s.bodiless && !s.discarded && s.sender
    requires |file| == 0x4000_0000_0000_0000 && s.sentBody + |file| < U64 && s.fuse >= 3
    ensures var t := Step(s, Slice62(file)).0;
            && t == s.(sentBody := s.sentBody + |file|, headSent := true, seen := t.seen, fuse := t.fuse, pending := t.pending)
            && t.fuse >= s.fuse - 3
  {
  }

  /** Four slices of 2^62 bytes fit a declared length of 2^64 - 1 as far as the count can tell. */
  lemma OverflowExample(file: Bytes)
    requires |file| == 0x4000_0000_0000_0000
    ensures var send := Slice62(file);
            RunBreaks(New(false, 100), [WriteHead(200, [Some(U64 - 1)], []), send, send, send, send])
  {
    var send, head := Slice62(file), WriteHead(200, [Some(U64 - 1)], []);
    var s := Step(New(false, 100), head).0;
    NextSlice(s, file);
    var s1 := Step(s, send).0;
    NextSlice(s1, file);
    var s2 := Step(s1, send).0;
    NextSlice(s2, file);
    var s3 := Step(s2, send).0;
    assert Breaks(s3, send);
    assert RunBreaks(s3, [send]);
    assert [send, send][1..] == [send];
    assert [send, send, send][1..] == [send, send];
    assert [send, send, send, send][1..] == [send, send, send];
    assert [head, send, send, send, send][1..] == [send, send, send, send];
    assert RunBreaks(s2, [send, send]);
    assert RunBreaks(s1, [send, send, send]);
    assert RunBreaks(s, [send, send, send, send]);
  }
}
