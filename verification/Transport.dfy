/** The two halves of a response at once: verbs of the handler, polls of the transport and the departure of the
    receiver in any order. */
module Transports {
  import opened Basics
  import opened Exchanges
  import opened ExchangeRuns
  import opened ExchangeSpec
  import opened Frames
  import opened ReplyBodies

  /** `Free` is the end of the exchange object; `Leave` the moment the receiver is gone for good. */
  datatype Event =
    | Call(verb: Verb)
    | Free(cycleDied: bool, full: bool)
    | Leave
    | Look(read: FileRead)

  datatype Side = Side(state: State, freed: bool)

  predicate Sane(events: seq<Event>)
  {
    forall e | e in events && e.Call? :: Possible(e.verb)
  }

  predicate Lives(p: Side)
  {
    !p.freed ==> Counted(p.state)
  }

  /** What an event does to the producer. Nobody calls a freed exchange. */
  function Act(p: Side, e: Event): (q: Side)
    requires Lives(p) && (e.Call? ==> Possible(e.verb))
    ensures Lives(q)
  {
    match e
    case Call(verb) => if p.freed then p else p.(state := Step(p.state, verb).0)
    case Free(cycleDied, full) => if p.freed then p else Side(Drop(p.state, cycleDied, full), true)
    case Leave => p.(state := p.state.(fuse := 0))
    case Look(_) => p
  }

  function Played(head: bool, fuse: nat, events: seq<Event>): (p: Side)
    requires Sane(events)
    ensures Lives(p)
  {
    if |events| == 0 then Side(New(head, fuse), false)
    else Act(Played(head, fuse, events[..|events| - 1]), events[|events| - 1])
  }

  /** The bytes that the calls of a schedule accepted, in order. */
  function Taken(head: bool, fuse: nat, events: seq<Event>): Bytes
    requires Sane(events)
  {
    if |events| == 0 then []
    else
      var p, e := Played(head, fuse, events[..|events| - 1]), events[|events| - 1];
      Taken(head, fuse, events[..|events| - 1]) + if e.Call? && !p.freed then Accepted(p.state, e.verb) else []
  }

  /** Some call of the schedule wrapped the byte count under a declared length, with the receiver there. */
  predicate Wrapped(head: bool, fuse: nat, events: seq<Event>)
    requires Sane(events)
  {
    |events| > 0 &&
    var p, e := Played(head, fuse, events[..|events| - 1]), events[|events| - 1];
    Wrapped(head, fuse, events[..|events| - 1]) || (e.Call? && !p.freed && Breaks(p.state, e.verb))
  }

  predicate Holds(p: Side, acc: Bytes, wrapped: bool)
  {
    && Faithful(p.state, acc)
    && (!p.freed ==> Inv(p.state, acc) && Exact(p.state, acc))
    && (Overlong(p.state.seen) <==> wrapped)
  }

  lemma LeaveKeeps(s: State, acc: Bytes)
    requires Inv(s, acc)
    ensures Inv(s.(fuse := 0), acc)
  {
  }

  lemma ActKeeps(p: Side, acc: Bytes, wrapped: bool, e: Event)
    requires Lives(p) && (e.Call? ==> Possible(e.verb)) && Holds(p, acc, wrapped)
    ensures var calls := e.Call? && !p.freed;
            Holds(Act(p, e), acc + if calls then Accepted(p.state, e.verb) else [],
                  wrapped || (calls && Breaks(p.state, e.verb)))
  {
    hide Inv, Faithful, Overlong, Accepted, Breaks;
    assert acc + [] == acc;
    match e {
      case Call(verb) =>
        if !p.freed {
          StepKeeps(p.state, acc, verb);
          StepTracks(p.state, acc, verb);
          InvFaithful(Step(p.state, verb).0, acc + Accepted(p.state, verb));
        }
      case Free(cycleDied, full) =>
        if !p.freed {
          DropFaithful(p.state, acc, cycleDied, full);
          DropNotLonger(p.state, acc, cycleDied, full);
        }
      case Leave =>
        LeaveFaithful(p.state, acc);
        if !p.freed {
          LeaveKeeps(p.state, acc);
        }
      case Look(_) =>
    }
  }

  lemma LeaveFaithful(s: State, acc: Bytes)
    requires Faithful(s, acc)
    ensures Faithful(s.(fuse := 0), acc)
  {
  }

  lemma {:induction false} ScheduleKeeps(head: bool, fuse: nat, events: seq<Event>)
    requires Sane(events)
    ensures Holds(Played(head, fuse, events), Taken(head, fuse, events), Wrapped(head, fuse, events))
    decreases |events|
  {
    if |events| == 0 {
      NewKeeps(head, fuse);
    } else {
      hide Holds, Act, Accepted, Breaks;
      var n := |events| - 1;
      ScheduleKeeps(head, fuse, events[..n]);
      ActKeeps(Played(head, fuse, events[..n]), Taken(head, fuse, events[..n]), Wrapped(head, fuse, events[..n]), events[n]);
    }
  }

  /** What the consumer has delivered, measured by what the producer accepted. */
  lemma HalvesAgree(body: ReplyBody, log: seq<Frame>, s: State, acc: Bytes)
    requires body.Valid() && body.Follows(log) && Read(log) == s.seen && Faithful(s, acc)
    requires log != [] && log[0].Head? && !log[0].bodiless && body.declared == log[0].contentLength
    ensures body.delivered <= acc
    ensures !body.reply && !body.errArmed ==>
              && body.delivered == acc
              && (body.declared.Some? ==> (|body.delivered| == body.declared.value <==> !Overlong(s.seen)))
  {
    WellFramed(log);
    body.DeliveredInOrder(log);
    if !body.reply && !body.errArmed {
      body.CleanPrefix(log);
      CleanEndIsExact(log, body.declared, body.delivered);
    }
  }

  lemma PlayedNext(head: bool, fuse: nat, done: seq<Event>, e: Event)
    requires Sane(done) && (e.Call? ==> Possible(e.verb))
    ensures Sane(done + [e]) && Played(head, fuse, done + [e]) == Act(Played(head, fuse, done), e)
  {
    assert (done + [e])[..|done|] == done;
  }

  /** The two halves after a schedule. */
  ghost predicate Agree(body: ReplyBody, head: bool, fuse: nat, events: seq<Event>)
    requires Sane(events)
    reads body
  {
    && body.delivered <= Taken(head, fuse, events)
    && (!body.reply && !body.errArmed ==> body.delivered == Taken(head, fuse, events))
    && (!body.reply && !body.errArmed && body.declared.Some? ==>
          (|body.delivered| == body.declared.value <==> !Wrapped(head, fuse, events)))
  }

  lemma ScheduleAgrees(body: ReplyBody, log: seq<Frame>, head: bool, fuse: nat, events: seq<Event>)
    requires Sane(events) && Read(log) == Played(head, fuse, events).state.seen
    requires body.Valid() && body.Follows(log)
    requires log != [] && log[0].Head? && !log[0].bodiless && body.declared == log[0].contentLength
    ensures Agree(body, head, fuse, events)
  {
    hide Inv, Exact, Faithful, Overlong, Played, Taken, Wrapped;
    ScheduleKeeps(head, fuse, events);
    HalvesAgree(body, log, Played(head, fuse, events).state, Taken(head, fuse, events));
  }

  /** Both halves are where the schedule `done` has brought them. */
  ghost predicate Joint(ex: Exchange, tx: Channel, body: ReplyBody, head: bool, fuse: nat, done: seq<Event>, freed: bool)
    requires Sane(done)
    reads ex, ex.channel, tx, body
  {
    && ex.Valid() && tx == ex.channel && Played(head, fuse, done) == Side(ex.View(), freed)
    && body.Valid() && body.Follows(tx.log)
    && tx.log != [] && tx.log[0].Head? && !tx.log[0].bodiless && body.declared == tx.log[0].contentLength
  }

  /** Plays the rest of a schedule on the two halves. Since the schedule may be any, and may stop anywhere: at
      every moment the delivered data is the beginning of what the calls accepted; and a consumer that came
      to its end delivered all of it, and exactly the declared length unless a call wrapped the count. */
  method Play(ex: Exchange, tx: Channel, body: ReplyBody, ghost head: bool, ghost fuse: nat, ghost past: seq<Event>,
              freedBefore: bool, events: seq<Event>)
    returns (freed: bool)
    requires Sane(past) && Sane(events) && Joint(ex, tx, body, head, fuse, past, freedBefore)
    modifies ex, tx, body
    ensures Sane(past + events) && Joint(ex, tx, body, head, fuse, past + events, freed)
    ensures Agree(body, head, fuse, past + events)
  {
    hide Joint, Agree;
    freed := freedBefore;
    var i := 0;
    ghost var done := past;
    assert past + events[..0] == past;
    while i < |events|
      invariant 0 <= i <= |events| && done == past + events[..i] && Sane(done)
      invariant Joint(ex, tx, body, head, fuse, done, freed)
    {
      assert done + [events[i]] == past + events[..i + 1];
      assert events[i] in events;
      freed := PlayNext(ex, tx, body, head, fuse, done, events[i], freed);
      done, i := done + [events[i]], i + 1;
    }
    assert events[..i] == events;
    JointAgrees(ex, tx, body, head, fuse, done, freed);
  }

  lemma JointAgrees(ex: Exchange, tx: Channel, body: ReplyBody, head: bool, fuse: nat, done: seq<Event>, freed: bool)
    requires Sane(done) && Joint(ex, tx, body, head, fuse, done, freed)
    ensures Agree(body, head, fuse, done)
  {
    hide Played, Agree;
    ScheduleAgrees(body, tx.log, head, fuse, done);
  }

  method PlayNext(ex: Exchange, tx: Channel, body: ReplyBody, ghost head: bool, ghost fuse: nat, ghost done: seq<Event>,
                  e: Event, freed: bool)
    returns (free: bool)
    requires Sane(done) && (e.Call? ==> Possible(e.verb)) && Joint(ex, tx, body, head, fuse, done, freed)
    modifies ex, tx, body
    ensures Sane(done + [e]) && Joint(ex, tx, body, head, fuse, done + [e], free)
  {
    hide Played, Act;
    PlayedNext(head, fuse, done, e);
    free := PlayOne(ex, tx, body, e, freed);
  }

  /** One event, on the half that it concerns. */
  method PlayOne(ex: Exchange, tx: Channel, body: ReplyBody, e: Event, freed: bool) returns (free: bool)
    requires ex.Valid() && tx == ex.channel && Lives(Side(ex.View(), freed)) && (e.Call? ==> Possible(e.verb))
    requires body.Valid() && body.Follows(tx.log)
    modifies ex, tx, body
    ensures ex.Valid() && Side(ex.View(), free) == Act(old(Side(ex.View(), freed)), e)
    ensures old(tx.log) <= tx.log && body.declared == old(body.declared)
    ensures body.Valid() && body.Follows(tx.log)
  {
    ghost var log := tx.log;
    free := freed;
    match e {
      case Look(read) =>
        var _ := body.PollFrame(tx.log, ex.sender == null, read);
      case _ =>
        free := PlayProducer(ex, tx, e, freed);
        body.FollowsLater(log, tx.log);
    }
  }

  /** An event that the consumer has no part in. */
  method PlayProducer(ex: Exchange, tx: Channel, e: Event, freed: bool) returns (free: bool)
    requires ex.Valid() && tx == ex.channel && Lives(Side(ex.View(), freed)) && (e.Call? ==> Possible(e.verb))
    requires !e.Look?
    modifies ex, tx
    ensures ex.Valid() && Side(ex.View(), free) == Act(old(Side(ex.View(), freed)), e)
    ensures old(tx.log) <= tx.log
  {
    free := freed;
    match e {
      case Call(verb) =>
        if !freed {
          var _ := PlayVerb(ex, verb);
        }
      case Free(cycleDied, full) =>
        if !freed {
          ex.Drop(cycleDied, full);
          free := true;
        }
      case Leave =>
        tx.fuse := 0;
    }
  }

  /** The producer is where the schedule `done` has brought it, and nobody looks at its frames yet. */
  ghost predicate Opening(ex: Exchange, tx: Channel, head: bool, fuse: nat, done: seq<Event>, freed: bool)
    requires Sane(done)
    reads ex, ex.channel, tx
  {
    ex.Valid() && tx == ex.channel && Played(head, fuse, done) == Side(ex.View(), freed)
  }

  /** A whole request: the producer runs until its first frame is queued; with a head that allows a body the
      handler makes the consumer, with the next frame staged if it `stages` one; then both run on. Nobody polls
      before there is a consumer. */
  method Serve(head: bool, fuse: nat, events: seq<Event>, stages: bool)
    returns (ex: Exchange, tx: Channel, body: ReplyBody?, freed: bool, used: nat)
    requires Sane(events)
    ensures used <= |events| && Sane(events[..used])
    ensures body != null ==> Joint(ex, tx, body, head, fuse, events, freed) && Agree(body, head, fuse, events)
    ensures body == null ==>
              var seen := Played(head, fuse, events[..used]).state.seen;
              if seen == Empty then used == |events| else (seen.Body? || seen.Complete?) && seen.start.bodiless
  {
    hide Joint, Agree, Played, Act;
    tx := new Channel(fuse);
    ex := new Exchange(head, tx);
    body := null;
    freed, used := Open(ex, tx, head, fuse, events);
    if tx.log == [] {
      return;
    }
    FirstIsHead(ex, tx, head, fuse, events[..used], freed);
    if tx.log[0].bodiless {
      return;
    }
    body := Join(ex, tx, head, fuse, events[..used], freed, stages);
    assert events[..used] + events[used..] == events;
    freed := Play(ex, tx, body, head, fuse, events[..used], freed, events[used..]);
  }

  /** Makes the consumer of a stream that began. */
  method Join(ghost ex: Exchange, tx: Channel, ghost head: bool, ghost fuse: nat, ghost done: seq<Event>,
              ghost freed: bool, stages: bool)
    returns (body: ReplyBody)
    requires Sane(done) && Opening(ex, tx, head, fuse, done, freed)
    requires tx.log != [] && tx.log[0].Head? && !tx.log[0].bodiless
    ensures fresh(body) && Joint(ex, tx, body, head, fuse, done, freed)
  {
    hide Played;
    var first := tx.log[0];
    var staged := if stages && first.contentLength.Some? && |tx.log| > 1 then Some(tx.log[1]) else None;
    body := new ReplyBody(tx.log, first.contentLength, staged);
  }

  /** Runs the producer until the first frame is queued. */
  method Open(ex: Exchange, tx: Channel, ghost head: bool, ghost fuse: nat, events: seq<Event>)
    returns (freed: bool, used: nat)
    requires Sane(events) && ex.Valid() && tx == ex.channel && tx.log == [] && ex.View() == New(head, fuse)
    modifies ex, tx
    ensures used <= |events| && Sane(events[..used]) && Opening(ex, tx, head, fuse, events[..used], freed)
    ensures tx.log == [] ==> used == |events|
  {
    hide Act;
    freed, used := false, 0;
    while used < |events| && tx.log == []
      invariant used <= |events| && Sane(events[..used])
      invariant Opening(ex, tx, head, fuse, events[..used], freed)
      decreases |events| - used
    {
      var e := events[used];
      assert events[..used] + [e] == events[..used + 1];
      PlayedNext(head, fuse, events[..used], e);
      if e.Look? {
        LookNothing(Side(ex.View(), freed), e);
      } else {
        freed := PlayProducer(ex, tx, e, freed);
      }
      used := used + 1;
    }
  }

  lemma LookNothing(p: Side, e: Event)
    requires Lives(p) && e.Look?
    ensures Act(p, e) == p
  {
  }

  /** The first frame of a stream is its head. */
  lemma FirstIsHead(ex: Exchange, tx: Channel, head: bool, fuse: nat, done: seq<Event>, freed: bool)
    requires Sane(done) && Opening(ex, tx, head, fuse, done, freed) && tx.log != []
    ensures tx.log[0].Head?
    ensures var seen := Played(head, fuse, done).state.seen;
            (seen.Body? || seen.Complete?) && seen.start.bodiless == tx.log[0].bodiless
  {
    ScheduleKeeps(head, fuse, done);
    WellFramed(tx.log);
  }

  method PlayVerb(ex: Exchange, v: Verb) returns (o: Outcome)
    requires ex.Valid() && Counted(ex.View()) && Possible(v)
    modifies ex, ex.channel
    ensures ex.Valid() && (ex.View(), o) == Step(old(ex.View()), v)
    ensures old(ex.channel.log) <= ex.channel.log
  {
    match v
    case WriteHead(status, lengths, fields) => o := ex.WriteHeadCore(status, lengths, fields);
    case WriteBody(data, eos) => o := ex.WriteBodyCore(data, eos);
    case SendFile(content, offset, length, eos) => o := ex.SendFileCore(content, offset, length, eos);
    case WriteTrailers => o := ex.WriteTrailersCore();
    case Flush => o := ex.FlushCore();
    case Discard =>
      ex.DiscardUnit();
      o := Ok;
  }
}
