/** The buffered producer of the classic and worker modes: output collects in one body, and the response goes
    out at the end as Head, at most one Chunk, and End. */
module BufferedReplies {
  import opened Basics
  import opened Frames
  import E = Exchanges

  /** The largest body that is buffered. */
  const CAP := 0x4000_0000

  datatype Stream = NotSent | HeadSent | BodyStreamed

  /** What the header parser makes of the content-length field of a head. */
  type LengthField = ResponseHead -> Option<u64>

  datatype State = State(head: Option<ResponseHead>, body: Bytes, stream: Stream, tearingDown: bool,
                         headRequest: bool, sender: bool, log: seq<Frame>, fuse: nat)

  /** `codes` holds one parsed Status field each; None is a field that is no status. */
  datatype Event =
    | SendHeaders(status: nat, codes: seq<Option<nat>>, fields: seq<(string, Bytes)>)
    | Write(status: nat, data: Bytes)
    | TearDown
    | Finalize(errored: bool)

  function New(headRequest: bool, fuse: nat): State
  {
    State(None, [], NotSent, false, headRequest, true, [], fuse)
  }

  predicate NoContent(status: nat)
  {
    status in {204, 304} || 100 <= status < 200
  }

  predicate Bodiless(head: ResponseHead, headRequest: bool)
  {
    NoContent(head.status) || headRequest
  }

  /** The declared length: the whole body when it is whole, the handler's own word for HEAD, otherwise none. */
  function LengthOf(head: ResponseHead, body: Bytes, headRequest: bool, truncated: bool, given: LengthField): Option<u64>
    requires |body| <= CAP
  {
    if NoContent(head.status) then None
    else if headRequest then given(head)
    else if truncated then None else Some(|body|)
  }

  function FinishFrames(head: Option<ResponseHead>, body: Bytes, headRequest: bool, truncated: bool,
                        given: LengthField): seq<Frame>
    requires |body| <= CAP
  {
    match head
    case None => [End(truncated)]
    case Some(h) =>
      [Head(h, LengthOf(h, body, headRequest, truncated, given), Bodiless(h, headRequest))]
      + (if body == [] then [] else [Chunk(body)]) + [End(truncated)]
  }

  /** Each frame goes out while the receiver is there. */
  function SendAll(s: State, frames: seq<Frame>): State
  {
    var n := Min(|frames|, s.fuse);
    s.(log := s.log + frames[..n], fuse := s.fuse - n)
  }

  function Finish(s: State, truncated: bool, given: LengthField): State
    requires |s.body| <= CAP
  {
    if !s.sender then s
    else
      SendAll(s.(sender := false, body := [], head := None),
              FinishFrames(s.head, s.body, s.headRequest, truncated, given))
  }

  /** The last Status field that is one overrides the status. */
  function StatusOf(status: nat, codes: seq<Option<nat>>): nat
  {
    if |codes| == 0 then status
    else if codes[|codes| - 1].Some? then codes[|codes| - 1].value
    else StatusOf(status, codes[..|codes| - 1])
  }

  function CommitHead(s: State, status: nat, codes: seq<Option<nat>>, fields: seq<(string, Bytes)>): State
  {
    s.(head := Some(ResponseHead(StatusOf(status, codes), fields)), stream := HeadSent)
  }

  function WriteTo(s: State, status: nat, data: Bytes, given: LengthField): State
    requires |s.body| <= CAP
  {
    var a := if s.stream.NotSent? then CommitHead(s, status, [], []) else s;
    if !a.sender then a
    else if a.fuse == 0 then Finish(a, false, given)
    else
      var b := a.(fuse := a.fuse - 1);
      if |b.body| + |data| > CAP then Finish(b, true, given)
      else b.(body := b.body + data, stream := if b.tearingDown then b.stream else BodyStreamed)
  }

  predicate Truncates(s: State, errored: bool)
  {
    errored && s.stream.BodyStreamed?
  }

  function Step(s: State, e: Event, given: LengthField): (t: State)
    requires |s.body| <= CAP
    ensures |t.body| <= CAP
  {
    match e
    case SendHeaders(status, codes, fields) => if s.stream.NotSent? then CommitHead(s, status, codes, fields) else s
    case Write(status, data) => WriteTo(s, status, data, given)
    case TearDown => s.(tearingDown := true)
    case Finalize(errored) =>
      var a := if errored && s.stream.NotSent? then CommitHead(s, 500, [], []) else s;
      Finish(a, Truncates(s, errored), given)
  }

  /** The bytes that an event adds to the response. */
  function Accepted(s: State, e: Event): Bytes
  {
    if e.Write? && s.sender && s.fuse > 0 && |s.body| + |e.data| <= CAP then e.data else []
  }

  function Run(s: State, events: seq<Event>, given: LengthField): (t: State)
    requires |s.body| <= CAP
    ensures |t.body| <= CAP
    decreases |events|
  {
    if events == [] then s else Run(Step(s, events[0], given), events[1..], given)
  }

  function RunAccepted(s: State, events: seq<Event>, given: LengthField): Bytes
    requires |s.body| <= CAP
    decreases |events|
  {
    if events == [] then []
    else Accepted(s, events[0]) + RunAccepted(Step(s, events[0], given), events[1..], given)
  }

  /** The log holds the beginning of one finished response with the accepted body. */
  ghost predicate Finished(s: State, acc: Bytes, given: LengthField)
  {
    |acc| <= CAP && exists head, truncated :: s.log <= FinishFrames(head, acc, s.headRequest, truncated, given)
  }

  ghost predicate Inv(s: State, acc: Bytes, given: LengthField)
  {
    if s.sender then s.log == [] && s.body == acc && |acc| <= CAP && (s.stream.NotSent? <==> s.head.None?)
    else s.body == [] && Finished(s, acc, given)
  }

  lemma FinishKeeps(s: State, acc: Bytes, truncated: bool, given: LengthField)
    requires Inv(s, acc, given)
    ensures Inv(Finish(s, truncated, given), acc, given)
  {
    if s.sender {
      var frames := FinishFrames(s.head, acc, s.headRequest, truncated, given);
      assert Finish(s, truncated, given).log == frames[..Min(|frames|, s.fuse)];
    }
  }

  lemma WriteKeeps(s: State, acc: Bytes, status: nat, data: Bytes, given: LengthField)
    requires Inv(s, acc, given)
    ensures Inv(WriteTo(s, status, data, given), acc + Accepted(s, Write(status, data)), given)
  {
    hide Finish;
    assert acc + [] == acc;
    var a := if s.stream.NotSent? then CommitHead(s, status, [], []) else s;
    FinishKeeps(a, acc, false, given);
    if a.fuse > 0 {
      FinishKeeps(a.(fuse := a.fuse - 1), acc, true, given);
    }
  }

  lemma StepKeeps(s: State, acc: Bytes, e: Event, given: LengthField)
    requires Inv(s, acc, given)
    ensures Inv(Step(s, e, given), acc + Accepted(s, e), given)
  {
    hide Finish;
    assert acc + [] == acc;
    match e {
      case Write(status, data) => WriteKeeps(s, acc, status, data, given);
      case Finalize(errored) =>
        var a := if errored && s.stream.NotSent? then CommitHead(s, 500, [], []) else s;
        FinishKeeps(a, acc, Truncates(s, errored), given);
      case SendHeaders(status, codes, fields) =>
      case TearDown =>
    }
  }

  lemma {:induction false} RunKeeps(s: State, acc: Bytes, events: seq<Event>, given: LengthField)
    requires Inv(s, acc, given)
    ensures Inv(Run(s, events, given), acc + RunAccepted(s, events, given), given)
    decreases |events|
  {
    if events == [] {
      assert acc + [] == acc;
    } else {
      var more := Accepted(s, events[0]);
      var t := Step(s, events[0], given);
      StepKeeps(s, acc, events[0], given);
      RunKeeps(t, acc + more, events[1..], given);
      assert (acc + more) + RunAccepted(t, events[1..], given) == acc + (more + RunAccepted(t, events[1..], given));
    }
  }

  /** How a reader takes a finished response: it finds it malformed exactly when a bodiless head is followed
      by the output that PHP produced all the same. */
  lemma FinishReads(h: ResponseHead, body: Bytes, headRequest: bool, truncated: bool, given: LengthField)
    requires |body| <= CAP
    ensures var frames := FinishFrames(Some(h), body, headRequest, truncated, given);
            var start := Start(h, LengthOf(h, body, headRequest, truncated, given), Bodiless(h, headRequest));
            && (Read(frames) == Malformed <==> Bodiless(h, headRequest) && body != [])
            && (Read(frames) != Malformed ==> Read(frames) == Complete(start, body, truncated))
  {
    var head := Head(h, LengthOf(h, body, headRequest, truncated, given), Bodiless(h, headRequest));
    ReadAppend([], head);
    assert [] + [head] == [head];
    ReadAppend([head], Chunk(body));
    ReadAppend([head], End(truncated));
    ReadAppend([head] + [Chunk(body)], End(truncated));
    assert [head] + [] == [head];
  }

  /** What the stream of a reply leaves the grammar by: an End with no head before it, or output behind a
      bodiless head. */
  predicate Stray(log: seq<Frame>, acc: Bytes)
  {
    || (log != [] && log[0].End?)
    || (|log| >= 2 && log[0].Head? && log[0].bodiless && acc != [])
  }

  /** The same up to any close point, and without a head. */
  lemma PrefixReads(log: seq<Frame>, head: Option<ResponseHead>, body: Bytes, headRequest: bool, truncated: bool,
                    given: LengthField)
    requires |body| <= CAP && log <= FinishFrames(head, body, headRequest, truncated, given)
    ensures Read(log) == Malformed <==> Stray(log, body)
    ensures log != [] && log[0].Head? ==> log[0].bodiless == Bodiless(log[0].head, headRequest)
  {
    assert Read([]) == Empty;
    hide Read, LengthOf, Bodiless;
    var frames := FinishFrames(head, body, headRequest, truncated, given);
    if log == [] {
    } else if head.None? {
      EndReads(truncated);
      assert log == [End(truncated)];
    } else {
      var first := Head(head.value, LengthOf(head.value, body, headRequest, truncated, given), Bodiless(head.value, headRequest));
      FinishReads(head.value, body, headRequest, truncated, given);
      HeadReads(first);
      assert log[0] == frames[0] == first;
      if |log| == 1 {
        assert log == [first];
      } else if |log| < |frames| {
        ChunkReads(first, body);
        assert log[1] == frames[1] == Chunk(body);
        assert log == [first, Chunk(body)];
      } else {
        assert log == frames;
      }
    }
  }

  lemma EndReads(truncated: bool)
    ensures Read([End(truncated)]) == Malformed
  {
    ReadAppend([], End(truncated));
    assert [] + [End(truncated)] == [End(truncated)];
  }

  lemma HeadReads(head: Frame)
    requires head.Head?
    ensures Read([head]) == Body(Start(head.head, head.contentLength, head.bodiless), [])
  {
    ReadAppend([], head);
    assert [] + [head] == [head];
  }

  lemma ChunkReads(head: Frame, body: Bytes)
    requires head.Head? && body != []
    ensures Read([head, Chunk(body)]) == Malformed <==> head.bodiless
  {
    HeadReads(head);
    ReadAppend([head], Chunk(body));
    assert [head] + [Chunk(body)] == [head, Chunk(body)];
  }

  lemma {:induction false} RunKeepsMethod(s: State, events: seq<Event>, given: LengthField)
    requires |s.body| <= CAP
    ensures Run(s, events, given).headRequest == s.headRequest
    decreases |events|
  {
    if events != [] {
      RunKeepsMethod(Step(s, events[0], given), events[1..], given);
    }
  }

  /** The grammar over whole runs: whatever the events and the close point, a reader finds the stream malformed
      exactly when it starts with an End, or when output of the handler follows a head that allows none: a HEAD
      request, or status 204, 304 or 1xx. */
  lemma RunLeavesGrammar(headRequest: bool, fuse: nat, events: seq<Event>, given: LengthField)
    ensures var s := New(headRequest, fuse);
            var log := Run(s, events, given).log;
            && (Read(log) == Malformed <==> Stray(log, RunAccepted(s, events, given)))
            && (log != [] && log[0].Head? ==> log[0].bodiless == Bodiless(log[0].head, headRequest))
  {
    var s, acc := New(headRequest, fuse), RunAccepted(New(headRequest, fuse), events, given);
    RunKeeps(s, [], events, given);
    RunKeepsMethod(s, events, given);
    assert [] + acc == acc;
    var t := Run(s, events, given);
    if t.log != [] {
      var head, truncated :| t.log <= FinishFrames(head, acc, t.headRequest, truncated, given);
      PrefixReads(t.log, head, acc, t.headRequest, truncated, given);
    }
  }

  /** The request ends well before anything committed a head. */
  predicate Headless(events: seq<Event>)
    decreases |events|
  {
    events != [] &&
    match events[0]
    case TearDown => Headless(events[1..])
    case Finalize(errored) => !errored
    case _ => false
  }

  /** A head is committed, and anything that went out began with one. */
  predicate Headed(s: State)
  {
    if s.sender then s.log == [] && s.head.Some? && !s.stream.NotSent? else s.log != [] ==> s.log[0].Head?
  }

  lemma FinishHeaded(s: State, truncated: bool, given: LengthField)
    requires |s.body| <= CAP && Headed(s)
    ensures Headed(Finish(s, truncated, given))
  {
  }

  lemma {:induction false} RunHeaded(s: State, events: seq<Event>, given: LengthField)
    requires |s.body| <= CAP && Headed(s)
    ensures Headed(Run(s, events, given))
    decreases |events|
  {
    if events != [] {
      StepHeaded(s, events[0], given);
      RunHeaded(Step(s, events[0], given), events[1..], given);
    }
  }

  lemma StepHeaded(s: State, e: Event, given: LengthField)
    requires |s.body| <= CAP && Headed(s)
    ensures Headed(Step(s, e, given))
  {
    hide Finish;
    match e {
      case Write(status, data) =>
        var a := if s.stream.NotSent? then CommitHead(s, status, [], []) else s;
        FinishHeaded(a, false, given);
        if a.fuse > 0 { FinishHeaded(a.(fuse := a.fuse - 1), true, given); }
      case Finalize(errored) =>
        FinishHeaded(if errored && s.stream.NotSent? then CommitHead(s, 500, [], []) else s, Truncates(s, errored), given);
      case SendHeaders(_, _, _) =>
      case TearDown =>
    }
  }

  lemma {:induction false} RunAfterEnd(s: State, events: seq<Event>, given: LengthField)
    requires |s.body| <= CAP && !s.sender
    ensures Run(s, events, given).log == s.log
    decreases |events|
  {
    if events != [] {
      RunAfterEnd(Step(s, events[0], given), events[1..], given);
    }
  }

  /** When a stream starts with an End, seen from the calls alone. */
  lemma {:induction false} HeadlessEnd(s: State, events: seq<Event>, given: LengthField)
    requires s.sender && s.head.None? && s.stream.NotSent? && s.log == [] && s.body == []
    ensures var log := Run(s, events, given).log;
            (log != [] && log[0].End?) <==> Headless(events) && s.fuse > 0
    decreases |events|
  {
    if events != [] {
      var t := Step(s, events[0], given);
      match events[0] {
        case TearDown => HeadlessEnd(t, events[1..], given);
        case Finalize(errored) =>
          if errored {
            FinishHeaded(CommitHead(s, 500, [], []), false, given);
            RunHeaded(t, events[1..], given);
          } else {
            RunAfterEnd(t, events[1..], given);
          }
        case Write(status, data) =>
          WriteHeads(s, status, data, given);
          RunHeaded(t, events[1..], given);
        case SendHeaders(_, _, _) => RunHeaded(t, events[1..], given);
      }
    }
  }

  lemma WriteHeads(s: State, status: nat, data: Bytes, given: LengthField)
    requires s.sender && s.stream.NotSent? && s.log == [] && |s.body| <= CAP
    ensures Headed(Step(s, Write(status, data), given))
  {
    hide Finish;
    var a := CommitHead(s, status, [], []);
    FinishHeaded(a, false, given);
    if a.fuse > 0 { FinishHeaded(a.(fuse := a.fuse - 1), true, given); }
  }

  /** Both ways out of the grammar, with a GET: no head at all, and output under status 204. */
  lemma StrayExamples(given: LengthField)
    ensures Run(New(false, 9), [Finalize(false)], given).log == [End(false)]
    ensures Read(Run(New(false, 9), [Finalize(false)], given).log) == Malformed
    ensures var log := Run(New(false, 9), [Write(204, [65]), Finalize(false)], given).log;
            log == [Head(ResponseHead(204, []), None, true), Chunk([65]), End(false)] && Read(log) == Malformed
  {
    var s, write, end := New(false, 9), Write(204, [65]), Finalize(false);
    assert Run(Step(s, end, given), [], given).log == [End(false)];
    RunLeavesGrammar(false, 9, [end], given);
    var t := Step(s, write, given);
    var log := [Head(ResponseHead(204, []), None, true), Chunk([65]), End(false)];
    assert t == State(Some(ResponseHead(204, [])), [65], BodyStreamed, false, false, true, [], 8);
    assert FinishFrames(t.head, t.body, false, false, given) == log;
    assert Step(t, end, given).log == [] + log[..3] == log;
    assert [write, end][1..] == [end];
    assert Run(t, [end], given).log == log;
    assert RunAccepted(s, [write, end], given) == [65] + RunAccepted(t, [end], given);
    RunLeavesGrammar(false, 9, [write, end], given);
  }

  lemma BodyBeforeEnd(h: ResponseHead, body: Bytes, headRequest: bool, truncated: bool, given: LengthField)
    requires |body| <= CAP
    ensures var frames := FinishFrames(Some(h), body, headRequest, truncated, given);
            BodyOf(frames[..|frames| - 1]) == body
  {
    hide LengthOf, Bodiless;
    var head := Head(h, LengthOf(h, body, headRequest, truncated, given), Bodiless(h, headRequest));
    var frames := FinishFrames(Some(h), body, headRequest, truncated, given);
    BodyOfAppend([], head);
    assert [] + [head] == [head];
    if body == [] {
      assert frames[..|frames| - 1] == [head];
    } else {
      BodyOfAppend([head], Chunk(body));
      assert frames[..|frames| - 1] == [head] + [Chunk(body)];
    }
  }

  /** A clean end is the last frame of the response. */
  lemma CleanEndOfFinish(log: seq<Frame>, h: ResponseHead, body: Bytes, headRequest: bool, truncated: bool,
                         given: LengthField, declared: Option<u64>, delivered: Bytes)
    requires |body| <= CAP && log <= FinishFrames(Some(h), body, headRequest, truncated, given)
    requires CleanEnd(log, declared, delivered)
    ensures !truncated && delivered == body && log == FinishFrames(Some(h), body, headRequest, truncated, given)
  {
    hide LengthOf, Bodiless, BodyOf;
    var frames := FinishFrames(Some(h), body, headRequest, truncated, given);
    var k :| IsCleanEndAt(log, declared, delivered, k);
    assert log[k] == frames[k];
    assert k == |frames| - 1;
    assert log[..k] == frames[..k];
    BodyBeforeEnd(h, body, headRequest, truncated, given);
  }

  /** End to end: a client that sees a clean end got exactly the accepted output in order, and its length is
      the declared one. */
  lemma BufferedEndToEnd(headRequest: bool, fuse: nat, events: seq<Event>, given: LengthField, delivered: Bytes)
    requires var log := Run(New(headRequest, fuse), events, given).log;
             log != [] && log[0].Head? && !log[0].bodiless && CleanEnd(log, log[0].contentLength, delivered)
    ensures delivered == RunAccepted(New(headRequest, fuse), events, given)
    ensures Run(New(headRequest, fuse), events, given).log[0].contentLength == Some(|delivered|)
  {
    var s, acc := New(headRequest, fuse), RunAccepted(New(headRequest, fuse), events, given);
    RunKeeps(s, [], events, given);
    assert [] + acc == acc;
    var t := Run(s, events, given);
    var head, truncated :| t.log <= FinishFrames(head, acc, t.headRequest, truncated, given);
    assert t.log[0] == FinishFrames(head, acc, t.headRequest, truncated, given)[0];
    CleanEndOfFinish(t.log, head.value, acc, t.headRequest, truncated, given, t.log[0].contentLength, delivered);
  }

  /** An error after output began never looks like a complete response. */
  lemma FailureIsVisible(s: State, acc: Bytes, given: LengthField, declared: Option<u64>, delivered: Bytes)
    requires Inv(s, acc, given) && s.sender && s.stream.BodyStreamed?
    ensures !CleanEnd(Step(s, Finalize(true), given).log, declared, delivered)
  {
    FailureLooksComplete(s, acc, given, declared, delivered);
  }

  /** Where a failed request looks complete all the same: nothing counted as streamed output, and every frame went
      out. Before a head the client then sees the empty 500; behind a committed head, that head. */
  lemma FailureLooksComplete(s: State, acc: Bytes, given: LengthField, declared: Option<u64>, delivered: Bytes)
    requires Inv(s, acc, given) && s.sender
    ensures var log := Step(s, Finalize(true), given).log;
            && (CleanEnd(log, declared, delivered) <==>
                  && !s.stream.BodyStreamed? && s.fuse >= (if acc == [] then 2 else 3)
                  && delivered == acc && (declared.Some? ==> |acc| >= declared.value))
            && (log != [] ==> log[0].Head? && log[0].head == if s.stream.NotSent? then ResponseHead(500, []) else s.head.value)
  {
    hide FinishFrames, Step, BodyOf, LengthOf, Bodiless, Finished, IsCleanEndAt;
    var log := Step(s, Finalize(true), given).log;
    var a := if s.stream.NotSent? then CommitHead(s, 500, [], []) else s;
    FailedFinish(s, acc, given);
    PrefixEndsCleanly(log, a.head.value, acc, s.headRequest, Truncates(s, true), given, declared, delivered);
  }

  /** Any stretch of a finished response ends cleanly only if it is all of it, and not truncated. */
  lemma PrefixEndsCleanly(log: seq<Frame>, h: ResponseHead, acc: Bytes, headRequest: bool, truncated: bool,
                          given: LengthField, declared: Option<u64>, delivered: Bytes)
    requires |acc| <= CAP && log <= FinishFrames(Some(h), acc, headRequest, truncated, given)
    ensures CleanEnd(log, declared, delivered) <==>
              && !truncated && |log| == |FinishFrames(Some(h), acc, headRequest, truncated, given)|
              && delivered == acc && (declared.Some? ==> |acc| >= declared.value)
  {
    hide BodyOf, LengthOf, Bodiless;
    var frames := FinishFrames(Some(h), acc, headRequest, truncated, given);
    BodyBeforeEnd(h, acc, headRequest, truncated, given);
    if CleanEnd(log, declared, delivered) {
      CleanEndOfFinish(log, h, acc, headRequest, truncated, given, declared, delivered);
      DeclaredIsMet(log, declared, delivered);
    }
    if !truncated && |log| == |frames| && delivered == acc && (declared.Some? ==> |acc| >= declared.value) {
      assert log == frames;
      assert IsCleanEndAt(log, declared, delivered, |log| - 1);
    }
  }

  lemma FailedFinish(s: State, acc: Bytes, given: LengthField)
    requires Inv(s, acc, given) && s.sender
    ensures var a := if s.stream.NotSent? then CommitHead(s, 500, [], []) else s;
            var frames := FinishFrames(a.head, acc, s.headRequest, Truncates(s, true), given);
            && a.head.Some? && Step(s, Finalize(true), given).log == frames[..Min(|frames|, s.fuse)]
            && |frames| == (if acc == [] then 2 else 3)
            && frames[0].Head? && frames[0].head == a.head.value && |acc| <= CAP
  {
  }

  lemma DeclaredIsMet(log: seq<Frame>, declared: Option<u64>, delivered: Bytes)
    requires CleanEnd(log, declared, delivered)
    ensures declared.Some? ==> |delivered| >= declared.value
  {
  }

  class Context {
    var head: Option<ResponseHead>
    var body: Bytes
    var stream: Stream
    var tearingDown: bool
    const headRequest: bool
    var sender: E.Channel?
    const given: LengthField
    ghost const channel: E.Channel

    ghost predicate Valid()
      reads this
    {
      (sender == null || sender == channel) && |body| <= CAP
    }

    ghost function View(): State
      reads this, channel
    {
      State(head, body, stream, tearingDown, headRequest, sender != null, channel.log, channel.fuse)
    }

    constructor (headRequest: bool, given: LengthField, tx: E.Channel)
      requires tx.log == []
      ensures Valid() && channel == tx && this.given == given && View() == New(headRequest, tx.fuse)
    {
      head, body, stream, tearingDown := None, [], NotSent, false;
      this.headRequest, this.given, sender, channel := headRequest, given, tx, tx;
    }

    method Commit(status: nat, codes: seq<Option<nat>>, fields: seq<(string, Bytes)>)
      requires Valid()
      modifies this
      ensures Valid() && View() == CommitHead(old(View()), status, codes, fields)
    {
      var final := status;
      var i := 0;
      while i < |codes|
        invariant 0 <= i <= |codes|
        invariant final == StatusOf(status, codes[..i])
      {
        assert codes[..i + 1][..i] == codes[..i];
        if codes[i].Some? {
          final := codes[i].value;
        }
        i := i + 1;
      }
      assert codes[..i] == codes;
      head := Some(ResponseHead(final, fields));
      stream := HeadSent;
    }

    method SendHeadersTo(status: nat, codes: seq<Option<nat>>, fields: seq<(string, Bytes)>)
      requires Valid()
      modifies this
      ensures Valid() && View() == Step(old(View()), SendHeaders(status, codes, fields), given)
    {
      if stream != NotSent {
        return;
      }
      Commit(status, codes, fields);
    }

    /** A send to a receiver that left is dropped. */
    method SendOne(tx: E.Channel, f: Frame)
      requires tx == channel
      modifies channel
      ensures View() == SendAll(old(View()), [f])
    {
      var _ := tx.TrySend(f);
    }

    method FinishReply(truncated: bool)
      requires Valid()
      modifies this, channel
      ensures Valid() && View() == Finish(old(View()), truncated, given)
    {
      hide SendAll;
      if sender == null {
        return;
      }
      var tx := sender;
      sender := null;
      var all, taken := body, head;
      body, head := [], None;
      ghost var s := View();
      if taken.Some? {
        var h := taken.value;
        var noContent := h.status in {204, 304} || 100 <= h.status < 200;
        var bodiless := noContent || headRequest;
        var length := if noContent then None
                      else if bodiless then given(h)
                      else if truncated then None else Some(|all| as u64);
        SendOne(tx, Head(h, length, bodiless));
        if all != [] {
          SendOne(tx, Chunk(all));
          SendOne(tx, End(truncated));
          SentThree(s, Head(h, length, bodiless), Chunk(all), End(truncated));
        } else {
          SendOne(tx, End(truncated));
          SentTwo(s, Head(h, length, bodiless), End(truncated));
        }
      } else {
        SendOne(tx, End(truncated));
      }
    }

    /** Output of the handler: how many bytes were taken, and whether the request is aborted. */
    method UbWrite(status: nat, data: Bytes) returns (taken: nat, aborted: bool)
      requires Valid()
      modifies this, channel
      ensures Valid() && View() == WriteTo(old(View()), status, data, given)
      ensures aborted <==> old(View()).sender && (old(View()).fuse == 0 || |old(body)| + |data| > CAP)
      ensures taken == if aborted then 0 else |data|
    {
      if stream == NotSent {
        Commit(status, [], []);
      }
      if sender != null {
        var closed := sender.IsClosed();
        if closed {
          FinishReply(false);
          return 0, true;
        }
        if |body| + |data| > CAP {
          FinishReply(true);
          return 0, true;
        }
        body := body + data;
        if !tearingDown {
          stream := BodyStreamed;
        }
      }
      return |data|, false;
    }

    method FinalizeReply(errored: bool)
      requires Valid()
      modifies this, channel
      ensures Valid() && View() == Step(old(View()), Finalize(errored), given)
    {
      var truncated := errored && stream == BodyStreamed;
      if errored && stream == NotSent {
        Commit(500, [], []);
      }
      FinishReply(truncated);
    }
  }

  lemma SendTwice(s: State, frames: seq<Frame>, f: Frame)
    ensures SendAll(SendAll(s, frames), [f]) == SendAll(s, frames + [f])
  {
    var n := Min(|frames|, s.fuse);
    if n < |frames| {
      assert (frames + [f])[..n] == frames[..n];
      assert [f][..0] == [];
    } else if s.fuse == n {
      assert (frames + [f])[..n] == frames[..n];
    } else {
      assert (frames + [f])[..n + 1] == frames[..n] + [f][..1];
    }
  }

  lemma SentTwo(s: State, f: Frame, g: Frame)
    ensures SendAll(SendAll(s, [f]), [g]) == SendAll(s, [f] + [] + [g])
  {
    SendTwice(s, [f], g);
    assert [f] + [] + [g] == [f] + [g];
  }

  lemma SentThree(s: State, f: Frame, g: Frame, h: Frame)
    ensures SendAll(SendAll(SendAll(s, [f]), [g]), [h]) == SendAll(s, [f] + [g] + [h])
  {
    SendTwice(s, [f], g);
    SendTwice(s, [f] + [g], h);
  }
}
