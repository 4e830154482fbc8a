/** What the head of a response says: the status and the fields of the one writeHead that counted, its declared
    length, and otherwise no length or the true one. */
module HeadLaws {
  import opened Basics
  import opened ExchangeRuns
  import opened ExchangeSpec
  import opened Frames

  /** The verb declares no length. */
  predicate Undeclared(v: Verb)
  {
    v.WriteHead? ==> v.lengths != [] ==> v.lengths[0].None?
  }

  /** While more may come, a head without a declared length has none; once all is there it has the true one or
      none. */
  predicate LengthTrue(s: State, acc: Bytes)
  {
    && s.declared.None?
    && match s.seen
       case Body(start, _) => s.stage != Finalized ==> start.contentLength.None?
       case Complete(start, _, _) => start.contentLength.Some? ==> start.contentLength.value == |acc|
       case _ => true
  }

  lemma WriteLengthTrue(s: State, acc: Bytes, p: Payload, eos: bool)
    requires Inv(s, acc) && LengthTrue(s, acc) && s.stage != Finalized && InRange(p)
    ensures var (t, o) := SendBody(s, p, eos);
            LengthTrue(t, acc + if o == Ok then Content(p) else [])
  {
    hide EmitHead, SendRest, Content, ReadOne, HeadFrame;
    assert acc + [] == acc;
    var finalizing := OneShot(s, p, eos);
    EmitHeadStreams(s, acc, finalizing);
    var a := EmitHead(s, finalizing);
    if HeadGoesOut(s) {
      var cl := if s.headSent then s.declared else HeadLength(s, finalizing);
      RestGrows(a.(sentBody := Add64(s.sentBody, Size(p))), acc, p, eos, cl);
    }
  }

  lemma ControlLengthTrue(s: State, acc: Bytes, v: Verb)
    requires Inv(s, acc) && LengthTrue(s, acc) && s.stage != Finalized && Possible(v) && Offered(v).None? && Undeclared(v)
    ensures LengthTrue(LiveStep(s, v).0, acc)
  {
  }

  lemma LiveLengthTrue(s: State, acc: Bytes, v: Verb)
    requires Inv(s, acc) && LengthTrue(s, acc) && s.stage != Finalized && Possible(v) && Undeclared(v)
    ensures LengthTrue(LiveStep(s, v).0, acc + AcceptedAs(s, v, LiveStep(s, v).1))
  {
    hide Inv, SendBody;
    assert acc + [] == acc;
    InvCounted(s, acc);
    if Offered(v).None? {
      ControlLengthTrue(s, acc, v);
    } else {
      SlicesInRange(v);
      WriteLengthTrue(s, acc, Offered(v).value, v.eos);
      SendBodyKeeps(s, acc, Offered(v).value, v.eos);
    }
  }

  lemma StepLengthTrue(s: State, acc: Bytes, v: Verb)
    requires Inv(s, acc) && LengthTrue(s, acc) && Possible(v) && Undeclared(v)
    ensures LengthTrue(Step(s, v).0, acc + Accepted(s, v))
  {
    hide LiveStep, Content;
    assert acc + [] == acc;
    var t := AfterCheck(s);
    if !v.Discard? && !Cancelled(s) && t.stage != Finalized {
      LiveLengthTrue(t, acc, v);
    }
  }

  lemma {:induction false} RunLengthTrue(s: State, acc: Bytes, vs: seq<Verb>)
    requires AllPossible(vs) && Inv(s, acc) && LengthTrue(s, acc) && forall v | v in vs :: Undeclared(v)
    ensures LengthTrue(Run(s, vs), acc + RunAccepted(s, vs))
    decreases |vs|
  {
    if vs == [] {
      assert acc + [] == acc;
    } else {
      hide Inv, LengthTrue, Undeclared, Step, Accepted;
      StepKeeps(s, acc, vs[0]);
      StepLengthTrue(s, acc, vs[0]);
      var t, more := Step(s, vs[0]).0, Accepted(s, vs[0]);
      RunLengthTrue(t, acc + more, vs[1..]);
      Regroup(acc, more, RunAccepted(t, vs[1..]));
    }
  }

  lemma DropLengthTrue(s: State, acc: Bytes, cycleDied: bool, full: bool)
    requires Inv(s, acc) && LengthTrue(s, acc)
    ensures var t := Drop(s, cycleDied, full);
            t.seen.Complete? && !t.seen.truncated && t.seen.start.contentLength.Some? ==>
              t.seen.start.contentLength.value == |acc|
  {
  }

  lemma AfterLengthTrue(head: bool, fuse: nat, vs: seq<Verb>, dropped: Option<(bool, bool)>)
    requires AllPossible(vs) && forall v | v in vs :: Undeclared(v)
    ensures var seen := After(head, fuse, vs, dropped).seen;
            seen.Complete? && !seen.truncated && seen.start.contentLength.Some? ==>
              seen.start.contentLength.value == |RunAccepted(New(head, fuse), vs)|
  {
    hide Inv, Run, RunAccepted, Undeclared, Drop;
    var s := New(head, fuse);
    var acc := RunAccepted(s, vs);
    NewKeeps(head, fuse);
    RunKeeps(s, [], vs);
    RunLengthTrue(s, [], vs);
    assert [] + acc == acc;
    if dropped.Some? {
      DropLengthTrue(Run(s, vs), acc, dropped.value.0, dropped.value.1);
    }
  }

  /** A stream that is complete and as long as it says is one that a consumer ends cleanly. */
  lemma CompleteIsCleanEnd(log: seq<Frame>)
    requires Read(log).Complete? && !Read(log).truncated
    requires Read(log).start.contentLength.Some? ==> |Read(log).body| >= Read(log).start.contentLength.value
    ensures CleanEnd(log, Read(log).start.contentLength, Read(log).body)
  {
    hide Read;
    WellFramed(log);
    var k := |log| - 1;
    BodyOfAppend(log[..k], log[k]);
    assert log[..k] + [log[k]] == log;
    CleanAt(log, k, Read(log).start.contentLength, Read(log).body);
  }

  lemma CleanAt(log: seq<Frame>, k: nat, declared: Option<u64>, body: Bytes)
    requires 1 <= k < |log| && log[k] == End(false) && body == BodyOf(log[..k])
    requires declared.Some? ==> |body| >= declared.value
    ensures CleanEnd(log, declared, body)
  {
    assert IsCleanEndAt(log, declared, body, k);
  }

  /** Where no writeHead declared a length, the length that a complete response carries is the number of accepted
      bytes, so that a consumer that reads it to its End ends cleanly with all of them. */
  lemma UndeclaredLengthIsTrue(head: bool, fuse: nat, vs: seq<Verb>, dropped: Option<(bool, bool)>, log: seq<Frame>)
    requires AllPossible(vs) && forall v | v in vs :: Undeclared(v)
    requires Read(log) == After(head, fuse, vs, dropped).seen
    requires Read(log).Complete? && !Read(log).truncated
    ensures var start, acc := Read(log).start, RunAccepted(New(head, fuse), vs);
            && (start.contentLength.Some? ==> start.contentLength.value == |acc|)
            && (!start.bodiless ==> CleanEnd(log, start.contentLength, acc))
  {
    hide After, Read, RunAccepted, Undeclared;
    AfterLengthTrue(head, fuse, vs, dropped);
    AfterFaithful(head, fuse, vs, dropped);
    if !Read(log).start.bodiless {
      CompleteIsCleanEnd(log);
    }
  }

  /** A response that is complete after the first verb that let anything out carries its length. */
  lemma FinishedAtOnce(s: State, acc: Bytes, v: Verb)
    requires Inv(s, acc) && Possible(v) && s.seen == Empty && s.declared.None?
    ensures var t := Step(s, v).0;
            t.seen.Complete? && !t.seen.start.bodiless ==>
              !t.seen.truncated && t.seen.start.contentLength == Some(|acc + Accepted(s, v)|)
  {
    hide SendBody;
    assert acc + [] == acc;
    var t := AfterCheck(s);
    if !v.Discard? && !Cancelled(s) && t.stage != Finalized && Offered(v).Some? {
      SlicesInRange(v);
      WroteAtOnce(t, acc, Offered(v).value, v.eos);
    }
  }

  lemma WroteAtOnce(s: State, acc: Bytes, p: Payload, eos: bool)
    requires Inv(s, acc) && s.stage != Finalized && InRange(p) && s.seen == Empty && s.declared.None?
    ensures var (t, o) := SendBody(s, p, eos);
            t.seen.Complete? && !t.seen.start.bodiless ==>
              o == Ok && !t.seen.truncated && t.seen.start.contentLength == Some(|acc + Content(p)|)
  {
    hide EmitHead, SendRest, Content, ReadOne, HeadFrame;
    var finalizing := OneShot(s, p, eos);
    EmitHeadStreams(s, acc, finalizing);
    var a := EmitHead(s, finalizing);
    if HeadGoesOut(s) {
      RestGrows(a.(sentBody := Add64(s.sentBody, Size(p))), acc, p, eos, HeadLength(s, finalizing));
    }
  }

  predicate Interim(status: nat)
  {
    status != 101 && 100 <= status < 200
  }

  /** The writeHead of a run that was taken as the final one. */
  function Counting(s: State, vs: seq<Verb>): (w: Option<Verb>)
    requires AllPossible(vs) && Counted(s)
    ensures w.Some? ==> w.value.WriteHead?
    decreases |vs|
  {
    if vs == [] then None
    else if vs[0].WriteHead? && !Interim(vs[0].status) && Step(s, vs[0]).1 == Ok then Some(vs[0])
    else Counting(Step(s, vs[0]).0, vs[1..])
  }

  predicate IsHead(w: Option<Verb>)
  {
    w.Some? ==> w.value.WriteHead? && |w.value.lengths| <= 1
  }

  function HeadOf(w: Option<Verb>): ResponseHead
    requires IsHead(w)
  {
    if w.Some? then ResponseHead(w.value.status, w.value.fields) else ResponseHead(200, [])
  }

  function DeclaredBy(w: Option<Verb>): Option<u64>
    requires IsHead(w)
  {
    if w.Some? && w.value.lengths != [] then w.value.lengths[0] else None
  }

  /** The state carries what the one writeHead said, or the defaults. */
  predicate Carries(s: State, head: bool, w: Option<Verb>)
  {
    && IsHead(w)
    && s.bodiless == (head || (w.Some? && w.value.status in {204, 304, 101}))
    && s.declared == DeclaredBy(w)
    && (s.stage == Open ==> w.None? && !s.headSent)
    && (!s.headSent && s.stage != Finalized ==> s.pending == if w.Some? then Some(HeadOf(w)) else None)
    && (s.seen.Body? || s.seen.Complete? ==>
          && s.headSent && s.seen.start.head == HeadOf(w) && s.seen.start.bodiless == s.bodiless
          && (s.declared.Some? ==> s.seen.start.contentLength == s.declared))
  }

  lemma EmitCarries(s: State, head: bool, w: Option<Verb>, finalizing: Option<u64>)
    requires Carries(s, head, w) && s.stage != Finalized
    ensures Carries(EmitHead(s, finalizing), head, w) && EmitHead(s, finalizing).headSent
    ensures EmitHead(s, finalizing).stage == HeadCommitted || s.headSent
  {
  }

  lemma SendCarries(s: State, head: bool, w: Option<Verb>, f: Frame)
    requires Carries(s, head, w) && s.headSent && !f.Head?
    ensures Carries(Send(s, f), head, w)
  {
  }

  lemma SealCarries(s: State, head: bool, w: Option<Verb>)
    requires Carries(s, head, w) && s.headSent
    ensures Carries(Seal(s, false), head, w) && Carries(DiscardUnit(s), head, w)
  {
  }

  lemma WriteCarries(s: State, head: bool, w: Option<Verb>, p: Payload, eos: bool)
    requires Carries(s, head, w) && s.stage != Finalized && Size(p) < I64 && Counted(s)
    ensures Carries(SendBody(s, p, eos).0, head, w)
  {
    hide Carries, EmitHead, Send, Seal, ExchangeSpec.DiscardUnit;
    if Exceeds(s, Size(p)) {
      CutCarries(s, head, w, p);
    } else {
      EmitCarries(s, head, w, OneShot(s, p, eos));
      var a := EmitHead(s, OneShot(s, p, eos));
      SealCarries(a, head, w);
      var b := a.(sentBody := Add64(s.sentBody, Size(p)));
      CountCarries(a, head, w, b.sentBody);
      RestCarries(b, head, w, p, eos);
    }
  }

  lemma CountCarries(s: State, head: bool, w: Option<Verb>, sent: u64)
    requires Carries(s, head, w)
    ensures Carries(s.(sentBody := sent), head, w)
  {
  }

  lemma RestCarries(s: State, head: bool, w: Option<Verb>, p: Payload, eos: bool)
    requires Carries(s, head, w) && s.headSent
    ensures Carries(SendRest(s, p, eos).0, head, w)
  {
    hide Carries, ReadOne;
    SealCarries(s, head, w);
    SendCarries(s, head, w, FrameOf(p, Size(p)));
    SealCarries(Send(s, FrameOf(p, Size(p))), head, w);
  }

  lemma CutCarries(s: State, head: bool, w: Option<Verb>, p: Payload)
    requires Carries(s, head, w) && s.stage != Finalized && Size(p) < I64 && Counted(s) && Exceeds(s, Size(p))
    ensures Carries(SendCut(s, p), head, w)
  {
    hide Carries, EmitHead, ReadOne;
    var cl := s.declared.value;
    var fit := cl - s.sentBody;
    EmitCarries(s, head, w, Some(cl));
    var a := EmitHead(s, Some(cl));
    SendCarries(a, head, w, FrameOf(p, fit));
    var b := if HeadGoesOut(s) && 0 < fit && !s.bodiless then Send(a, FrameOf(p, fit)) else a;
    CountCarries(b, head, w, cl);
    SealCarries(b.(sentBody := cl), head, w);
  }

  predicate Counts(s: State, v: Verb)
    requires Possible(v) && Counted(s)
  {
    v.WriteHead? && !Interim(v.status) && Step(s, v).1 == Ok
  }

  lemma LiveCarries(s: State, head: bool, w: Option<Verb>, v: Verb)
    requires Carries(s, head, w) && s.stage != Finalized && Possible(v) && Counted(s)
    ensures var (t, o) := LiveStep(s, v);
            && Carries(t, head, if v.WriteHead? && !Interim(v.status) && o == Ok then Some(v) else w)
            && (v.WriteHead? && !Interim(v.status) && o == Ok ==> w.None?)
  {
    hide SendBody, EmitHead, Seal, ExchangeSpec.DiscardUnit;
    match v
    case WriteBody(data, eos) => WriteCarries(s, head, w, Buffer(data), eos);
    case SendFile(content, offset, length, eos) =>
      var slice := OpenSlice(content, offset, length);
      if slice.Some? {
        WriteCarries(s, head, w, slice.value, eos);
      }
    case WriteTrailers => ControlCarries(s, head, w, Some(s.sentBody));
    case Flush => ControlCarries(s, head, w, None);
    case Discard => DiscardCarries(s, head, w);
    case WriteHead(_, _, _) =>
  }

  lemma ControlCarries(s: State, head: bool, w: Option<Verb>, finalizing: Option<u64>)
    requires Carries(s, head, w) && s.stage != Finalized
    ensures var a := EmitHead(s, finalizing);
            Carries(a, head, w) && Carries(Seal(a, false), head, w) && Carries(DiscardUnit(a), head, w)
  {
    EmitCarries(s, head, w, finalizing);
    SealCarries(EmitHead(s, finalizing), head, w);
  }

  lemma DiscardCarries(s: State, head: bool, w: Option<Verb>)
    requires Carries(s, head, w)
    ensures Carries(DiscardUnit(s), head, w)
    ensures Carries(AfterCheck(s), head, w) && Carries(DiscardUnit(AfterCheck(s)), head, w)
  {
  }

  lemma StepCarries(s: State, head: bool, w: Option<Verb>, v: Verb)
    requires Carries(s, head, w) && Possible(v) && Counted(s)
    ensures Carries(Step(s, v).0, head, if Counts(s, v) then Some(v) else w)
    ensures Counts(s, v) ==> w.None?
  {
    hide Carries, LiveStep;
    DiscardCarries(s, head, w);
    var t := AfterCheck(s);
    if t.stage != Finalized {
      LiveCarries(t, head, w, v);
    }
  }

  lemma {:induction false} RunCarries(s: State, head: bool, w: Option<Verb>, vs: seq<Verb>)
    requires Carries(s, head, w) && AllPossible(vs) && Counted(s)
    ensures Carries(Run(s, vs), head, if w.Some? then w else Counting(s, vs))
    ensures w.Some? ==> Counting(s, vs).None?
    decreases |vs|
  {
    if vs != [] {
      hide Carries, Step;
      StepCarries(s, head, w, vs[0]);
      RunCarries(Step(s, vs[0]).0, head, if Counts(s, vs[0]) then Some(vs[0]) else w, vs[1..]);
    }
  }

  lemma NewCarries(head: bool, fuse: nat)
    ensures Carries(New(head, fuse), head, None)
  {
  }

  /** What drop adds to a response that began, and what it makes of one that did not. */
  lemma DropCarries(s: State, acc: Bytes, head: bool, w: Option<Verb>, cycleDied: bool, full: bool)
    requires Inv(s, acc) && Carries(s, head, w)
    ensures var t := Drop(s, cycleDied, full);
            && (s.seen != Empty && t.seen != Empty ==> t.seen.start == s.seen.start)
            && (s.seen == Empty && t.seen != Empty ==>
                  t.seen.start == Start(ResponseHead(500, []), if s.bodiless then None else Some(0), s.bodiless))
  {
  }

  /** The head of every response: what the one writeHead that counted said, or 200 and no fields; and where no
      head went out before the exchange was dropped, an empty 500. */
  lemma HeadAsWritten(head: bool, fuse: nat, vs: seq<Verb>, dropped: Option<(bool, bool)>, log: seq<Frame>)
    requires AllPossible(vs) && log != []
    requires Read(log) == After(head, fuse, vs, dropped).seen
    ensures var s, w, first := New(head, fuse), Counting(New(head, fuse), vs), log[0];
            var bodiless := head || (w.Some? && w.value.status in {204, 304, 101});
            && first.Head? && first.bodiless == bodiless
            && if Run(s, vs).seen == Empty then
                 first.head == ResponseHead(500, []) && first.contentLength == if bodiless then None else Some(0)
               else
                 && first.head == (if w.Some? then ResponseHead(w.value.status, w.value.fields) else ResponseHead(200, []))
                 && (w.Some? && w.value.lengths != [] && w.value.lengths[0].Some? ==> first.contentLength == w.value.lengths[0])
  {
    hide Inv, Run, Counting, Read, Drop, RunAccepted;
    var s, w := New(head, fuse), Counting(New(head, fuse), vs);
    NewKeeps(head, fuse);
    RunKeeps(s, [], vs);
    NewCarries(head, fuse);
    RunCarries(s, head, None, vs);
    AfterReads(head, fuse, vs, dropped, log);
    InvFaithful(Run(s, vs), [] + RunAccepted(s, vs));
    if dropped.Some? {
      DropCarries(Run(s, vs), [] + RunAccepted(s, vs), head, w, dropped.value.0, dropped.value.1);
    }
  }

  lemma AfterReads(head: bool, fuse: nat, vs: seq<Verb>, dropped: Option<(bool, bool)>, log: seq<Frame>)
    requires AllPossible(vs) && log != []
    requires Read(log) == After(head, fuse, vs, dropped).seen
    ensures Read(log).Body? || Read(log).Complete?
    ensures log[0].Head? && Read(log).start == Start(log[0].head, log[0].contentLength, log[0].bodiless)
  {
    hide After, Read, RunAccepted;
    AfterFaithful(head, fuse, vs, dropped);
    WellFramed(log);
  }

  /** What a verb answers and does while the receiver stays. */
  predicate Answers(s: State, v: Verb, t: State, o: Outcome)
    requires Possible(v) && Counted(s)
  {
    match v
    case WriteHead(status, lengths, fields) =>
      if s.stage != Open then o == HeadWritten && t.seen == s.seen
      else if Interim(status) then o == Ok && t.stage == Open
      else if |lengths| > 1 then o == BadField && t.stage == Open
      else o == Ok && t.stage == HeadCommitted && t.seen == Empty
    case WriteBody(data, eos) =>
      if Add64(s.sentBody, |data|) > (if s.declared.Some? then s.declared.value else U64) then
        o == ContentLengthExceeded && t.seen.Complete? && !t.seen.truncated
      else
        && o == Ok && Accepted(s, v) == data
        && (if eos then t.seen.Complete? && !t.seen.truncated
            else t.stage == (if data == [] then s.stage else HeadCommitted) && t.sentBody == Add64(s.sentBody, |data|))
    case SendFile(content, offset, length, eos) =>
      if content.None? || offset > |content.value| || (length.Some? && offset + length.value > |content.value|) then
        o == FileNotSendable && t.seen == s.seen && t.stage == s.stage
      else
        var end := if length.Some? then offset + length.value else |content.value|;
        if s.declared.Some? && Add64(s.sentBody, end - offset) > s.declared.value then
          o == ContentLengthExceeded && t.seen == s.seen && t.stage == s.stage
        else
          && o == Ok && Accepted(s, v) == content.value[offset..end]
          && (if eos then t.seen.Complete? && !t.seen.truncated else t.stage == HeadCommitted && t.seen.Body?)
    case WriteTrailers =>
      if s.stage == Open then o == HeadNotWritten && t.seen == s.seen && t.stage == Open
      else o == Ok && t.seen.Complete? && !t.seen.truncated
    case Flush => o == Ok && t.stage == HeadCommitted && t.seen.Body?
    case Discard => o == Ok && t.discarded && t.seen == s.seen
  }

  /** A write within the declared length, with room for its head, its frame and its End. */
  lemma WriteAnswers(s: State, acc: Bytes, p: Payload, eos: bool)
    requires Inv(s, acc) && s.stage != Finalized && s.fuse >= 3 && InRange(p) && !Exceeds(s, Size(p))
    ensures var (t, o) := SendBody(s, p, eos);
            && o == Ok
            && (if eos then t.seen.Complete? && !t.seen.truncated else t.stage == HeadCommitted && t.seen.Body?)
            && t.sentBody == Add64(s.sentBody, Size(p)) && t.declared == s.declared && t.fuse >= s.fuse - 3
  {
    hide EmitHead, FrameOf, Content, HeadFrame;
    var finalizing := OneShot(s, p, eos);
    var cl := if s.headSent then s.declared else HeadLength(s, finalizing);
    EmitHeadStreams(s, acc, finalizing);
    EmitHeadCosts(s, finalizing);
    FrameOfContent(p, Size(p));
  }

  lemma EmitHeadCosts(s: State, finalizing: Option<u64>)
    ensures EmitHead(s, finalizing).fuse >= s.fuse - 1
    ensures s.headSent ==> EmitHead(s, finalizing) == s
  {
  }

  lemma CutAnswers(s: State, acc: Bytes, p: Payload)
    requires Inv(s, acc) && s.stage != Finalized && s.fuse >= 3 && InRange(p) && Exceeds(s, Size(p))
    ensures SendCut(s, p).seen.Complete? && !SendCut(s, p).seen.truncated
  {
    FrameOfContent(p, s.declared.value - s.sentBody);
  }

  lemma WriteBodyAnswers(s: State, acc: Bytes, data: Bytes, eos: bool)
    requires Inv(s, acc) && s.stage != Finalized && s.fuse >= 4 && |data| < I64
    ensures var v := WriteBody(data, eos);
            && Answers(s, v, Step(s, v).0, Step(s, v).1)
            && (!Exceeds(s, |data|) ==>
                  && Step(s, v).0.sentBody == Add64(s.sentBody, |data|) && Step(s, v).0.declared == s.declared
                  && Step(s, v).0.fuse >= s.fuse - 4)
  {
    hide SendBody, SendCut, Inv;
    InvCounted(s, acc);
    ChecksOnly(s, acc);
    var p := Buffer(data);
    if Exceeds(s, Size(p)) {
      CutAnswers(AfterCheck(s), acc, p);
      CutWrites(AfterCheck(s), p, eos);
    } else {
      WriteAnswers(AfterCheck(s), acc, p, eos);
    }
  }

  lemma SendFileAnswers(s: State, acc: Bytes, v: Verb)
    requires Inv(s, acc) && Possible(v) && s.stage != Finalized && s.fuse >= 4 && v.SendFile?
    ensures Answers(s, v, Step(s, v).0, Step(s, v).1)
  {
    hide SendBody, Inv;
    InvCounted(s, acc);
    ChecksOnly(s, acc);
    var slice := OpenSlice(v.content, v.offset, v.length);
    if slice.Some? && !Exceeds(s, Size(slice.value)) {
      SlicesInRange(v);
      WriteAnswers(AfterCheck(s), acc, slice.value, v.eos);
    }
  }

  /** A look at a receiver that is there costs one operation and no more. */
  lemma ChecksOnly(s: State, acc: Bytes)
    requires Inv(s, acc) && s.stage != Finalized && s.fuse > 0
    ensures AfterCheck(s) == s.(fuse := s.fuse - 1) && Inv(AfterCheck(s), acc) && !Cancelled(s)
  {
  }

  lemma CutWrites(s: State, p: Payload, eos: bool)
    requires Size(p) < I64 && Counted(s) && Exceeds(s, Size(p))
    ensures SendBody(s, p, eos) == (SendCut(s, p), ContentLengthExceeded)
  {
  }

  lemma VerbsAnswer(s: State, acc: Bytes, v: Verb)
    requires Inv(s, acc) && Possible(v) && s.stage != Finalized && s.fuse >= 4
    ensures Answers(s, v, Step(s, v).0, Step(s, v).1)
  {
    if v.WriteBody? {
      WriteBodyAnswers(s, acc, v.data, v.eos);
    } else if v.SendFile? {
      SendFileAnswers(s, acc, v);
    } else {
      ControlAnswers(s, acc, v);
    }
  }

  lemma ControlAnswers(s: State, acc: Bytes, v: Verb)
    requires Inv(s, acc) && Possible(v) && s.stage != Finalized && s.fuse >= 4 && !v.WriteBody? && !v.SendFile?
    ensures Answers(s, v, Step(s, v).0, Step(s, v).1)
  {
    hide SendBody;
  }

  /** The calls of a handler that writes piece by piece, with the last piece as the end. */
  function Writing(pieces: seq<Bytes>, last: Bytes): seq<Verb>
  {
    if pieces == [] then [WriteBody(last, true)] else [WriteBody(pieces[0], false)] + Writing(pieces[1..], last)
  }

  function Together(pieces: seq<Bytes>, last: Bytes): Bytes
  {
    if pieces == [] then last else pieces[0] + Together(pieces[1..], last)
  }

  lemma {:induction false} WritingIsPossible(pieces: seq<Bytes>, last: Bytes)
    requires |Together(pieces, last)| < I64
    ensures AllPossible(Writing(pieces, last))
    decreases |pieces|
  {
    if pieces != [] {
      WritingIsPossible(pieces[1..], last);
    }
  }

  lemma {:induction false} WritingGoesOut(s: State, acc: Bytes, pieces: seq<Bytes>, last: Bytes)
    requires Inv(s, acc) && s.stage != Finalized && s.fuse >= 4 * (|pieces| + 1)
    requires |Together(pieces, last)| < I64 && s.sentBody + |Together(pieces, last)| < I64
    requires s.declared.Some? ==> s.sentBody + |Together(pieces, last)| <= s.declared.value
    ensures AllPossible(Writing(pieces, last))
    ensures var t := Run(s, Writing(pieces, last));
            t.seen.Complete? && !t.seen.truncated && RunAccepted(s, Writing(pieces, last)) == Together(pieces, last)
    decreases |pieces|
  {
    WritingIsPossible(pieces, last);
    hide Inv, Step, Accepted;
    if pieces == [] {
      WriteBodyAnswers(s, acc, last, true);
      OneVerb(s, WriteBody(last, true));
    } else {
      var v := WriteBody(pieces[0], false);
      WriteBodyAnswers(s, acc, pieces[0], false);
      StepKeeps(s, acc, v);
      WritingGoesOut(Step(s, v).0, acc + Accepted(s, v), pieces[1..], last);
      assert Writing(pieces, last)[1..] == Writing(pieces[1..], last);
    }
  }

  lemma OneVerb(s: State, v: Verb)
    requires Counted(s) && Possible(v)
    ensures Run(s, [v]) == Step(s, v).0 && RunAccepted(s, [v]) == Accepted(s, v)
  {
    assert [v][1..] == [];
  }

  /** A whole response, while the receiver stays: a writeHead with any status that allows a body and any fields,
      with no length or the true one, and the body in any pieces. A reader sees that status, those fields, that
      length, the pieces put together, and a clean End. */
  lemma WholeResponse(fuse: nat, status: nat, lengths: seq<Option<u64>>, fields: seq<(string, Bytes)>,
                      pieces: seq<Bytes>, last: Bytes)
    requires fuse >= 4 * (|pieces| + 2) && |Together(pieces, last)| < I64
    requires !(100 <= status < 200) && status !in {204, 304}
    requires lengths == [] || lengths == [Some(|Together(pieces, last)|)]
    ensures var vs := [WriteHead(status, lengths, fields)] + Writing(pieces, last);
            && AllPossible(vs)
            && var seen := Run(New(false, fuse), vs).seen;
            && seen.Complete? && !seen.truncated && seen.body == Together(pieces, last)
            && seen.start.head == ResponseHead(status, fields) && !seen.start.bodiless
            && (lengths != [] ==> seen.start.contentLength == lengths[0])
            && (seen.start.contentLength.Some? ==> seen.start.contentLength.value == |seen.body|)
            && (pieces == [] ==> seen.start.contentLength == Some(|seen.body|))
  {
    var s, v := New(false, fuse), WriteHead(status, lengths, fields);
    var vs := [v] + Writing(pieces, last);
    WritingIsPossible(pieces, last);
    assert vs[1..] == Writing(pieces, last);
    NewKeeps(false, fuse);
    NewCarries(false, fuse);
    HeadTaken(s, v);
    var t := Step(s, v).0;
    hide Run, RunAccepted, Writing, Together;
    StepKeeps(s, [], v);
    StepCarries(s, false, None, v);
    WritingGoesOut(t, [], pieces, last);
    RunStarts(s, vs);
    RunCarries(t, false, Some(v), vs[1..]);
    RunKeeps(t, [], vs[1..]);
    InvFaithful(Run(t, vs[1..]), [] + RunAccepted(t, vs[1..]));
    if lengths == [] {
      RunLengthTrue(t, [], vs[1..]) by { WritingDeclaresNothing(pieces, last); }
      if pieces == [] {
        WrittenAtOnce(t, last);
      }
    }
  }

  lemma RunStarts(s: State, vs: seq<Verb>)
    requires vs != [] && AllPossible(vs) && Counted(s)
    ensures Run(s, vs) == Run(Step(s, vs[0]).0, vs[1..])
  {
  }

  lemma {:induction false} WritingDeclaresNothing(pieces: seq<Bytes>, last: Bytes)
    ensures forall v | v in Writing(pieces, last) :: Undeclared(v)
    decreases |pieces|
  {
    if pieces != [] {
      WritingDeclaresNothing(pieces[1..], last);
    }
  }

  lemma WrittenAtOnce(s: State, last: Bytes)
    requires Inv(s, []) && s.seen == Empty && s.declared.None? && |last| < I64 && s.stage != Finalized && s.fuse >= 4
    ensures Writing([], last) == [WriteBody(last, true)] && AllPossible(Writing([], last))
    ensures var seen := Run(s, Writing([], last)).seen;
            seen.Complete? && !seen.start.bodiless ==> seen.start.contentLength == Some(|last|)
  {
    var v := WriteBody(last, true);
    OneVerb(s, v);
    hide Step, Accepted, Inv;
    WriteBodyAnswers(s, [], last, true);
    FinishedAtOnce(s, [], v);
    assert [] + last == last;
  }

  lemma HeadTaken(s: State, v: Verb)
    requires v.WriteHead? && !Interim(v.status) && |v.lengths| <= 1 && s == New(false, s.fuse) && s.fuse > 0
    ensures Possible(v) && Counts(s, v) && Accepted(s, v) == []
    ensures var t := Step(s, v).0;
            && t.stage == HeadCommitted && t.seen == Empty && t.sentBody == 0 && t.fuse == s.fuse - 1
            && t.declared == (if v.lengths == [] then None else v.lengths[0])
            && (v.lengths == [] ==> LengthTrue(t, []))
  {
  }

  /** When the exchange is gone its unit counts as an error, unless a verb brought the response to its end. */
  lemma DropCountsOnce(s: State, acc: Bytes, cycleDied: bool, full: bool)
    requires Inv(s, acc)
    ensures Drop(s, cycleDied, full).handled == [!(s.stage == Finalized && !s.discarded)]
  {
  }

  /** Which verb brings the end of a response while the receiver stays: an end of stream, a write past the declared
      length, or trailers. Anything else leaves it open, and only discard loses it. */
  lemma EndsBy(s: State, acc: Bytes, v: Verb)
    requires Inv(s, acc) && Possible(v) && s.stage != Finalized && s.fuse >= 4
    ensures var (t, o) := Step(s, v);
            && (t.stage == Finalized && !t.discarded <==>
                  || (o == Ok && (v.WriteBody? || v.SendFile?) && v.eos)
                  || (o == ContentLengthExceeded && v.WriteBody?)
                  || (o == Ok && v.WriteTrailers?))
            && (t.discarded <==> v.Discard?)
  {
    hide Content;
    if v.WriteBody? {
      WriteEnds(s, acc, v.data, v.eos);
    } else if v.SendFile? {
      SendFileEnds(s, acc, v);
    } else {
      hide SendBody;
    }
  }

  lemma BodyEnds(s: State, acc: Bytes, p: Payload, eos: bool)
    requires Inv(s, acc) && s.stage != Finalized && s.fuse >= 3 && InRange(p)
    ensures var (t, o) := SendBody(s, p, eos);
            && o == (if Exceeds(s, Size(p)) then ContentLengthExceeded else Ok) && !t.discarded
            && (t.stage == Finalized <==> eos || Exceeds(s, Size(p)))
  {
    hide Content, FrameOf, HeadFrame, ReadOne;
  }

  lemma WriteEnds(s: State, acc: Bytes, data: Bytes, eos: bool)
    requires Inv(s, acc) && s.stage != Finalized && s.fuse >= 4 && |data| < I64
    ensures var (t, o) := Step(s, WriteBody(data, eos));
            && (t.stage == Finalized <==> (o == Ok && eos) || o == ContentLengthExceeded) && !t.discarded
  {
    hide SendBody, Inv;
    InvCounted(s, acc);
    ChecksOnly(s, acc);
    NotDiscarded(s, acc);
    BodyEnds(AfterCheck(s), acc, Buffer(data), eos);
  }

  lemma SendFileEnds(s: State, acc: Bytes, v: Verb)
    requires Inv(s, acc) && Possible(v) && s.stage != Finalized && s.fuse >= 4 && v.SendFile?
    ensures var (t, o) := Step(s, v);
            && (t.stage == Finalized <==> o == Ok && v.eos) && !t.discarded
  {
    hide SendBody, Inv;
    InvCounted(s, acc);
    ChecksOnly(s, acc);
    NotDiscarded(s, acc);
    if Offered(v).Some? {
      SlicesInRange(v);
      BodyEnds(AfterCheck(s), acc, Offered(v).value, v.eos);
    }
  }

  lemma NotDiscarded(s: State, acc: Bytes)
    requires Inv(s, acc) && s.stage != Finalized
    ensures !s.discarded
  {
  }
}
