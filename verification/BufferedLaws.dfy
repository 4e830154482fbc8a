/** What a buffered response says: the head that was committed first, and all the output under its length. */
module BufferedLaws {
  import opened Basics
  import opened BufferedReplies
  import opened Frames

  /** The last Status field that is a status decides; without one the status stays. */
  lemma {:induction false} LastStatusDecides(status: nat, codes: seq<Option<nat>>, i: nat)
    ensures (forall j | 0 <= j < |codes| :: codes[j].None?) ==> StatusOf(status, codes) == status
    ensures i < |codes| && codes[i].Some? && (forall j | i < j < |codes| :: codes[j].None?) ==>
              StatusOf(status, codes) == codes[i].value
    decreases |codes|
  {
    if |codes| > 0 {
      LastStatusDecides(status, codes[..|codes| - 1], i);
    }
  }

  /** The head that the calls commit: the first headers, output or failure decides. */
  function FirstHead(events: seq<Event>): Option<ResponseHead>
  {
    if events == [] then None
    else
      match events[0]
      case SendHeaders(status, codes, fields) => Some(ResponseHead(StatusOf(status, codes), fields))
      case Write(status, _) => Some(ResponseHead(status, []))
      case TearDown => FirstHead(events[1..])
      case Finalize(errored) => if errored then Some(ResponseHead(500, [])) else None
  }

  /** The head is `h`, waiting or gone out. */
  predicate HasHead(s: State, h: ResponseHead)
  {
    if s.sender then s.log == [] && s.head == Some(h) && !s.stream.NotSent?
    else s.log != [] ==> s.log[0].Head? && s.log[0].head == h
  }

  lemma FinishHasHead(s: State, h: ResponseHead, truncated: bool, given: LengthField)
    requires |s.body| <= CAP && HasHead(s, h)
    ensures HasHead(Finish(s, truncated, given), h)
  {
  }

  lemma StepHasHead(s: State, h: ResponseHead, e: Event, given: LengthField)
    requires |s.body| <= CAP && HasHead(s, h)
    ensures HasHead(Step(s, e, given), h)
  {
    hide Finish;
    match e {
      case Write(status, data) =>
        var a := if s.stream.NotSent? then CommitHead(s, status, [], []) else s;
        FinishHasHead(a, h, false, given);
        if a.fuse > 0 { FinishHasHead(a.(fuse := a.fuse - 1), h, true, given); }
      case Finalize(errored) =>
        FinishHasHead(if errored && s.stream.NotSent? then CommitHead(s, 500, [], []) else s, h, Truncates(s, errored), given);
      case SendHeaders(_, _, _) =>
      case TearDown =>
    }
  }

  lemma {:induction false} RunHasHead(s: State, h: ResponseHead, events: seq<Event>, given: LengthField)
    requires |s.body| <= CAP && HasHead(s, h)
    ensures HasHead(Run(s, events, given), h)
    decreases |events|
  {
    if events != [] {
      StepHasHead(s, h, events[0], given);
      RunHasHead(Step(s, events[0], given), h, events[1..], given);
    }
  }

  /** A state in which nothing has committed a head yet. */
  predicate Fresh(s: State)
  {
    s.sender && s.head.None? && s.stream.NotSent? && s.log == [] && s.body == []
  }

  lemma FirstCommits(s: State, e: Event, given: LengthField)
    requires Fresh(s) && !e.TearDown? && e != Finalize(false)
    ensures FirstHead([e]).Some? && HasHead(Step(s, e, given), FirstHead([e]).value)
  {
    hide Finish;
    match e {
      case Write(status, data) =>
        var a := CommitHead(s, status, [], []);
        FinishHasHead(a, ResponseHead(status, []), false, given);
        if a.fuse > 0 { FinishHasHead(a.(fuse := a.fuse - 1), ResponseHead(status, []), true, given); }
      case Finalize(errored) => FinishHasHead(CommitHead(s, 500, [], []), ResponseHead(500, []), false, given);
      case SendHeaders(_, _, _) =>
    }
  }

  /** Whatever came after, the head that goes out is the one that was committed first. */
  lemma {:induction false} HeadIsTheFirst(s: State, events: seq<Event>, given: LengthField)
    requires Fresh(s)
    ensures var log := Run(s, events, given).log;
            log != [] && log[0].Head? ==> FirstHead(events) == Some(log[0].head)
    decreases |events|
  {
    if events != [] {
      var t := Step(s, events[0], given);
      if events[0].TearDown? {
        HeadIsTheFirst(t, events[1..], given);
      } else if events[0] == Finalize(false) {
        RunAfterEnd(t, events[1..], given);
      } else {
        FirstCommits(s, events[0], given);
        RunHasHead(t, FirstHead([events[0]]).value, events[1..], given);
      }
    }
  }

  lemma AllGoesOut(s: State, acc: Bytes, truncated: bool, given: LengthField)
    requires Inv(s, acc, given) && s.sender && s.head.Some? && s.fuse >= 3
    ensures Finish(s, truncated, given).log == FinishFrames(s.head, acc, s.headRequest, truncated, given)
  {
    var frames := FinishFrames(s.head, acc, s.headRequest, truncated, given);
    assert |frames| <= 3 && frames[..|frames|] == frames;
    assert [] + frames == frames;
  }

  /** How a request ends whose receiver stays: the committed head, all its output in one piece, and an End that is
      truncated only for a failure after streamed output. The declared length is the size of the output; for a HEAD
      request it is the one in the fields, and none is declared where there is no content or the output was cut. */
  lemma EndsWhole(s: State, acc: Bytes, errored: bool, given: LengthField)
    requires Inv(s, acc, given) && s.sender && s.head.Some? && s.fuse >= 3
    ensures var h, cut := s.head.value, errored && s.stream.BodyStreamed?;
            var none := h.status in {204, 304} || 100 <= h.status < 200;
            var length := if none then None else if s.headRequest then given(h) else if cut then None else Some(|acc|);
            Step(s, Finalize(errored), given).log ==
            [Head(h, length, none || s.headRequest)] + (if acc == [] then [] else [Chunk(acc)]) + [End(cut)]
  {
    hide Finish;
    AllGoesOut(s, acc, errored && s.stream.BodyStreamed?, given);
  }

  /** Such a response without a failure is one that a client ends cleanly, under the length it was told. */
  lemma EndsCleanly(s: State, acc: Bytes, given: LengthField)
    requires Inv(s, acc, given) && s.sender && s.head.Some? && s.fuse >= 3
    requires !s.headRequest && s.head.value.status !in {204, 304} && !(100 <= s.head.value.status < 200)
    ensures var log := Step(s, Finalize(false), given).log;
            log != [] && log[0].Head? && log[0].contentLength == Some(|acc|) && CleanEnd(log, log[0].contentLength, acc)
  {
    hide Finish, BodyOf, CleanEnd;
    var frames := FinishFrames(s.head, acc, s.headRequest, false, given);
    AllGoesOut(s, acc, false, given);
    PrefixEndsCleanly(frames, s.head.value, acc, s.headRequest, false, given, Some(|acc|), acc);
  }

  lemma CutFrames(h: ResponseHead, acc: Bytes, headRequest: bool, given: LengthField)
    requires |acc| <= CAP
    ensures var frames := FinishFrames(Some(h), acc, headRequest, true, given);
            && |frames| >= 2 && frames[0].Head? && frames[0].head == h && frames[|frames| - 1] == End(true)
            && BodyOf(frames) == acc && (!headRequest ==> frames[0].contentLength.None?)
  {
    var frames := FinishFrames(Some(h), acc, headRequest, true, given);
    BodyBeforeEnd(h, acc, headRequest, true, given);
    BodyOfAppend(frames[..|frames| - 1], End(true));
    assert frames[..|frames| - 1] + [End(true)] == frames;
  }

  /** The same for output that would pass the cap: what was taken before goes out, cut. */
  lemma CapCuts(s: State, acc: Bytes, status: nat, data: Bytes, given: LengthField)
    requires Inv(s, acc, given) && s.sender && s.head.Some? && s.fuse >= 4 && |acc| + |data| > 1024 * 1024 * 1024
    ensures var log := Step(s, Write(status, data), given).log;
            && |log| >= 2 && log[0].Head? && log[0].head == s.head.value && log[|log| - 1] == End(true)
            && BodyOf(log) == acc && (!s.headRequest ==> log[0].contentLength.None?)
  {
    hide FinishFrames, BodyOf, Finish;
    AllGoesOut(s.(fuse := s.fuse - 1), acc, true, given);
    CutFrames(s.head.value, acc, s.headRequest, given);
  }

  /** Output is taken, in order, while the receiver is there and the cap is kept. */
  lemma OutputIsTaken(s: State, acc: Bytes, status: nat, data: Bytes, given: LengthField)
    requires Inv(s, acc, given) && s.sender && s.fuse > 0 && |acc| + |data| <= 1024 * 1024 * 1024
    ensures var t := Step(s, Write(status, data), given);
            t.sender && t.fuse == s.fuse - 1 && t.body == acc + data && t.head.Some? && (s.head.Some? ==> t.head == s.head) && t.log == []
            && (!s.tearingDown ==> t.stream.BodyStreamed?)
  {
  }
}
