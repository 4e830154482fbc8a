/** The frames that a response producer queues for the transport, and what a queued stream means. */
module Frames {
  import opened Basics

  /** The fields are the header lines that stay after the framing lines are taken out. */
  datatype ResponseHead = ResponseHead(status: nat, fields: seq<(string, Bytes)>)

  /** A file frame names the opened file by its bytes. */
  datatype Frame =
    | Head(head: ResponseHead, contentLength: Option<u64>, bodiless: bool)
    | Chunk(data: Bytes)
    | File(file: Bytes, offset: nat, len: nat)
    | End(truncated: bool)

  /** The bytes of `file` from `offset` on, at most `len` of them. */
  function Clip(file: Bytes, offset: nat, len: nat): Bytes
  {
    if offset >= |file| then []
    else if offset + len > |file| then file[offset..]
    else file[offset..offset + len]
  }

  /** The response bytes that one frame stands for. */
  function FrameBody(f: Frame): Bytes
  {
    match f
    case Chunk(data) => data
    case File(file, offset, len) => Clip(file, offset, len)
    case _ => []
  }

  /** The response bytes of a stream, in order. */
  function BodyOf(log: seq<Frame>): Bytes
  {
    if log == [] then [] else BodyOf(log[..|log| - 1]) + FrameBody(log[|log| - 1])
  }

  lemma BodyOfAppend(log: seq<Frame>, f: Frame)
    ensures BodyOf(log + [f]) == BodyOf(log) + FrameBody(f)
  {
    assert (log + [f])[..|log|] == log;
  }

  lemma {:induction false} BodyOfPrefix(log: seq<Frame>, k: nat)
    requires k <= |log|
    ensures BodyOf(log[..k]) <= BodyOf(log)
    decreases |log|
  {
    if k < |log| {
      var rest := log[..|log| - 1];
      BodyOfPrefix(rest, k);
      assert rest[..k] == log[..k];
    } else {
      assert log[..k] == log;
    }
  }

  predicate BodyFrame(f: Frame)
  {
    match f
    case Chunk(data) => data != []
    case File(file, offset, len) => 0 < len && offset + len <= |file|
    case _ => false
  }

  /** A prefix of Head (Chunk | File)* End, with no empty body frame and none at all in a bodiless response. */
  predicate Grammar(log: seq<Frame>)
  {
    log != [] ==>
      && log[0].Head?
      && (forall i | 1 <= i < |log| :: log[i].End? || (BodyFrame(log[i]) && !log[0].bodiless))
      && (forall i | 1 <= i < |log| - 1 :: !log[i].End?)
  }

  predicate Ended(log: seq<Frame>)
  {
    log != [] && log[|log| - 1].End?
  }

  /** No more body than the head declares (section 6.3 of RFC 9112). */
  predicate Bounded(log: seq<Frame>)
  {
    log != [] && log[0].Head? && log[0].contentLength.Some? ==>
      |BodyOf(log)| <= log[0].contentLength.value
  }

  /** The response head as it went out. */
  datatype Start = Start(head: ResponseHead, contentLength: Option<u64>, bodiless: bool)

  /** How far a reader of a stream has come: the head it saw and the body so far. */
  datatype Reading =
    | Empty
    | Body(start: Start, body: Bytes)
    | Complete(start: Start, body: Bytes, truncated: bool)
    | Malformed

  function ReadOne(r: Reading, f: Frame): Reading
  {
    match r
    case Empty => if f.Head? then Body(Start(f.head, f.contentLength, f.bodiless), []) else Malformed
    case Body(start, body) =>
      if f.End? then Complete(start, body, f.truncated)
      else if start.bodiless || !BodyFrame(f) then Malformed
      else Body(start, body + FrameBody(f))
    case _ => Malformed
  }

  function Read(log: seq<Frame>): Reading
  {
    if log == [] then Empty else ReadOne(Read(log[..|log| - 1]), log[|log| - 1])
  }

  lemma ReadAppend(log: seq<Frame>, f: Frame)
    ensures Read(log + [f]) == ReadOne(Read(log), f)
  {
    assert (log + [f])[..|log|] == log;
  }

  /** More body than the head declared. */
  predicate Overlong(r: Reading)
  {
    (r.Body? || r.Complete?) && r.start.contentLength.Some? && |r.body| > r.start.contentLength.value
  }

  /** A reader finds a stream malformed exactly when it breaks the frame grammar, and overlong exactly when it
      exceeds its declared length. */
  lemma {:induction false} WellFramed(log: seq<Frame>)
    ensures Read(log) != Malformed <==> Grammar(log)
    ensures Read(log) != Malformed ==>
              && (log == [] <==> Read(log) == Empty)
              && (log != [] ==> Read(log).start == Start(log[0].head, log[0].contentLength, log[0].bodiless))
              && (log != [] ==> Read(log).body == BodyOf(log))
              && (Read(log).Complete? <==> Ended(log))
              && (Ended(log) ==> log[|log| - 1] == End(Read(log).truncated))
              && (Bounded(log) <==> !Overlong(Read(log)))
    decreases |log|
  {
    if log != [] {
      var before := log[..|log| - 1];
      WellFramed(before);
      GrammarSnoc(log);
    }
  }

  lemma GrammarSnoc(log: seq<Frame>)
    requires log != []
    ensures var before, f := log[..|log| - 1], log[|log| - 1];
            Grammar(log) <==>
              if before == [] then f.Head?
              else Grammar(before) && !Ended(before) && (f.End? || (BodyFrame(f) && !before[0].bodiless))
  {
    var before := log[..|log| - 1];
    if Grammar(log) && before != [] {
      assert forall i | 1 <= i < |before| :: before[i] == log[i];
      assert Grammar(before);
    }
    if before != [] && Grammar(before) && !Ended(before) {
      forall i | 1 <= i < |log| - 1 ensures !log[i].End? {
        assert log[i] == before[i];
      }
    }
  }

  /** What a consumer that ended without an error has seen: the whole body of a stream up to a
      clean End, and at least the declared number of bytes. */
  ghost predicate CleanEnd(log: seq<Frame>, declared: Option<u64>, delivered: Bytes)
  {
    exists k :: IsCleanEndAt(log, declared, delivered, k)
  }

  predicate IsCleanEndAt(log: seq<Frame>, declared: Option<u64>, delivered: Bytes, k: int)
  {
    && 1 <= k < |log|
    && log[k] == End(false)
    && delivered == BodyOf(log[..k])
    && (declared.Some? ==> |delivered| >= declared.value)
  }

  /** A consumer bounds the body from below and a producer from above: together they frame it exactly. */
  lemma CleanEndIsExact(log: seq<Frame>, declared: Option<u64>, delivered: Bytes)
    requires Grammar(log)
    requires log != [] && log[0].Head? && log[0].contentLength == declared
    requires CleanEnd(log, declared, delivered)
    ensures Read(log).Complete? && !Read(log).truncated
    ensures delivered == Read(log).body
    ensures declared.Some? ==> (|delivered| == declared.value <==> Bounded(log))
  {
    hide Read, Bounded;
    var k :| IsCleanEndAt(log, declared, delivered, k);
    assert k == |log| - 1;
    WellFramed(log);
  }
}
