/** The response producer as a function: one exchange, the verbs PHP calls on it, and the channel they feed.

    The receiver can go away at any moment and never comes back. `fuse` is the number of channel
    operations that still find it there, so quantifying over the initial fuse covers every close point.
    `seen` is what a reader makes of the frames queued so far. */
module ExchangeSpec {
  import opened Basics
  import opened Frames

  datatype Stage = Open | HeadCommitted | Finalized

  datatype State = State(
    stage: Stage,
    headSent: bool,
    pending: Option<ResponseHead>,
    declared: Option<u64>,
    sentBody: u64,
    discarded: bool,
    bodiless: bool,
    sender: bool,
    handled: seq<bool>,
    seen: Reading,
    fuse: nat)

  /** `lengths` holds one parsed content-length line each; None is a line that is not a number. */
  datatype Verb =
    | WriteHead(status: nat, lengths: seq<Option<u64>>, fields: seq<(string, Bytes)>)
    | WriteBody(data: Bytes, eos: bool)
    | SendFile(content: Option<Bytes>, offset: i63, length: Option<i63>, eos: bool)
    | WriteTrailers
    | Flush
    | Discard

  datatype Outcome =
    | Ok
    | AlreadyFinalized
    | HeadWritten
    | Discarded
    | ContentLengthExceeded
    | BadField
    | FileNotSendable
    | HeadNotWritten

  /** The body that one write offers: a buffer, or a slice of an open file. */
  datatype Payload = Buffer(data: Bytes) | Slice(file: Bytes, offset: nat, len: nat)

  function Size(p: Payload): nat
  {
    match p
    case Buffer(data) => |data|
    case Slice(_, _, len) => len
  }

  /** The frame of the first `n` bytes. */
  function FrameOf(p: Payload, n: nat): Frame
    requires n <= Size(p)
  {
    match p
    case Buffer(data) => Chunk(data[..n])
    case Slice(file, offset, _) => File(file, offset, n)
  }

  function Content(p: Payload): Bytes
  {
    match p
    case Buffer(data) => data
    case Slice(file, offset, len) => Clip(file, offset, len)
  }

  predicate InRange(p: Payload)
  {
    Size(p) < I64 && (p.Slice? ==> p.offset + p.len <= |p.file|)
  }

  const DEFAULT_HEAD := ResponseHead(200, [])
  const FAILURE_HEAD := ResponseHead(500, [])

  function New(head: bool, fuse: nat): State
  {
    State(Open, false, None, None, 0, false, head, true, [], Empty, fuse)
  }

  /** Looks at the receiver once. */
  function Observe(s: State): State
  {
    if s.fuse == 0 then s else s.(fuse := s.fuse - 1)
  }

  predicate Cancelled(s: State)
  {
    s.discarded || (s.sender && s.fuse == 0)
  }

  /** The state after asking whether the exchange is cancelled. */
  function AfterCheck(s: State): State
  {
    if !s.discarded && s.sender then Observe(s) else s
  }

  predicate CanSend(s: State)
  {
    s.sender && s.fuse > 0
  }

  function Send(s: State, f: Frame): State
  {
    if CanSend(s) then s.(seen := ReadOne(s.seen, f), fuse := s.fuse - 1) else s
  }

  function HeadLength(s: State, finalizing: Option<u64>): Option<u64>
  {
    if s.bodiless || s.declared.Some? then s.declared else finalizing
  }

  function HeadFrame(s: State, finalizing: Option<u64>): Frame
  {
    Head(if s.pending.Some? then s.pending.value else DEFAULT_HEAD, HeadLength(s, finalizing), s.bodiless)
  }

  /** The head counts as sent before the channel is asked. */
  function EmitHead(s: State, finalizing: Option<u64>): State
  {
    if s.headSent then s
    else
      Send(s.(pending := None,
              stage := if s.stage == Open then HeadCommitted else s.stage,
              headSent := true),
           HeadFrame(s, finalizing))
  }

  predicate HeadGoesOut(s: State)
  {
    s.headSent || CanSend(s)
  }

  function DiscardUnit(s: State): State
  {
    if s.stage == Finalized then s
    else s.(discarded := true, stage := Finalized, handled := s.handled + [true], sender := false)
  }

  function Seal(s: State, truncated: bool): State
  {
    Send(s.(stage := Finalized, handled := s.handled + [truncated]), End(truncated)).(sender := false)
  }

  /** The count never passes the declared length, and nothing is counted before the head is committed. */
  predicate Counted(s: State)
  {
    && (s.declared.Some? ==> s.sentBody <= s.declared.value)
    && (s.stage == Open ==> s.sentBody == 0 && !s.headSent)
  }

  predicate Exceeds(s: State, len: u64)
  {
    s.declared.Some? && Add64(s.sentBody, len) > s.declared.value
  }

  /** The write overshoots: only its beginning up to the declared length is queued, and the response is over. */
  function SendCut(s: State, p: Payload): State
    requires Size(p) < I64 && Counted(s) && Exceeds(s, Size(p))
  {
    var cl := s.declared.value;
    var fit := cl - s.sentBody;
    var a := EmitHead(s, Some(cl));
    var b := if HeadGoesOut(s) && 0 < fit && !s.bodiless then Send(a, FrameOf(p, fit)) else a;
    Seal(b.(sentBody := cl), false)
  }

  /** The head is out and the count is raised; the body frame and the seal follow. */
  function SendRest(s: State, p: Payload, eos: bool): (State, Outcome)
  {
    if Size(p) == 0 || s.bodiless then (if eos then Seal(s, false) else s, Ok)
    else if !CanSend(s) then (DiscardUnit(s), Discarded)
    else
      var c := Send(s, FrameOf(p, Size(p)));
      (if eos then Seal(c, false) else c, Ok)
  }

  /** The declared length of a one-shot body, used only when nothing was sent before. */
  function OneShot(s: State, p: Payload, eos: bool): Option<u64>
    requires Size(p) < I64
  {
    if eos && s.sentBody == 0 then Some(Size(p)) else None
  }

  function SendBody(s: State, p: Payload, eos: bool): (State, Outcome)
    requires Size(p) < I64 && Counted(s)
  {
    if Exceeds(s, Size(p)) then (SendCut(s, p), ContentLengthExceeded)
    else
      var a := EmitHead(s, OneShot(s, p, eos));
      if HeadGoesOut(s) then SendRest(a.(sentBody := Add64(s.sentBody, Size(p))), p, eos)
      else (DiscardUnit(a), Discarded)
  }

  lemma SendRestCounted(s: State, p: Payload, eos: bool)
    requires Size(p) < I64 && Counted(s)
    ensures Counted(SendRest(s, p, eos).0)
  {
  }

  lemma SendCutCounted(s: State, p: Payload)
    requires Size(p) < I64 && Counted(s) && Exceeds(s, Size(p))
    ensures Counted(SendCut(s, p)) && SendCut(s, p).sentBody == s.declared.value
  {
    hide ReadOne, FrameOf, HeadFrame;
  }

  lemma SendBodyCounted(s: State, p: Payload, eos: bool)
    requires Size(p) < I64 && Counted(s)
    ensures Counted(SendBody(s, p, eos).0)
  {
    hide ReadOne, FrameOf, HeadFrame, SendCut, SendRest;
    if Exceeds(s, Size(p)) {
      SendCutCounted(s, p);
    } else {
      SendRestCounted(EmitHead(s, OneShot(s, p, eos)).(sentBody := Add64(s.sentBody, Size(p))), p, eos);
    }
  }

  /** The slice a sendFile call names, or None when the file cannot be sent. The path checks are the
      operating system's: `content` is the file they opened, or None. */
  function OpenSlice(content: Option<Bytes>, offset: i63, length: Option<i63>): Option<Payload>
  {
    if content.None? || offset > |content.value| then None
    else if length.None? then Some(Slice(content.value, offset, |content.value| - offset))
    else if offset + length.value > |content.value| then None
    else Some(Slice(content.value, offset, length.value))
  }

  /** The payload a verb offers to the response body. */
  function Offered(v: Verb): Option<Payload>
  {
    match v
    case WriteBody(data, _) => Some(Buffer(data))
    case SendFile(content, offset, length, _) => OpenSlice(content, offset, length)
    case _ => None
  }

  function OfferedSize(v: Verb): nat
  {
    if Offered(v).Some? then Size(Offered(v).value) else 0
  }

  /** What the operating system guarantees: no buffer and no file reaches 2^63 bytes. */
  predicate Possible(v: Verb)
  {
    Offered(v).Some? ==> Size(Offered(v).value) < I64
  }

  function StepWriteHead(s: State, status: nat, lengths: seq<Option<u64>>, fields: seq<(string, Bytes)>): (State, Outcome)
  {
    if s.stage != Open then (s, HeadWritten)
    else if status != 101 && 100 <= status < 200 then (s, Ok)
    else if |lengths| > 1 then (s, BadField)
    else
      (s.(declared := if lengths == [] then None else lengths[0],
          pending := Some(ResponseHead(status, fields)),
          bodiless := s.bodiless || status in {204, 304, 101},
          stage := HeadCommitted),
       Ok)
  }

  /** A verb on an exchange whose receiver was just seen. */
  function LiveStep(s: State, v: Verb): (r: (State, Outcome))
    requires Possible(v) && Counted(s) && s.stage != Finalized
    ensures Counted(r.0)
  {
    hide SendBody, ReadOne, HeadFrame;
    match v
    case WriteBody(data, eos) =>
      if data == [] && !eos then (s, Ok) else SendBodyCounted(s, Buffer(data), eos); SendBody(s, Buffer(data), eos)
    case SendFile(content, offset, length, eos) =>
      var slice := OpenSlice(content, offset, length);
      if slice.None? then (s, FileNotSendable)
      else if Exceeds(s, Size(slice.value)) then (s, ContentLengthExceeded)
      else SendBodyCounted(s, slice.value, eos); SendBody(s, slice.value, eos)
    case WriteTrailers =>
      if s.stage == Open then (s, HeadNotWritten)
      else
        var a := EmitHead(s, Some(s.sentBody));
        if HeadGoesOut(s) then (Seal(a, false), Ok) else (DiscardUnit(a), Discarded)
    case Flush =>
      var a := EmitHead(s, None);
      if HeadGoesOut(s) then (a, Ok) else (DiscardUnit(a), Discarded)
    case WriteHead(status, lengths, fields) => StepWriteHead(s, status, lengths, fields)
    case Discard => (DiscardUnit(s), Ok)
  }

  function Step(s: State, v: Verb): (r: (State, Outcome))
    requires Possible(v) && Counted(s)
    ensures Counted(r.0)
  {
    var t := AfterCheck(s);
    if v.Discard? then (DiscardUnit(s), Ok)
    else if Cancelled(s) then (DiscardUnit(t), Discarded)
    else if t.stage == Finalized then (t, if v.WriteHead? then HeadWritten else AlreadyFinalized)
    else LiveStep(t, v)
  }

  /** What the last reference to the exchange does when it goes: count an unsettled unit, then tell the
      transport, without waiting on a full channel. A cycle that died sends nothing. */
  function Drop(s: State, cycleDied: bool, full: bool): State
  {
    var t := if s.stage == Finalized then s else s.(handled := s.handled + [true]);
    if s.stage == Finalized || cycleDied || !s.sender then t.(sender := false)
    else if s.headSent then (if full then t else Send(t, End(true))).(sender := false)
    else
      Send(Send(t, Head(FAILURE_HEAD, if s.bodiless then None else Some(0), s.bodiless)), End(false)).(sender := false)
  }

  predicate AllPossible(vs: seq<Verb>)
  {
    forall v | v in vs :: Possible(v)
  }

  /** Any sequence of verbs. */
  function Run(s: State, vs: seq<Verb>): (t: State)
    requires AllPossible(vs) && Counted(s)
    ensures Counted(t)
    decreases |vs|
  {
    if vs == [] then s else Run(Step(s, vs[0]).0, vs[1..])
  }
}
