/** One gRPC call as its handler sees it: metadata is added, and one outcome goes out. */
module CallSpec {
  import opened Basics
  import opened Metadata

  datatype Result = Message(data: Bytes) | Failed(code: nat)

  datatype Reply = Reply(headers: HeaderMap, trailers: HeaderMap, result: Result)

  /** `open` while the call still holds its reply sender, `gone` once the other end dropped the receiver.
      `sent` and `handled` record what left the call: replies, and the errored flags of its Handled events. */
  datatype Call = Call(open: bool, gone: bool, discarded: bool, headers: seq<Field>, trailers: seq<Field>,
                       sent: seq<Reply>, handled: seq<bool>)

  datatype Verb = Done | Finalized | Discarded | BadField(fault: Fault)

  datatype Op =
    | Add(trailer: bool, binary: bool, name: Bytes, value: Bytes)
    | Finish(result: Result, leaves: bool)
    | Discard
    | Leave

  const FRESH := Call(true, false, false, [], [], [], [])

  predicate Settled(c: Call)
  {
    !c.open
  }

  predicate Cancelled(c: Call)
  {
    c.discarded || (c.open && c.gone)
  }

  function Drop(c: Call): Call
  {
    if Settled(c) then c
    else c.(discarded := true, open := false, handled := c.handled + [true])
  }

  /** An entry is judged before the state is. */
  function AddTo(c: Call, trailer: bool, binary: bool, name: Bytes, value: Bytes): (Call, Verb)
  {
    var fault := Check(binary, name, value);
    if fault.Some? then (c, BadField(fault.value))
    else if Settled(c) then (c, Finalized)
    else
      var lower := HeaderName(name).value;
      if trailer then (c.(trailers := Append(c.trailers, lower, value)), Done)
      else (c.(headers := Append(c.headers, lower, value)), Done)
  }

  function Answer(c: Call, result: Result): Reply
  {
    Reply(Wire(c.headers), Wire(c.trailers), result)
  }

  /** The receiver may leave between the check and the send. */
  function FinishCall(c: Call, result: Result, leaves: bool): (Call, Verb)
  {
    if Cancelled(c) then (Drop(c), Discarded)
    else if Settled(c) then (c, Finalized)
    else if leaves then (c.(open := false, gone := true, discarded := true, handled := c.handled + [true]), Discarded)
    else (c.(open := false, sent := c.sent + [Answer(c, result)], handled := c.handled + [false]), Done)
  }

  function Step(c: Call, op: Op): (Call, Verb)
  {
    match op
    case Add(trailer, binary, name, value) => AddTo(c, trailer, binary, name, value)
    case Finish(result, leaves) => FinishCall(c, result, leaves)
    case Discard => (Drop(c), Done)
    case Leave => (c.(gone := true), Done)
  }

  /** The object is freed: a call that is not settled counts as a failed one. */
  function Release(c: Call): Call
  {
    if Settled(c) then c else c.(open := false, handled := c.handled + [true])
  }

  function Run(ops: seq<Op>): Call
  {
    if |ops| == 0 then FRESH else Step(Run(ops[..|ops| - 1]), ops[|ops| - 1]).0
  }

  datatype Entry = Entry(name: Bytes, value: Bytes)

  /** The entries of one half that the call accepted, in order. */
  function Taken(ops: seq<Op>, trailer: bool): seq<Entry>
  {
    if |ops| == 0 then []
    else
      var before, op := ops[..|ops| - 1], ops[|ops| - 1];
      Taken(before, trailer)
      + if op.Add? && op.trailer == trailer && Step(Run(before), op).1 == Done
        then [Entry(HeaderName(op.name).value, op.value)] else []
  }

  /** The entries grouped by name. */
  function Grouped(entries: seq<Entry>): seq<Field>
  {
    if |entries| == 0 then []
    else
      var last := entries[|entries| - 1];
      Append(Grouped(entries[..|entries| - 1]), last.name, last.value)
  }

  /** The values of one name, in order. */
  function Under(entries: seq<Entry>, name: Bytes): seq<Bytes>
  {
    if |entries| == 0 then []
    else
      Under(entries[..|entries| - 1], name)
      + if entries[|entries| - 1].name == name then [entries[|entries| - 1].value] else []
  }
}
