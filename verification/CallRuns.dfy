/** Every run of a gRPC call: one outcome, one count, and metadata that the client reads as it was added. */
module CallRuns {
  import opened Basics
  import opened CallSpec
  import opened Metadata
  import opened MetadataLaws

  ghost predicate Inv(c: Call)
  {
    && Half(c.headers) && Half(c.trailers)
    && (c.open ==> !c.discarded && |c.handled| == 0 && |c.sent| == 0)
    && (!c.open ==> c.handled == [c.discarded] && |c.sent| == if c.discarded then 0 else 1)
    && (!c.open && !c.discarded ==> c.sent[0] == Answer(c, c.sent[0].result))
  }

  lemma AddKeeps(c: Call, trailer: bool, binary: bool, name: Bytes, value: Bytes)
    requires Inv(c)
    ensures Inv(AddTo(c, trailer, binary, name, value).0)
  {
    if Check(binary, name, value).None? && c.open {
      CheckedName(binary, name, value);
      AppendKeepsHalf(c.headers, HeaderName(name).value, value);
      AppendKeepsHalf(c.trailers, HeaderName(name).value, value);
    }
  }

  lemma StepKeeps(c: Call, op: Op)
    requires Inv(c)
    ensures Inv(Step(c, op).0)
  {
    match op
    case Add(trailer, binary, name, value) => AddKeeps(c, trailer, binary, name, value);
    case Finish(result, leaves) => FinishKeeps(c, result, leaves);
    case Discard =>
    case Leave =>
  }

  lemma FinishKeeps(c: Call, result: Result, leaves: bool)
    requires Inv(c)
    ensures Inv(FinishCall(c, result, leaves).0)
  {
  }

  lemma {:induction false} RunKeeps(ops: seq<Op>)
    ensures Inv(Run(ops))
    decreases |ops|
  {
    if |ops| > 0 {
      RunKeeps(ops[..|ops| - 1]);
      StepKeeps(Run(ops[..|ops| - 1]), ops[|ops| - 1]);
    }
  }

  /** Whatever the handler did, freeing the call leaves exactly one Handled event behind it, and at most one
      reply; the event says "errored" exactly when no reply went out. */
  lemma OneOutcome(ops: seq<Op>)
    ensures var end := Release(Run(ops));
            && |end.handled| == 1
            && |end.sent| <= 1
            && (end.handled[0] <==> |end.sent| == 0)
  {
    RunKeeps(ops);
  }

  /** A settled call stays as it is. Entries are still judged; the outcome is refused with its reason. */
  lemma SettledAbsorbs(ops: seq<Op>, op: Op)
    requires Settled(Run(ops))
    ensures var c, r := Run(ops), Step(Run(ops), op);
            && r.0.(gone := c.gone) == c
            && (op.Finish? ==> r.1 == if c.discarded then Discarded else Finalized)
            && (op.Add? ==> r.1 == match Check(op.binary, op.name, op.value)
                                   case Some(fault) => BadField(fault)
                                   case None => Finalized)
  {
    RunKeeps(ops);
  }

  function HalfOf(c: Call, trailer: bool): seq<Field>
  {
    if trailer then c.trailers else c.headers
  }

  lemma StepGrowsHalf(c: Call, op: Op, trailer: bool)
    ensures var taken := op.Add? && op.trailer == trailer && Step(c, op).1 == Done;
            HalfOf(Step(c, op).0, trailer) ==
            if taken then Append(HalfOf(c, trailer), HeaderName(op.name).value, op.value) else HalfOf(c, trailer)
  {
  }

  lemma {:induction false} HalfIsTaken(ops: seq<Op>, trailer: bool)
    ensures HalfOf(Run(ops), trailer) == Grouped(Taken(ops, trailer))
    decreases |ops|
  {
    if |ops| > 0 {
      HalfIsTaken(ops[..|ops| - 1], trailer);
      StepGrowsHalf(Run(ops[..|ops| - 1]), ops[|ops| - 1], trailer);
      TakenStep(ops, trailer);
    }
  }

  lemma TakenStep(ops: seq<Op>, trailer: bool)
    requires |ops| > 0
    ensures var before, op := ops[..|ops| - 1], ops[|ops| - 1];
            var taken := op.Add? && op.trailer == trailer && Step(Run(before), op).1 == Done;
            Grouped(Taken(ops, trailer)) ==
            if taken then Append(Grouped(Taken(before, trailer)), HeaderName(op.name).value, op.value)
            else Grouped(Taken(before, trailer))
  {
    var before, op := ops[..|ops| - 1], ops[|ops| - 1];
    if op.Add? && op.trailer == trailer && Step(Run(before), op).1 == Done {
      var e := Entry(HeaderName(op.name).value, op.value);
      assert Taken(ops, trailer) == Taken(before, trailer) + [e];
      assert (Taken(before, trailer) + [e])[..|Taken(before, trailer)|] == Taken(before, trailer);
    } else {
      assert Taken(ops, trailer) == Taken(before, trailer);
    }
  }

  /** The main law: what the client decodes from a reply is what the handler added before it, half by half. */
  lemma ReplyCarriesWhatWasAdded(ops: seq<Op>)
    requires |Run(ops).sent| > 0
    ensures var reply := Run(ops).sent[0];
            && ContextMetadata(reply.headers) == AllReceived(Grouped(Taken(ops, false)))
            && ContextMetadata(reply.trailers) == AllReceived(Grouped(Taken(ops, true)))
  {
    RunKeeps(ops);
    HalfIsTaken(ops, false);
    HalfIsTaken(ops, true);
    MetadataRoundTrip(Run(ops).headers);
    MetadataRoundTrip(Run(ops).trailers);
  }

  function ValuesUnder(fields: seq<Field>, name: Bytes): seq<Bytes>
  {
    if |fields| == 0 then []
    else if fields[0].name == name then fields[0].values
    else ValuesUnder(fields[1..], name)
  }

  lemma {:induction false} AppendGroups(fields: seq<Field>, name: Bytes, value: Bytes, wanted: Bytes)
    ensures ValuesUnder(Append(fields, name, value), wanted) ==
            ValuesUnder(fields, wanted) + if wanted == name then [value] else []
    decreases |fields|
  {
    if |fields| == 0 {
    } else if fields[0].name == name {
      assert Append(fields, name, value)[1..] == fields[1..];
    } else {
      AppendGroups(fields[1..], name, value, wanted);
    }
  }

  /** Grouping keeps every value under its name, in the order it was added. */
  lemma {:induction false} GroupingKeepsOrder(entries: seq<Entry>, name: Bytes)
    ensures ValuesUnder(Grouped(entries), name) == Under(entries, name)
    decreases |entries|
  {
    if |entries| > 0 {
      var n := |entries| - 1;
      GroupingKeepsOrder(entries[..n], name);
      AppendGroups(Grouped(entries[..n]), entries[n].name, entries[n].value, name);
    }
  }
}
