/** The state of one gRPC call, and the loops that build and read metadata. */
module GrpcCalls {
  import opened Basics
  import opened Base64
  import opened CallSpec
  import opened Metadata
  import opened MetadataLaws
  import opened Text

  lemma {:induction false} AppendAt(fields: seq<Field>, i: nat, name: Bytes, value: Bytes)
    requires i < |fields| && fields[i].name == name
    requires forall j | 0 <= j < i :: fields[j].name != name
    ensures Append(fields, name, value) == fields[i := fields[i].(values := fields[i].values + [value])]
    decreases |fields|
  {
    if i > 0 {
      AppendAt(fields[1..], i - 1, name, value);
    }
  }

  /** Finds the name's group and pushes the value, or opens a group. */
  method AppendField(fields: seq<Field>, name: Bytes, value: Bytes) returns (r: seq<Field>)
    ensures r == Append(fields, name, value)
  {
    var i := 0;
    while i < |fields| && fields[i].name != name
      invariant 0 <= i <= |fields|
      invariant forall j | 0 <= j < i :: fields[j].name != name
    {
      i := i + 1;
    }
    if i < |fields| {
      AppendAt(fields, i, name, value);
      r := fields[i := fields[i].(values := fields[i].values + [value])];
    } else {
      AppendToNew(fields, name, value);
      r := fields + [Field(name, [value])];
    }
  }

  method AppendValues(headers: HeaderMap, name: Bytes, values: seq<Bytes>) returns (r: HeaderMap)
    ensures r == AppendAll(headers, name, values)
  {
    hide Append, Encode, Trim, Binary;
    r := headers;
    var i := 0;
    assert values[0..] == values;
    while i < |values|
      invariant 0 <= i <= |values|
      invariant AppendAll(r, name, values[i..]) == AppendAll(headers, name, values)
    {
      assert values[i..][1..] == values[i + 1..];
      var value := if Binary(name) then Encode(values[i]) else Trim(values[i]);
      r := AppendField(r, name, value);
      i := i + 1;
    }
  }

  method WireForm(fields: seq<Field>) returns (headers: HeaderMap)
    ensures headers == Wire(fields)
  {
    headers := [];
    var i := 0;
    assert fields[0..] == fields;
    while i < |fields|
      invariant 0 <= i <= |fields|
      invariant WireOnto(headers, fields[i..]) == Wire(fields)
    {
      assert fields[i..][1..] == fields[i + 1..];
      headers := AppendValues(headers, fields[i].name, fields[i].values);
      i := i + 1;
    }
  }

  method ReadPieces(line: Bytes) returns (values: seq<Bytes>)
    ensures values == DecodePieces(Split(line, COMMA))
  {
    var rest, more := line, true;
    values := [];
    assert [] + DecodePieces(Split(line, COMMA)) == DecodePieces(Split(line, COMMA));
    while more
      invariant more ==> values + DecodePieces(Split(rest, COMMA)) == DecodePieces(Split(line, COMMA))
      invariant !more ==> values == DecodePieces(Split(line, COMMA))
      decreases more, |rest|
    {
      ghost var pieces := Split(rest, COMMA);
      var piece := Before(rest, COMMA);
      var decoded := Decode(Trim(piece));
      assert pieces[0] == piece;
      more := COMMA in rest;
      PiecesStep(values, pieces);
      if decoded.Some? {
        values := values + [decoded.value];
      }
      if more {
        rest := After(rest, COMMA);
        assert pieces[1..] == Split(rest, COMMA);
      }
    }
  }

  lemma PiecesStep(values: seq<Bytes>, pieces: seq<Bytes>)
    requires |pieces| > 0
    ensures var d := Decode(Trim(pieces[0]));
            values + DecodePieces(pieces) ==
            (if d.Some? then values + [d.value] else values) + DecodePieces(pieces[1..])
  {
  }

  method ReadLines(name: Bytes, lines: seq<Bytes>) returns (values: seq<Bytes>)
    ensures values == ReadValues(name, lines)
  {
    var binary := Binary(name);
    values := [];
    var i := 0;
    while i < |lines|
      invariant 0 <= i <= |lines|
      invariant values == ReadValues(name, lines[..i])
    {
      assert lines[..i + 1][..i] == lines[..i];
      if !binary {
        if Printable(lines[i]) {
          values := values + [lines[i]];
        }
      } else {
        var pieces := ReadPieces(lines[i]);
        values := values + pieces;
      }
      i := i + 1;
    }
    assert lines[..i] == lines;
  }

  method ReadMetadata(headers: HeaderMap) returns (out: seq<Field>)
    ensures out == ContextMetadata(headers)
  {
    out := [];
    var i := 0;
    while i < |headers|
      invariant 0 <= i <= |headers|
      invariant out == ContextMetadata(headers[..i])
    {
      assert headers[..i + 1][..i] == headers[..i];
      var f := headers[i];
      if !Reserved(f.name) {
        var values := ReadLines(f.name, f.values);
        if |values| > 0 {
          out := out + [Field(f.name, values)];
        }
      }
      i := i + 1;
    }
    assert headers[..i] == headers;
  }

  class GrpcState {
    /** True while the call can still be answered. */
    var reply: bool
    /** Nobody waits for the answer any more. */
    var closed: bool
    var discarded: bool
    var headers: seq<Field>
    var trailers: seq<Field>
    /** What the reply channel took, and the errored flags of the Handled events. */
    var sent: seq<Reply>
    var handled: seq<bool>

    function View(): Call
      reads this
    {
      Call(reply, closed, discarded, headers, trailers, sent, handled)
    }

    constructor ()
      ensures View() == FRESH
    {
      reply, closed, discarded := true, false, false;
      headers, trailers, sent, handled := [], [], [], [];
    }

    method Discard()
      modifies this
      ensures View() == Drop(old(View()))
    {
      if !reply {
        return;
      }
      discarded := true;
      reply := false;
      handled := handled + [true];
    }

    method AddCore(trailer: bool, binary: bool, name: Bytes, value: Bytes) returns (v: Verb)
      modifies this
      ensures (View(), v) == AddTo(old(View()), trailer, binary, name, value)
    {
      var lower := HeaderName(name);
      if lower.None? {
        return BadField(NotAName);
      }
      if exists i | 0 <= i < |lower.value| :: !MetadataByte(lower.value[i]) {
        return BadField(BadCharacter);
      }
      if Reserved(lower.value) {
        return BadField(TransportName);
      }
      if !binary && Binary(lower.value) {
        return BadField(TakesBinary);
      }
      if binary && !Binary(lower.value) {
        return BadField(NeedsSuffix);
      }
      if !binary && !Printable(value) {
        return BadField(NotPrintable);
      }
      if !reply {
        return Finalized;
      }
      if trailer {
        trailers := AppendField(trailers, lower.value, value);
      } else {
        headers := AppendField(headers, lower.value, value);
      }
      v := Done;
    }

    /** `leaves` is true when the receiver is dropped between the check and the send. */
    method Finish(result: Result, leaves: bool) returns (v: Verb)
      modifies this
      ensures (View(), v) == FinishCall(old(View()), result, leaves)
    {
      if discarded || (reply && closed) {
        Discard();
        return Discarded;
      }
      if !reply {
        return Finalized;
      }
      reply := false;
      var h := WireForm(headers);
      var t := WireForm(trailers);
      closed := closed || leaves;
      if !closed {
        sent := sent + [Reply(h, t, result)];
        handled := handled + [false];
        return Done;
      }
      discarded := true;
      handled := handled + [true];
      v := Discarded;
    }

    method Free()
      modifies this
      ensures View() == Release(old(View()))
    {
      if reply {
        reply := false;
        handled := handled + [true];
      }
    }
  }
}
