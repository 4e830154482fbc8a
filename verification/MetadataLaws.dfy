/** What a handler adds to a response is what the other side reads. */
module MetadataLaws {
  import opened Base64
  import opened Basics
  import opened Metadata
  import opened Text

  /** A group that only accepted entries can form. */
  predicate Accepted(f: Field)
  {
    && HeaderName(f.name) == Some(f.name)
    && !Reserved(f.name)
    && |f.values| > 0
    && (Binary(f.name) || forall v | v in f.values :: Printable(v))
  }

  predicate Absent(fields: seq<Field>, name: Bytes)
  {
    forall i | 0 <= i < |fields| :: fields[i].name != name
  }

  predicate Distinct(fields: seq<Field>)
  {
    forall i, j | 0 <= i < j < |fields| :: fields[i].name != fields[j].name
  }

  /** One half of the response metadata: each name once, each group accepted. */
  predicate Half(fields: seq<Field>)
  {
    Distinct(fields) && forall f | f in fields :: Accepted(f)
  }

  lemma LowerTwice(name: Bytes)
    ensures Lower(Lower(name)) == Lower(name)
  {
  }

  lemma CheckedName(binary: bool, name: Bytes, value: Bytes)
    requires Check(binary, name, value) == None
    ensures HeaderName(name).Some? && Accepted(Field(HeaderName(name).value, [value]))
  {
    var lower := Lower(name);
    LowerTwice(name);
    forall i | 0 <= i < |lower| ensures TokenByte(lower[i]) { assert MetadataByte(lower[i]); }
  }

  lemma {:induction false} AppendKeepsHalf(fields: seq<Field>, name: Bytes, value: Bytes)
    requires Half(fields) && Accepted(Field(name, [value]))
    ensures Half(Append(fields, name, value))
    decreases |fields|
  {
    if |fields| == 0 {
    } else if fields[0].name == name {
      var grown := fields[0].(values := fields[0].values + [value]);
      assert Accepted(fields[0]);
      assert Accepted(grown);
      assert Append(fields, name, value) == fields[0 := grown];
    } else {
      AppendKeepsHalf(fields[1..], name, value);
      var rest := Append(fields[1..], name, value);
      assert Absent(fields[1..], fields[0].name);
      AppendKeepsAbsent(fields[1..], name, value, fields[0].name);
      DistinctCons(fields[0], rest);
    }
  }

  lemma {:induction false} AppendKeepsAbsent(fields: seq<Field>, name: Bytes, value: Bytes, other: Bytes)
    requires other != name && Absent(fields, other)
    ensures Absent(Append(fields, name, value), other)
    decreases |fields|
  {
    if |fields| > 0 && fields[0].name != name {
      AppendKeepsAbsent(fields[1..], name, value, other);
    }
  }

  lemma DistinctCons(f: Field, rest: seq<Field>)
    requires Distinct(rest) && Absent(rest, f.name)
    ensures Distinct([f] + rest)
  {
  }

  lemma {:induction false} AppendToNew(headers: HeaderMap, name: Bytes, value: Bytes)
    requires Absent(headers, name)
    ensures Append(headers, name, value) == headers + [Field(name, [value])]
    decreases |headers|
  {
    if |headers| > 0 {
      AppendToNew(headers[1..], name, value);
      assert headers == [headers[0]] + headers[1..];
    }
  }

  lemma {:induction false} AppendToLast(before: HeaderMap, f: Field, value: Bytes)
    requires Absent(before, f.name)
    ensures Append(before + [f], f.name, value) == before + [Field(f.name, f.values + [value])]
    decreases |before|
  {
    if |before| == 0 {
      assert before + [f] == [f];
    } else {
      assert (before + [f])[1..] == before[1..] + [f];
      AppendToLast(before[1..], f, value);
      assert before == [before[0]] + before[1..];
    }
  }

  function WireValues(name: Bytes, values: seq<Bytes>): (r: seq<Bytes>)
    ensures |r| == |values|
    ensures forall i | 0 <= i < |values| :: r[i] == WireValue(name, values[i])
  {
    seq(|values|, i requires 0 <= i < |values| => WireValue(name, values[i]))
  }

  lemma WireValuesCons(name: Bytes, before: seq<Bytes>, values: seq<Bytes>)
    requires |values| > 0
    ensures before + WireValues(name, values) ==
            (before + [WireValue(name, values[0])]) + WireValues(name, values[1..])
  {
  }

  lemma {:induction false} AppendAllGrowsLast(before: HeaderMap, f: Field, values: seq<Bytes>)
    requires Absent(before, f.name)
    ensures AppendAll(before + [f], f.name, values) ==
            before + [Field(f.name, f.values + WireValues(f.name, values))]
    decreases |values|
  {
    if |values| == 0 {
      assert f.values + WireValues(f.name, values) == f.values;
    } else {
      var v := WireValue(f.name, values[0]);
      AppendToLast(before, f, v);
      AppendAllGrowsLast(before, Field(f.name, f.values + [v]), values[1..]);
      WireValuesCons(f.name, f.values, values);
    }
  }

  lemma AppendAllOpens(headers: HeaderMap, f: Field)
    requires Absent(headers, f.name) && |f.values| > 0
    ensures AppendAll(headers, f.name, f.values) == headers + [Field(f.name, WireValues(f.name, f.values))]
  {
    var first := Field(f.name, [WireValue(f.name, f.values[0])]);
    AppendToNew(headers, f.name, WireValue(f.name, f.values[0]));
    AppendAllGrowsLast(headers, first, f.values[1..]);
    WireValuesCons(f.name, [], f.values);
    assert [] + WireValues(f.name, f.values) == WireValues(f.name, f.values);
    assert [] + [WireValue(f.name, f.values[0])] == first.values;
  }

  function OnWire(f: Field): Field
  {
    Field(f.name, WireValues(f.name, f.values))
  }

  function AllOnWire(fields: seq<Field>): (r: seq<Field>)
    ensures |r| == |fields|
    ensures forall i | 0 <= i < |fields| :: r[i] == OnWire(fields[i])
  {
    seq(|fields|, i requires 0 <= i < |fields| => OnWire(fields[i]))
  }

  lemma {:induction false} WireOntoAppends(done: seq<Field>, fields: seq<Field>)
    requires Half(done + fields)
    ensures WireOnto(AllOnWire(done), fields) == AllOnWire(done + fields)
    decreases |fields|
  {
    if |fields| == 0 {
      assert done + fields == done;
    } else {
      var f := fields[0];
      assert f == (done + fields)[|done|];
      assert Accepted(f);
      forall i | 0 <= i < |done| ensures AllOnWire(done)[i].name != f.name {
        assert (done + fields)[i].name != (done + fields)[|done|].name;
      }
      AppendAllOpens(AllOnWire(done), f);
      assert AllOnWire(done) + [OnWire(f)] == AllOnWire(done + [f]);
      assert (done + [f]) + fields[1..] == done + fields;
      WireOntoAppends(done + [f], fields[1..]);
    }
  }

  /** Each group goes out once, with its values in order. */
  lemma WireKeepsGroups(fields: seq<Field>)
    requires Half(fields)
    ensures Wire(fields) == AllOnWire(fields)
  {
    assert [] + fields == fields;
    WireOntoAppends([], fields);
  }

  lemma TrimKeepsPrintable(v: Bytes)
    requires Printable(v)
    ensures Printable(Trim(v))
  {
    TrimStartIsSuffix(v);
  }

  lemma {:induction false} TrimStartIsSuffix(v: Bytes)
    ensures |TrimStart(v)| <= |v| && TrimStart(v) == v[|v| - |TrimStart(v)|..]
    decreases |v|
  {
    if |v| > 0 && Space(v[0]) { TrimStartIsSuffix(v[1..]); }
  }

  lemma EncodedBytes(v: Bytes)
    ensures forall i | 0 <= i < |Encode(v)| :: IsSymbol(Encode(v)[i])
    ensures COMMA !in Encode(v) && Trim(Encode(v)) == Encode(v)
  {
    ValuesUndoSymbols(Digits(v));
    NothingToTrim(Encode(v));
  }

  lemma NothingToTrim(s: Bytes)
    requires |s| > 0 ==> !Space(s[0]) && !Space(s[|s| - 1])
    ensures Trim(s) == s
  {
    assert TrimStart(s) == s;
    assert TrimEnd(s) == s;
  }

  /** The conversion to a header value cannot fail, and the value has no space at either end. */
  lemma WireValueIsLegal(f: Field, v: Bytes)
    requires Accepted(f) && v in f.values
    ensures var w := WireValue(f.name, v);
            HeaderValue(w) && (|w| > 0 ==> !Space(w[0]) && !Space(w[|w| - 1]))
  {
    if Binary(f.name) {
      EncodedBytes(v);
    } else {
      TrimKeepsPrintable(v);
    }
  }

  /** What the reader of a group gets: binary values as they were, text values without their edge spaces. */
  function Received(f: Field): (r: Field)
    ensures |r.values| == |f.values| && r.name == f.name
    ensures forall i | 0 <= i < |f.values| ::
              r.values[i] == if Binary(f.name) then f.values[i] else Trim(f.values[i])
  {
    Field(f.name, seq(|f.values|, i requires 0 <= i < |f.values| =>
                        if Binary(f.name) then f.values[i] else Trim(f.values[i])))
  }

  function AllReceived(fields: seq<Field>): (r: seq<Field>)
    ensures |r| == |fields|
    ensures forall i | 0 <= i < |fields| :: r[i] == Received(fields[i])
  {
    seq(|fields|, i requires 0 <= i < |fields| => Received(fields[i]))
  }

  lemma ReadWireValue(f: Field, v: Bytes)
    requires Accepted(f) && v in f.values
    ensures ReadValue(f.name, WireValue(f.name, v)) == [if Binary(f.name) then v else Trim(v)]
  {
    if Binary(f.name) {
      EncodedBytes(v);
      DecodeUndoesEncode(v);
      OnePiece(Encode(v));
    } else {
      TrimKeepsPrintable(v);
    }
  }

  lemma OnePiece(s: Bytes)
    requires COMMA !in s && Decode(Trim(s)).Some?
    ensures DecodePieces(Split(s, COMMA)) == [Decode(Trim(s)).value]
  {
    assert Split(s, COMMA) == [s];
    assert DecodePieces([s][1..]) == [];
  }

  lemma {:induction false} ReadEach(name: Bytes, lines: seq<Bytes>, got: seq<Bytes>)
    requires |lines| == |got|
    requires forall i | 0 <= i < |lines| :: ReadValue(name, lines[i]) == [got[i]]
    ensures ReadValues(name, lines) == got
    decreases |lines|
  {
    hide ReadValue;
    var n := |lines| - 1;
    if n >= 0 {
      ReadEach(name, lines[..n], got[..n]);
      assert got == got[..n] + [got[n]];
    }
  }

  lemma ReadOnWire(f: Field)
    requires Accepted(f)
    ensures ReadField(OnWire(f)) == [Received(f)]
  {
    var lines, got := WireValues(f.name, f.values), Received(f).values;
    forall i | 0 <= i < |lines| ensures ReadValue(f.name, lines[i]) == [got[i]] {
      ReadWireValue(f, f.values[i]);
    }
    ReadEach(f.name, lines, got);
  }

  lemma {:induction false} ReadEachField(headers: HeaderMap, got: seq<Field>)
    requires |headers| == |got|
    requires forall i | 0 <= i < |headers| :: ReadField(headers[i]) == [got[i]]
    ensures ContextMetadata(headers) == got
    decreases |headers|
  {
    hide ReadField;
    var n := |headers| - 1;
    if n >= 0 {
      ReadEachField(headers[..n], got[..n]);
      assert got == got[..n] + [got[n]];
    }
  }

  /** The main law: reading the wire form of a half gives the same names and values, in order. */
  lemma MetadataRoundTrip(fields: seq<Field>)
    requires Half(fields)
    ensures ContextMetadata(Wire(fields)) == AllReceived(fields)
  {
    WireKeepsGroups(fields);
    forall i | 0 <= i < |fields| ensures ReadField(AllOnWire(fields)[i]) == [AllReceived(fields)[i]] {
      ReadOnWire(fields[i]);
    }
    ReadEachField(AllOnWire(fields), AllReceived(fields));
  }

  function Join(pieces: seq<Bytes>): Bytes
    requires |pieces| > 0
  {
    if |pieces| == 1 then pieces[0] else pieces[0] + [COMMA] + Join(pieces[1..])
  }

  /** A piece of a line that stands for one binary value: padded or not, with a space before it or not. */
  predicate StandsFor(piece: Bytes, value: Bytes)
  {
    || piece == Encode(value) || piece == Encode(value) + Padding(value)
    || piece == [32] + Encode(value) || piece == [32] + (Encode(value) + Padding(value))
  }

  lemma PieceIsRead(piece: Bytes, value: Bytes)
    requires StandsFor(piece, value)
    ensures COMMA !in piece && Decode(Trim(piece)) == Some(value)
  {
    EncodedBytes(value);
    DecodeUndoesEncode(value);
    NothingToTrim(Encode(value) + Padding(value));
    TrimSpace(Encode(value));
    TrimSpace(Encode(value) + Padding(value));
  }

  lemma TrimSpace(s: Bytes)
    ensures Trim([32] + s) == Trim(s)
  {
    assert ([32] + s)[1..] == s;
  }

  /** Binary values joined on one line are read one by one. */
  lemma {:induction false} JoinedValuesAreRead(pieces: seq<Bytes>, values: seq<Bytes>)
    requires |pieces| > 0 && |values| == |pieces|
    requires forall i | 0 <= i < |pieces| :: StandsFor(pieces[i], values[i])
    ensures DecodePieces(Split(Join(pieces), COMMA)) == values
    decreases |values|
  {
    PieceIsRead(pieces[0], values[0]);
    assert values == [values[0]] + values[1..];
    if |pieces| == 1 {
      OnePiece(pieces[0]);
    } else {
      NextPiece(pieces[0], Join(pieces[1..]));
      JoinedValuesAreRead(pieces[1..], values[1..]);
    }
  }

  lemma NextPiece(piece: Bytes, rest: Bytes)
    requires COMMA !in piece && Decode(Trim(piece)).Some?
    ensures DecodePieces(Split(piece + [COMMA] + rest, COMMA)) ==
            [Decode(Trim(piece)).value] + DecodePieces(Split(rest, COMMA))
  {
    SplitHead(piece, COMMA, rest);
    assert ([piece] + Split(rest, COMMA))[1..] == Split(rest, COMMA);
  }
}
