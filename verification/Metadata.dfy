/** gRPC metadata: what a handler may add to a response, its wire form, and how a request is read. */
module Metadata {
  import opened Base64
  import opened Basics
  import opened Text

  const COMMA: byte := 44

  /** One name with its values in the order they were added. */
  datatype Field = Field(name: Bytes, values: seq<Bytes>)

  /** Header lines grouped by name; the names stand in the order they first came. */
  type HeaderMap = seq<Field>

  const PREFIXES := [Ascii("grpc-"), Ascii("connect-"), Ascii("content-"), Ascii("trailer-")]
  const NAMES := [Ascii("te"), Ascii("trailer"), Ascii("connection"), Ascii("keep-alive"), Ascii("proxy-connection"),
                  Ascii("transfer-encoding"), Ascii("upgrade"), Ascii("host"), Ascii("accept-encoding")]
  const BIN := Ascii("-bin")
  const MAX_NAME := 0xFFFF

  /** The characters of a token (section 5.6.2 of RFC 9110). */
  predicate TokenByte(b: byte)
  {
    48 <= b <= 57 || 65 <= b <= 90 || 97 <= b <= 122
    || b in {33, 35, 36, 37, 38, 39, 42, 43, 45, 46, 94, 95, 96, 124, 126}
  }

  /** 0-9 a-z _ - . */
  predicate MetadataByte(b: byte)
  {
    48 <= b <= 57 || 97 <= b <= 122 || b == 95 || b == 45 || b == 46
  }

  /** A header name in lower case; None when the bytes are no header name. */
  function HeaderName(name: Bytes): Option<Bytes>
  {
    if name == [] || |name| > MAX_NAME || exists i | 0 <= i < |name| :: !TokenByte(name[i]) then None
    else Some(Lower(name))
  }

  /** What a handler may neither set nor see: the transport writes these itself. */
  predicate Reserved(name: Bytes)
  {
    (exists p | p in PREFIXES :: p <= name) || name in NAMES
  }

  predicate Printable(value: Bytes)
  {
    forall i | 0 <= i < |value| :: 0x20 <= value[i] <= 0x7e
  }

  predicate Binary(name: Bytes)
  {
    |name| >= 4 && name[|name| - 4..] == BIN
  }

  /** The bytes that a header value may hold. */
  predicate HeaderValue(value: Bytes)
  {
    forall i | 0 <= i < |value| :: value[i] == 9 || (value[i] >= 32 && value[i] != 127)
  }

  datatype Fault = NotAName | BadCharacter | TransportName | TakesBinary | NeedsSuffix | NotPrintable

  /** Why an entry is refused, whatever the state of the call. */
  function Check(binary: bool, name: Bytes, value: Bytes): Option<Fault>
  {
    match HeaderName(name)
    case None => Some(NotAName)
    case Some(lower) =>
      if exists i | 0 <= i < |lower| :: !MetadataByte(lower[i]) then Some(BadCharacter)
      else if Reserved(lower) then Some(TransportName)
      else if !binary && Binary(lower) then Some(TakesBinary)
      else if binary && !Binary(lower) then Some(NeedsSuffix)
      else if !binary && !Printable(value) then Some(NotPrintable)
      else None
  }

  /** Adds a value to its name's group, or opens a new group at the end. */
  function Append(headers: HeaderMap, name: Bytes, value: Bytes): (r: HeaderMap)
    ensures |headers| <= |r| <= |headers| + 1
  {
    if |headers| == 0 then [Field(name, [value])]
    else if headers[0].name == name then [headers[0].(values := headers[0].values + [value])] + headers[1..]
    else [headers[0]] + Append(headers[1..], name, value)
  }

  function WireValue(name: Bytes, value: Bytes): Bytes
  {
    if Binary(name) then Encode(value) else Trim(value)
  }

  function AppendAll(headers: HeaderMap, name: Bytes, values: seq<Bytes>): HeaderMap
    decreases |values|
  {
    if |values| == 0 then headers
    else AppendAll(Append(headers, name, WireValue(name, values[0])), name, values[1..])
  }

  function WireOnto(headers: HeaderMap, fields: seq<Field>): HeaderMap
    decreases |fields|
  {
    if |fields| == 0 then headers
    else WireOnto(AppendAll(headers, fields[0].name, fields[0].values), fields[1..])
  }

  /** The wire form of one half: every value appended under its name. */
  function Wire(fields: seq<Field>): HeaderMap
  {
    WireOnto([], fields)
  }

  function DecodePieces(pieces: seq<Bytes>): seq<Bytes>
  {
    if |pieces| == 0 then []
    else
      match Decode(Trim(pieces[0]))
      case None => DecodePieces(pieces[1..])
      case Some(v) => [v] + DecodePieces(pieces[1..])
  }

  /** What one line of a name stands for; a value that cannot be read is dropped. */
  function ReadValue(name: Bytes, line: Bytes): seq<Bytes>
  {
    if Binary(name) then DecodePieces(Split(line, COMMA))
    else if Printable(line) then [line]
    else []
  }

  function ReadValues(name: Bytes, lines: seq<Bytes>): seq<Bytes>
  {
    if |lines| == 0 then [] else ReadValues(name, lines[..|lines| - 1]) + ReadValue(name, lines[|lines| - 1])
  }

  /** The application's own keys; a key with no value left is absent. */
  function ReadField(f: Field): seq<Field>
  {
    var values := ReadValues(f.name, f.values);
    if Reserved(f.name) || |values| == 0 then [] else [Field(f.name, values)]
  }

  function ContextMetadata(headers: HeaderMap): seq<Field>
  {
    if |headers| == 0 then []
    else ContextMetadata(headers[..|headers| - 1]) + ReadField(headers[|headers| - 1])
  }
}
