/** The boundary parameter of a multipart content type. */
module Boundaries {
  import opened Basics
  import opened MultipartLaws
  import opened MultipartSpec
  import opened Text

  const SEMICOLON: byte := 59
  const EQUALS: byte := 61
  const COMMA: byte := 44
  const QUOTE: byte := 34
  const BOUNDARY := Ascii("boundary")

  /** Missing, empty and unterminated boundaries are refused alike. */
  datatype Found = Refused | Boundary(value: Bytes)

  predicate Names(segment: Bytes)
  {
    EQUALS in segment && SameIgnoringCase(Trim(Before(segment, EQUALS)), BOUNDARY)
  }

  /** A quoted value ends at its quote, an unquoted one at a comma. */
  function ValueOf(segment: Bytes): Found
    requires Names(segment)
  {
    var text := Trim(After(segment, EQUALS));
    if text != [] && text[0] == QUOTE then
      if QUOTE !in text[1..] then Refused else NonEmpty(Before(text[1..], QUOTE))
    else
      NonEmpty(if COMMA in text then Trim(Before(text, COMMA)) else text)
  }

  function NonEmpty(value: Bytes): Found
  {
    if value == [] then Refused else Boundary(value)
  }

  /** The first segment that names the boundary decides. */
  function FirstIn(segments: seq<Bytes>): Found
  {
    if |segments| == 0 then Refused
    else if Names(segments[0]) then ValueOf(segments[0])
    else FirstIn(segments[1..])
  }

  function BoundaryOf(contentType: Bytes): Found
  {
    FirstIn(Split(contentType, SEMICOLON)[1..])
  }

  method FindBoundary(contentType: Bytes) returns (r: Found)
    ensures r == BoundaryOf(contentType)
  {
    var segments := Split(contentType, SEMICOLON);
    var i := 1;
    while i < |segments|
      invariant 1 <= i <= |segments|
      invariant BoundaryOf(contentType) == FirstIn(segments[i..])
    {
      var segment := segments[i];
      assert segments[i..][1..] == segments[i + 1..];
      if EQUALS in segment {
        var key, text := Trim(Before(segment, EQUALS)), Trim(After(segment, EQUALS));
        if SameIgnoringCase(key, BOUNDARY) {
          var value: Bytes;
          if text != [] && text[0] == QUOTE {
            var end := FindByte(text[1..], 0, QUOTE);
            assert text[1..][0..] == text[1..];
            if end.None? {
              return Refused;
            }
            value := Before(text[1..], QUOTE);
          } else {
            value := if COMMA in text then Trim(Before(text, COMMA)) else text;
          }
          return if value == [] then Refused else Boundary(value);
        }
      }
      i := i + 1;
    }
    r := Refused;
  }

  lemma TrimWithin(s: Bytes, b: byte)
    requires b !in s
    ensures b !in Trim(s)
  {
    TrimStartWithin(s, b);
  }

  lemma {:induction false} TrimStartWithin(s: Bytes, b: byte)
    requires b !in s
    ensures b !in TrimStart(s)
    decreases |s|
  {
    if s != [] && Space(s[0]) { TrimStartWithin(s[1..], b); }
  }

  lemma AfterWithin(s: Bytes, sep: byte, b: byte)
    requires b !in s
    ensures b !in After(s, sep) && b !in Before(s, sep)
  {
  }

  lemma ValueWithin(segment: Bytes, b: byte)
    requires b !in segment && Names(segment)
    ensures ValueOf(segment).Boundary? ==> b !in ValueOf(segment).value && ValueOf(segment).value != []
  {
    hide Trim, Before, After, Names;
    AfterWithin(segment, EQUALS, b);
    var text := Trim(After(segment, EQUALS));
    TrimWithin(After(segment, EQUALS), b);
    if text != [] && text[0] == QUOTE {
      assert b !in text[1..];
      AfterWithin(text[1..], QUOTE, b);
    } else {
      AfterWithin(text, COMMA, b);
      TrimWithin(Before(text, COMMA), b);
    }
  }

  lemma {:induction false} FirstWithin(segments: seq<Bytes>, b: byte)
    requires forall s | s in segments :: b !in s
    ensures FirstIn(segments).Boundary? ==> b !in FirstIn(segments).value && FirstIn(segments).value != []
    decreases |segments|
  {
    hide Names, ValueOf;
    if |segments| > 0 {
      if Names(segments[0]) {
        ValueWithin(segments[0], b);
      } else {
        FirstWithin(segments[1..], b);
      }
    }
  }

  lemma {:induction false} SplitWithin(s: Bytes, sep: byte, b: byte)
    requires b !in s
    ensures forall p | p in Split(s, sep) :: b !in p
    decreases |s|
  {
    if sep in s {
      AfterWithin(s, sep, b);
      SplitWithin(After(s, sep), sep, b);
    }
  }

  /** A content type is a header value and holds no line ending, so a delimiter made of its boundary is one
      for which written parts can be split again. */
  lemma BoundaryMakesDelimiter(contentType: Bytes)
    requires LF !in contentType && BoundaryOf(contentType).Boundary?
    ensures Delim(DASHES + BoundaryOf(contentType).value)
  {
    SplitWithin(contentType, SEMICOLON, LF);
    FirstWithin(Split(contentType, SEMICOLON)[1..], LF);
  }
}
