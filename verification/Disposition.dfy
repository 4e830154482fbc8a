/** How a form part gets its name and file name: the parameter list behind the disposition type. */
module Dispositions {
  import opened Basics
  import opened Text

  const QUOTE: byte := 34
  const BACKSLASH: byte := 92
  const SEMICOLON: byte := 59
  const EQUALS: byte := 61

  const NAME := Ascii("name")
  const FILENAME := Ascii("filename")

  datatype Param = Param(key: Bytes, value: Bytes)

  /** A disposition that cannot be read is refused with one and the same status. */
  datatype Outcome = Refused | Read(name: Option<Bytes>, filename: Option<Bytes>)

  predicate Escape(s: Bytes)
  {
    |s| >= 2 && s[0] == BACKSLASH && (s[1] == BACKSLASH || s[1] == QUOTE)
  }

  datatype Quoted = Open | Closed(value: Bytes, rest: Bytes)

  function Push(b: byte, q: Quoted): Quoted
  {
    match q
    case Open => Open
    case Closed(value, rest) => Closed([b] + value, rest)
  }

  /** Reads up to the closing quote; only a backslash before a backslash or a quote escapes. */
  function Unquote(s: Bytes): (q: Quoted)
    ensures q.Closed? ==> |q.value| + 1 + |q.rest| <= |s|
  {
    if s == [] then Open
    else if s[0] == QUOTE then Closed([], s[1..])
    else if Escape(s) then Push(s[1], Unquote(s[2..]))
    else Push(s[0], Unquote(s[1..]))
  }

  function SkipBlanks(s: Bytes): (r: Bytes)
    ensures |r| <= |s|
  {
    if s != [] && (s[0] == 32 || s[0] == 9) then SkipBlanks(s[1..]) else s
  }

  /** One parameter's value and the text that follows it. */
  function Value(s: Bytes): (q: Quoted)
    ensures q.Closed? ==> |q.rest| <= |s|
  {
    var t := SkipBlanks(s);
    if t != [] && t[0] == QUOTE then Unquote(t[1..])
    else Closed(Trim(Before(t, SEMICOLON)), t[|Before(t, SEMICOLON)|..])
  }

  /** Every parameter of the text after a semicolon, in order; None when a quoted value stays open. */
  function Params(s: Bytes): Option<seq<Param>>
    decreases |s|
  {
    if EQUALS !in s then Some([])
    else
      var q := Value(After(s, EQUALS));
      if q.Open? then None
      else
        match Params(After(q.rest, SEMICOLON))
        case None => None
        case Some(more) => Some([Param(Trim(Before(s, EQUALS)), q.value)] + more)
  }

  /** The values of the parameters called `key`, in order. */
  function ValuesOf(params: seq<Param>, key: Bytes): seq<Bytes>
  {
    if params == [] then []
    else
      (if SameIgnoringCase(params[0].key, key) then [params[0].value] else [])
      + ValuesOf(params[1..], key)
  }

  lemma {:induction false} ValuesOfAppend(a: seq<Param>, b: seq<Param>, key: Bytes)
    ensures ValuesOf(a + b, key) == ValuesOf(a, key) + ValuesOf(b, key)
    decreases |a|
  {
    if a == [] {
      assert a + b == b;
    } else {
      assert (a + b)[1..] == a[1..] + b;
      ValuesOfAppend(a[1..], b, key);
    }
  }

  function Sole(values: seq<Bytes>): Option<Bytes>
    requires |values| <= 1
  {
    if values == [] then None else Some(values[0])
  }

  /** A value is refused when a quote stays open or a name or filename comes twice. */
  function Disposition(v: Bytes): Outcome
  {
    match Params(After(v, SEMICOLON))
    case None => Refused
    case Some(params) =>
      var names, filenames := ValuesOf(params, NAME), ValuesOf(params, FILENAME);
      if |names| > 1 || |filenames| > 1 then Refused else Read(Sole(names), Sole(filenames))
  }

  predicate Special(b: byte)
  {
    b == QUOTE || b == BACKSLASH
  }

  /** How a sender quotes a value. */
  function Quote(value: Bytes): Bytes
  {
    if value == [] then []
    else if Special(value[0]) then [BACKSLASH, value[0]] + Quote(value[1..])
    else [value[0]] + Quote(value[1..])
  }

  lemma UnquoteEscaped(b: byte, tail: Bytes)
    requires Special(b)
    ensures Unquote([BACKSLASH, b] + tail) == Push(b, Unquote(tail))
  {
    var text := [BACKSLASH, b] + tail;
    assert text[0] == BACKSLASH && text[1] == b && text[2..] == tail;
  }

  lemma UnquotePlain(b: byte, tail: Bytes)
    requires !Special(b)
    ensures Unquote([b] + tail) == Push(b, Unquote(tail))
  {
    var text := [b] + tail;
    assert text[0] == b && text[1..] == tail;
  }

  lemma Regroup(a: Bytes, b: Bytes, c: Bytes, d: Bytes)
    ensures (a + b) + c + d == a + (b + c + d)
  {
  }

  lemma {:induction false} UnquoteUndoesQuote(value: Bytes, rest: Bytes)
    ensures Unquote(Quote(value) + [QUOTE] + rest) == Closed(value, rest)
    decreases |value|
  {
    if |value| == 0 {
      assert Quote(value) + [QUOTE] + rest == [QUOTE] + rest;
    } else {
      UnquoteUndoesQuote(value[1..], rest);
      var tail := Quote(value[1..]) + [QUOTE] + rest;
      if Special(value[0]) {
        Regroup([BACKSLASH, value[0]], Quote(value[1..]), [QUOTE], rest);
        UnquoteEscaped(value[0], tail);
      } else {
        Regroup([value[0]], Quote(value[1..]), [QUOTE], rest);
        UnquotePlain(value[0], tail);
      }
      assert value == [value[0]] + value[1..];
    }
  }

  /** A value that holds no quote and no escape pair, and that does not end in a backslash. */
  predicate Plain(value: Bytes)
  {
    && QUOTE !in value
    && (forall i | 0 <= i < |value| - 1 :: !(value[i] == BACKSLASH && value[i + 1] == BACKSLASH))
    && (value != [] ==> value[|value| - 1] != BACKSLASH)
  }

  /** A value sent between quotes as it is comes back whole exactly when it is plain. */
  lemma {:induction false} UnquotedSurvivesIffPlain(value: Bytes, rest: Bytes)
    ensures Unquote(value + [QUOTE] + rest) == Closed(value, rest) <==> Plain(value)
    decreases |value|
  {
    var text := value + [QUOTE] + rest;
    if value == [] {
      assert text == [QUOTE] + rest;
    } else {
      var tail := value[1..] + [QUOTE] + rest;
      assert text == [value[0]] + tail;
      if value[0] == QUOTE {
        assert Unquote(text) == Closed([], tail);
      } else if Escape(text) {
        // An escape loses a byte, so the lengths cannot match.
        assert !Plain(value) by {
          if |value| > 1 {
            assert value[1] == text[1];
          }
        }
      } else {
        UnquotedSurvivesIffPlain(value[1..], rest);
        assert value == [value[0]] + value[1..];
      }
    }
  }

  /** A key that the reader gives back as it was written. */
  predicate Key(key: Bytes)
  {
    EQUALS !in key && key != [] && !Space(key[0]) && !Space(key[|key| - 1])
  }

  /** Parameters as a sender writes them, each behind a semicolon and a space. */
  function Format(params: seq<Param>): Bytes
  {
    if |params| == 0 then [] else [SEMICOLON] + FormatOne(params[0], Format(params[1..]))
  }

  function FormatOne(p: Param, more: Bytes): Bytes
  {
    ([32] + p.key) + [EQUALS] + ([QUOTE] + Quote(p.value) + [QUOTE] + more)
  }

  lemma TrimDropsLeadingSpace(key: Bytes)
    requires Key(key)
    ensures Trim([32] + key) == key
  {
    assert ([32] + key)[1..] == key;
    assert TrimStart(key) == key;
    assert TrimEnd(key) == key;
  }

  lemma ValueOfQuoted(value: Bytes, rest: Bytes)
    ensures Value([QUOTE] + Quote(value) + [QUOTE] + rest) == Closed(value, rest)
  {
    var s := [QUOTE] + Quote(value) + [QUOTE] + rest;
    assert s[1..] == Quote(value) + [QUOTE] + rest;
    UnquoteUndoesQuote(value, rest);
  }

  lemma OneParam(p: Param, more: Bytes)
    requires Key(p.key)
    ensures Params(FormatOne(p, more)) ==
            match Params(After(more, SEMICOLON))
            case None => None
            case Some(rest) => Some([p] + rest)
  {
    var s := FormatOne(p, more);
    assert s[|p.key| + 1] == EQUALS;
    BeforeSplits([32] + p.key, EQUALS, [QUOTE] + Quote(p.value) + [QUOTE] + more);
    TrimDropsLeadingSpace(p.key);
    ValueOfQuoted(p.value, more);
  }

  lemma AfterFirst(b: byte, rest: Bytes)
    ensures After([b] + rest, b) == rest
  {
    assert [b] + rest == [] + [b] + rest;
    BeforeSplits([], b, rest);
  }

  /** Whatever the values hold, reading a written parameter list gives it back. */
  lemma {:induction false} ParamsUndoFormat(params: seq<Param>)
    requires forall p | p in params :: Key(p.key)
    ensures Params(After(Format(params), SEMICOLON)) == Some(params)
    decreases |params|
  {
    if |params| > 0 {
      ParamsUndoFormat(params[1..]);
      AfterFirst(SEMICOLON, FormatOne(params[0], Format(params[1..])));
      OneParam(params[0], Format(params[1..]));
      assert params == [params[0]] + params[1..];
    }
  }

  lemma AfterPrefix(kind: Bytes, text: Bytes)
    requires SEMICOLON !in kind
    requires text == [] || text[0] == SEMICOLON
    ensures After(kind + text, SEMICOLON) == After(text, SEMICOLON)
  {
    if |text| == 0 {
      assert kind + text == kind;
    } else {
      var rest := text[1..];
      assert text == [] + [SEMICOLON] + rest;
      BeforeSplits([], SEMICOLON, rest);
      assert kind + text == kind + [SEMICOLON] + rest;
      BeforeSplits(kind, SEMICOLON, rest);
    }
  }

  /** The same behind a disposition type. */
  lemma ReadBack(kind: Bytes, params: seq<Param>)
    requires SEMICOLON !in kind
    requires forall p | p in params :: Key(p.key)
    ensures Params(After(kind + Format(params), SEMICOLON)) == Some(params)
  {
    AfterPrefix(kind, Format(params));
    ParamsUndoFormat(params);
  }

  /** The two parameters of a file part survive every byte string. */
  lemma NameAndFilenameRoundTrip(kind: Bytes, name: Bytes, filename: Bytes)
    requires SEMICOLON !in kind
    ensures Disposition(kind + Format([Param(NAME, name), Param(FILENAME, filename)])) ==
            Read(Some(name), Some(filename))
    ensures Disposition(kind + Format([Param(NAME, name)])) == Read(Some(name), None)
  {
    ReadBack(kind, [Param(NAME, name), Param(FILENAME, filename)]);
    ReadBack(kind, [Param(NAME, name)]);
    SoleValues(Param(NAME, name), Param(FILENAME, filename));
  }

  lemma SoleValues(a: Param, b: Param)
    requires a.key == NAME && b.key == FILENAME
    ensures ValuesOf([a], NAME) == [a.value] && ValuesOf([a], FILENAME) == []
    ensures ValuesOf([a, b], NAME) == [a.value] && ValuesOf([a, b], FILENAME) == [b.value]
  {
    KeysDiffer();
    ValuesOfAppend([a], [b], NAME);
    ValuesOfAppend([a], [b], FILENAME);
    assert [a] + [b] == [a, b];
  }

  lemma KeysDiffer()
    ensures !SameIgnoringCase(NAME, FILENAME)
  {
    assert |Lower(NAME)| != |Lower(FILENAME)|;
  }
}
