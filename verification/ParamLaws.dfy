/** Parameters as senders write them: values without quotes, repeated names, and the boundary of a content type. */
module ParamLaws {
  import opened Basics
  import opened Dispositions
  import opened FormLaws
  import opened Text
  import B = Boundaries

  /** No space at either end. */
  predicate Bare(s: Bytes)
  {
    s != [] ==> !Space(s[0]) && !Space(s[|s| - 1])
  }

  lemma TrimKeepsBare(s: Bytes)
    ensures Trim(s) == s <==> Bare(s)
  {
    if Bare(s) {
      assert TrimStart(s) == s;
      assert TrimEnd(s) == s;
    }
  }

  lemma UpToSemicolon(value: Bytes, rest: Bytes)
    requires rest == [] || rest[0] == SEMICOLON
    ensures Before(value + rest, SEMICOLON) == value <==> SEMICOLON !in value
    ensures SEMICOLON in value ==> |Before(value + rest, SEMICOLON)| < |value|
  {
    hide Before;
    if SEMICOLON !in value {
      BeforeBehind(value, rest, SEMICOLON);
      StartsWith(rest, SEMICOLON);
      assert value + [] == value;
    } else {
      var i :| 0 <= i < |value| && value[i] == SEMICOLON;
      BeforeStops(value + rest, SEMICOLON, i);
    }
  }

  lemma StartsWith(s: Bytes, b: byte)
    ensures s == [] || s[0] == b ==> Before(s, b) == []
  {
  }

  lemma BeforeStops(s: Bytes, b: byte, i: nat)
    requires i < |s| && s[i] == b
    ensures |Before(s, b)| <= i
  {
    var r := Before(s, b);
    if i < |r| {
      assert r[i] == s[i];
    }
  }

  lemma {:induction false} WholeBefore(s: Bytes, b: byte)
    requires b !in s
    ensures Before(s, b) == s
    decreases |s|
  {
    if s != [] {
      WholeBefore(s[1..], b);
      assert s == [s[0]] + s[1..];
    }
  }

  lemma Shorter(q: Quoted, value: Bytes, rest: Bytes, text: Bytes)
    requires q.Closed? ==> |q.value| + 1 + |q.rest| <= |text|
    requires |text| <= |value| + |rest|
    ensures q != Closed(value, rest)
  {
  }

  /** A value sent without quotes comes back whole exactly if it holds no semicolon, has no space at its ends and does
      not begin with a quote. */
  lemma BareSurvivesIff(value: Bytes, rest: Bytes)
    requires rest == [] || rest[0] == SEMICOLON
    ensures Value(value + rest) == Closed(value, rest) <==>
              SEMICOLON !in value && Bare(value) && (value != [] ==> value[0] != QUOTE)
  {
    var t := SkipBlanks(value + rest);
    if t != [] && t[0] == QUOTE {
      Shorter(Unquote(t[1..]), value, rest, t[1..]);
      if value != [] && !Space(value[0]) {
        assert t == value + rest;
      }
    } else {
      UpToSemicolon(value, rest);
      if Bare(value) {
        assert t == value + rest by {
          if value == [] { assert value + rest == rest; }
        }
        TrimKeepsBare(Before(t, SEMICOLON));
        if SEMICOLON !in value {
          assert t[|value|..] == rest;
        }
      } else {
        assert Trim(Before(t, SEMICOLON)) != value;
      }
    }
  }

  /** A name that comes twice, in whatever case. */
  predicate Twice(params: seq<Param>, name: string)
  {
    exists i, j | 0 <= i < j < |params| :: Called(params[i], name) && Called(params[j], name)
  }

  lemma ValuesTwice(params: seq<Param>, name: string)
    ensures |ValuesOf(params, Ascii(name))| > 1 <==> Twice(params, name)
  {
    var values := ValuesOf(params, Ascii(name));
    ValuesNone(params, name);
    if values != [] {
      var i := FirstValue(params, name);
      if |values| > 1 && !Twice(params, name) {
        forall j | 0 <= j < |params| && j != i ensures !Called(params[j], name) { }
        SoleValue(params, name, i);
      }
    }
  }

  /** Every written parameter list is read: refused exactly if a name or a filename comes twice, and otherwise with
      the value of the one name and of the one filename, where there is one. */
  lemma WrittenDisposition(kind: Bytes, params: seq<Param>)
    requires SEMICOLON !in kind && forall p | p in params :: Key(p.key)
    ensures var d := Disposition(kind + Format(params));
            && (d.Refused? <==> Twice(params, "name") || Twice(params, "filename"))
            && (d.Read? ==> ReadsOne(params, "name", d.name) && ReadsOne(params, "filename", d.filename))
  {
    hide Format, Params;
    ReadBack(kind, params);
    ValuesTwice(params, "name");
    ValuesTwice(params, "filename");
    if !Twice(params, "name") { OneIsRead(params, "name"); }
    if !Twice(params, "filename") { OneIsRead(params, "filename"); }
  }

  predicate ReadsOne(params: seq<Param>, name: string, value: Option<Bytes>)
  {
    if value.None? then forall i | 0 <= i < |params| :: !Called(params[i], name)
    else exists i | 0 <= i < |params| :: Called(params[i], name) && params[i].value == value.value
  }

  lemma OneIsRead(params: seq<Param>, name: string)
    requires |ValuesOf(params, Ascii(name))| <= 1
    ensures ReadsOne(params, name, Sole(ValuesOf(params, Ascii(name))))
  {
    ValuesNone(params, name);
    if ValuesOf(params, Ascii(name)) != [] {
      var i := FirstValue(params, name);
    }
  }

  /** A quote that stays open refuses the disposition. */
  lemma OpenQuoteRefuses(kind: Bytes, key: Bytes, text: Bytes)
    requires SEMICOLON !in kind && EQUALS !in key && QUOTE !in text
    ensures Disposition(kind + ([SEMICOLON] + (key + [EQUALS] + ([QUOTE] + text)))) == Refused
  {
    hide Params;
    var s := key + [EQUALS] + ([QUOTE] + text);
    AfterPrefix(kind, [SEMICOLON] + s);
    AfterFirst(SEMICOLON, s);
    OpenParams(key, text);
  }

  lemma OpenParams(key: Bytes, text: Bytes)
    requires EQUALS !in key && QUOTE !in text
    ensures Params(key + [EQUALS] + ([QUOTE] + text)) == None
  {
    hide Value, Before, After, Trim;
    var s := key + [EQUALS] + ([QUOTE] + text);
    assert s[|key|] == EQUALS;
    BeforeSplits(key, EQUALS, [QUOTE] + text);
    OpenValue(text);
  }

  lemma OpenValue(text: Bytes)
    requires QUOTE !in text
    ensures Value([QUOTE] + text) == Open
  {
    assert ([QUOTE] + text)[1..] == text;
    NeverClosed(text);
  }

  lemma {:induction false} NeverClosed(text: Bytes)
    requires QUOTE !in text
    ensures Unquote(text).Open?
    decreases |text|
  {
    if text != [] {
      NeverClosed(text[1..]);
      if |text| > 1 {
        NeverClosed(text[2..]);
      }
    }
  }

  lemma {:induction false} SplitWhole(s: Bytes, b: byte)
    requires b !in s
    ensures Split(s, b) == [s]
  {
  }

  /** Segments as they stand behind a content type, each after a semicolon. */
  function Behind(segments: seq<Bytes>): Bytes
  {
    if segments == [] then [] else [B.SEMICOLON] + segments[0] + Behind(segments[1..])
  }

  lemma {:induction false} SplitBehind(kind: Bytes, segments: seq<Bytes>)
    requires B.SEMICOLON !in kind && forall s | s in segments :: B.SEMICOLON !in s
    ensures Split(kind + Behind(segments), B.SEMICOLON) == [kind] + segments
    decreases |segments|
  {
    if segments == [] {
      assert kind + Behind(segments) == kind;
      SplitWhole(kind, B.SEMICOLON);
      assert [kind] + segments == [kind];
    } else {
      hide Split, Before, After;
      var rest := segments[0] + Behind(segments[1..]);
      SplitBehind(segments[0], segments[1..]);
      SplitHead(kind, B.SEMICOLON, rest);
      Grouped(kind, [B.SEMICOLON], segments[0], Behind(segments[1..]));
      assert segments == [segments[0]] + segments[1..];
    }
  }

  lemma Grouped(a: Bytes, b: Bytes, c: Bytes, d: Bytes)
    ensures a + (b + c + d) == a + b + (c + d)
  {
  }

  /** The first segment called boundary decides, whatever stands before and behind it. */
  lemma {:induction false} FirstNamed(segments: seq<Bytes>, i: nat)
    requires i < |segments| && B.Names(segments[i]) && forall j | 0 <= j < i :: !B.Names(segments[j])
    ensures B.FirstIn(segments) == B.ValueOf(segments[i])
    decreases i
  {
    hide B.Names, B.ValueOf;
    if i > 0 {
      assert !B.Names(segments[0]);
      forall j | 0 <= j < i - 1 ensures !B.Names(segments[1..][j]) { assert segments[1..][j] == segments[j + 1]; }
      FirstNamed(segments[1..], i - 1);
    }
  }

  lemma FirstBoundaryDecides(kind: Bytes, segments: seq<Bytes>, i: nat)
    requires B.SEMICOLON !in kind && forall s | s in segments :: B.SEMICOLON !in s
    requires i < |segments| && B.Names(segments[i]) && forall j | 0 <= j < i :: !B.Names(segments[j])
    ensures B.BoundaryOf(kind + Behind(segments)) == B.ValueOf(segments[i])
  {
    hide B.Names, B.ValueOf;
    SplitBehind(kind, segments);
    FirstNamed(segments, i);
    assert ([kind] + segments)[1..] == segments;
  }

  /** The boundary parameter as a sender writes it, quoted or not. */
  function Written(text: Bytes): Bytes
  {
    [32] + Ascii("boundary") + [B.EQUALS] + text
  }

  lemma WrittenNames(text: Bytes)
    ensures B.Names(Written(text)) && After(Written(text), B.EQUALS) == text
  {
    var key := Ascii("boundary");
    assert Written(text) == ([32] + key) + [B.EQUALS] + text;
    assert Written(text)[9] == B.EQUALS;
    BeforeSplits([32] + key, B.EQUALS, text);
    SpaceGoes(key);
  }

  lemma SpaceGoes(key: Bytes)
    requires Bare(key) && key != []
    ensures Trim([32] + key) == key
  {
    assert ([32] + key)[1..] == key;
    assert TrimStart([32] + key) == TrimStart(key) == key;
    TrimKeepsBare(key);
  }

  lemma QuotedValue(b: Bytes)
    ensures B.Names(Written([B.QUOTE] + b + [B.QUOTE]))
    ensures B.ValueOf(Written([B.QUOTE] + b + [B.QUOTE])) == B.Boundary(b) <==> b != [] && B.QUOTE !in b
  {
    var text := [B.QUOTE] + b + [B.QUOTE];
    WrittenNames(text);
    TrimKeepsBare(text);
    var rest := text[1..];
    assert rest == b + [B.QUOTE] && rest[|b|] == B.QUOTE;
    if B.QUOTE !in b {
      assert rest == b + [B.QUOTE] + [];
      BeforeSplits(b, B.QUOTE, []);
    } else {
      var i :| 0 <= i < |b| && b[i] == B.QUOTE;
      assert rest[i] == B.QUOTE;
    }
  }

  lemma BareValue(b: Bytes)
    ensures B.Names(Written(b))
    ensures B.ValueOf(Written(b)) == B.Boundary(b) <==> b != [] && Bare(b) && B.COMMA !in b && b[0] != B.QUOTE
  {
    WrittenNames(b);
    TrimKeepsBare(b);
    var text := Trim(b);
    if text != [] && text[0] == B.QUOTE {
      TrimmedIsShorter(b);
    } else if B.COMMA in text {
      TrimmedIsShorter(b);
      TrimmedIsShorter(Before(text, B.COMMA));
    }
  }

  lemma TrimmedIsShorter(s: Bytes)
    ensures |Trim(s)| <= |s|
  {
  }

  lemma ValueIsShort(text: Bytes)
    ensures B.Names(Written(text))
    ensures var v := B.ValueOf(Written(text));
            v.Boundary? ==> |v.value| <= |text| && (text != [] && text[0] == B.QUOTE ==> |v.value| < |text|)
  {
    WrittenNames(text);
    TrimmedIsShorter(text);
    var t := Trim(text);
    TrimmedIsShorter(Before(t, B.COMMA));
    if text != [] && text[0] == B.QUOTE {
      assert TrimStart(text) == text;
      assert t == [] || t[0] == text[0];
      QuoteStays(text);
    }
  }

  lemma QuoteStays(text: Bytes)
    requires text != [] && text[0] == B.QUOTE
    ensures Trim(text) != [] && Trim(text)[0] == B.QUOTE
  {
    EndStays(text);
  }

  lemma {:induction false} EndStays(s: Bytes)
    requires s != [] && !Space(s[0])
    ensures TrimEnd(s) != [] && TrimEnd(s)[0] == s[0]
    decreases |s|
  {
    if Space(s[|s| - 1]) {
      EndStays(s[..|s| - 1]);
    }
  }

  lemma NoSemicolonWritten(text: Bytes)
    ensures B.SEMICOLON !in text ==> B.SEMICOLON !in Written(text)
    ensures Before(Written(text), B.SEMICOLON) == Written(Before(text, B.SEMICOLON))
  {
    var front := [32] + Ascii("boundary") + [B.EQUALS];
    assert B.SEMICOLON !in front;
    BeforeBehind(front, text, B.SEMICOLON);
  }

  lemma {:induction false} BeforeBehind(front: Bytes, text: Bytes, b: byte)
    requires b !in front
    ensures Before(front + text, b) == front + Before(text, b)
    decreases |front|
  {
    if front == [] {
      assert front + text == text;
    } else {
      assert (front + text)[1..] == front[1..] + text;
      BeforeBehind(front[1..], text, b);
      assert front == [front[0]] + front[1..];
    }
  }

  /** One boundary parameter behind a content type is read up to its first semicolon. */
  lemma OneSegment(kind: Bytes, text: Bytes)
    requires B.SEMICOLON !in kind
    ensures B.Names(Written(Before(text, B.SEMICOLON)))
    ensures B.BoundaryOf(kind + [B.SEMICOLON] + Written(text)) == B.ValueOf(Written(Before(text, B.SEMICOLON)))
  {
    hide B.Names, B.ValueOf;
    WrittenNames(Before(text, B.SEMICOLON));
    NoSemicolonWritten(text);
    NoSemicolonWritten(Before(text, B.SEMICOLON));
    SplitHead(kind, B.SEMICOLON, Written(text));
    var segments := Split(Written(text), B.SEMICOLON);
    FirstPiece(Written(text), B.SEMICOLON);
    assert ([kind] + segments)[1..] == segments;
    FirstNamed(segments, 0);
  }

  lemma FirstPiece(s: Bytes, b: byte)
    ensures Split(s, b)[0] == Before(s, b)
  {
    if b !in s {
      WholeBefore(s, b);
    }
  }

  lemma BeforeIsShorter(s: Bytes, b: byte)
    ensures b in s ==> |Before(s, b)| < |s|
    ensures b !in s ==> Before(s, b) == s
  {
    if b !in s {
      WholeBefore(s, b);
    }
  }

  /** A quoted boundary comes back exactly if it is not empty and holds neither a quote nor a semicolon. */
  lemma QuotedBoundary(kind: Bytes, b: Bytes)
    requires B.SEMICOLON !in kind
    ensures B.BoundaryOf(kind + [B.SEMICOLON] + Written([B.QUOTE] + b + [B.QUOTE])) == B.Boundary(b) <==>
              b != [] && B.QUOTE !in b && B.SEMICOLON !in b
  {
    hide B.BoundaryOf, B.ValueOf;
    var text := [B.QUOTE] + b + [B.QUOTE];
    OneSegment(kind, text);
    if B.SEMICOLON in b {
      assert text == ([B.QUOTE] + b) + [B.QUOTE];
      QuotedCut(b);
      ValueIsShort(Before(text, B.SEMICOLON));
    } else {
      BeforeIsShorter(text, B.SEMICOLON);
      QuotedValue(b);
    }
  }

  lemma QuotedCut(b: Bytes)
    requires B.SEMICOLON in b
    ensures var cut := Before([B.QUOTE] + b + [B.QUOTE], B.SEMICOLON);
            cut != [] && cut[0] == B.QUOTE && |cut| <= |b|
  {
    var text := [B.QUOTE] + b + [B.QUOTE];
    var i :| 0 <= i < |b| && b[i] == B.SEMICOLON;
    assert text[i + 1] == B.SEMICOLON && text[0] == B.QUOTE;
  }

  /** A boundary without quotes comes back exactly if it is not empty, has no space at its ends, holds neither a comma
      nor a semicolon, and does not begin with a quote. */
  lemma BareBoundary(kind: Bytes, b: Bytes)
    requires B.SEMICOLON !in kind
    ensures B.BoundaryOf(kind + [B.SEMICOLON] + Written(b)) == B.Boundary(b) <==>
              b != [] && Bare(b) && B.COMMA !in b && B.SEMICOLON !in b && b[0] != B.QUOTE
  {
    hide B.BoundaryOf, B.ValueOf;
    OneSegment(kind, b);
    BeforeIsShorter(b, B.SEMICOLON);
    if B.SEMICOLON in b {
      ValueIsShort(Before(b, B.SEMICOLON));
    } else {
      BareValue(b);
    }
  }
}
