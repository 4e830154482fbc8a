/** The reader of a content-disposition value: one pass over its bytes. */
module DispositionParsers {
  import opened Basics
  import opened Text
  import opened Dispositions

  /** A search for one byte cuts the rest of the text where the specification does. */
  lemma FindCuts(v: Bytes, i: nat, b: byte)
    requires i <= |v|
    ensures var r := FindByte(v, i, b);
            if r.Some? then
              && Before(v[i..], b) == v[i..r.value]
              && After(v[i..], b) == v[r.value + 1..]
            else Before(v[i..], b) == v[i..] && After(v[i..], b) == []
  {
    var r := FindByte(v, i, b);
    if r.Some? {
      var e := r.value;
      assert v[i..] == v[i..e] + [b] + v[e + 1..];
      BeforeSplits(v[i..e], b, v[e + 1..]);
    }
  }

  function PushAll(out: Bytes, q: Quoted): Quoted
  {
    match q
    case Open => Open
    case Closed(value, rest) => Closed(out + value, rest)
  }

  lemma PushOne(out: Bytes, b: byte, q: Quoted)
    ensures PushAll(out, Push(b, q)) == PushAll(out + [b], q)
  {
    if q.Closed? {
      assert out + ([b] + q.value) == (out + [b]) + q.value;
    }
  }

  lemma QuotedStart(v: Bytes, start: nat)
    requires start <= |v|
    ensures SoFar(v, start, start, [])
  {
    var q := Unquote(v[start..]);
    if q.Closed? {
      assert [] + q.value == q.value;
    }
  }

  /** The text from `start` reads as `out` followed by what the text from `k` reads as. */
  predicate SoFar(v: Bytes, start: nat, k: nat, out: Bytes)
    requires start <= |v| && k <= |v|
  {
    Unquote(v[start..]) == PushAll(out, Unquote(v[k..]))
  }

  lemma QuotedEscape(v: Bytes, start: nat, k: nat, out: Bytes)
    requires start <= k && k + 1 < |v| && v[k] == BACKSLASH && Special(v[k + 1])
    requires SoFar(v, start, k, out)
    ensures SoFar(v, start, k + 2, out + [v[k + 1]])
  {
    assert v[k..][1] == v[k + 1] && v[k..][2..] == v[k + 2..];
    PushOne(out, v[k + 1], Unquote(v[k + 2..]));
  }

  lemma QuotedByte(v: Bytes, start: nat, k: nat, out: Bytes)
    requires start <= k < |v| && v[k] != QUOTE
    requires v[k] == BACKSLASH && k + 1 < |v| ==> !Special(v[k + 1])
    requires SoFar(v, start, k, out)
    ensures SoFar(v, start, k + 1, out + [v[k]])
  {
    assert v[k..][1..] == v[k + 1..] && (k + 1 < |v| ==> v[k..][1] == v[k + 1]);
    PushOne(out, v[k], Unquote(v[k + 1..]));
  }

  lemma QuotedEnd(v: Bytes, start: nat, k: nat, out: Bytes)
    requires start <= k <= |v| && (k < |v| ==> v[k] == QUOTE)
    requires SoFar(v, start, k, out)
    ensures Unquote(v[start..]) == if k < |v| then Closed(out, v[k + 1..]) else Open
  {
    if k < |v| {
      assert v[k..][1..] == v[k + 1..];
      assert out + [] == out;
    }
  }

  /** Reads from behind the opening quote to behind the closing one. */
  method ReadQuoted(v: Bytes, start: nat) returns (closed: bool, out: Bytes, next: nat, ghost steps: nat)
    requires start <= |v|
    ensures closed <==> Unquote(v[start..]).Closed?
    ensures closed ==> start < next <= |v| && Unquote(v[start..]) == Closed(out, v[next..])
    ensures steps <= (if closed then next else |v|) - start
  {
    out, steps := [], 0;
    var k := start;
    hide Unquote, PushAll, SoFar;
    QuotedStart(v, start);
    while k < |v|
      invariant start <= k <= |v| && steps == k - start
      invariant SoFar(v, start, k, out)
      decreases |v| - k
    {
      if v[k] == QUOTE {
        QuotedEnd(v, start, k, out);
        return true, out, k + 1, steps + 1;
      }
      if v[k] == BACKSLASH && k + 1 < |v| && (v[k + 1] == BACKSLASH || v[k + 1] == QUOTE) {
        QuotedEscape(v, start, k, out);
        out := out + [v[k + 1]];
        k, steps := k + 2, steps + 2;
      } else {
        QuotedByte(v, start, k, out);
        out := out + [v[k]];
        k, steps := k + 1, steps + 1;
      }
    }
    QuotedEnd(v, start, k, out);
    return false, out, k, steps;
  }

  method SkipToValue(v: Bytes, start: nat) returns (j: nat, ghost steps: nat)
    requires start <= |v|
    ensures start <= j <= |v|
    ensures SkipBlanks(v[start..]) == v[j..]
    ensures steps == j - start + 1
  {
    j, steps := start, 1;
    while j < |v| && (v[j] == 32 || v[j] == 9)
      invariant start <= j <= |v| && steps == j - start + 1
      invariant SkipBlanks(v[start..]) == SkipBlanks(v[j..])
    {
      assert v[j..][1..] == v[j + 1..];
      j, steps := j + 1, steps + 1;
    }
  }

  lemma BareValue(v: Bytes, j: nat, next: nat)
    requires j <= next <= |v|
    requires Before(v[j..], SEMICOLON) == v[j..next]
    ensures v[j..][|Before(v[j..], SEMICOLON)|..] == v[next..]
  {
  }

  /** Reads one value, quoted or not, and says where it ends. Trimming looks at each byte once more. */
  method ReadValue(v: Bytes, start: nat) returns (closed: bool, val: Bytes, next: nat, ghost steps: nat)
    requires start <= |v|
    ensures closed <==> Value(v[start..]).Closed?
    ensures closed ==> start <= next <= |v| && Value(v[start..]) == Closed(val, v[next..])
    ensures steps <= 2 * ((if closed then next else |v|) - start) + 2
  {
    var j, skipped := SkipToValue(v, start);
    if j < |v| && v[j] == QUOTE {
      assert v[j..][1..] == v[j + 1..];
      ghost var quoted;
      closed, val, next, quoted := ReadQuoted(v, j + 1);
      steps := skipped + 1 + quoted;
    } else {
      var semi := FindByte(v, j, SEMICOLON);
      FindCuts(v, j, SEMICOLON);
      next := if semi.Some? then semi.value else |v|;
      BareValue(v, j, next);
      return true, Trim(v[j..next]), next, skipped + (next - j + 1) + (next - j);
    }
  }

  function Following(done: seq<Param>, rest: Option<seq<Param>>): Option<seq<Param>>
  {
    match rest
    case None => None
    case Some(more) => Some(done + more)
  }

  /** What the specification reads is what is done, and then what the text `s` holds. */
  predicate Undecided(v: Bytes, done: seq<Param>, s: Bytes)
  {
    Params(After(v, SEMICOLON)) == Following(done, Params(s))
  }

  lemma FollowingTwice(a: seq<Param>, b: seq<Param>, rest: Option<seq<Param>>)
    ensures Following(a, Following(b, rest)) == Following(a + b, rest)
  {
    if rest.Some? {
      assert a + (b + rest.value) == (a + b) + rest.value;
    }
  }

  lemma NothingRead(v: Bytes, s: Bytes)
    requires After(v, SEMICOLON) == s
    ensures Undecided(v, [], s) && ValuesOf([], NAME) == [] && ValuesOf([], FILENAME) == []
  {
    var rest := Params(s);
    if rest.Some? {
      assert [] + rest.value == rest.value;
    }
  }

  lemma ParamsStep(s: Bytes, val: Bytes, rest: Bytes)
    requires EQUALS in s
    requires Value(After(s, EQUALS)) == Closed(val, rest)
    ensures Params(s) ==
            Following([Param(Trim(Before(s, EQUALS)), val)], Params(After(rest, SEMICOLON)))
  {
  }

  lemma TakeParam(v: Bytes, done: seq<Param>, s: Bytes, p: Param, rest: Bytes)
    requires Undecided(v, done, s)
    requires Params(s) == Following([p], Params(rest))
    ensures Undecided(v, done + [p], rest)
    ensures forall key :: ValuesOf(done + [p], key) ==
                          ValuesOf(done, key) + if SameIgnoringCase(p.key, key) then [p.value] else []
  {
    FollowingTwice(done, [p], Params(rest));
    forall key ensures ValuesOf(done + [p], key) ==
                       ValuesOf(done, key) + if SameIgnoringCase(p.key, key) then [p.value] else []
    {
      OneMore(done, p, key);
    }
  }

  lemma LeftOpen(v: Bytes, done: seq<Param>, s: Bytes)
    requires Undecided(v, done, s) && Params(s) == None
    ensures Disposition(v) == Refused
  {
  }

  /** A second value for one key refuses the disposition, whatever follows. */
  lemma Repeated(v: Bytes, done: seq<Param>, s: Bytes)
    requires Undecided(v, done, s)
    requires |ValuesOf(done, NAME)| > 1 || |ValuesOf(done, FILENAME)| > 1
    ensures Disposition(v) == Refused
  {
    var rest := Params(s);
    if rest.Some? {
      ValuesOfAppend(done, rest.value, NAME);
      ValuesOfAppend(done, rest.value, FILENAME);
    }
  }

  lemma AllRead(v: Bytes, done: seq<Param>, s: Bytes)
    requires Undecided(v, done, s) && EQUALS !in s
    requires |ValuesOf(done, NAME)| <= 1 && |ValuesOf(done, FILENAME)| <= 1
    ensures Disposition(v) == Read(Sole(ValuesOf(done, NAME)), Sole(ValuesOf(done, FILENAME)))
  {
    assert done + [] == done;
  }

  lemma OneMore(done: seq<Param>, p: Param, key: Bytes)
    ensures ValuesOf(done + [p], key) ==
            ValuesOf(done, key) + if SameIgnoringCase(p.key, key) then [p.value] else []
  {
    ValuesOfAppend(done, [p], key);
  }

  lemma FoundEquals(v: Bytes, i: nat)
    requires i <= |v|
    ensures FindByte(v, i, EQUALS).Some? <==> EQUALS in v[i..]
  {
    var r := FindByte(v, i, EQUALS);
    if r.Some? {
      assert v[i..][r.value - i] == EQUALS;
    }
  }

  datatype Taken = Nothing | StaysOpen | Taken(param: Param, next: nat)

  /** Reads the next parameter and moves behind its semicolon. */
  method ReadParam(v: Bytes, i: nat) returns (t: Taken, ghost steps: nat)
    requires i <= |v|
    ensures t.Nothing? ==> EQUALS !in v[i..]
    ensures t.StaysOpen? ==> Params(v[i..]) == None
    ensures t.Taken? ==>
      && i < t.next <= |v|
      && Params(v[i..]) == Following([t.param], Params(v[t.next..]))
      && |t.param.key| <= t.next - i
    ensures steps <= 3 * ((if t.Taken? then t.next else |v|) - i)
  {
    FoundEquals(v, i);
    var found := FindByte(v, i, EQUALS);
    if found.None? {
      return Nothing, |v| - i;
    }
    var eq := found.value;
    CutAtEquals(v, i, eq);
    var closed, val, next, reading := ReadValue(v, eq + 1);
    steps := (eq - i + 1) + (eq - i) + reading;
    if !closed {
      OpenParam(v[i..]);
      return StaysOpen, steps;
    }
    ParamsStep(v[i..], val, v[next..]);
    var i' := SkipParam(v, next);
    TrimShortens(v[i..eq]);
    t, steps := Taken(Param(Trim(v[i..eq]), val), i'), steps + i' - next;
  }

  lemma TrimShortens(s: Bytes)
    ensures |Trim(s)| <= |s|
  {
  }

  lemma CutAtEquals(v: Bytes, i: nat, eq: nat)
    requires i <= |v| && FindByte(v, i, EQUALS) == Some(eq)
    ensures EQUALS in v[i..]
    ensures i <= eq < |v| && Before(v[i..], EQUALS) == v[i..eq] && After(v[i..], EQUALS) == v[eq + 1..]
  {
    FoundEquals(v, i);
    FindCuts(v, i, EQUALS);
  }

  lemma OpenParam(s: Bytes)
    requires EQUALS in s && Value(After(s, EQUALS)).Open?
    ensures Params(s) == None
  {
  }

  method SkipParam(v: Bytes, next: nat) returns (i: nat)
    requires next <= |v|
    ensures next <= i <= |v| && After(v[next..], SEMICOLON) == v[i..]
  {
    var end := FindByte(v, next, SEMICOLON);
    FindCuts(v, next, SEMICOLON);
    i := if end.Some? then end.value + 1 else |v|;
  }

  /** One pass over the value: at most five looks for each of its bytes. */
  method DispositionParams(v: Bytes) returns (r: Outcome, ghost steps: nat)
    ensures r == Disposition(v)
    ensures steps <= 5 * |v|
  {
    hide Params, Undecided, Disposition, After, ValuesOf;
    var name: Option<Bytes>, filename: Option<Bytes> := None, None;
    assert v[0..] == v;
    var i := SkipParam(v, 0);
    steps := i;
    ghost var done: seq<Param> := [];
    NothingRead(v, v[i..]);
    while i < |v|
      invariant 0 <= i <= |v|
      invariant Undecided(v, done, v[i..]) && steps <= 5 * i
      invariant |ValuesOf(done, NAME)| <= 1 && name == Sole(ValuesOf(done, NAME))
      invariant |ValuesOf(done, FILENAME)| <= 1 && filename == Sole(ValuesOf(done, FILENAME))
      decreases |v| - i
    {
      var t, reading := ReadParam(v, i);
      steps := steps + reading;
      match t {
        case Nothing =>
          break;
        case StaysOpen =>
          LeftOpen(v, done, v[i..]);
          return Refused, steps;
        case Taken(param, next) =>
          TakeParam(v, done, v[i..], param, v[next..]);
          done := done + [param];
          steps := steps + 2 * |param.key|;
          i := next;
          var repeated;
          repeated, name, filename := Assign(param.key, param.value, name, filename);
          if repeated {
            Repeated(v, done, v[i..]);
            return Refused, steps;
          }
      }
    }
    AllRead(v, done, v[i..]);
    r := Read(name, filename);
  }

  /** Fills the slot that the key names; a slot is filled once. */
  method Assign(key: Bytes, val: Bytes, name: Option<Bytes>, filename: Option<Bytes>)
    returns (repeated: bool, name': Option<Bytes>, filename': Option<Bytes>)
    ensures repeated <==>
            || (SameIgnoringCase(key, NAME) && name.Some?)
            || (SameIgnoringCase(key, FILENAME) && filename.Some?)
    ensures !repeated ==> name' == if SameIgnoringCase(key, NAME) then Some(val) else name
    ensures !repeated ==> filename' == if SameIgnoringCase(key, FILENAME) then Some(val) else filename
  {
    KeysDiffer();
    repeated, name', filename' := false, name, filename;
    if SameIgnoringCase(key, NAME) {
      repeated, name' := name.Some?, Some(val);
    } else if SameIgnoringCase(key, FILENAME) {
      repeated, filename' := filename.Some?, Some(val);
    }
  }
}
