/** The multipart/form-data parser: the scan that skips rejected lines, and the loop that cuts the parts. */
module Multiparts {
  import opened Basics
  import opened DispositionParsers
  import opened Dispositions
  import opened Forms
  import opened MultipartSpec
  import opened Text

  /** The first occurrence of `token` from `from` on, as a substring search returns it. */
  function FindToken(body: Bytes, from: nat, token: Bytes): (r: Option<nat>)
    requires from <= |body|
    ensures r.Some? ==>
      && from <= r.value
      && At(body, r.value, token)
      && (forall i | from <= i < r.value :: !At(body, i, token))
    ensures r.None? ==> forall i: nat | from <= i :: !At(body, i, token)
    decreases |body| - from
  {
    if At(body, from, token) then Some(from)
    else if from == |body| then None
    else FindToken(body, from + 1, token)
  }

  lemma NextMissing(body: Bytes, from: nat, delim: Bytes)
    requires from <= |body|
    requires forall p | from <= p < |body| :: !IsDelimiter(body, p, delim)
    ensures Next(body, from, delim) == None
  {
  }

  lemma NoTokenNoDelimiter(body: Bytes, p: nat, delim: Bytes)
    requires !At(body, p, delim)
    ensures !IsDelimiter(body, p, delim)
  {
    if At(body, p, delim + DASHES) { CloseNeedsToken(body, p, delim); }
  }

  lemma TokensAbsent(body: Bytes, from: nat, to: nat, delim: Bytes)
    requires forall p | from <= p < to :: !At(body, p, delim)
    ensures forall p | from <= p < to :: !IsDelimiter(body, p, delim)
  {
    forall p | from <= p < to ensures !IsDelimiter(body, p, delim) {
      NoTokenNoDelimiter(body, p, delim);
    }
  }

  /** No line starts inside the rest of a line. */
  lemma RestOfLine(body: Bytes, i: nat, to: nat, delim: Bytes)
    requires i < to <= |body|
    requires LF !in body[i..to - 1]
    requires !IsDelimiter(body, i, delim)
    ensures forall p | i <= p < to :: !IsDelimiter(body, p, delim)
  {
    forall p | i < p < to ensures !IsDelimiter(body, p, delim) {
      assert body[p - 1] == body[i..to - 1][p - 1 - i];
    }
  }

  /** Padding ends where the first other byte stands, so only that place decides. */
  lemma PaddingEnds(body: Bytes, j: nat, k: nat, last: bool)
    requires Padding(body, j, k)
    requires k < |body| ==> !Blank(body[k])
    ensures EndsPadded(body, j, last) <==> (LineEnding(body, k) || (last && k == |body|))
  {
    if LineEnding(body, k) || (last && k == |body|) {
      assert PaddedTo(body, j, k, last);
    }
    if EndsPadded(body, j, last) {
      var m: nat :| PaddedTo(body, j, m, last);
      assert m == k;
    }
  }

  method SkipPadding(body: Bytes, j: nat) returns (k: nat)
    requires j <= |body|
    ensures Padding(body, j, k)
    ensures k < |body| ==> !Blank(body[k])
  {
    k := j;
    while k < |body| && Blank(body[k])
      invariant Padding(body, j, k)
    {
      k := k + 1;
    }
  }

  /** Judges the line of an occurrence at a line start: a hit exactly when the line is a delimiter line. */
  method Judge(body: Bytes, i: nat, delim: Bytes) returns (r: Option<Hit>, ghost steps: nat)
    requires i <= |body| && LineStart(body, i) && At(body, i, delim)
    ensures r.Some? <==> IsDelimiter(body, i, delim)
    ensures r.Some? ==> r.value == HitAt(body, i, delim)
    ensures steps <= 2 + |body| - i - |delim|
    ensures r.Some? && !r.value.close ==> steps <= 1 + r.value.after - i - |delim|
    ensures forall q | i + |delim| <= q < |body| && body[q] == LF :: steps <= 2 + q - i - |delim|
  {
    var j := i + |delim|;
    steps := 0;
    DashesFollow(body, i, delim);
    assert DASHES[0] == 45 && DASHES[1] == 45;
    if At(body, j, DASHES) {
      var k := SkipPadding(body, j + 2);
      steps := k - j - 1;
      PaddingEnds(body, j + 2, k, true);
      if k == |body| || LineEnding(body, k) {
        return Some(Hit(i, j + 2, true)), steps;
      }
    }
    var k := SkipPadding(body, j);
    steps := steps + k - j + 1;
    PaddingEnds(body, j, k, false);
    if k < |body| && body[k] == LF {
      return Some(Hit(i, k + 1, false)), steps;
    }
    if k + 1 < |body| && body[k] == CR && body[k + 1] == LF {
      return Some(Hit(i, k + 2, false)), steps;
    }
    r := None;
  }

  /** The skip-scan finds what trying every position finds. The steps count the bytes that the searches
      and the padding loops look at. */
  method NextDelimiter(body: Bytes, start: nat, delim: Bytes) returns (r: Option<Hit>, ghost steps: nat)
    requires start <= |body|
    requires |delim| >= 2
    ensures r == Next(body, start, delim)
    ensures LF !in delim ==> steps <= 4 * (|body| - start)
    ensures LF !in delim && r.Some? && !r.value.close ==> steps <= 4 * (r.value.after - start)
  {
    var from := start;
    steps := 0;
    while true
      invariant start <= from <= |body|
      invariant forall p | start <= p < from :: !IsDelimiter(body, p, delim)
      invariant LF !in delim ==> steps <= 4 * (from - start)
      decreases |body| - from
    {
      var found := FindToken(body, from, delim);
      if found.None? {
        TokensAbsent(body, from, |body|, delim);
        NextMissing(body, start, delim);
        return None, steps + |body| - from;
      }
      var i := found.value;
      steps := steps + i - from + |delim|;
      TokensAbsent(body, from, i, delim);
      if LineStart(body, i) {
        ghost var judging;
        r, judging := Judge(body, i, delim);
        steps := steps + judging;
        if r.Some? {
          NextFound(body, start, i, delim);
          return;
        }
      }
      var lf := FindByte(body, i, LF);
      if lf.None? {
        RestOfLine(body, i, |body|, delim);
        NextMissing(body, start, delim);
        return None, steps + |body| - i;
      }
      if LF !in delim { TokenWithoutLf(body, i, delim); }
      steps := steps + lf.value - i + 1;
      RestOfLine(body, i, lf.value + 1, delim);
      from := lf.value + 1;
    }
  }

  /** Reads one part's header lines and adds the part to the form. The steps count the header parser's pass,
      the names compared and copied, the disposition's pass and the content kept. */
  method ParsePart(part: Bytes, limits: Limits, given: Given, form: Form) returns (r: Parsed, ghost steps: nat)
    ensures r == AddPart(part, limits, given, form)
    ensures Cuts(given) ==> steps <= 9 * |part|
  {
    steps := |part|;
    match given.section(part)
    case Partial => return Err(BadRequest), steps;
    case Malformed => return Err(BadRequest), steps;
    case TooMany => return Err(TooLarge), steps;
    case Complete(headers, content) =>
      var disposition, mediaType, repeated, reading := ReadHeaders(headers);
      steps := steps + reading;
      if repeated || disposition.None? {
        return Err(BadRequest), steps;
      }
      var params, passing := DispositionParams(disposition.value);
      ValueWithin(headers, DISPOSITION);
      steps := steps + passing;
      if params.Refused? || params.name.None? || params.name.value == [] {
        return Err(BadRequest), steps;
      }
      var clientMediaType := if mediaType == Some([]) then None else mediaType;
      r := AddNamed(params.name.value, params.filename, clientMediaType, headers, content, limits, given, form);
      steps := steps + |content|;
  }

  lemma {:induction false} ValueWithin(headers: seq<Param>, key: Bytes)
    ensures forall v | v in ValuesOf(headers, key) :: |v| <= Volume(headers)
    decreases |headers|
  {
    if |headers| > 0 {
      var n := |headers| - 1;
      ValueWithin(headers[..n], key);
      assert headers == headers[..n] + [headers[n]];
      OneMore(headers[..n], headers[n], key);
    }
  }

  lemma HeadersDiffer()
    ensures !SameIgnoringCase(DISPOSITION, MEDIA_TYPE)
  {
    assert |Lower(DISPOSITION)| != |Lower(MEDIA_TYPE)|;
  }

  method ReadHeaders(headers: seq<Param>)
    returns (disposition: Option<Bytes>, mediaType: Option<Bytes>, repeated: bool, ghost steps: nat)
    ensures repeated <==> |ValuesOf(headers, DISPOSITION)| > 1
    ensures !repeated ==> disposition == Sole(ValuesOf(headers, DISPOSITION))
    ensures !repeated ==>
      mediaType == if ValuesOf(headers, MEDIA_TYPE) == [] then None else Some(ValuesOf(headers, MEDIA_TYPE)[0])
    ensures steps <= 3 * Volume(headers)
  {
    disposition, mediaType, repeated, steps := None, None, false, 0;
    HeadersDiffer();
    var i := 0;
    while i < |headers|
      invariant 0 <= i <= |headers|
      invariant |ValuesOf(headers[..i], DISPOSITION)| <= 1
      invariant disposition == Sole(ValuesOf(headers[..i], DISPOSITION))
      invariant mediaType == if ValuesOf(headers[..i], MEDIA_TYPE) == [] then None
                             else Some(ValuesOf(headers[..i], MEDIA_TYPE)[0])
      invariant steps <= 3 * Volume(headers[..i]) <= 3 * Volume(headers)
    {
      OneMoreHeader(headers, i, DISPOSITION);
      OneMoreHeader(headers, i, MEDIA_TYPE);
      VolumeGrows(headers, i);
      steps := steps + 3 * |headers[i].key| + |headers[i].value|;
      if SameIgnoringCase(headers[i].key, DISPOSITION) {
        if disposition.Some? {
          return None, None, true, steps;
        }
        disposition := Some(headers[i].value);
      } else if SameIgnoringCase(headers[i].key, MEDIA_TYPE) && mediaType.None? {
        mediaType := Some(headers[i].value);
      }
      i := i + 1;
    }
    assert headers[..i] == headers;
  }

  lemma VolumeGrows(headers: seq<Param>, i: nat)
    requires i < |headers|
    ensures Volume(headers[..i + 1]) == Volume(headers[..i]) + |headers[i].key| + |headers[i].value| + 1
    ensures Volume(headers[..i + 1]) <= Volume(headers)
    decreases |headers| - i
  {
    assert headers[..i + 1][..i] == headers[..i];
    if i + 1 < |headers| {
      VolumeGrows(headers, i + 1);
    } else {
      assert headers[..i + 1] == headers;
    }
  }

  lemma OneMoreHeader(headers: seq<Param>, i: nat, key: Bytes)
    requires i < |headers|
    ensures var step := if SameIgnoringCase(headers[i].key, key) then [headers[i].value] else [];
            && ValuesOf(headers[..i + 1], key) == ValuesOf(headers[..i], key) + step
            && |ValuesOf(headers, key)| >= |ValuesOf(headers[..i + 1], key)|
  {
    assert headers[..i + 1] == headers[..i] + [headers[i]];
    OneMore(headers[..i], headers[i], key);
    assert headers == headers[..i + 1] + headers[i + 1..];
    ValuesOfAppend(headers[..i + 1], headers[i + 1..], key);
  }

  /** Cuts the parts and adds them. The whole parse is linear: the search for delimiter lines takes at most
      four steps for each byte of the body, and the parts between them at most nine. */
  method Parse(body: Bytes, boundary: Bytes, limits: Limits, given: Given) returns (r: Parsed, ghost steps: nat)
    ensures r == FormOf(body, DASHES + boundary, limits, given)
    ensures LF !in boundary && Cuts(given) ==> steps <= 13 * |body|
  {
    var delim := DASHES + boundary;
    assert LF !in boundary ==> LF !in delim;
    var opening;
    opening, steps := NextDelimiter(body, 0, delim);
    if opening.None? {
      return Err(BadRequest), steps;
    }
    if opening.value.close {
      return Ok(EMPTY), steps;
    }
    var form := EMPTY;
    var partStart := opening.value.after;
    while true
      invariant partStart <= |body|
      invariant FormOf(body, delim, limits, given) == FormFrom(body, partStart, delim, limits, given, form)
      invariant LF !in boundary && Cuts(given) ==> steps <= 13 * partStart
      decreases |body| - partStart
    {
      if Count(form) + 1 > limits.maxParts {
        return Err(TooLarge), steps;
      }
      var ending;
      ghost var scanning;
      ending, scanning := NextDelimiter(body, partStart, delim);
      steps := steps + scanning;
      if ending.None? {
        return Err(BadRequest), steps;
      }
      var partEnd := PartEnd(body, partStart, ending.value.lineStart);
      var added, parsing := ParsePart(body[partStart..partEnd], limits, given, form);
      steps := steps + parsing;
      if added.Err? || ending.value.close {
        return added, steps;
      }
      form := added.form;
      partStart := ending.value.after;
    }
  }
}
