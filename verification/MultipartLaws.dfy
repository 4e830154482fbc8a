/** Writing parts with a boundary and splitting them again: the parts come back exactly when none of them
    holds a delimiter line of its own. */
module MultipartLaws {
  import opened Basics
  import opened Forms
  import opened MultipartSpec

  /** Writes parts behind `left`, each closed by a line ending and a delimiter; the last one closes the body. */
  function Write(left: Bytes, parts: seq<Bytes>, delim: Bytes): (body: Bytes)
    requires |parts| > 0
    ensures left <= body
    decreases |parts|
  {
    if |parts| == 1 then left + (parts[0] + CRLF) + delim + DASHES
    else Write(left + (parts[0] + CRLF) + delim + CRLF, parts[1..], delim)
  }

  function Encode(parts: seq<Bytes>, delim: Bytes): Bytes
  {
    if |parts| == 0 then delim + DASHES else Write(delim + CRLF, parts, delim)
  }

  /** No line of the part, closed by a line ending, reads as a delimiter line. */
  ghost predicate Clean(part: Bytes, delim: Bytes)
  {
    forall i | 0 <= i < |part| + 2 :: !IsDelimiter(part + CRLF, i, delim)
  }

  /** A header value holds no line ending, so a boundary holds none, and a delimiter begins with a dash. */
  predicate Delim(delim: Bytes)
  {
    |delim| >= 2 && delim[0] == 45 && LF !in delim
  }

  /** `w` is a run of whole lines of `body`, from `at` on. */
  predicate Window(body: Bytes, at: nat, w: Bytes)
  {
    && |w| > 0 && w[|w| - 1] == LF
    && At(body, at, w)
    && LineStart(body, at)
  }

  lemma WindowByte(body: Bytes, at: nat, w: Bytes, i: nat)
    requires Window(body, at, w) && i < |w|
    ensures body[at + i] == w[i]
  {
  }

  lemma SliceOfWindow(body: Bytes, at: nat, w: Bytes, i: nat, k: nat)
    requires Window(body, at, w) && i <= k < |w|
    ensures body[at + i..at + k] == w[i..k]
  {
    forall j | i <= j < k ensures body[at + j] == w[j] { WindowByte(body, at, w, j); }
  }

  lemma WindowToken(body: Bytes, at: nat, w: Bytes, i: nat, token: Bytes)
    requires Window(body, at, w) && i < |w| && LF !in token
    ensures At(body, at + i, token) <==> At(w, i, token)
    ensures At(w, i, token) ==> i + |token| < |w|
  {
    WindowByte(body, at, w, |w| - 1);
    if At(body, at + i, token) { TokenWithoutLf(body, at + i, token); }
    if At(w, i, token) { TokenWithoutLf(w, i, token); }
    if i + |token| < |w| { SliceOfWindow(body, at, w, i, i + |token|); }
  }

  lemma WindowPadding(body: Bytes, at: nat, w: Bytes, j: nat, last: bool)
    requires Window(body, at, w) && j < |w|
    ensures EndsPadded(body, at + j, last) <==> EndsPadded(w, j, last)
  {
    forall i | 0 <= i < |w| ensures body[at + i] == w[i] { WindowByte(body, at, w, i); }
    if EndsPadded(body, at + j, last) {
      var k: nat :| PaddedTo(body, at + j, k, last);
      PaddingStops(body, at + j, k, at + |w| - 1);
      assert PaddedTo(w, j, k - at, last) by { ShiftedPadding(body, at, w, j, k - at); }
    }
    if EndsPadded(w, j, last) {
      var k: nat :| PaddedTo(w, j, k, last);
      PaddingStops(w, j, k, |w| - 1);
      assert PaddedTo(body, at + j, at + k, last) by { ShiftedPadding(body, at, w, j, k); }
    }
  }

  lemma ShiftedPadding(body: Bytes, at: nat, w: Bytes, j: nat, k: nat)
    requires Window(body, at, w) && j <= k < |w|
    ensures Padding(body, at + j, at + k) <==> Padding(w, j, k)
    ensures LineEnding(body, at + k) <==> LineEnding(w, k)
  {
    forall i | 0 <= i < |w| ensures body[at + i] == w[i] { WindowByte(body, at, w, i); }
    if Padding(body, at + j, at + k) {
      forall i | j <= i < k ensures Blank(w[i]) { assert Blank(body[at + i]); }
    }
    if Padding(w, j, k) {
      forall p | at + j <= p < at + k ensures Blank(body[p]) { assert body[at + (p - at)] == w[p - at]; }
    }
    assert w[k] == CR ==> k + 1 < |w|;
  }

  /** Whether a line is a delimiter line is settled within the run of lines that holds it. */
  lemma WindowLine(body: Bytes, at: nat, w: Bytes, i: nat, token: Bytes, last: bool)
    requires Window(body, at, w) && i < |w| && LF !in token
    ensures TokenLine(body, at + i, token, last) <==> TokenLine(w, i, token, last)
  {
    if i > 0 { WindowByte(body, at, w, i - 1); }
    WindowToken(body, at, w, i, token);
    if At(w, i, token) { WindowPadding(body, at, w, i + |token|, last); }
  }

  lemma WindowDelimiter(body: Bytes, at: nat, w: Bytes, i: nat, delim: Bytes)
    requires Window(body, at, w) && i < |w| && LF !in delim
    ensures IsDelimiter(body, at + i, delim) <==> IsDelimiter(w, i, delim)
  {
    WindowLine(body, at, w, i, delim, false);
    WindowLine(body, at, w, i, delim + DASHES, true);
  }

  /** A delimiter written with dashes at the end of the body closes it. */
  lemma WrittenClose(body: Bytes, i: nat, delim: Bytes)
    requires At(body, i, delim) && At(body, i + |delim|, DASHES)
    requires LineStart(body, i) && i + |delim| + 2 == |body|
    ensures IsDelimiter(body, i, delim) && HitAt(body, i, delim).close
  {
    DashesFollow(body, i, delim);
    assert PaddedTo(body, |body|, |body|, true);
  }

  /** A delimiter written with a line ending opens a part behind it. */
  lemma WrittenOpen(body: Bytes, i: nat, delim: Bytes)
    requires At(body, i, delim) && At(body, i + |delim|, CRLF)
    requires LineStart(body, i)
    ensures IsDelimiter(body, i, delim)
    ensures HitAt(body, i, delim) == Hit(i, i + |delim| + 2, false)
  {
    var j := i + |delim|;
    assert CRLF[0] == CR && CRLF[1] == LF && DASHES[0] == 45;
    assert PaddedTo(body, j, j, false);
    DashesFollow(body, i, delim);
    PastCrLf(body, j);
  }

  lemma PastCrLf(body: Bytes, j: nat)
    requires j + 1 < |body| && body[j] == CR && body[j + 1] == LF
    ensures PastLine(body, j) == j + 2
  {
    assert PastLine(body, j + 1) == j + 2;
  }

  lemma DelimiterHasToken(body: Bytes, i: nat, delim: Bytes)
    requires IsDelimiter(body, i, delim)
    ensures At(body, i, delim)
  {
    if At(body, i, delim + DASHES) { CloseNeedsToken(body, i, delim); }
  }

  lemma DashIsNoLineEnding(body: Bytes, i: nat, delim: Bytes)
    requires Delim(delim) && IsDelimiter(body, i, delim)
    ensures i < |body| && body[i] == 45
  {
    DelimiterHasToken(body, i, delim);
  }

  /** A part's line ending is cut off with the delimiter, and nothing else is. */
  lemma PartIsCut(body: Bytes, at: nat, part: Bytes)
    requires Window(body, at, part + CRLF)
    ensures body[at..PartEnd(body, at, at + |part| + 2)] == part
  {
    var w := part + CRLF;
    WindowByte(body, at, w, |part|);
    WindowByte(body, at, w, |part| + 1);
    assert PartEnd(body, at, at + |part| + 2) == at + |part|;
    SliceOfWindow(body, at, w, 0, |part|);
    assert w[0..|part|] == part;
  }

  /** The first delimiter line after a clean part is the one that was written behind it. */
  lemma CleanPartEnds(body: Bytes, at: nat, part: Bytes, delim: Bytes)
    requires Delim(delim) && Window(body, at, part + CRLF) && Clean(part, delim)
    requires IsDelimiter(body, at + |part| + 2, delim)
    ensures Next(body, at, delim) == Some(HitAt(body, at + |part| + 2, delim))
  {
    var end := at + |part| + 2;
    forall p | at <= p < end ensures !IsDelimiter(body, p, delim) {
      WindowDelimiter(body, at, part + CRLF, p - at, delim);
    }
    NextFound(body, at, end, delim);
  }

  /** A part with a delimiter line in it comes back cut short. */
  lemma UncleanPartIsCut(body: Bytes, at: nat, part: Bytes, delim: Bytes)
    requires Delim(delim) && Window(body, at, part + CRLF) && !Clean(part, delim)
    ensures var r := Next(body, at, delim);
            r.Some? && r.value.lineStart < at + |part|
  {
    var i :| 0 <= i < |part| + 2 && IsDelimiter(part + CRLF, i, delim);
    WindowDelimiter(body, at, part + CRLF, i, delim);
    DashIsNoLineEnding(body, at + i, delim);
    var r := Next(body, at, delim);
    DashIsNoLineEnding(body, r.value.lineStart, delim);
    WindowByte(body, at, part + CRLF, r.value.lineStart - at);
  }

  ghost predicate AllClean(parts: seq<Bytes>, delim: Bytes)
  {
    forall p | p in parts :: Clean(p, delim)
  }

  /** `body` holds, from `at` to its end, the parts as they are written. */
  predicate Layout(body: Bytes, at: nat, parts: seq<Bytes>, delim: Bytes)
    requires |parts| > 0
    decreases |parts|
  {
    var end := at + |parts[0]| + 2;
    && Window(body, at, parts[0] + CRLF)
    && At(body, end, delim)
    && if |parts| == 1 then At(body, end + |delim|, DASHES) && end + |delim| + 2 == |body|
       else At(body, end + |delim|, CRLF) && Layout(body, end + |delim| + 2, parts[1..], delim)
  }

  function Prepended(part: Bytes, rest: Option<seq<Bytes>>): Option<seq<Bytes>>
  {
    match rest
    case None => None
    case Some(parts) => Some([part] + parts)
  }

  lemma LastStep(body: Bytes, at: nat, part: Bytes, delim: Bytes, hit: Hit)
    requires at <= |body| && |delim| > 0
    requires Next(body, at, delim) == Some(hit) && hit.lineStart <= |body| && hit.close
    requires body[at..PartEnd(body, at, hit.lineStart)] == part
    ensures PartsFrom(body, at, delim) == Some([part])
  {
  }

  lemma EarlierStep(body: Bytes, at: nat, part: Bytes, delim: Bytes, hit: Hit)
    requires at <= |body| && |delim| > 0
    requires Next(body, at, delim) == Some(hit) && hit.after <= |body| && hit.lineStart <= |body| && !hit.close
    requires body[at..PartEnd(body, at, hit.lineStart)] == part
    ensures PartsFrom(body, at, delim) == Prepended(part, PartsFrom(body, hit.after, delim))
  {
  }

  lemma LaidOutHit(body: Bytes, at: nat, parts: seq<Bytes>, delim: Bytes) returns (hit: Hit)
    requires Delim(delim) && |parts| > 0 && Layout(body, at, parts, delim)
    ensures var end := at + |parts[0]| + 2;
            && end <= |body|
            && IsDelimiter(body, end, delim) && hit == HitAt(body, end, delim)
            && hit == Hit(end, end + |delim| + 2, |parts| == 1)
  {
    var end := at + |parts[0]| + 2;
    WindowByte(body, at, parts[0] + CRLF, |parts[0]| + 1);
    if |parts| == 1 {
      WrittenClose(body, end, delim);
    } else {
      WrittenOpen(body, end, delim);
    }
    hit := HitAt(body, end, delim);
  }

  lemma CleanHit(body: Bytes, at: nat, parts: seq<Bytes>, delim: Bytes)
    requires Delim(delim) && |parts| > 0 && Layout(body, at, parts, delim) && Clean(parts[0], delim)
    ensures var end := at + |parts[0]| + 2;
            && end + |delim| + 2 <= |body|
            && Next(body, at, delim) == Some(Hit(end, end + |delim| + 2, |parts| == 1))
  {
    var hit := LaidOutHit(body, at, parts, delim);
    CleanPartEnds(body, at, parts[0], delim);
  }

  /** The last clean part is the whole result; an earlier one comes before what the rest gives. */
  lemma LastPartCut(body: Bytes, at: nat, parts: seq<Bytes>, delim: Bytes)
    requires Delim(delim) && |parts| == 1 && Layout(body, at, parts, delim) && Clean(parts[0], delim)
    ensures PartsFrom(body, at, delim) == Some([parts[0]])
  {
    var end := at + |parts[0]| + 2;
    CleanHit(body, at, parts, delim);
    PartIsCut(body, at, parts[0]);
    LastStep(body, at, parts[0], delim, Hit(end, end + |delim| + 2, true));
  }

  lemma EarlierPartCut(body: Bytes, at: nat, next: nat, parts: seq<Bytes>, delim: Bytes)
    requires Delim(delim) && |parts| > 1 && Layout(body, at, parts, delim) && Clean(parts[0], delim)
    requires next == at + |parts[0]| + 2 + |delim| + 2
    ensures next <= |body| && Layout(body, next, parts[1..], delim)
    ensures PartsFrom(body, at, delim) == Prepended(parts[0], PartsFrom(body, next, delim))
  {
    var end := at + |parts[0]| + 2;
    CleanHit(body, at, parts, delim);
    PartIsCut(body, at, parts[0]);
    EarlierStep(body, at, parts[0], delim, Hit(end, next, false));
  }

  lemma UncleanPart(body: Bytes, at: nat, part: Bytes, delim: Bytes)
    requires Delim(delim) && Window(body, at, part + CRLF) && !Clean(part, delim)
    ensures var r := PartsFrom(body, at, delim);
            r.Some? ==> |r.value| > 0 && r.value[0] != part
  {
    UncleanPartIsCut(body, at, part, delim);
    FirstPart(body, at, delim);
  }

  lemma FirstPart(body: Bytes, at: nat, delim: Bytes)
    requires at <= |body| && |delim| > 0 && Next(body, at, delim).Some?
    ensures var r := PartsFrom(body, at, delim);
            r.Some? ==> |r.value| > 0 && |r.value[0]| <= Next(body, at, delim).value.lineStart - at
  {
  }

  lemma Reassemble(parts: seq<Bytes>, rest: Option<seq<Bytes>>, delim: Bytes)
    requires |parts| > 1 && Clean(parts[0], delim)
    requires rest == Some(parts[1..]) <==> AllClean(parts[1..], delim)
    ensures Prepended(parts[0], rest) == Some(parts) <==> AllClean(parts, delim)
  {
    assert parts == [parts[0]] + parts[1..];
    if Prepended(parts[0], rest) == Some(parts) {
      assert rest.value == ([parts[0]] + rest.value)[1..];
    }
  }

  lemma UncleanFirst(body: Bytes, at: nat, parts: seq<Bytes>, delim: Bytes)
    requires Delim(delim) && |parts| > 0 && Window(body, at, parts[0] + CRLF) && !Clean(parts[0], delim)
    ensures PartsFrom(body, at, delim) != Some(parts) && !AllClean(parts, delim)
  {
    UncleanPart(body, at, parts[0], delim);
  }

  lemma CleanOnly(body: Bytes, at: nat, parts: seq<Bytes>, delim: Bytes)
    requires Delim(delim) && |parts| == 1 && Layout(body, at, parts, delim) && Clean(parts[0], delim)
    ensures PartsFrom(body, at, delim) == Some(parts) && AllClean(parts, delim)
  {
    LastPartCut(body, at, parts, delim);
    assert parts == [parts[0]];
  }

  lemma {:induction false} PartsFromInverts(body: Bytes, at: nat, parts: seq<Bytes>, delim: Bytes)
    requires Delim(delim) && |parts| > 0 && Layout(body, at, parts, delim)
    ensures at <= |body|
    ensures PartsFrom(body, at, delim) == Some(parts) <==> AllClean(parts, delim)
    decreases |parts|
  {
    if !Clean(parts[0], delim) {
      UncleanFirst(body, at, parts, delim);
    } else if |parts| == 1 {
      CleanOnly(body, at, parts, delim);
    } else {
      var next := at + |parts[0]| + 2 + |delim| + 2;
      EarlierPartCut(body, at, next, parts, delim);
      PartsFromInverts(body, next, parts[1..], delim);
      Reassemble(parts, PartsFrom(body, next, delim), delim);
    }
  }

  /** Where the pieces of a text stand, and of any text that begins with it. */
  lemma Pieces(body: Bytes, left: Bytes, a: Bytes, b: Bytes, c: Bytes)
    requires left + a + b + c <= body
    ensures At(body, |left|, a)
    ensures At(body, |left| + |a|, b)
    ensures At(body, |left| + |a| + |b|, c)
    ensures |left| > 0 ==> body[|left| - 1] == left[|left| - 1]
  {
    var text := left + a + b + c;
    forall i | 0 <= i < |text| ensures body[i] == text[i] { }
  }

  lemma PartPieces(body: Bytes, left: Bytes, part: Bytes, delim: Bytes, after: Bytes)
    requires left + (part + CRLF) + delim + after <= body
    requires |left| > 0 && left[|left| - 1] == LF
    ensures |left| <= |body| && LineStart(body, |left|)
    ensures At(body, |left|, part + CRLF)
    ensures At(body, |left| + |part| + 2, delim)
    ensures At(body, |left| + |part| + 2 + |delim|, after)
  {
    Pieces(body, left, part + CRLF, delim, after);
  }

  lemma LastLaidOut(body: Bytes, at: nat, parts: seq<Bytes>, delim: Bytes)
    requires |parts| == 1 && at <= |body| && LineStart(body, at)
    requires var end := at + |parts[0]| + 2;
             && At(body, at, parts[0] + CRLF) && At(body, end, delim)
             && At(body, end + |delim|, DASHES) && end + |delim| + 2 == |body|
    ensures Layout(body, at, parts, delim)
  {
  }

  lemma MoreLaidOut(body: Bytes, at: nat, next: nat, parts: seq<Bytes>, delim: Bytes)
    requires |parts| > 1 && at <= |body| && LineStart(body, at)
    requires var end := at + |parts[0]| + 2;
             && At(body, at, parts[0] + CRLF) && At(body, end, delim)
             && At(body, end + |delim|, CRLF) && next == end + |delim| + 2
    requires Layout(body, next, parts[1..], delim)
    ensures Layout(body, at, parts, delim)
  {
  }

  lemma LastWritten(left: Bytes, parts: seq<Bytes>, delim: Bytes)
    requires |parts| == 1 && |left| > 0 && left[|left| - 1] == LF
    ensures Layout(Write(left, parts, delim), |left|, parts, delim)
  {
    var body := Write(left, parts, delim);
    PartPieces(body, left, parts[0], delim, DASHES);
    LastLaidOut(body, |left|, parts, delim);
  }

  lemma EarlierWritten(body: Bytes, left: Bytes, parts: seq<Bytes>, delim: Bytes, next: nat)
    requires |parts| > 1 && |left| > 0 && left[|left| - 1] == LF
    requires left + (parts[0] + CRLF) + delim + CRLF <= body
    requires next == |left| + |parts[0]| + 2 + |delim| + 2
    requires Layout(body, next, parts[1..], delim)
    ensures Layout(body, |left|, parts, delim)
  {
    PartPieces(body, left, parts[0], delim, CRLF);
    MoreLaidOut(body, |left|, next, parts, delim);
  }

  lemma {:induction false} WriteLaysOut(left: Bytes, parts: seq<Bytes>, delim: Bytes)
    requires |parts| > 0
    requires |left| > 0 && left[|left| - 1] == LF
    ensures Layout(Write(left, parts, delim), |left|, parts, delim)
    decreases |parts|
  {
    if |parts| == 1 {
      LastWritten(left, parts, delim);
    } else {
      var left' := left + (parts[0] + CRLF) + delim + CRLF;
      WriteLaysOut(left', parts[1..], delim);
      EarlierWritten(Write(left, parts, delim), left, parts, delim, |left'|);
    }
  }

  lemma OpeningStands(body: Bytes, left: Bytes, delim: Bytes)
    requires left == delim + CRLF && left <= body
    ensures At(body, 0, delim) && At(body, |delim|, CRLF)
  {
    forall i | 0 <= i < |left| ensures body[i] == left[i] { }
  }

  lemma FirstHit(body: Bytes, delim: Bytes)
    requires Delim(delim) && At(body, 0, delim) && At(body, |delim|, CRLF)
    ensures Next(body, 0, delim) == Some(Hit(0, |delim| + 2, false))
  {
    WrittenOpen(body, 0, delim);
    NextFound(body, 0, 0, delim);
  }

  lemma PartsStep(body: Bytes, delim: Bytes, hit: Hit)
    requires |delim| > 0 && Next(body, 0, delim) == Some(hit) && hit.after <= |body|
    ensures Parts(body, delim) == if hit.close then Some([]) else PartsFrom(body, hit.after, delim)
  {
  }

  lemma Opening(body: Bytes, left: Bytes, delim: Bytes)
    requires Delim(delim) && left == delim + CRLF && left <= body
    ensures Parts(body, delim) == PartsFrom(body, |left|, delim)
  {
    OpeningStands(body, left, delim);
    FirstHit(body, delim);
    PartsStep(body, delim, Hit(0, |left|, false));
  }

  lemma ClosingStands(body: Bytes, delim: Bytes)
    requires body == delim + DASHES
    ensures At(body, 0, delim) && At(body, |delim|, DASHES) && |body| == |delim| + 2
  {
  }

  lemma CloseHit(body: Bytes, delim: Bytes)
    requires Delim(delim) && At(body, 0, delim) && At(body, |delim|, DASHES) && |body| == |delim| + 2
    ensures Next(body, 0, delim) == Some(Hit(0, |body|, true))
  {
    WrittenClose(body, 0, delim);
    NextFound(body, 0, 0, delim);
  }

  lemma NoParts(body: Bytes, delim: Bytes)
    requires Delim(delim) && body == delim + DASHES
    ensures Parts(body, delim) == Some([])
  {
    ClosingStands(body, delim);
    CloseHit(body, delim);
    PartsStep(body, delim, Hit(0, |body|, true));
  }

  lemma WriteInverts(body: Bytes, left: Bytes, parts: seq<Bytes>, delim: Bytes)
    requires Delim(delim) && |parts| > 0
    requires left == delim + CRLF && body == Write(left, parts, delim)
    ensures Parts(body, delim) == Some(parts) <==> AllClean(parts, delim)
  {
    Opening(body, left, delim);
    WriteLaysOut(left, parts, delim);
    PartsFromInverts(body, |left|, parts, delim);
  }

  /** The main law: parts survive the trip if and only if no part holds a delimiter line. */
  lemma SplitInvertsEncode(parts: seq<Bytes>, delim: Bytes)
    requires Delim(delim)
    ensures Parts(Encode(parts, delim), delim) == Some(parts) <==> AllClean(parts, delim)
  {
    if |parts| == 0 {
      NoParts(Encode(parts, delim), delim);
    } else {
      WriteInverts(Encode(parts, delim), delim + CRLF, parts, delim);
    }
  }

  /** Clean parts are parsed as they were written, one by one. */
  lemma FormRoundTrip(parts: seq<Bytes>, delim: Bytes, limits: Limits, given: Given)
    requires Delim(delim) && AllClean(parts, delim)
    ensures FormOf(Encode(parts, delim), delim, limits, given) == AddAll(parts, limits, given, EMPTY)
  {
    SplitInvertsEncode(parts, delim);
    FormIsFold(Encode(parts, delim), delim, limits, given);
  }

  /** A delimiter that runs over a line end, and a part that looks like its beginning. */
  const BROKEN: Bytes := DASHES + CRLF + DASHES

  /** The round trip needs a boundary without line feed: this clean part, with the delimiter written behind it,
      begins an earlier delimiter line. */
  lemma LineFeedBreaksRoundTrip()
    ensures BROKEN[0] == 45 && LF in BROKEN && AllClean([DASHES], BROKEN)
    ensures Parts(Encode([DASHES], BROKEN), BROKEN) != Some([DASHES])
  {
    var body := Encode([DASHES], BROKEN);
    assert BROKEN[3] == LF;
    assert body == [45, 45, 13, 10, 45, 45, 13, 10, 45, 45, 13, 10, 45, 45, 13, 10, 45, 45, 45, 45];
    WrittenOpen(body, 0, BROKEN);
    NextFound(body, 0, 0, BROKEN);
    PartsStep(body, BROKEN, Hit(0, 8, false));
    WrittenOpen(body, 8, BROKEN);
    NextFound(body, 8, 8, BROKEN);
    FirstPart(body, 8, BROKEN);
  }

  /** The other spellings of a delimiter line: behind the delimiter spaces and tabs, and a line ending with or
      without its carriage return. The part begins behind it. */
  lemma PaddedDelimiter(left: Bytes, delim: Bytes, padding: Bytes, ending: Bytes, rest: Bytes)
    requires Delim(delim) && (left == [] || left[|left| - 1] == 10)
    requires forall i | 0 <= i < |padding| :: padding[i] == 32 || padding[i] == 9
    requires ending == [10] || ending == [13, 10]
    ensures var body, i := left + (delim + padding) + ending + rest, |left|;
            IsDelimiter(body, i, delim) && HitAt(body, i, delim) == Hit(i, i + |delim| + |padding| + |ending|, false)
  {
    hide IsDelimiter, HitAt, At;
    var body := left + (delim + padding) + ending + rest;
    Pieces(body, left, delim + padding, ending, rest);
    LineStands(body, |left|, delim, padding, ending);
  }

  lemma LineStands(body: Bytes, i: nat, delim: Bytes, padding: Bytes, ending: Bytes)
    requires Delim(delim) && i <= |body| && LineStart(body, i)
    requires At(body, i, delim + padding) && At(body, i + |delim + padding|, ending)
    requires forall k | 0 <= k < |padding| :: padding[k] == 32 || padding[k] == 9
    requires ending == [10] || ending == [13, 10]
    ensures IsDelimiter(body, i, delim) && HitAt(body, i, delim) == Hit(i, i + |delim| + |padding| + |ending|, false)
  {
    hide At;
    var j := i + |delim|;
    var k := j + |padding|;
    DelimiterStands(body, i, delim, padding);
    PaddingStands(body, j, padding);
    EndingStands(body, k, ending);
    assert PaddedTo(body, j, k, false);
    NotClosed(body, j, padding, ending);
    DashesFollow(body, i, delim);
    PastPadding(body, j, k, ending);
  }

  lemma PaddingStands(body: Bytes, j: nat, padding: Bytes)
    requires At(body, j, padding) && forall k | 0 <= k < |padding| :: padding[k] == 32 || padding[k] == 9
    ensures Padding(body, j, j + |padding|)
  {
    forall p | j <= p < j + |padding| ensures Blank(body[p]) { assert padding[p - j] == body[j + (p - j)]; }
  }

  lemma DelimiterStands(body: Bytes, i: nat, delim: Bytes, padding: Bytes)
    requires At(body, i, delim + padding)
    ensures At(body, i, delim) && At(body, i + |delim|, padding)
  {
    var both := delim + padding;
    forall k | 0 <= k < |delim| ensures delim[k] == body[i + k] { assert both[k] == delim[k]; }
    forall k | 0 <= k < |padding| ensures padding[k] == body[i + |delim| + k] { assert both[|delim| + k] == padding[k]; }
  }

  lemma EndingStands(body: Bytes, k: nat, ending: Bytes)
    requires At(body, k, ending) && (ending == [10] || ending == [13, 10])
    ensures LineEnding(body, k)
  {
    assert ending[0] == body[k + 0];
    assert |ending| == 2 ==> ending[1] == body[k + 1];
  }

  lemma NotClosed(body: Bytes, j: nat, padding: Bytes, ending: Bytes)
    requires At(body, j, padding) && At(body, j + |padding|, ending) && (ending == [10] || ending == [13, 10])
    requires forall i | 0 <= i < |padding| :: padding[i] == 32 || padding[i] == 9
    ensures !At(body, j, DASHES)
  {
    assert ending[0] == body[j + |padding| + 0];
    assert |padding| > 0 ==> padding[0] == body[j + 0];
    assert DASHES[0] == 45;
  }

  lemma {:induction false} PastPadding(body: Bytes, j: nat, k: nat, ending: Bytes)
    requires j <= k && Padding(body, j, k) && At(body, k, ending) && (ending == [10] || ending == [13, 10])
    ensures PastLine(body, j) == k + |ending|
    decreases k - j
  {
    assert ending[0] == body[k + 0];
    if j < k {
      assert Blank(body[j]);
      PastPadding(body, j + 1, k, ending);
    } else if |ending| == 2 {
      assert ending[1] == body[k + 1];
      PastCrLf(body, k);
    }
  }

  /** A close-delimiter line may be padded too, and may end with the body. */
  lemma PaddedClose(left: Bytes, delim: Bytes, padding: Bytes, ending: Bytes, rest: Bytes)
    requires Delim(delim) && (left == [] || left[|left| - 1] == 10)
    requires forall i | 0 <= i < |padding| :: padding[i] == 32 || padding[i] == 9
    requires ending == [10] || ending == [13, 10] || (ending == [] && rest == [])
    ensures var body, i := left + ((delim + [45, 45]) + padding) + ending + rest, |left|;
            IsDelimiter(body, i, delim) && HitAt(body, i, delim).close
  {
    var token := delim + DASHES;
    var body, i := left + (token + padding) + ending + rest, |left|;
    Pieces(body, left, token + padding, ending, rest);
    DelimiterStands(body, i, token, padding);
    if ending != [] { EndingStands(body, i + |token| + |padding|, ending); }
    assert PaddedTo(body, i + |token|, i + |token| + |padding|, true);
    assert TokenLine(body, i, token, true);
  }
}
