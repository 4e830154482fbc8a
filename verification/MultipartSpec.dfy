/** What a multipart body means, line by line (section 5.1.1 of RFC 2046): delimiter lines, and the parts
    between them. Nothing here skips ahead; every position is looked at. */
module MultipartSpec {
  import opened Basics

  const LF: byte := 10
  const CR: byte := 13
  const DASHES: Bytes := [45, 45]
  const CRLF: Bytes := [CR, LF]

  predicate Blank(b: byte)
  {
    b == 32 || b == 9
  }

  /** Does `token` stand at position `i`? */
  predicate At(body: Bytes, i: nat, token: Bytes)
  {
    i + |token| <= |body| && forall k | 0 <= k < |token| :: token[k] == body[i + k]
  }

  predicate LineStart(body: Bytes, i: nat)
    requires i <= |body|
  {
    i == 0 || body[i - 1] == LF
  }

  /** A line ending, with or without its carriage return, stands at position `k`. */
  predicate LineEnding(body: Bytes, k: nat)
  {
    k < |body| && (body[k] == LF || (body[k] == CR && k + 1 < |body| && body[k + 1] == LF))
  }

  predicate Padding(body: Bytes, lo: nat, hi: nat)
  {
    lo <= hi <= |body| && forall k | lo <= k < hi :: Blank(body[k])
  }

  /** After padding from `j` on comes a line ending at `k` or, where `last` allows it, the end of the body. */
  predicate PaddedTo(body: Bytes, j: nat, k: nat, last: bool)
  {
    Padding(body, j, k) && (LineEnding(body, k) || (last && k == |body|))
  }

  ghost predicate EndsPadded(body: Bytes, j: nat, last: bool)
  {
    exists k: nat :: PaddedTo(body, j, k, last)
  }

  /** At `i` begins a line that holds `token`, padding and nothing else. */
  ghost predicate TokenLine(body: Bytes, i: nat, token: Bytes, last: bool)
  {
    && i <= |body|
    && LineStart(body, i)
    && At(body, i, token)
    && EndsPadded(body, i + |token|, last)
  }

  ghost predicate IsOpen(body: Bytes, i: nat, delim: Bytes)
  {
    TokenLine(body, i, delim, false)
  }

  /** A close-delimiter line may also end with the body. */
  ghost predicate IsClose(body: Bytes, i: nat, delim: Bytes)
  {
    TokenLine(body, i, delim + DASHES, true)
  }

  ghost predicate IsDelimiter(body: Bytes, i: nat, delim: Bytes)
  {
    IsOpen(body, i, delim) || IsClose(body, i, delim)
  }

  datatype Hit = Hit(lineStart: nat, after: nat, close: bool)

  /** One past the first LF from `k` on. */
  function PastLine(body: Bytes, k: nat): (r: nat)
    requires k <= |body|
    ensures k <= r <= |body|
    ensures forall j | k <= j < r - 1 :: body[j] != LF
    ensures r < |body| ==> k < r && body[r - 1] == LF
    decreases |body| - k
  {
    if k == |body| then k
    else if body[k] == LF then k + 1
    else PastLine(body, k + 1)
  }

  /** The delimiter line that begins at `i`. */
  ghost function HitAt(body: Bytes, i: nat, delim: Bytes): (hit: Hit)
    requires IsDelimiter(body, i, delim)
    ensures i + |delim| <= hit.after <= |body|
  {
    if IsClose(body, i, delim) then Hit(i, i + |delim| + 2, true)
    else Hit(i, PastLine(body, i + |delim|), false)
  }

  /** The first delimiter line from `from` on, found by trying every position. */
  ghost function Next(body: Bytes, from: nat, delim: Bytes): (r: Option<Hit>)
    requires from <= |body|
    ensures r.Some? ==>
      && from <= r.value.lineStart
      && IsDelimiter(body, r.value.lineStart, delim)
      && r.value == HitAt(body, r.value.lineStart, delim)
      && r.value.lineStart + |delim| <= r.value.after <= |body|
      && (forall i | from <= i < r.value.lineStart :: !IsDelimiter(body, i, delim))
    ensures r.None? ==> forall i | from <= i < |body| :: !IsDelimiter(body, i, delim)
    decreases |body| - from
  {
    if from == |body| then None
    else if IsDelimiter(body, from, delim) then Some(HitAt(body, from, delim))
    else Next(body, from + 1, delim)
  }

  lemma NextFound(body: Bytes, from: nat, i: nat, delim: Bytes)
    requires from <= i && IsDelimiter(body, i, delim)
    requires forall p | from <= p < i :: !IsDelimiter(body, p, delim)
    ensures Next(body, from, delim) == Some(HitAt(body, i, delim))
  {
    var r := Next(body, from, delim);
  }

  /** A delimiter line takes the line ending before it along: what is cut off a part is one line ending, with
      its carriage return if it has one, or nothing where no line ended. */
  function PartEnd(body: Bytes, start: nat, lineStart: nat): (end: nat)
    requires start <= lineStart <= |body|
    ensures start <= end <= lineStart
    ensures body[end..lineStart] == [] || body[end..lineStart] == [LF] || body[end..lineStart] == CRLF
    ensures end == lineStart ==> start == lineStart || body[lineStart - 1] != LF
    ensures end == lineStart - 1 ==> start == end || body[end - 1] != CR
  {
    if lineStart > start && body[lineStart - 1] == LF then
      if lineStart - 1 > start && body[lineStart - 2] == CR then lineStart - 2 else lineStart - 1
    else lineStart
  }

  lemma DashesFollow(body: Bytes, i: nat, delim: Bytes)
    requires At(body, i, delim)
    ensures At(body, i, delim + DASHES) <==> At(body, i + |delim|, DASHES)
  {
    var both := delim + DASHES;
    if At(body, i, both) {
      assert both[|delim|] == 45 && both[|delim| + 1] == 45;
    }
  }

  lemma CloseNeedsToken(body: Bytes, i: nat, delim: Bytes)
    requires At(body, i, delim + DASHES)
    ensures At(body, i, delim)
  {
    forall k | 0 <= k < |delim| ensures delim[k] == body[i + k] {
      assert (delim + DASHES)[k] == delim[k];
    }
  }

  lemma TokenWithoutLf(body: Bytes, i: nat, token: Bytes)
    requires At(body, i, token) && LF !in token
    ensures forall p | i <= p < i + |token| :: body[p] != LF
  {
    forall p | i <= p < i + |token| ensures body[p] != LF {
      assert body[p] == token[p - i];
    }
  }

  lemma PaddingStops(body: Bytes, lo: nat, hi: nat, p: nat)
    requires Padding(body, lo, hi) && lo <= p < |body| && !Blank(body[p])
    ensures hi <= p
  {
  }

  /** The parts of `body` from a part's start on, up to the close-delimiter. */
  ghost function PartsFrom(body: Bytes, start: nat, delim: Bytes): Option<seq<Bytes>>
    requires start <= |body|
    requires |delim| > 0
    decreases |body| - start
  {
    match Next(body, start, delim)
    case None => None
    case Some(hit) =>
      var part := body[start..PartEnd(body, start, hit.lineStart)];
      if hit.close then Some([part])
      else
        match PartsFrom(body, hit.after, delim)
        case None => None
        case Some(parts) => Some([part] + parts)
  }

  /** The parts of a whole body. Text before the first delimiter line and after the closing one is ignored. */
  ghost function Parts(body: Bytes, delim: Bytes): Option<seq<Bytes>>
    requires |delim| > 0
  {
    match Next(body, 0, delim)
    case None => None
    case Some(hit) =>
      if hit.close then Some([]) else PartsFrom(body, hit.after, delim)
  }
}
