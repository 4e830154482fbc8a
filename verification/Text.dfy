/** ASCII helpers on byte strings. */
module Text {
  import opened Basics

  /** The bytes of a literal. */
  function Ascii(s: string): (r: Bytes)
    ensures |r| == |s|
  {
    seq(|s|, i requires 0 <= i < |s| => if s[i] as int < 128 then s[i] as int else 63)
  }

  predicate Space(b: byte)
  {
    b == 32 || b == 9 || b == 10 || b == 12 || b == 13
  }

  function TrimStart(s: Bytes): (r: Bytes)
    ensures r != [] ==> !Space(r[0])
    ensures |r| <= |s|
  {
    if s != [] && Space(s[0]) then TrimStart(s[1..]) else s
  }

  function TrimEnd(s: Bytes): (r: Bytes)
    ensures r != [] ==> !Space(r[|r| - 1])
    ensures r <= s
  {
    if s != [] && Space(s[|s| - 1]) then TrimEnd(s[..|s| - 1]) else s
  }

  function Trim(s: Bytes): (r: Bytes)
    ensures r != [] ==> !Space(r[0]) && !Space(r[|r| - 1])
  {
    TrimEnd(TrimStart(s))
  }

  function LowerByte(b: byte): byte
  {
    if 65 <= b <= 90 then b + 32 else b
  }

  function Lower(s: Bytes): (r: Bytes)
    ensures |r| == |s|
    ensures forall i | 0 <= i < |s| :: r[i] == LowerByte(s[i])
  {
    seq(|s|, i requires 0 <= i < |s| => LowerByte(s[i]))
  }

  predicate SameIgnoringCase(a: Bytes, b: Bytes)
  {
    Lower(a) == Lower(b)
  }

  /** The first occurrence of one byte from `from` on. */
  function FindByte(body: Bytes, from: nat, b: byte): (r: Option<nat>)
    requires from <= |body|
    ensures r.Some? ==>
      && from <= r.value < |body|
      && body[r.value] == b
      && b !in body[from..r.value]
    ensures r.None? ==> b !in body[from..]
    decreases |body| - from
  {
    if from == |body| then None
    else if body[from] == b then Some(from)
    else
      var r := FindByte(body, from + 1, b);
      assert body[from..] == [body[from]] + body[from + 1..];
      assert r.Some? ==> body[from..r.value] == [body[from]] + body[from + 1..r.value];
      r
  }

  /** The part before the first `b`, and the part after it. */
  function Before(s: Bytes, b: byte): (r: Bytes)
    ensures r <= s && b !in r
    ensures |r| < |s| ==> s[|r|] == b
    ensures b in s ==> |r| < |s|
  {
    if s == [] || s[0] == b then [] else [s[0]] + Before(s[1..], b)
  }

  function After(s: Bytes, b: byte): (r: Bytes)
    ensures |r| <= |s|
    ensures s != [] ==> |r| < |s|
  {
    var n := |Before(s, b)|;
    if n < |s| then s[n + 1..] else []
  }

  lemma {:induction false} BeforeSplits(a: Bytes, b: byte, rest: Bytes)
    requires b !in a
    ensures Before(a + [b] + rest, b) == a
    ensures After(a + [b] + rest, b) == rest
    decreases |a|
  {
    var s := a + [b] + rest;
    if a == [] {
      assert s == [b] + rest;
    } else {
      assert s == [a[0]] + (a[1..] + [b] + rest);
      BeforeSplits(a[1..], b, rest);
      assert Before(s, b) == [a[0]] + a[1..] == a;
    }
  }

  /** The pieces between the occurrences of `b`. */
  function Split(s: Bytes, b: byte): (pieces: seq<Bytes>)
    ensures |pieces| > 0
    decreases |s|
  {
    if b !in s then [s] else [Before(s, b)] + Split(After(s, b), b)
  }

  lemma SplitHead(piece: Bytes, b: byte, rest: Bytes)
    requires b !in piece
    ensures Split(piece + [b] + rest, b) == [piece] + Split(rest, b)
  {
    assert (piece + [b] + rest)[|piece|] == b;
    BeforeSplits(piece, b, rest);
  }
}
