/** Base64 with the standard alphabet (section 4 of RFC 4648): written without padding, read with or without it. */
module Base64 {
  import opened Basics

  const PAD: byte := 61

  type Digit = d: int | 0 <= d < 64

  function Symbol(d: Digit): byte
  {
    if d < 26 then 65 + d
    else if d < 52 then 97 + (d - 26)
    else if d < 62 then 48 + (d - 52)
    else if d == 62 then 43 else 47
  }

  predicate IsSymbol(b: byte)
  {
    65 <= b <= 90 || 97 <= b <= 122 || 48 <= b <= 57 || b == 43 || b == 47
  }

  function ValueOf(b: byte): Digit
    requires IsSymbol(b)
  {
    if 65 <= b <= 90 then b - 65
    else if 97 <= b <= 122 then b - 97 + 26
    else if 48 <= b <= 57 then b - 48 + 52
    else if b == 43 then 62 else 63
  }

  predicate AllSymbols(s: Bytes)
  {
    forall i | 0 <= i < |s| :: IsSymbol(s[i])
  }

  function Symbols(ds: seq<Digit>): (s: Bytes)
    ensures |s| == |ds|
    ensures forall i | 0 <= i < |ds| :: s[i] == Symbol(ds[i])
  {
    seq(|ds|, i requires 0 <= i < |ds| => Symbol(ds[i]))
  }

  function Values(s: Bytes): (ds: seq<Digit>)
    requires AllSymbols(s)
    ensures |ds| == |s|
    ensures forall i | 0 <= i < |s| :: ds[i] == ValueOf(s[i])
  {
    seq(|s|, i requires 0 <= i < |s| => ValueOf(s[i]))
  }

  /** The six-bit digits of three bytes. */
  function Quad(a: byte, b: byte, c: byte): seq<Digit>
  {
    [a / 4, a % 4 * 16 + b / 16, b % 16 * 4 + c / 64, c % 64]
  }

  /** Three bytes become four digits; one or two last bytes become two or three. */
  function Digits(v: Bytes): seq<Digit>
  {
    if |v| == 0 then []
    else if |v| == 1 then Quad(v[0], 0, 0)[..2]
    else if |v| == 2 then Quad(v[0], v[1], 0)[..3]
    else Quad(v[0], v[1], v[2]) + Digits(v[3..])
  }

  /** The three bytes of four digits. */
  function First(x: int, y: int): int { x * 4 + y / 16 }

  function Second(y: int, z: int): int { y % 16 * 16 + z / 4 }

  function Third(z: int, w: int): int { z % 4 * 64 + w }

  /** The bits that no byte takes must be zero, and one digit alone is no byte. */
  function Undigits(ds: seq<Digit>): Option<Bytes>
  {
    if |ds| == 0 then Some([])
    else if |ds| == 1 then None
    else if |ds| == 2 then
      if ds[1] % 16 != 0 then None else Some([First(ds[0], ds[1])])
    else if |ds| == 3 then
      if ds[2] % 4 != 0 then None else Some([First(ds[0], ds[1]), Second(ds[1], ds[2])])
    else
      match Undigits(ds[4..])
      case None => None
      case Some(rest) =>
        Some([First(ds[0], ds[1]), Second(ds[1], ds[2]), Third(ds[2], ds[3])] + rest)
  }

  function Encode(v: Bytes): Bytes
  {
    Symbols(Digits(v))
  }

  /** The padding that fills the last group of four. */
  function Padding(v: Bytes): Bytes
  {
    if |v| % 3 == 1 then [PAD, PAD] else if |v| % 3 == 2 then [PAD] else []
  }

  /** Padding may follow the second symbol of the last group, and nowhere else. */
  function WithoutPadding(s: Bytes): Bytes
  {
    if |s| > 4 then s[..4] + WithoutPadding(s[4..])
    else if |s| > 2 && s[|s| - 1] == PAD then WithoutPadding(s[..|s| - 1])
    else s
  }

  function Decode(s: Bytes): Option<Bytes>
  {
    var symbols := WithoutPadding(s);
    if AllSymbols(symbols) then Undigits(Values(symbols)) else None
  }

  lemma TwoDigits(a: byte, low: int)
    requires 0 <= low < 16
    ensures a / 4 * 4 + (a % 4 * 16 + low) / 16 == a
    ensures (a % 4 * 16 + low) % 16 == low
  {
  }

  lemma NextTwoDigits(b: byte, low: int)
    requires 0 <= low < 4
    ensures b / 16 < 16 && b % 16 * 16 + (b % 16 * 4 + low) / 4 == b % 16 * 16 + b % 16
    ensures (b % 16 * 4 + low) % 4 == low
    ensures b / 16 * 16 + (b % 16 * 4 + low) / 4 == b
  {
  }

  lemma QuadBytes(a: byte, b: byte, c: byte)
    ensures var q := Quad(a, b, c);
            && First(q[0], q[1]) == a
            && Second(q[1], q[2]) == b
            && Third(q[2], q[3]) == c
            && (c == 0 ==> q[2] % 4 == 0) && (b == 0 ==> q[1] % 16 == 0)
  {
    TwoDigits(a, b / 16);
    NextTwoDigits(b, c / 64);
    assert c % 64 + c / 64 * 64 == c;
  }

  lemma TwoFinalDigits(ds: seq<Digit>, a: byte)
    requires |ds| == 2 && First(ds[0], ds[1]) == a && ds[1] % 16 == 0
    ensures Undigits(ds) == Some([a])
  {
  }

  lemma ThreeFinalDigits(ds: seq<Digit>, a: byte, b: byte)
    requires |ds| == 3 && First(ds[0], ds[1]) == a && Second(ds[1], ds[2]) == b && ds[2] % 4 == 0
    ensures Undigits(ds) == Some([a, b])
  {
  }

  lemma LastByte(a: byte)
    ensures Undigits(Quad(a, 0, 0)[..2]) == Some([a])
  {
    QuadBytes(a, 0, 0);
    TwoFinalDigits(Quad(a, 0, 0)[..2], a);
  }

  lemma LastTwoBytes(a: byte, b: byte)
    ensures Undigits(Quad(a, b, 0)[..3]) == Some([a, b])
  {
    QuadBytes(a, b, 0);
    ThreeFinalDigits(Quad(a, b, 0)[..3], a, b);
  }

  lemma ThreeBytes(a: byte, b: byte, c: byte, rest: seq<Digit>)
    requires Undigits(rest).Some?
    ensures Undigits(Quad(a, b, c) + rest) == Some([a, b, c] + Undigits(rest).value)
  {
    QuadBytes(a, b, c);
    assert (Quad(a, b, c) + rest)[4..] == rest;
  }

  lemma {:induction false} UndigitsUndoesDigits(v: Bytes)
    ensures Undigits(Digits(v)) == Some(v)
    decreases |v|
  {
    if |v| > 2 {
      UndigitsUndoesDigits(v[3..]);
      ThreeBytes(v[0], v[1], v[2], Digits(v[3..]));
      assert v == [v[0], v[1], v[2]] + v[3..];
    } else if |v| == 2 {
      LastTwoBytes(v[0], v[1]);
      assert v == [v[0], v[1]];
    } else if |v| == 1 {
      LastByte(v[0]);
      assert v == [v[0]];
    }
  }

  lemma BytesQuad(x: Digit, y: Digit, z: Digit, w: Digit)
    ensures var a, b, c := First(x, y), Second(y, z), Third(z, w);
            && 0 <= a < 256 && 0 <= b < 256 && 0 <= c < 256
            && a / 4 == x && a % 4 * 16 + b / 16 == y && b % 16 * 4 + c / 64 == z && c % 64 == w
  {
    assert First(x, y) / 4 == x && First(x, y) % 4 == y / 16;
    assert Second(y, z) / 16 == y % 16 && Second(y, z) % 16 == z / 4;
    assert Third(z, w) / 64 == z % 4 && Third(z, w) % 64 == w;
  }

  lemma {:induction false} DigitsUndoUndigits(ds: seq<Digit>)
    requires Undigits(ds).Some?
    ensures Digits(Undigits(ds).value) == ds
    decreases |ds|
  {
    if |ds| == 2 {
      BytesQuad(ds[0], ds[1], 0, 0);
    } else if |ds| == 3 {
      BytesQuad(ds[0], ds[1], ds[2], 0);
    } else if |ds| > 3 {
      BytesQuad(ds[0], ds[1], ds[2], ds[3]);
      DigitsUndoUndigits(ds[4..]);
      var v := Undigits(ds).value;
      assert v[3..] == Undigits(ds[4..]).value;
      assert ds == [ds[0], ds[1], ds[2], ds[3]] + ds[4..];
    }
  }

  lemma ValuesUndoSymbols(ds: seq<Digit>)
    ensures AllSymbols(Symbols(ds)) && Values(Symbols(ds)) == ds
  {
  }

  lemma SymbolsUndoValues(s: Bytes)
    requires AllSymbols(s)
    ensures Symbols(Values(s)) == s
  {
  }

  lemma ShortPadding(v: Bytes)
    requires |v| <= 2
    ensures WithoutPadding(Encode(v)) == Encode(v)
    ensures WithoutPadding(Encode(v) + Padding(v)) == Encode(v)
  {
    var e := Encode(v);
    ValuesUndoSymbols(Digits(v));
    TakePadding(e, Padding(v));
    assert e + [] == e;
    TakePadding(e, []);
  }

  lemma {:induction false} PaddingIsTaken(v: Bytes)
    ensures WithoutPadding(Encode(v)) == Encode(v)
    ensures WithoutPadding(Encode(v) + Padding(v)) == Encode(v)
    decreases |v|
  {
    if |v| > 2 {
      EncodeShape(v);
      PaddingIsTaken(v[3..]);
      ValuesUndoSymbols(Quad(v[0], v[1], v[2]));
      GroupThenPadding(Symbols(Quad(v[0], v[1], v[2])), Encode(v[3..]), Padding(v[3..]));
    } else {
      ShortPadding(v);
    }
  }

  lemma GroupThenPadding(q: Bytes, e: Bytes, padding: Bytes)
    requires |q| == 4 && AllSymbols(q)
    requires WithoutPadding(e) == e && WithoutPadding(e + padding) == e
    ensures WithoutPadding(q + e) == q + e && WithoutPadding(q + e + padding) == q + e
  {
    TakeGroup(q, e);
    TakeGroup(q, e + padding);
    assert q + e + padding == q + (e + padding);
  }

  lemma EncodeShape(v: Bytes)
    requires |v| > 2
    ensures Encode(v) == Symbols(Quad(v[0], v[1], v[2])) + Encode(v[3..])
  {
  }

  lemma TakeGroup(q: Bytes, rest: Bytes)
    requires |q| == 4 && AllSymbols(q)
    ensures WithoutPadding(q + rest) == q + WithoutPadding(rest)
  {
    if |rest| == 0 {
      assert q + rest == q;
      assert q[3] != PAD;
    } else {
      assert (q + rest)[..4] == q && (q + rest)[4..] == rest;
    }
  }

  lemma {:induction false} TakePadding(s: Bytes, padding: Bytes)
    requires |s| + |padding| <= 4 && AllSymbols(s)
    requires |padding| > 0 ==> |s| >= 2
    requires forall i | 0 <= i < |padding| :: padding[i] == PAD
    ensures WithoutPadding(s + padding) == s
    decreases |padding|
  {
    var n := |padding| - 1;
    if |padding| == 0 {
      assert s + padding == s;
      assert |s| > 0 ==> IsSymbol(s[|s| - 1]);
    } else {
      assert (s + padding)[..|s| + n] == s + padding[..n];
      TakePadding(s, padding[..n]);
    }
  }

  /** What is written is read back, whether the padding is there or not. */
  lemma DecodeUndoesEncode(v: Bytes)
    ensures Decode(Encode(v)) == Some(v)
    ensures Decode(Encode(v) + Padding(v)) == Some(v)
  {
    PaddingIsTaken(v);
    ValuesUndoSymbols(Digits(v));
    UndigitsUndoesDigits(v);
  }

  /** Padding aside, only one text stands for a value: the one that is written. */
  lemma DecodeIsCanonical(s: Bytes)
    requires Decode(s).Some?
    ensures WithoutPadding(s) == Encode(Decode(s).value)
  {
    var symbols := WithoutPadding(s);
    DigitsUndoUndigits(Values(symbols));
    SymbolsUndoValues(symbols);
  }

  /** The alphabet of the standard (table 1 of RFC 4648): A to Z, a to z, 0 to 9, plus and slash. */
  lemma StandardAlphabet(d: Digit)
    ensures Symbol(0) == 'A' as int && Symbol(25) == 'Z' as int && Symbol(26) == 'a' as int && Symbol(51) == 'z' as int
    ensures Symbol(52) == '0' as int && Symbol(61) == '9' as int && Symbol(62) == '+' as int && Symbol(63) == '/' as int
    ensures d !in {25, 51, 61, 62, 63} ==> Symbol(d + 1) == Symbol(d) + 1
  {
  }

  /** Test vectors of the standard, for a whole group and for shorter ones (section 10 of RFC 4648). */
  lemma KnownVectors()
    ensures Encode([102, 111, 111]) == [90, 109, 57, 118]
    ensures Encode([102, 111]) == [90, 109, 56] && Padding([102, 111]) == [61]
    ensures Encode([102]) == [90, 103] && Padding([102]) == [61, 61]
  {
    assert Quad(102, 111, 111) == [25, 38, 61, 47];
    assert Digits([102, 111, 111]) == [25, 38, 61, 47] by { assert [102, 111, 111][3..] == []; }
    assert Digits([102, 111]) == [25, 38, 60];
    assert Digits([102]) == [25, 32];
  }
}
