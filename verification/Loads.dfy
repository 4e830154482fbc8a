/** What one participant of the intake protocol holds, and sums of it. */
module Loads {
  import opened Basics

  /** Queue slots and body bytes held; submissions counted as pending; submissions that found the queue
      full and never entered it; requests refused for lack of room; units sent; body bytes stored. */
  datatype Load = Load(slots: int, bytes: int, pending: int, failed: int, shed: int, units: int, stored: int)

  const ZERO := Load(0, 0, 0, 0, 0, 0, 0)

  function Plus(a: Load, b: Load): Load
  {
    Load(a.slots + b.slots, a.bytes + b.bytes, a.pending + b.pending, a.failed + b.failed,
         a.shed + b.shed, a.units + b.units, a.stored + b.stored)
  }

  function Minus(a: Load, b: Load): Load
  {
    Load(a.slots - b.slots, a.bytes - b.bytes, a.pending - b.pending, a.failed - b.failed,
         a.shed - b.shed, a.units - b.units, a.stored - b.stored)
  }

  /** The sum over all participants of one kind. */
  function Total<T>(s: seq<T>, f: T -> Load): Load
  {
    if |s| == 0 then ZERO else Plus(Total(s[..|s| - 1], f), f(s[|s| - 1]))
  }

  lemma TotalAppend<T>(s: seq<T>, x: T, f: T -> Load)
    ensures Total(s + [x], f) == Plus(Total(s, f), f(x))
  {
    assert (s + [x])[..|s|] == s;
  }

  lemma {:induction false} TotalUpdate<T>(s: seq<T>, i: nat, x: T, f: T -> Load)
    requires i < |s|
    ensures Total(s[i := x], f) == Plus(Total(s, f), Minus(f(x), f(s[i])))
  {
    var n := |s| - 1;
    if i < n {
      TotalUpdate(s[..n], i, x, f);
      assert s[i := x][..n] == s[..n][i := x];
    } else {
      assert s[i := x][..n] == s[..n];
    }
  }

  lemma {:induction false} TotalDropFirst<T>(s: seq<T>, f: T -> Load)
    requires s != []
    ensures Total(s[1..], f) == Minus(Total(s, f), f(s[0]))
  {
    var n := |s| - 1;
    if n > 0 {
      TotalDropFirst(s[..n], f);
      assert s[..n][1..] == s[1..][..n - 1];
    }
  }

  /** Nobody holds a negative amount, and stored bytes are always paid for. */
  predicate Sound(l: Load)
  {
    l.slots >= 0 && l.bytes >= l.stored >= 0 && l.pending >= 0 && l.failed >= 0 && l.shed >= 0 && l.units >= 0
  }

  lemma {:induction false} TotalSound<T>(s: seq<T>, f: T -> Load)
    requires forall x | x in s :: Sound(f(x))
    ensures Sound(Total(s, f))
    ensures forall x | x in s :: f(x).slots <= Total(s, f).slots && f(x).bytes <= Total(s, f).bytes && f(x).pending <= Total(s, f).pending
  {
    if s != [] {
      TotalSound(s[..|s| - 1], f);
      forall x | x in s
        ensures f(x).slots <= Total(s, f).slots && f(x).bytes <= Total(s, f).bytes && f(x).pending <= Total(s, f).pending
      {
        assert x in s[..|s| - 1] || x == s[|s| - 1];
        assert Sound(f(x));
      }
    }
  }
}
