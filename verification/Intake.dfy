/** The intake of a pool: the reservations that a request makes before its body is buffered. */
module Intakes {
  import opened Basics

  const INTAKE_SLOTS := 1024
  const BODY_BUDGET := 0x400_0000

  datatype Refused = Saturated | OverBudget | Stopped

  /** What a body of this many bytes costs in permits; a larger one than the budget costs all there are. */
  function Needed(bytes: nat): nat
  {
    Min(bytes, BODY_BUDGET)
  }

  /** The permits missing to cover `bytes`. */
  function Extra(held: nat, bytes: nat): nat
  {
    Max(Needed(bytes) - held, 0)
  }

  /** The byte budget that all bodies of the pool share. */
  class Budget {
    var free: nat
    var closed: bool
    var shed: nat

    constructor ()
      ensures free == BODY_BUDGET && !closed && shed == 0
    {
      free, closed, shed := BODY_BUDGET, false, 0;
    }

    method ReserveBody(bytes: nat) returns (refused: Option<Refused>, held: nat)
      modifies this`free, this`shed
      ensures refused == if closed then Some(Stopped)
                         else if old(free) < Needed(bytes) then Some(OverBudget) else None
      ensures held == if refused.None? then Needed(bytes) else 0
      ensures free + held == old(free)
      ensures shed == old(shed) + (if refused == Some(OverBudget) then 1 else 0)
    {
      var want := Min(bytes, BODY_BUDGET);
      if closed {
        return Some(Stopped), 0;
      }
      if free < want {
        shed := shed + 1;
        return Some(OverBudget), 0;
      }
      free := free - want;
      return None, want;
    }

    /** A refused growth leaves the reservation as it was. */
    method GrowBody(held: nat, bytes: nat) returns (refused: Option<Refused>, grown: nat)
      modifies this`free, this`shed
      ensures refused.None? ==> grown == Max(held, Needed(bytes))
      ensures refused.Some? ==> grown == held && Extra(held, bytes) > 0
      ensures refused == Some(Stopped) <==> closed && Extra(held, bytes) > 0
      ensures refused == Some(OverBudget) <==> !closed && old(free) < Extra(held, bytes)
      ensures refused != Some(Saturated)
      ensures free + grown == old(free) + held
      ensures shed == old(shed) + (if refused == Some(OverBudget) then 1 else 0)
    {
      var needed := Min(bytes, BODY_BUDGET);
      var extra := if needed > held then needed - held else 0;
      grown, refused := held, None;
      if extra > 0 {
        var more;
        refused, more := ReserveBody(extra);
        if refused.None? {
          grown := held + more;
        }
      }
    }
  }
}
