/** The response producer as the program keeps it: an exchange object whose verbs update its fields and
    queue frames on a channel. Every verb does what ExchangeSpec says. */
module Exchanges {
  import opened Basics
  import opened Frames
  import opened ExchangeSpec

  /** The sending half of the frame channel. `fuse` stands for the receiver: it leaves after that many
      operations, and stays away. A blocked send waits until there is room or the receiver left. */
  class Channel {
    var log: seq<Frame>
    var fuse: nat

    constructor (fuse: nat)
      ensures log == [] && this.fuse == fuse
    {
      log, this.fuse := [], fuse;
    }

    method IsClosed() returns (closed: bool)
      modifies this`fuse
      ensures closed == (old(fuse) == 0)
      ensures fuse == if closed then 0 else old(fuse) - 1
    {
      closed := fuse == 0;
      if !closed {
        fuse := fuse - 1;
      }
    }

    method TrySend(f: Frame) returns (ok: bool)
      modifies this
      ensures ok == (old(fuse) > 0)
      ensures log == if ok then old(log) + [f] else old(log)
      ensures fuse == if ok then old(fuse) - 1 else 0
    {
      ok := fuse > 0;
      if ok {
        log, fuse := log + [f], fuse - 1;
      }
    }
  }

  class Exchange {
    var stage: Stage
    var headSent: bool
    var pending: Option<ResponseHead>
    var declared: Option<u64>
    var sentBody: u64
    var discarded: bool
    var bodiless: bool
    var sender: Channel?
    /** The Handled events raised for this unit, each with its error flag. */
    var handled: seq<bool>
    ghost const channel: Channel

    ghost predicate Valid()
      reads this
    {
      sender == null || sender == channel
    }

    ghost function View(): State
      reads this, channel
    {
      State(stage, headSent, pending, declared, sentBody, discarded, bodiless, sender != null, handled,
            Read(channel.log), channel.fuse)
    }

    constructor (head: bool, tx: Channel)
      requires tx.log == []
      ensures Valid() && channel == tx && View() == New(head, tx.fuse)
    {
      stage, headSent, pending, declared, sentBody := Open, false, None, None, 0;
      discarded, bodiless, sender, handled := false, head, tx, [];
      channel := tx;
    }

    method IsCancelled() returns (cancelled: bool)
      requires Valid()
      modifies channel`fuse
      ensures Valid() && cancelled == Cancelled(old(View())) && View() == AfterCheck(old(View()))
    {
      cancelled := discarded;
      if !cancelled && sender != null {
        cancelled := sender.IsClosed();
      }
    }

    method SendFrame(f: Frame) returns (ok: bool)
      requires Valid()
      modifies channel
      ensures Valid() && ok == CanSend(old(View())) && View() == Send(old(View()), f)
      ensures old(channel.log) <= channel.log
    {
      ReadAppend(channel.log, f);
      if sender == null {
        return false;
      }
      ok := sender.TrySend(f);
    }

    method EmitHeadFrame(finalizing: Option<u64>) returns (ok: bool)
      requires Valid()
      modifies this, channel
      ensures Valid() && ok == HeadGoesOut(old(View())) && View() == EmitHead(old(View()), finalizing)
      ensures old(channel.log) <= channel.log
    {
      if headSent {
        return true;
      }
      var head := if pending.Some? then pending.value else DEFAULT_HEAD;
      pending := None;
      if stage == Open {
        stage := HeadCommitted;
      }
      var contentLength := if bodiless || declared.Some? then declared else finalizing;
      headSent := true;
      ok := SendFrame(Head(head, contentLength, bodiless));
    }

    method DiscardUnit()
      requires Valid()
      modifies this
      ensures Valid() && View() == ExchangeSpec.DiscardUnit(old(View()))
    {
      if stage == Finalized {
        return;
      }
      discarded, stage := true, Finalized;
      handled := handled + [true];
      sender := null;
    }

    method Seal(truncated: bool)
      requires Valid()
      modifies this, channel
      ensures Valid() && View() == ExchangeSpec.Seal(old(View()), truncated)
      ensures old(channel.log) <= channel.log
    {
      stage := Finalized;
      handled := handled + [truncated];
      var _ := SendFrame(End(truncated));
      sender := null;
    }

    method WriteHeadCore(status: nat, lengths: seq<Option<u64>>, fields: seq<(string, Bytes)>) returns (o: Outcome)
      requires Valid() && Counted(View())
      modifies this, channel
      ensures Valid() && (View(), o) == Step(old(View()), WriteHead(status, lengths, fields))
      ensures old(channel.log) <= channel.log
    {
      var cancelled := IsCancelled();
      if cancelled {
        DiscardUnit();
        return Discarded;
      }
      if stage != Open {
        return HeadWritten;
      }
      if status != 101 && 100 <= status < 200 {
        return Ok;
      }
      if |lengths| > 1 {
        return BadField;
      }
      declared := if lengths == [] then None else lengths[0];
      pending := Some(ResponseHead(status, fields));
      if status in {204, 304, 101} {
        bodiless := true;
      }
      stage := HeadCommitted;
      return Ok;
    }

    /** The branch of SendBody for a write past the declared content-length. */
    method CutBody(p: Payload, cl: u64)
      requires Valid() && Size(p) < I64 && Counted(View()) && Exceeds(View(), Size(p)) && declared == Some(cl)
      modifies this, channel
      ensures Valid() && View() == SendCut(old(View()), p)
      ensures old(channel.log) <= channel.log
    {
      var fit := cl - sentBody;
      var ok := EmitHeadFrame(Some(cl));
      if ok && fit > 0 && !bodiless {
        var _ := SendFrame(FrameOf(p, fit));
      }
      sentBody := cl;
      Seal(false);
    }

    /** The tail of SendBody: the head is out and the count is raised. */
    method FinishBody(p: Payload, eos: bool) returns (o: Outcome)
      requires Valid()
      modifies this, channel
      ensures Valid() && (View(), o) == SendRest(old(View()), p, eos)
      ensures old(channel.log) <= channel.log
    {
      if Size(p) > 0 && !bodiless {
        var ok := SendFrame(FrameOf(p, Size(p)));
        if !ok {
          DiscardUnit();
          return Discarded;
        }
      }
      if eos {
        Seal(false);
      }
      return Ok;
    }

    method SendBody(p: Payload, eos: bool) returns (o: Outcome)
      requires Valid() && Size(p) < I64 && Counted(View())
      modifies this, channel
      ensures Valid() && (View(), o) == ExchangeSpec.SendBody(old(View()), p, eos)
      ensures old(channel.log) <= channel.log
    {
      hide HeadFrame, ReadOne, SendCut, SendRest, Read, Content;
      var len := Size(p);
      if declared.Some? && Add64(sentBody, len) > declared.value {
        CutBody(p, declared.value);
        return ContentLengthExceeded;
      }
      var ok := EmitHeadFrame(if eos && sentBody == 0 then Some(len) else None);
      if !ok {
        DiscardUnit();
        return Discarded;
      }
      sentBody := Add64(sentBody, len);
      o := FinishBody(p, eos);
    }

    method WriteBodyCore(data: Bytes, eos: bool) returns (o: Outcome)
      requires Valid() && |data| < I64 && Counted(View())
      modifies this, channel
      ensures Valid() && (View(), o) == Step(old(View()), WriteBody(data, eos))
      ensures old(channel.log) <= channel.log
    {
      var cancelled := IsCancelled();
      if cancelled {
        DiscardUnit();
        return Discarded;
      }
      if stage == Finalized {
        return AlreadyFinalized;
      }
      if data == [] && !eos {
        return Ok;
      }
      o := SendBody(Buffer(data), eos);
    }

    method SendFileCore(content: Option<Bytes>, offset: i63, length: Option<i63>, eos: bool) returns (o: Outcome)
      requires Valid() && Possible(SendFile(content, offset, length, eos)) && Counted(View())
      modifies this, channel
      ensures Valid() && (View(), o) == Step(old(View()), SendFile(content, offset, length, eos))
      ensures old(channel.log) <= channel.log
    {
      var cancelled := IsCancelled();
      if cancelled {
        DiscardUnit();
        return Discarded;
      }
      if stage == Finalized {
        return AlreadyFinalized;
      }
      var slice := OpenSlice(content, offset, length);
      if slice.None? {
        return FileNotSendable;
      }
      if declared.Some? && Add64(sentBody, Size(slice.value)) > declared.value {
        return ContentLengthExceeded;
      }
      o := SendBody(slice.value, eos);
    }

    method WriteTrailersCore() returns (o: Outcome)
      requires Valid() && Counted(View())
      modifies this, channel
      ensures Valid() && (View(), o) == Step(old(View()), WriteTrailers)
      ensures old(channel.log) <= channel.log
    {
      var cancelled := IsCancelled();
      if cancelled {
        DiscardUnit();
        return Discarded;
      }
      if stage == Finalized {
        return AlreadyFinalized;
      }
      if stage == Open {
        return HeadNotWritten;
      }
      var ok := EmitHeadFrame(Some(sentBody));
      if !ok {
        DiscardUnit();
        return Discarded;
      }
      Seal(false);
      return Ok;
    }

    method FlushCore() returns (o: Outcome)
      requires Valid() && Counted(View())
      modifies this, channel
      ensures Valid() && (View(), o) == Step(old(View()), Flush)
      ensures old(channel.log) <= channel.log
    {
      var cancelled := IsCancelled();
      if cancelled {
        DiscardUnit();
        return Discarded;
      }
      if stage == Finalized {
        return AlreadyFinalized;
      }
      var ok := EmitHeadFrame(None);
      if !ok {
        DiscardUnit();
        return Discarded;
      }
      return Ok;
    }

    /** The end of the exchange. `full` says that the channel has no room for one more frame; it can
        have none only after a head was queued. */
    method Drop(cycleDied: bool, full: bool)
      requires Valid()
      modifies this, channel
      ensures Valid() && View() == ExchangeSpec.Drop(old(View()), cycleDied, full)
      ensures old(channel.log) <= channel.log
    {
      if stage != Finalized {
        handled := handled + [true];
      }
      if stage != Finalized && !cycleDied && sender != null {
        if headSent {
          if !full {
            var _ := SendFrame(End(true));
          }
        } else {
          var ok := SendFrame(Head(FAILURE_HEAD, if bodiless then None else Some(0), bodiless));
          if ok {
            var _ := SendFrame(End(false));
          }
        }
      }
      sender := null;
    }
  }
}
