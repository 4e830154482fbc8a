/** The consumer of a response stream: it turns queued frames into body data, pumps file slices, and
    decides between a clean end and an error. */
module ReplyBodies {
  import opened Basics
  import opened Frames

  /** The largest piece of one file read. */
  const SLICE := 256 * 1024

  /** How a file read ends: `Got(n)` is a read that was willing to return `n` bytes. */
  datatype FileRead = NotReady | TaskFailed | ReadFailed | Got(n: nat)

  datatype FilePump = FilePump(file: Bytes, offset: nat, len: nat, done: nat)

  datatype Poll = Pending | Data(data: Bytes) | Done | Failed

  /** The bytes of the read in flight: at most one slice, and short when the file or the read is. */
  function Piece(fp: FilePump, n: nat): Bytes
    requires fp.done <= fp.len
  {
    Clip(fp.file, fp.offset + fp.done, Min(Min(SLICE, fp.len - fp.done), n))
  }

  /** The part of the frame's slice that the pump has not delivered. */
  function Owed(fp: FilePump): Bytes
    requires fp.done <= fp.len
  {
    Clip(fp.file, fp.offset + fp.done, fp.len - fp.done)
  }

  lemma ClipSplit(file: Bytes, offset: nat, m: nat, len: nat)
    requires m <= len
    ensures var a := Clip(file, offset, m);
            |a| <= m && a + Clip(file, offset + |a|, len - |a|) == Clip(file, offset, len)
  {
  }

  /** A read comes up empty only when it was given nothing, or the file is shorter than the slice. */
  lemma EmptyPiece(fp: FilePump, n: nat)
    requires fp.done <= fp.len && (fp.done < fp.len || fp.len == 0)
    ensures Piece(fp, n) == [] ==> n == 0 || fp.len == 0 || fp.offset + fp.len > |fp.file|
  {
  }

  lemma Regroup(a: Bytes, b: Bytes, c: Bytes, d: Bytes)
    requires b + c == d
    ensures a + b + c == a + d
  {
    assert a + b + c == a + (b + c);
  }

  /** A read takes its bytes off the front of what is owed, whatever its length turns out to be. */
  lemma ReadPaysOwed(before: Bytes, fp: FilePump, n: nat)
    requires fp.done <= fp.len
    ensures |Piece(fp, n)| <= SLICE && |Piece(fp, n)| <= fp.len - fp.done
    ensures before + Piece(fp, n) + Owed(fp.(done := fp.done + |Piece(fp, n)|)) == before + Owed(fp)
  {
    hide Clip;
    ClipSplit(fp.file, fp.offset + fp.done, Min(Min(SLICE, fp.len - fp.done), n), fp.len - fp.done);
    Regroup(before, Piece(fp, n), Owed(fp.(done := fp.done + |Piece(fp, n)|)), Owed(fp));
  }

  /** After a read the data handed out and what is still owed are what they were; nothing is owed at the end. */
  lemma ReadKeepsTotal(before: Bytes, fp: FilePump, n: nat, total: Bytes)
    requires fp.done <= fp.len && before + Owed(fp) == total
    ensures var after := fp.(done := fp.done + |Piece(fp, n)|);
            && |Piece(fp, n)| <= SLICE && after.done <= after.len
            && before + Piece(fp, n) + Owed(after) == total
            && before + Piece(fp, n) <= total
            && (after.done == after.len ==> before + Piece(fp, n) == total)
  {
    ReadPaysOwed(before, fp, n);
    var after := fp.(done := fp.done + |Piece(fp, n)|);
    if after.done == after.len {
      assert |Owed(after)| == 0;
      assert before + Piece(fp, n) + Owed(after) == before + Piece(fp, n);
    }
  }

  class ReplyBody {
    /** False once the receiving half is gone. */
    var reply: bool
    /** The number of frames taken from the channel, the head and the staged frame included. */
    var next: nat
    var declared: Option<u64>
    var sent: nat
    var staged: Option<Frame>
    var file: Option<FilePump>
    var errArmed: bool

    /** The frames taken apart so far, and the data handed to the transport. */
    ghost var consumed: seq<Frame>
    ghost var delivered: Bytes

    /** Nothing is lost and nothing is invented: the data handed out, and what the pump still owes, are
        the bodies of the frames taken. */
    ghost predicate Valid()
      reads this
    {
      && sent == |delivered| && delivered <= BodyOf(consumed)
      && consumed != [] && next == |consumed| + (if staged.Some? then 1 else 0)
      && (errArmed ==> !reply)
      && (!reply ==> file.None?)
      && (reply ==> !consumed[|consumed| - 1].End?)
      && match file
         case Some(fp) =>
           && (fp.done < fp.len || fp.len == 0) && fp.done <= fp.len && delivered + Owed(fp) == BodyOf(consumed)
           && consumed[|consumed| - 1] == File(fp.file, fp.offset, fp.len)
         case None => (reply ==> delivered == BodyOf(consumed)) && (!reply && !errArmed ==> staged.None? && Ended())
    }

    /** Why a poll may fail: a file read that failed or came up short, a producer that went away before
        its End, a truncated End, or an End before the declared length. */
    ghost predicate Fault(log: seq<Frame>, gone: bool, read: FileRead)
      reads this
      requires consumed != []
    {
      match consumed[|consumed| - 1]
      case File(content, offset, len) =>
        !read.Got? || read.n == 0 || len == 0 || offset + len > |content| || (gone && next == |log| && staged.None?)
      case End(truncated) => truncated || (declared.Some? && |BodyOf(consumed)| < declared.value)
      case _ => gone && next == |log| && staged.None?
    }

    /** The stream came to its clean end, with everything delivered. */
    ghost predicate Ended()
      reads this
    {
      && |consumed| > 1
      && IsCleanEndAt(consumed, declared, delivered, |consumed| - 1)
    }

    /** The frames taken so far are the first ones of the channel. */
    ghost predicate Follows(log: seq<Frame>)
      reads this
    {
      && next <= |log|
      && log[..next] == consumed + (if staged.Some? then [staged.value] else [])
    }

    /** The head was taken before; a frame that was already waiting may be staged. */
    constructor (log: seq<Frame>, declared: Option<u64>, staged: Option<Frame>)
      requires log != [] && log[0].Head?
      requires staged.Some? ==> |log| > 1 && log[1] == staged.value
      ensures Valid() && Follows(log)
      ensures delivered == [] && this.declared == declared && reply && !errArmed
    {
      reply, this.declared, sent, this.staged, file, errArmed := true, declared, 0, staged, None, false;
      next := if staged.Some? then 2 else 1;
      consumed := log[..1];
      delivered := [];
    }

    method TerminalError() returns (p: Poll)
      requires consumed != [] && next == |consumed| + (if staged.Some? then 1 else 0)
      requires sent == |delivered| && delivered <= BodyOf(consumed)
      modifies this`reply, this`file, this`errArmed
      ensures Valid() && errArmed && p == Pending
    {
      reply, file, errArmed := false, None, true;
      p := Pending;
    }

    /** A finished read of the file in the pump. */
    method PumpRead(read: FileRead) returns (p: Poll)
      requires Valid() && file.Some? && reply && !errArmed && !read.NotReady?
      modifies this`reply, this`file, this`errArmed, this`sent, this`delivered
      ensures Valid() && (errArmed <==> !p.Data?) && (p.Data? || p == Pending)
      ensures errArmed <==> !read.Got? || Piece(old(file).value, read.n) == []
      ensures p.Data? ==> p.data == Piece(old(file).value, read.n) && 0 < |p.data| <= SLICE && reply
      ensures delivered == old(delivered) + (if p.Data? then p.data else [])
    {
      var fp := file.value;
      if read.Got? {
        var buf := Piece(fp, read.n);
        if buf != [] {
          Advance(fp, read.n, buf);
          return Data(buf);
        }
      }
      p := TerminalError();
    }

    /** Hands a piece out and moves the pump past it. */
    method Advance(fp: FilePump, ghost n: nat, buf: Bytes)
      requires Valid() && file == Some(fp) && reply && !errArmed && buf == Piece(fp, n) && buf != []
      modifies this`file, this`sent, this`delivered
      ensures Valid() && |buf| <= SLICE && delivered == old(delivered) + buf
    {
      hide Clip, BodyOf;
      ghost var before, total := delivered, BodyOf(consumed);
      var after := fp.(done := fp.done + |buf|);
      ReadKeepsTotal(before, fp, n, total);
      delivered := before + buf;
      sent := sent + |buf|;
      assert delivered <= total && delivered + Owed(after) == total;
      if after.done < after.len {
        file := Some(after);
        assert Valid();
      } else {
        file := None;
        assert Valid();
      }
    }

    /** The next frame, staged or queued; None when the channel is empty for now, and Some(None) when
        the producer is gone. */
    method NextFrame(log: seq<Frame>, gone: bool) returns (r: Option<Option<Frame>>)
      requires Valid() && Follows(log) && reply && !errArmed && file.None?
      modifies this`staged, this`next, this`consumed
      ensures Follows(log) && (r.Some? && r.value.Some? ==> delivered == BodyOf(old(consumed)))
      ensures r.None? || r.value.None? ==> Valid() && staged.None? && next == |log| && (r.Some? <==> gone) && consumed == old(consumed)
      ensures r.Some? && r.value.Some? ==>
                consumed == old(consumed) + [r.value.value] && staged.None? && next == |consumed|
    {
      var frame: Frame;
      if staged.Some? {
        frame := staged.value;
        staged := None;
      } else if next == |log| {
        return if gone then Some(None) else None;
      } else {
        frame := log[next];
        next := next + 1;
      }
      consumed := consumed + [frame];
      assert log[..next] == consumed;
      r := Some(Some(frame));
    }

    /** Takes one frame apart. None means that the loop goes on. */
    method TakeFrame(frame: Frame, ghost before: seq<Frame>) returns (p: Option<Poll>)
      requires before != [] && consumed == before + [frame] && next == |consumed| && staged.None?
      requires sent == |delivered| && reply && !errArmed && file.None? && delivered == BodyOf(before)
      modifies this`reply, this`file, this`errArmed, this`sent, this`delivered
      ensures Valid()
      ensures delivered == old(delivered) + (if p.Some? && p.value.Data? then p.value.data else [])
      ensures match frame
              case Chunk(data) => p == Some(Data(data)) && reply && !errArmed
              case File(content, offset, len) => p == None && file == Some(FilePump(content, offset, len, 0)) && reply && !errArmed
              case Head(_, _, _) => p == None && file.None? && reply && !errArmed
              case End(truncated) =>
                if truncated || (declared.Some? && |delivered| < declared.value) then p == Some(Pending) && errArmed
                else p == Some(Done) && !reply && !errArmed && Ended()
      ensures frame.End? ==> delivered == BodyOf(consumed)
    {
      BodyOfAppend(before, frame);
      assert BodyOf(consumed) == delivered + FrameBody(frame);
      match frame
      case Chunk(data) =>
        sent := sent + |data|;
        delivered := delivered + data;
        p := Some(Data(data));
      case File(content, offset, len) =>
        file := Some(FilePump(content, offset, len, 0));
        p := None;
      case Head(_, _, _) =>
        p := None;
      case End(truncated) =>
        var ended := TakeEnd(truncated, before);
        p := Some(ended);
    }

    method TakeEnd(truncated: bool, ghost before: seq<Frame>) returns (p: Poll)
      requires before != [] && consumed == before + [End(truncated)] && next == |consumed| && staged.None?
      requires sent == |delivered| && reply && !errArmed && file.None?
      requires delivered == BodyOf(before) == BodyOf(consumed)
      modifies this`reply, this`file, this`errArmed
      ensures Valid()
      ensures if truncated || (declared.Some? && |delivered| < declared.value) then p == Pending && errArmed
              else p == Done && !reply && !errArmed && Ended()
    {
      if truncated || (declared.Some? && sent < declared.value) {
        p := TerminalError();
      } else {
        assert consumed[..|consumed| - 1] == before;
        reply := false;
        p := Done;
      }
    }

    /** Takes the next frame, if there is one; None means that the loop goes on. */
    method TakeNext(log: seq<Frame>, gone: bool, ghost read: FileRead) returns (p: Option<Poll>)
      requires Valid() && Follows(log) && reply && !errArmed && file.None?
      modifies this
      ensures Valid() && Follows(log) && declared == old(declared)
      ensures delivered == old(delivered) + (if p.Some? && p.value.Data? then p.value.data else [])
      ensures old(consumed) <= consumed && p != Some(Failed)
      ensures p == Some(Done) <==> !reply && !errArmed
      ensures p == Some(Pending) && !errArmed ==> file.None? && next == |log| && staged.None? && !gone
      ensures p.None? || p.value.Data? ==> |consumed| > |old(consumed)| && !errArmed && reply
      ensures errArmed ==> Fault(log, gone, read)
    {
      hide Clip, BodyOf;
      ghost var before := consumed;
      var received := NextFrame(log, gone);
      if received.None? {
        return Some(Pending);
      }
      if received.value.None? {
        var failed := TerminalError();
        return Some(failed);
      }
      p := TakeFrame(received.value.value, before);
    }

    /** One turn of the poll loop; None means that the loop goes on. */
    method Turn(log: seq<Frame>, gone: bool, read: FileRead) returns (p: Option<Poll>)
      requires Valid() && Follows(log)
      modifies this
      ensures Valid() && Follows(log) && declared == old(declared)
      ensures delivered == old(delivered) + (if p.Some? && p.value.Data? then p.value.data else [])
      ensures old(consumed) <= consumed
      ensures p == Some(Failed) <==> old(errArmed)
      ensures old(errArmed) ==> errArmed
      ensures p == Some(Done) <==> !reply && !errArmed
      ensures p == Some(Pending) && !errArmed ==> if file.Some? then read.NotReady? else next == |log| && staged.None? && !gone
      ensures p.Some? && p.value.Data? && old(file).Some? ==> 0 < |p.value.data| <= SLICE
      ensures p.None? ==> |consumed| > |old(consumed)| && old(file).None? && !errArmed && reply
      ensures p.Some? && p.value.Data? ==> reply && !errArmed && (|consumed| > |old(consumed)| || p.value.data != [])
      ensures errArmed && !old(errArmed) ==> Fault(log, gone, read)
    {
      hide Clip, BodyOf;
      if errArmed {
        return Some(Failed);
      }
      if file.Some? {
        if read.NotReady? {
          return Some(Pending);
        }
        if read.Got? {
          EmptyPiece(file.value, read.n);
        }
        var pumped := PumpRead(read);
        return Some(pumped);
      }
      if !reply {
        return Some(Done);
      }
      p := TakeNext(log, gone, read);
    }

    /** One poll. `log` holds the frames queued so far, `gone` says that the producer dropped its half,
        and `read` is what the file read in flight has to say. */
    method PollFrame(log: seq<Frame>, gone: bool, read: FileRead) returns (p: Poll)
      requires Valid() && Follows(log)
      modifies this
      ensures Valid() && Follows(log) && declared == old(declared)
      ensures delivered == old(delivered) + (if p.Data? then p.data else [])
      ensures old(consumed) <= consumed
      ensures p == Failed <==> old(errArmed)
      ensures p == Done <==> !reply && !errArmed
      ensures p == Done ==> CleanEnd(log, declared, delivered)
      ensures p == Pending && !errArmed ==> if file.Some? then read.NotReady? else next == |log| && staged.None? && !gone
      ensures p.Data? && old(file).Some? ==> 0 < |p.data| <= 256 * 1024
      ensures p.Data? ==> reply && !errArmed && (|consumed| > |old(consumed)| || p.data != [])
      ensures errArmed && !old(errArmed) ==> Fault(log, gone, read)
    {
      while true
        invariant Valid() && Follows(log) && declared == old(declared) && delivered == old(delivered)
        invariant old(consumed) <= consumed
        invariant errArmed == old(errArmed) && (old(file).Some? ==> consumed == old(consumed) && file == old(file))
        decreases |log| - |consumed|
      {
        var turn := Turn(log, gone, read);
        if turn.Some? {
          p := turn.value;
          break;
        }
      }
      if p.Done? {
        CleanPrefix(log);
      }
    }

    lemma CleanPrefix(log: seq<Frame>)
      requires Follows(log) && staged.None? && Ended()
      ensures CleanEnd(log, declared, delivered)
    {
      var k := |consumed| - 1;
      assert log[k] == log[..next][k];
      assert log[..k] == consumed[..k];
      assert IsCleanEndAt(log, declared, delivered, k);
    }

    /** At every moment, a failed stream included, the data handed out is the beginning of the body that the
        producer queued, in order, and no more than the head declared if the queued body is not. */
    lemma DeliveredInOrder(log: seq<Frame>)
      requires Valid() && Follows(log)
      ensures delivered <= BodyOf(log)
      ensures log != [] && log[0].Head? && log[0].contentLength.Some? && Bounded(log) ==>
                |delivered| <= log[0].contentLength.value
    {
      assert log[..|consumed|] == log[..next][..|consumed|] == consumed;
      BodyOfPrefix(log, |consumed|);
    }

    /** Frames that are queued later do not disturb what was taken. */
    lemma FollowsLater(log: seq<Frame>, later: seq<Frame>)
      requires Follows(log) && log <= later
      ensures Follows(later)
    {
      assert later[..next] == log[..next];
    }
  }
}
