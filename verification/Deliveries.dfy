/** A transport that keeps asking: every complete response arrives whole. */
module Deliveries {
  import opened Basics
  import opened Frames
  import opened ReplyBodies

  /** A finished stream that is at least as long as its head declares. */
  predicate Whole(log: seq<Frame>)
  {
    && Grammar(log) && log != [] && log[|log| - 1] == End(false)
    && (log[0].contentLength.Some? ==> |BodyOf(log)| >= log[0].contentLength.value)
  }

  lemma CompleteIsWhole(log: seq<Frame>)
    requires Read(log).Complete? && !Read(log).truncated
    requires Read(log).start.contentLength.Some? ==> |Read(log).body| >= Read(log).start.contentLength.value
    ensures Whole(log) && BodyOf(log) == Read(log).body
  {
    hide Read;
    WellFramed(log);
  }

  /** A whole stream gives a consumer that came through no reason to fail, and it ends with its last frame. */
  lemma NoFault(body: ReplyBody, log: seq<Frame>, gone: bool, n: nat)
    requires Whole(log) && body.Valid() && body.Follows(log) && n > 0
    requires body.declared == log[0].contentLength
    ensures !body.Fault(log, gone, Got(n))
  {
    var k := |body.consumed| - 1;
    assert body.consumed[k] == log[..body.next][k] == log[k];
    if body.consumed[k].End? {
      assert k == |log| - 1;
      assert body.consumed == log[..body.next][..k + 1] == log;
    } else if body.staged.None? && body.next == |log| {
      assert false;
    }
  }

  lemma NothingLeft(body: ReplyBody, log: seq<Frame>)
    requires Whole(log) && body.Valid() && body.Follows(log) && body.reply
    ensures |body.consumed| < |log|
  {
    assert body.consumed == log[..body.next][..|body.consumed|] == log[..|body.consumed|];
  }

  lemma DoneDelivered(body: ReplyBody, log: seq<Frame>)
    requires Whole(log) && body.Valid() && body.Follows(log) && !body.reply && !body.errArmed
    requires body.declared == log[0].contentLength
    ensures body.delivered == BodyOf(log)
  {
    body.CleanPrefix(log);
    CleanEndIsExact(log, body.declared, body.delivered);
    WellFramed(log);
  }

  /** One poll of a whole stream never fails, and gets on: a frame, a byte, or the end. */
  method Poll(body: ReplyBody, log: seq<Frame>, gone: bool, n: nat)
    requires Whole(log) && body.Valid() && body.Follows(log) && body.reply && body.declared == log[0].contentLength
    requires n > 0
    modifies body
    ensures body.Valid() && body.Follows(log) && !body.errArmed && body.declared == old(body.declared)
    ensures |body.delivered| <= |BodyOf(log)|
    ensures body.reply ==> |old(body.consumed)| <= |body.consumed| < |log|
    ensures body.reply && |body.consumed| == |old(body.consumed)| ==> |body.delivered| > |old(body.delivered)|
  {
    hide Whole, BodyOf;
    NothingLeft(body, log);
    ghost var taken, got := body.consumed, body.delivered;
    var p := body.PollFrame(log, gone, Got(n));
    WholeHead(log);
    NoFault(body, log, gone, n);
    body.DeliveredInOrder(log);
    if body.reply {
      NothingLeft(body, log);
    }
  }

  lemma WholeHead(log: seq<Frame>)
    requires Whole(log)
    ensures log != [] && log[0].Head?
  {
  }

  /** Polls until the body has ended, with file reads that each return something, of whatever length. Whenever it
      starts, on a consumer that has not failed, it ends with every byte of the response delivered. */
  method Finish(body: ReplyBody, log: seq<Frame>, gone: bool, sizes: nat -> nat)
    requires Whole(log) && body.Valid() && body.Follows(log) && !body.errArmed && body.declared == log[0].contentLength
    requires forall k: nat :: sizes(k) > 0
    modifies body
    ensures body.Valid() && body.Follows(log) && !body.reply && !body.errArmed
    ensures body.delivered == BodyOf(log)
  {
    hide Whole, BodyOf, ReplyBody.Valid, ReplyBody.Follows;
    var polls := 0;
    if body.reply {
      NothingLeft(body, log);
      body.DeliveredInOrder(log);
    }
    while body.reply
      invariant body.Valid() && body.Follows(log) && !body.errArmed && body.declared == old(body.declared)
      invariant body.reply ==> |body.consumed| < |log| && |body.delivered| <= |BodyOf(log)|
      decreases body.reply, if body.reply then |log| - |body.consumed| else 0,
                if body.reply then |BodyOf(log)| - |body.delivered| else 0
    {
      Poll(body, log, gone, sizes(polls));
      polls := polls + 1;
    }
    DoneDelivered(body, log);
  }
}
