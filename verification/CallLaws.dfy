/** Which operation of a gRPC call takes effect, told from the operations alone; and the result that goes out. */
module CallLaws {
  import opened Basics
  import opened CallRuns
  import opened CallSpec
  import opened Metadata
  import opened Text

  /** What an operation of the run reported. */
  function Verdict(ops: seq<Op>, k: nat): Verb
    requires k < |ops|
  {
    Step(Run(ops[..k]), ops[k]).1
  }

  /** No operation before the k-th brought an outcome. */
  predicate Open(ops: seq<Op>, k: nat)
    requires k <= |ops|
  {
    forall j | 0 <= j < k :: !ops[j].Finish? && !ops[j].Discard?
  }

  /** The other end still waited before the k-th operation. */
  predicate Awaited(ops: seq<Op>, k: nat)
    requires k <= |ops|
  {
    forall j | 0 <= j < k :: !ops[j].Leave?
  }

  lemma RunNext(ops: seq<Op>, k: nat)
    requires k < |ops|
    ensures Run(ops[..k + 1]) == Step(Run(ops[..k]), ops[k]).0
  {
    assert ops[..k + 1][..k] == ops[..k];
  }

  /** The state of a call, read off its operations: open until one brings an outcome, and left once the receiver is. */
  lemma {:induction false} OpenUntilOutcome(ops: seq<Op>, k: nat)
    requires k <= |ops|
    ensures Run(ops[..k]).open <==> Open(ops, k)
    ensures Run(ops[..k]).open ==> (Run(ops[..k]).gone <==> !Awaited(ops, k))
    ensures Run(ops[..k]).open ==> !Run(ops[..k]).discarded && Run(ops[..k]).sent == []
    decreases k
  {
    if k > 0 {
      OpenUntilOutcome(ops, k - 1);
      RunNext(ops, k - 1);
      RunKeeps(ops[..k - 1]);
      assert Open(ops, k) <==> Open(ops, k - 1) && !ops[k - 1].Finish? && !ops[k - 1].Discard?;
      assert Awaited(ops, k) <==> Awaited(ops, k - 1) && !ops[k - 1].Leave?;
    }
  }

  /** A result goes out exactly if it is the first outcome, nobody has left before, and nobody leaves meanwhile. */
  lemma FinishGoesOut(ops: seq<Op>, k: nat)
    requires k < |ops| && ops[k].Finish?
    ensures Verdict(ops, k) == Done <==> Open(ops, k) && Awaited(ops, k) && !ops[k].leaves
  {
    OpenUntilOutcome(ops, k);
    RunKeeps(ops[..k]);
  }

  /** An entry is taken exactly if nothing is wrong with it and no outcome came before. */
  lemma AddIsTaken(ops: seq<Op>, k: nat)
    requires k < |ops| && ops[k].Add?
    ensures Verdict(ops, k) == Done <==> Open(ops, k) && Check(ops[k].binary, ops[k].name, ops[k].value).None?
  {
    OpenUntilOutcome(ops, k);
  }

  /** The operation that put the reply out. */
  predicate Answered(ops: seq<Op>, k: int)
  {
    0 <= k < |ops| && ops[k].Finish? && Verdict(ops, k) == Done
  }

  lemma {:induction false} SentStays(ops: seq<Op>, k: nat, n: nat)
    requires k <= n <= |ops| && !Run(ops[..k]).open
    ensures !Run(ops[..n]).open && Run(ops[..n]).sent == Run(ops[..k]).sent
    decreases n
  {
    hide Wire, Append, Check;
    if k < n {
      SentStays(ops, k, n - 1);
      RunNext(ops, n - 1);
    }
  }

  lemma AnswerSends(ops: seq<Op>, k: nat)
    requires Answered(ops, k)
    ensures |Run(ops[..k + 1]).sent| == 1 && Run(ops[..k + 1]).sent[0].result == ops[k].result && !Run(ops[..k + 1]).open
  {
    RunNext(ops, k);
    FinishGoesOut(ops, k);
    OpenUntilOutcome(ops, k);
  }

  lemma {:induction false} SentWasAnswered(ops: seq<Op>, n: nat) returns (k: nat)
    requires n <= |ops| && |Run(ops[..n]).sent| > 0
    ensures k < n && Answered(ops, k)
    decreases n
  {
    RunNext(ops, n - 1);
    if |Run(ops[..n - 1]).sent| > 0 {
      k := SentWasAnswered(ops, n - 1);
    } else {
      k := n - 1;
    }
  }

  /** The reply of a run carries the result of the one Finish that was told Done: there is a reply exactly if there
      is such an operation, and never a second one. */
  lemma ReplyCarriesTheResult(ops: seq<Op>)
    ensures |Run(ops).sent| <= 1
    ensures |Run(ops).sent| == 1 <==> exists k :: Answered(ops, k)
    ensures forall k | Answered(ops, k) :: Run(ops).sent[0].result == ops[k].result
    ensures forall j, k | Answered(ops, j) && Answered(ops, k) :: j == k
  {
    RunKeeps(ops);
    assert ops[..|ops|] == ops;
    if |Run(ops).sent| > 0 {
      var k := SentWasAnswered(ops, |ops|);
    }
    forall k | Answered(ops, k) ensures |Run(ops).sent| == 1 && Run(ops).sent[0].result == ops[k].result {
      AnswerSends(ops, k);
      SentStays(ops, k + 1, |ops|);
    }
    forall j, k | Answered(ops, j) && Answered(ops, k) ensures j == k {
      FinishGoesOut(ops, j);
      FinishGoesOut(ops, k);
    }
  }

  /** What is wrong with an entry, and nothing else is: its name, in lower case, is one to 65535 of 0-9 a-z _ - . and
      not the transport's; it ends in "-bin" exactly when the entry is binary; and a text value is printable. */
  lemma CheckIsExact(binary: bool, name: Bytes, value: Bytes)
    ensures Check(binary, name, value).None? <==>
              && 0 < |name| <= 65535
              && (forall i | 0 <= i < |name| :: MetadataByte(LowerByte(name[i])))
              && !Reserved(Lower(name)) && binary == Binary(Lower(name))
              && (binary || forall i | 0 <= i < |value| :: 32 <= value[i] <= 126)
  {
    var lower := Lower(name);
    forall i | 0 <= i < |name| && MetadataByte(LowerByte(name[i])) ensures TokenByte(name[i]) {
    }
    if HeaderName(name).Some? {
      assert (exists i | 0 <= i < |lower| :: !MetadataByte(lower[i])) <==>
             !(forall i | 0 <= i < |name| :: MetadataByte(LowerByte(name[i])));
    }
  }

  /** No entry of a handler can stand in for a field of the transport: gRPC's own, the framing and content fields, and
      the fields of one connection (section 7.6.1 of RFC 9110). */
  lemma TransportKeepsItsOwn(binary: bool, name: Bytes, value: Bytes)
    requires || Lower(name) in {Ascii("connection"), Ascii("keep-alive"), Ascii("proxy-connection"), Ascii("te"),
                                Ascii("trailer"), Ascii("transfer-encoding"), Ascii("upgrade"), Ascii("host")}
             || Ascii("grpc-") <= Lower(name) || Ascii("content-") <= Lower(name) || Ascii("connect-") <= Lower(name)
    ensures Check(binary, name, value).Some?
  {
    var low := Lower(name);
    if Ascii("grpc-") <= low || Ascii("content-") <= low || Ascii("connect-") <= low {
      assert PREFIXES[0] == Ascii("grpc-") && PREFIXES[1] == Ascii("connect-") && PREFIXES[2] == Ascii("content-");
      assert Ascii("grpc-") in PREFIXES && Ascii("connect-") in PREFIXES && Ascii("content-") in PREFIXES;
    } else {
      var k := if low == Ascii("te") then 0 else if low == Ascii("trailer") then 1 else if low == Ascii("connection") then 2
               else if low == Ascii("keep-alive") then 3 else if low == Ascii("proxy-connection") then 4
               else if low == Ascii("transfer-encoding") then 5 else if low == Ascii("upgrade") then 6 else 7;
      assert NAMES[k] == low;
    }
    CheckIsExact(binary, name, value);
  }
}
