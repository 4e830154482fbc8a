# Rapira, verified core

Rapira serves HTTP and gRPC from PHP threads inside one process. This project models the stateful code that
carries its promises and proves them for every input, every run and every interleaving that the model allows.

- **Responses.** `ExchangeSpec` is the response producer as a function of its state and a verb; `Exchange` is the
  object whose verbs update fields and queue frames, each proved to do what the function says; `ReplyBody` is the
  consumer that takes frames apart and pumps file slices. `Frames` says what a queued stream means, and
  `ExchangeRuns` says what every run of verbs leaves behind and `HeadLaws` what its head says and which writes go out;
  `Deliveries` that a complete response arrives whole. `Transport` plays both halves together, with verbs, polls
  and the departure of the receiver in any order. `Buffered` with `BufferedLaws` is the other producer, of the classic and worker modes.
  The receiver may leave at any moment and stays away; a fuse counts the channel operations that still find it, so
  "for every fuse" means "for every close point".
- **Intake and interpreters.** `Threads` and `PhpThread` hold one PHP thread (scoreboard slot, quota, boxes, the one
  held unit); `Intake` the body reservations; `Pool` the whole protocol as a step relation over submitters, queue
  entries and threads, with one action per step, cancellation at every wait, and what a leaving submitter owes paid one
  counter at a time; `PoolLaws` what the books say at every reachable state; `PoolRuns` what became of each submission of
  a run and in which order the queue was served; `ThreadRuns` what one generation of a thread takes.
- **Static file cache.** `CacheSpec` is the store as a value, `CacheStore` the store updated in place, `CacheTraces`
  runs of operations (the expiry shortcut against a store that always sweeps), `CacheRuns` concurrent stats and fills
  over a filesystem that changes meanwhile; `CacheBudget` counts the budget in bytes.
- **Multipart.** `MultipartSpec` tries every position, `Multipart` skips; `Form` says what the parts become,
  `MultipartLaws` that writing and splitting are inverse; `Disposition` and `DispositionParser` read parameters,
  `Boundary` finds the boundary; `FormLaws` and `ParamLaws` say what an accepted form holds and which written
  parameters come back.
- **gRPC.** `Metadata`, `MetadataLaws` and `Base64` cover the wire form and its reader; `CallSpec`, `CallRuns` and
  `GrpcCall` one call with its one outcome, and `CallLaws` which operation brings it.
- **CGI view.** `Cgi` and `CgiLaws` cover the variables that request fields become.

`dafny verify dfyconfig.toml` checks everything.

## What the proofs found

- The byte count of a response is a u64 that wraps in a release build. The frame grammar, the order of the bytes and
  the single Handled event survive a wrap (`EveryRunWellFramed`, `QueuedInOrder`, `EndToEnd`). The declared length does
  not: a run exceeds it if and only if one of its writes under a declared length, in a response with a body, makes the
  count wrap while the receiver is there (`OverflowBreaksFraming`, with such a run in `OverflowExample`).
- The cache comment promises that a changed file reaches the client after one second. A fill stamps its entry when it
  is put, so the bound is one second plus the time between its second stat and its put. `HitIsRecent` proves that for
  every run whose puts come within some d, over the recorded second stat of the very fill that put the entry. When the
  path is given another file while a fill still holds the old one open, the bound fails for the path: it is the opened
  file, not the path, that had the version (`ReplacedFileServedLate`, for every length of the gap). It holds of the path
  at every moment at which the entry is fresh if and only if some stat of the path, at that recorded second stat or
  later, shows the validators; for an entry that a stat confirmed it always does (`PathBoundHolds`).
- The coherence of the cache rests on two assumptions about the filesystem: modification time and length identify a
  version among the files a path ever names (`Identifies`), and a version that was replaced does not come back (`Steady`).
  The second is no luxury. When a version comes back with its modification time, a fill can pair its metadata with the
  bytes of the version in between, although both its stats agree (`RestoredFileIsMixedUp`).
- The buffered producer can leave the frame grammar, the dispatcher's never does. A reader finds its stream malformed if
  and only if the stream starts with an End, or output of the handler follows a bodiless head: one of a HEAD request or
  of status 204, 304 or 1xx (`RunLeavesGrammar`, with runs in `StrayExamples`). The first happens exactly when a request
  ends well before anything committed a head (`HeadlessEnd`).
- A request that fails in the buffered modes looks complete if and only if nothing counts as streamed output and every
  frame goes out (`FailureLooksComplete`): before a head as an empty 500, but behind a committed head as that head.
- The delimiter scan finds the right line for every boundary. For the round trip the boundary must hold no line feed
  (`LineFeedBreaksRoundTrip` gives one that breaks it); the linear cost is proved for such boundaries.
- A multipart part survives writing and splitting if and only if it holds no delimiter line (`SplitInvertsEncode`), and
  an unescaped quoted parameter if and only if it has no quote, no escape pair and no final backslash
  (`UnquotedSurvivesIffPlain`).
- Distinct field names get distinct CGI variables if and only if no two of them alias (`OneVariableEach`); dropping the
  unsafe names is enough for that (`NoFieldIsLost`).

## Model

| member | source | states |
|---|---|---|
| Frames.WellFramed | crates/plugins/http/src/bridge.rs:160-200 | a reader finds a stream malformed if and only if it is no prefix of Head (Chunk or File)* End with no empty body frame and none at all when bodiless, and overlong if and only if it exceeds the declared length |
| Frames.CleanEndIsExact | crates/plugins/http/src/bridge.rs:184-199 | a clean end of a stream in the grammar delivered its whole body, and exactly the declared number of bytes if and only if the stream keeps its declared length |
| Exchanges.Channel.TrySend | crates/plugins/http/src/php/respond.rs:61-70 | a send appends its frame while the receiver is there, and never again after it left |
| Exchanges.Exchange.constructor | crates/plugins/http/src/php/mod.rs:184-219 | a new exchange is open, has sent nothing and has no outcome |
| Exchanges.Exchange.IsCancelled | crates/plugins/http/src/php/respond.rs:363-368 | cancelled means discarded, or the receiver of a live sender is gone |
| Exchanges.Exchange.SendFrame | crates/plugins/http/src/php/respond.rs:61-70 | queues the frame if sender and receiver are there, and says so |
| Exchanges.Exchange.EmitHeadFrame | crates/plugins/http/src/php/respond.rs:75-105 | the head goes out once, with the declared length or the one-shot length, and counts as sent before the channel is asked |
| Exchanges.Exchange.DiscardUnit | crates/plugins/http/src/php/respond.rs:108-118 | settles once, as an error, and drops the sender |
| Exchanges.Exchange.Seal | crates/plugins/http/src/php/respond.rs:319-325 | settles once, queues End and drops the sender |
| Exchanges.Exchange.WriteHeadCore | crates/plugins/http/src/php/respond.rs:173-204 | the verb does what the specification step does, errors and interim heads included |
| Exchanges.Exchange.CutBody | crates/plugins/http/src/php/respond.rs:271-283 | a write past the declared length sends the part that fits and seals |
| Exchanges.Exchange.FinishBody | crates/plugins/http/src/php/respond.rs:289-299 | the body frame and the seal of a write within the declared length |
| Exchanges.Exchange.SendBody | crates/plugins/http/src/php/respond.rs:265-300 | the whole write, in the order head, count, frame, seal |
| Exchanges.Exchange.WriteBodyCore | crates/plugins/http/src/php/respond.rs:236-260 | the verb does what the specification step does |
| Exchanges.Exchange.SendFileCore | crates/plugins/http/src/php/sendfile.rs:81-109 | the verb does what the specification step does; past the declared length it refuses with no change |
| Exchanges.Exchange.WriteTrailersCore | crates/plugins/http/src/php/respond.rs:122-141 | the verb does what the specification step does |
| Exchanges.Exchange.FlushCore | crates/plugins/http/src/php/respond.rs:330-349 | the verb does what the specification step does |
| Exchanges.Exchange.Drop | crates/plugins/http/src/php/respond.rs:374-400 | an unsettled exchange counts once and ends truncated, or with an empty 500 when no head went out; a died cycle sends nothing |
| ExchangeSpec.SendBodyCounted | crates/plugins/http/src/php/respond.rs:271-289 | the count never passes the declared length, so the length minus the count cannot underflow |
| ExchangeRuns.OpenSliceInRange | crates/plugins/http/src/php/sendfile.rs:63-76 | the slice of a sendFile lies within the opened file |
| ExchangeRuns.CutKeeps | crates/plugins/http/src/php/respond.rs:271-283 | after a write past the declared length the stream holds exactly the declared number of accepted bytes and is complete |
| ExchangeRuns.WithinKeeps | crates/plugins/http/src/php/respond.rs:284-299 | after a write within the declared length the stream shows the accepted bytes followed by the new ones |
| ExchangeRuns.LostKeeps | crates/plugins/http/src/php/respond.rs:285-293 | when the receiver left in the middle, nothing of the write counts as accepted and no frame follows a missing head |
| ExchangeRuns.StepKeeps | crates/plugins/http/src/php/respond.rs:122-349 | every verb keeps the invariant that ties stage, count, sender, outcome and queued frames to the accepted bytes |
| ExchangeRuns.SmallOffersDoNotBreak | crates/plugins/http/src/php/respond.rs:272-289 | a run breaks no declared length before 2^64 bytes were offered |
| ExchangeRuns.DropKeeps | crates/plugins/http/src/php/respond.rs:374-400 | drop leaves exactly one Handled event, keeps the stream well-formed and never turns an unfinished body into a clean end |
| ExchangeRuns.EveryRunWellFramed | crates/plugins/http/src/php/respond.rs:75-325 | for every verb sequence, close point and drop, a wrapped count included, the queued frames obey the grammar, with at most one Handled event, and exactly one after drop |
| ExchangeRuns.QueuedInOrder | crates/plugins/http/src/php/respond.rs:265-300 | at every point of every run the queued body is a prefix of the bytes accepted from writes and slices, in order |
| ExchangeRuns.EndToEnd | crates/plugins/http/src/handler.rs:370-389 | for every run, a consumer that ends cleanly delivered exactly the accepted bytes in order; and exactly the declared number if and only if no write of the run wrapped the count under a declared length |
| ExchangeRuns.OutcomesAbsorb | crates/plugins/http/src/php/respond.rs:122-204 | after a seal every later verb reports Finalized (writeHead: HeadWritten), after a discard Discarded, and nothing changes |
| ExchangeRuns.OverflowBreaksFraming | crates/plugins/http/src/php/respond.rs:271-289 | a run keeps its declared length if and only if no write of it, under a declared length of a response with a body and with the receiver there, makes the count reach 2^64 |
| ExchangeRuns.OverflowExample | crates/plugins/http/src/php/sendfile.rs:99-108 | four slices of 2^62 bytes under a declared length of 2^64 - 1 make such a run |
| ExchangeRuns.StepTracks | crates/plugins/http/src/php/respond.rs:265-300 | a verb makes the stream overlong if and only if it is such a write, and until then the count is the number of accepted bytes |
| ExchangeRuns.RunTracks | crates/plugins/http/src/php/respond.rs:265-300 | a run ends overlong if and only if it began so or holds such a write |
| HeadLaws.UndeclaredLengthIsTrue | crates/plugins/http/src/php/respond.rs:284-299 | for every run, close point and drop in which no writeHead declared a length, a complete response that carries a length carries the number of accepted bytes, and read to its End it is a clean end with all of them |
| HeadLaws.FinishedAtOnce | crates/plugins/http/src/php/respond.rs:284-299 | a response with a body that is complete after the first verb that let anything out does carry its length |
| HeadLaws.HeadAsWritten | crates/plugins/http/src/php/respond.rs:80-104 | the head of every response is the status, the fields and the declared length of the one writeHead that counted, or 200 and no fields; and where no head went out before drop, an empty 500 |
| HeadLaws.VerbsAnswer | crates/plugins/http/src/php/respond.rs:122-349 | what every verb reports and accepts while the receiver stays, refusals and cut writes included |
| HeadLaws.EndsBy | crates/plugins/http/src/php/respond.rs:122-349 | while the receiver stays, exactly an end of stream, a write past the declared length, or trailers bring a response to its end, and only discard loses it |
| HeadLaws.DropCountsOnce | crates/plugins/http/src/php/respond.rs:374-400 | a unit whose exchange is gone counts as an error unless its response came to its end |
| HeadLaws.WholeResponse | crates/plugins/http/src/php/respond.rs:173-300 | while the receiver stays, a writeHead with any status that allows a body and the body written in any pieces give a reader that status, those fields, a true length, the pieces put together, and a clean End |
| ReplyBodies.ReadKeepsTotal | crates/plugins/http/src/bridge.rs:142-149 | a read of any length moves its bytes from what is owed to what is delivered, and nothing is owed at the end of the slice |
| ReplyBodies.ReplyBody.constructor | crates/plugins/http/src/bridge.rs:65-82 | the consumer starts behind the head with nothing delivered |
| ReplyBodies.ReplyBody.TerminalError | crates/plugins/http/src/bridge.rs:84-93 | drops reply and file, arms the error and stays pending |
| ReplyBodies.ReplyBody.PumpRead | crates/plugins/http/src/bridge.rs:109-151 | a finished read yields its bytes, at most one slice of 256 KiB, or arms the error if it failed or came up empty |
| ReplyBodies.ReplyBody.NextFrame | crates/plugins/http/src/bridge.rs:152-159 | takes the staged frame first, then the channel in order |
| ReplyBodies.ReplyBody.TakeFrame | crates/plugins/http/src/bridge.rs:160-200 | a chunk is delivered, a file opens the pump, a head is skipped, and an End is clean only if it is not truncated and not short |
| ReplyBodies.ReplyBody.Turn | crates/plugins/http/src/bridge.rs:105-201 | one turn of the loop keeps the account of delivered and owed bytes and makes progress |
| ReplyBodies.ReplyBody.PollFrame | crates/plugins/http/src/bridge.rs:100-202 | a poll delivers the next bytes in order; it ends only at a clean End; a newly armed error always has its cause |
| ReplyBodies.ReplyBody.CleanPrefix | crates/plugins/http/src/bridge.rs:184-199 | a clean end is a clean end of the channel's own stream |
| ReplyBodies.ReplyBody.DeliveredInOrder | crates/plugins/http/src/bridge.rs:105-201 | at every moment, a failed stream included, the delivered bytes are a prefix of the queued body, and no more than declared if the stream keeps its declared length |
| Deliveries.NoFault | crates/plugins/http/src/bridge.rs:105-201 | a finished stream as long as its head declares gives the consumer no reason to fail |
| Deliveries.Poll | crates/plugins/http/src/bridge.rs:100-202 | a poll of such a stream, with a file read that returns something, never fails and takes a frame, delivers a byte, or ends |
| Deliveries.Finish | crates/plugins/http/src/bridge.rs:100-202 | a transport that keeps polling gets every byte of such a stream and then its end, whatever the lengths of the file reads |
| Transports.ScheduleKeeps | crates/plugins/http/src/php/respond.rs:265-400 | whatever the order of verbs, free, polls and departure, the queued stream is faithful to what the calls accepted, and overlong if and only if a call wrapped the count |
| Transports.HalvesAgree | crates/plugins/http/src/bridge.rs:105-201 | what the consumer delivered is a prefix of what the producer accepted; a finished consumer delivered all of it, and the declared number if and only if the stream is not overlong |
| Transports.Play | crates/plugins/http/src/bridge.rs:100-202 | both objects run through any schedule of events: at every point delivered is a prefix of accepted, and a consumer that came to its end delivered exactly what was accepted |
| Transports.PlayOne | crates/plugins/http/src/bridge.rs:100-202 | each event does to the producer what the specification says, only appends to the channel, and leaves the consumer in step with it |
| Transports.PlayProducer | crates/plugins/http/src/php/respond.rs:122-400 | verbs, the end of the exchange and the departure of the receiver do to the producer what the specification says and only append to the channel |
| Transports.Open | crates/plugins/http/src/handler.rs:333-358 | the producer runs alone until its first frame is queued |
| Transports.FirstIsHead | crates/plugins/http/src/handler.rs:333-358 | the first frame that any schedule queues is the head |
| Transports.Serve | crates/plugins/http/src/handler.rs:333-398 | a whole request from its two new halves: the consumer is made when the head is out, unless the head is bodiless, and after every schedule what it delivered is a prefix of what was accepted, and all of it once it came to its end |
| BufferedReplies.FinishReads | crates/sapi/src/types.rs:248-278 | a finished response with a head reads as head, whole body and End, with the exact length unless truncated; it leaves the grammar if and only if a bodiless head is followed by output |
| BufferedReplies.RunLeavesGrammar | crates/sapi/src/types.rs:248-278 | for every event sequence and close point, a reader finds the stream malformed if and only if it starts with an End, or accepted output follows a bodiless head, that of a HEAD request or of status 204, 304 or 1xx |
| BufferedReplies.HeadlessEnd | crates/sapi/src/types.rs:248-278 | the stream starts with an End if and only if the receiver is there and the request ends without error before output or headers committed a head |
| BufferedReplies.StrayExamples | crates/sapi/src/types.rs:254-277 | a request that just ends, and a GET with output under status 204, are two such runs |
| BufferedLaws.LastStatusDecides | crates/sapi/src/types.rs:231-245 | the last Status field that is a status decides, and without one the status stays |
| BufferedLaws.HeadIsTheFirst | crates/sapi/src/callbacks.rs:156-224 | over every run the head that goes out is the one that headers, output or a failure committed first |
| BufferedLaws.EndsWhole | crates/sapi/src/types.rs:248-278 | a request whose receiver stays ends as the committed head with its length, all output in one piece, and an End that is truncated only for a failure after streamed output |
| BufferedLaws.EndsCleanly | crates/sapi/src/types.rs:248-278 | without a failure, and where the head allows a body, a client ends it cleanly under the declared length |
| BufferedLaws.OutputIsTaken | crates/sapi/src/callbacks.rs:156-203 | output within 1 GiB is taken, in order, while the receiver is there |
| BufferedLaws.CapCuts | crates/sapi/src/callbacks.rs:156-203 | output that would pass 1 GiB ends the response with what was taken before, truncated and without a length |
| BufferedReplies.BufferedEndToEnd | crates/sapi/src/callbacks.rs:156-203 | for every event sequence and close point, a clean end delivered exactly the accepted output in order, with that length declared |
| BufferedReplies.FailureIsVisible | crates/sapi/src/callbacks.rs:404-410 | an error after output began never looks like a complete response |
| BufferedReplies.FailureLooksComplete | crates/sapi/src/callbacks.rs:404-410 | a failed request ends cleanly for a client if and only if nothing counts as streamed output, every frame went out and the declared length is met; the head is then the committed one, or an empty 500 if there was none |
| BufferedReplies.RunKeeps | crates/sapi/src/types.rs:248-278 | nothing is queued before the one finish, the body is the accepted output within 1 GiB, and afterwards the log is the beginning of one finished response |
| BufferedReplies.Context.constructor | crates/sapi/src/types.rs:218-229 | a new context has no head and no output |
| BufferedReplies.Context.Commit | crates/sapi/src/types.rs:231-245 | the last Status field that is one overrides the status |
| BufferedReplies.Context.SendHeadersTo | crates/sapi/src/callbacks.rs:208-224 | the head is committed once |
| BufferedReplies.Context.FinishReply | crates/sapi/src/types.rs:248-278 | takes the sender once and queues head, body and End in order |
| BufferedReplies.Context.UbWrite | crates/sapi/src/callbacks.rs:156-203 | output is taken whole, or the request is aborted because the receiver left or the cap would be passed |
| BufferedReplies.Context.FinalizeReply | crates/sapi/src/callbacks.rs:404-410 | an error before a head was committed becomes an empty 500, after streamed output a truncated response; with a head committed and nothing streamed the response ends untruncated under that head |
| Threads.ReleaseGood | crates/sapi/src/work.rs:33-40 | reclaiming a live box counts it if it has no outcome, clears the slot that points at it and keeps the discipline |
| Threads.CycleResetGood | crates/sapi/src/exchange/mod.rs:52-67 | a reset reclaims the held unit at most once and leaves the slot empty |
| Threads.ApplyGood | crates/sapi/src/scoreboard.rs:26-57 | every step of a thread keeps single-unit discipline, exact counting, the quota and the drain signal |
| Threads.ApplyPulls | crates/sapi/src/start.rs:437-497 | only a pull that finds a unit raises the number of pulled units |
| Threads.EffectiveQuotaBounds | crates/sapi/src/start.rs:320-328 | zero stays no limit; any other quota lies between max + 1 and max + max(1, max / 2) up to saturation |
| Threads.EffectiveQuotaSpreads | crates/sapi/src/start.rs:320-328 | below saturation every quota between the bounds is the quota of some hash |
| ThreadRuns.GenerationKeepsQuota | crates/sapi/src/quota.rs:18-45 | over every generation with a quota, the units pulled and not shed are no more than the quota; it drains exactly when so many have an outcome or it was found unhealthy, and then its slot shows it |
| ThreadRuns.ErrorsAreCounted | crates/sapi/src/scoreboard.rs:26-57 | each outcome counts once, and as an error unless PHP answered without one |
| ThreadRuns.SlotTells | crates/sapi/src/start.rs:446-497 | inside a cycle a waiting thread shows idle, or draining, and one with a unit in hand active |
| PhpThreads.PhpThread.Tick | crates/sapi/src/quota.rs:26-39 | counts a handled unit against the quota and drains when it is reached |
| PhpThreads.PhpThread.SbUpdate | crates/sapi/src/scoreboard.rs:26-57 | each event's effect on slot, counters, quota and drain flag |
| PhpThreads.PhpThread.ForgetHeld | crates/sapi/src/exchange/mod.rs:46-50 | clears the slot only if it points at this unit |
| PhpThreads.PhpThread.Release | crates/sapi/src/work.rs:33-40 | reclaims a box and counts it as an error if it has no outcome |
| PhpThreads.PhpThread.ReclaimCurrent | crates/sapi/src/exchange/mod.rs:62-67 | reclaims the held unit, if there is one |
| PhpThreads.PhpThread.CycleReset | crates/sapi/src/exchange/mod.rs:52-59 | reclaims and forgets the held unit and what the cycle received |
| PhpThreads.PhpThread.Settle | crates/plugins/http/src/php/respond.rs:108-118 | an outcome is counted once |
| PhpThreads.PhpThread.Pull | crates/sapi/src/start.rs:437-497 | nothing is pulled while draining or stopping; otherwise what the intake has; the slot shows what came of it |
| PhpThreads.PhpThread.PullFrom | crates/sapi/src/start.rs:446-453 | the pull on a live intake, with the slot idle during the wait and active or draining after it |
| PhpThreads.PhpThread.Found | crates/sapi/src/start.rs:488-494 | a unit that the wait found is pulled and in hand; the slot shows active either way |
| PhpThreads.PhpThread.Admit | crates/sapi/src/exchange/receive.rs:43-56 | a unit whose client left is shed and counted, any other becomes the held one |
| PhpThreads.PhpThread.TakeUnit | crates/sapi/src/exchange/receive.rs:30-84 | the loop returns the first unit whose client is there, sheds and counts all before it, and otherwise says why there is none; the stop and closed flags may rise between any two pulls |
| PhpThreads.PhpThread.ReceiveInto | crates/sapi/src/exchange/receive.rs:11-87 | busy exactly if the held unit is unfinished and its client is there; otherwise the loop's result, with an abandoned unit counted first and the flags free to rise between pulls |
| Intakes.Budget.ReserveBody | crates/sapi/src/work.rs:157-166 | reserves min(bytes, budget) or refuses, with free plus held conserved and a refusal for room counted as shed |
| Intakes.Budget.GrowBody | crates/sapi/src/work.rs:169-175 | grows to the larger of held and needed, or refuses exactly when the missing part is not there, conserving bytes |
| Pools.LeaveInv | crates/sapi/src/work.rs:130-139 | a submitter that leaves at any wait owes its bytes and, where it has them, its slot, its pending count, the full queue it met and the shed count; leaving itself moves nothing |
| Pools.PayInv | crates/sapi/src/work.rs:130-139 | each of these is paid by a step of its own, in any order and with anything in between, and keeps the books |
| Pools.GrowInv | crates/plugins/grpc/src/serve.rs:74-86 | growing a body's reservation, or being refused, keeps the books |
| Pools.SlotNextInv | crates/sapi/src/work.rs:183-205 | arming, finding a slot and waking with one keep the books |
| Pools.SendInv | crates/sapi/src/work.rs:206-215 | sending moves slot, bytes and pending from the submitter to the queue, or back if the channel is gone |
| Pools.DequeueInv | crates/sapi/src/start.rs:74-78 | taking an entry off the queue keeps the books |
| Pools.TransitInv | crates/sapi/src/start.rs:488-492 | subtracting the pending count and freeing the bytes keep the books |
| Pools.DeliverInv | crates/sapi/src/start.rs:74-78 | handing a unit to the thread frees its slot and counts it as pulled |
| Pools.ThreadStepInv | crates/sapi/src/rapira_worker.rs:101-134 | every other action of a PHP thread, in every mode, keeps the books |
| Pools.SignalInv | crates/sapi/src/work.rs:151-154 | closing, stopping and the end of the channel keep the books |
| Pools.DestroyInv | crates/sapi/src/work.rs:56-61 | destroying the queue gives every permit back |
| Pools.InitialInv | crates/sapi/src/work.rs:142-149 | the books balance at the start |
| Pools.NextInv | crates/sapi/src/work.rs:141-216 | every step of every participant keeps the books |
| Pools.EveryRunBalances | crates/sapi/src/work.rs:141-216 | the books balance after every run of every interleaving |
| PoolRuns.FateOfASubmission | crates/sapi/src/work.rs:178-216 | over every run, a submission is marked as having met a full queue if and only if it looked for a slot while none was free, is saturated if and only if its time was up, over budget if and only if its body was more than it held and what was free, and entered if and only if it was sent in time |
| PoolRuns.StoppedExactly | crates/sapi/src/work.rs:157-216 | over every run, a submission is refused as stopped if and only if it came upon a closed budget, closed slots or a queue that is gone |
| PoolRuns.FlagsOfARun | crates/sapi/src/work.rs:151-154 | what is closed, and whether the queue lives, is what the steps of the run closed and destroyed |
| PoolRuns.FreeSlotIsTaken | crates/sapi/src/work.rs:184-195 | whoever looks for a slot, or waits for one, while one is free and the slots are open holds it afterwards |
| PoolRuns.CountersAtRest | crates/sapi/src/work.rs:130-139 | once everybody is in or gone, failed_on_full_queue is the number of submissions that found no slot and were never sent, and shed the number of those that timed out or had no room for their body |
| PoolRuns.FirstInFirstOut | crates/sapi/src/start.rs:74-78 | over every run the threads take the queued bodies in the order they were sent, and the queue holds the rest |
| PoolRuns.GrowthIsExact | crates/sapi/src/work.rs:157-175 | a reservation grows by what is missing where that is free, and otherwise the request is refused; one body reserves 64 MiB at most |
| PoolLaws.SlotsConserved | crates/sapi/src/work.rs:177-216 | free slots, slots of submitters, queue and entries on their way out make 1024, so the unbounded channel holds at most 1024 entries |
| PoolLaws.PendingExplained | crates/sapi/src/work.rs:112-139 | pending is armed submitters plus queue plus entries not yet subtracted; failed_on_full_queue counts exactly the submissions that found no slot and never entered; shed those refused for room |
| PoolLaws.PendingNeverUnderflows | crates/sapi/src/work.rs:130-139 | whatever subtracts from pending, a guard that is dropped or an entry taken off the queue, finds it positive |
| PoolLaws.BodiesWithinBudget | crates/plugins/http/src/handler.rs:286-321 | free bytes and held bytes make 64 MiB, and the bodies stored, each capped at the budget, never cost more |
| PoolLaws.UnitsCountedOnce | crates/sapi/src/exchange/receive.rs:35-55 | every sent entry is queued, on its way, in hand without an outcome, or counted exactly once; only a destroyed queue loses entries |
| PoolLaws.RestReturnsEverything | crates/sapi/src/work.rs:56-61 | a pool at rest has every permit back, nothing pending and everything handled |
| PoolLaws.EveryThreadSafe | crates/sapi/src/exchange/mod.rs:39-67 | a thread has at most one unsettled unit, the one in its slot; no reclaimed box is owned; a generation keeps its quota; a draining slot shows neither idle nor active |
| PoolLaws.EveryReachableState | crates/sapi/src/work.rs:141-216 | the conservation laws of slots, bytes, pending, failures, shed and units at every state that a run from a fresh pool reaches |
| PoolLaws.EveryReachableThread | crates/sapi/src/exchange/mod.rs:39-67 | the thread laws at every such state, quota and live slot included, and no next step subtracts from a pending count of zero |
| CacheSpec.CostRemove | crates/middleware/static_files/src/cache.rs:164-172 | the cost of the entries is the footprint of any one plus the cost of the others |
| CacheSpec.WithoutValid | crates/middleware/static_files/src/cache.rs:164-182 | removing keeps the byte count exact, and the subtraction in fits cannot underflow |
| CacheSpec.SweptValid | crates/middleware/static_files/src/cache.rs:185-198 | after a sweep the byte count is exact and next_expiry is a lower bound again |
| CacheSpec.RevalidatedValid | crates/middleware/static_files/src/cache.rs:216-225 | revalidating with any clock, an older one included, keeps next_expiry a lower bound |
| CacheSpec.InsertedValid | crates/middleware/static_files/src/cache.rs:229-243 | a put that fits keeps the budget, the byte count and the lower bound |
| CacheSpec.RoomValid | crates/middleware/static_files/src/cache.rs:203-212 | room is granted only if the body fits, and only entries of before remain |
| CacheSpec.SweepNothing | crates/middleware/static_files/src/cache.rs:207-209 | before next_expiry a sweep would change nothing |
| CacheSpec.ShortcutRefines | crates/middleware/static_files/src/cache.rs:203-212 | the shortcut gives the same answer, entries and byte count as sweeping every time |
| CacheSpec.SameSizeFits | crates/middleware/static_files/src/cache.rs:174-182 | a reload of a resident path that is no larger always fits |
| CacheSpec.RefusalKeepsFresh | crates/middleware/static_files/src/cache.rs:227-232 | a refusal leaves every fresh entry in place |
| CacheBudget.CostIsWeight | crates/middleware/static_files/src/cache.rs:170-172 | the cost of the resident entries is their body bytes, their path bytes and 256 for each |
| CacheBudget.RefusedExactlyWhenFull | crates/middleware/static_files/src/cache.rs:174-212 | room is refused if and only if the body, its path and 256 bytes, beside the fresh entries of other paths, pass 16 MiB |
| CacheBudget.PutResult | crates/middleware/static_files/src/cache.rs:229-243 | a put is refused exactly then; it leaves the new entry, fresh for one second, and every fresh entry of another path as it was |
| CacheBudget.RevalidateResult | crates/middleware/static_files/src/cache.rs:216-225 | a stat that finds the validators makes the entry fresh for one second of its clock, any other removes it, and no other entry changes |
| CacheStores.FileStore.Fresh | crates/middleware/static_files/src/cache.rs:158-162 | an entry is fresh for one second after its confirmation |
| CacheStores.FileStore.Take | crates/middleware/static_files/src/cache.rs:164-168 | removes the entry and its footprint, never below zero |
| CacheStores.FileStore.Fits | crates/middleware/static_files/src/cache.rs:176-182 | says whether the body fits in place of the path's old entry |
| CacheStores.FileStore.Retain | crates/middleware/static_files/src/cache.rs:185-195 | the loop keeps exactly the fresh entries, and finds what the others cost and the oldest time kept |
| CacheStores.FileStore.DropExpired | crates/middleware/static_files/src/cache.rs:185-198 | the sweep, with byte count and next_expiry |
| CacheStores.FileStore.MakeRoom | crates/middleware/static_files/src/cache.rs:203-212 | fits, else the shortcut, else a sweep and another look |
| CacheStores.FileStore.Revalidate | crates/middleware/static_files/src/cache.rs:216-225 | refreshes an entry that matches, removes one that does not |
| CacheStores.FileStore.Put | crates/middleware/static_files/src/cache.rs:229-243 | makes room and replaces the entry, or leaves things as they are |
| CacheTraces.RunsAgree | crates/middleware/static_files/src/cache.rs:157-244 | over every run of operations with a rising lock clock the cache answers and holds what an always-sweeping cache does |
| CacheTraces.EveryRunKeepsBudget | crates/middleware/static_files/src/cache.rs:157-244 | over every run the byte count is the cost of the resident entries and at most 16 MiB |
| CacheBudget.EveryRunBoundsBodies | crates/middleware/static_files/src/cache.rs:157-244 | over every run the byte count is the body bytes, the path bytes and 256 for each resident entry, so the bodies take 16 MiB at most |
| CacheBudget.EveryInterleavingBoundsBodies | crates/middleware/static_files/src/cache.rs:258-340 | the same for every interleaving of stats and fills |
| CacheBudget.EveryBodyIsSmall | crates/middleware/static_files/src/cache.rs:313-335 | over every interleaving no body over 256 KiB becomes resident |
| CacheRuns.ReadIsOneVersion | crates/middleware/static_files/src/cache.rs:313-332 | if both stats of a fill agree and the length is right, the bytes are one version of the file |
| CacheRuns.ConfirmCoherent | crates/middleware/static_files/src/cache.rs:258-272 | a stat that finds the entry's validators confirms bytes and metadata together, although its clock is older |
| CacheRuns.PutCoherent | crates/middleware/static_files/src/cache.rs:334-335 | putting an entry that its fill vouches for keeps every entry vouched for by its recorded origin |
| CacheRuns.ActsInv | crates/middleware/static_files/src/cache.rs:258-340 | every atomic action of every stat and fill keeps budget and coherence |
| CacheRuns.EveryRunCoherent | crates/middleware/static_files/src/cache.rs:258-340 | after every interleaving every resident body and metadata are one version of the path's file |
| CacheRuns.HitIsRecent | crates/middleware/static_files/src/cache.rs:274-281 | from an empty cache, when each put comes at most d after the second stat of its fill, a hit serves a version that was seen less than one second plus d ago: by the stat that confirmed it, or in the file that its own fill opened at the path |
| CacheRuns.EveryPromptRun | crates/middleware/static_files/src/cache.rs:274-335 | over every such run the store stays coherent and every recorded gap stays within d |
| CacheRuns.PathHadItToo | crates/middleware/static_files/src/cache.rs:274-281 | at the recorded moment the path itself had the version if and only if a stat of the path then shows the validators |
| CacheRuns.PathBoundHolds | crates/middleware/static_files/src/cache.rs:274-281 | at every moment at which an entry is fresh the path had its version less than one second plus the gap ago, if and only if some stat of the path at the recorded moment or later shows the validators; always for an entry that a stat confirmed |
| CacheRuns.ReplacedFileServedLate | crates/middleware/static_files/src/cache.rs:290-335 | for every gap d, a run with puts within d and a hit whose version the path lost longer ago than one second plus d |
| CacheRuns.RestoredFileIsMixedUp | crates/middleware/static_files/src/cache.rs:313-332 | where a replaced version comes back with its modification time, a run leaves an entry whose bytes and metadata never went together |
| MultipartSpec.NextFound | crates/plugins/http/src/multipart.rs:137-186 | the first qualifying line start is the answer |
| Multiparts.Judge | crates/plugins/http/src/multipart.rs:144-176 | the two padding scans accept a line exactly if it is a delimiter or close-delimiter line, and look at few bytes |
| Multiparts.NextDelimiter | crates/plugins/http/src/multipart.rs:137-186 | the skip-scan returns what trying every position returns, for every boundary, at no more than four steps for each byte passed |
| Multiparts.ReadHeaders | crates/plugins/http/src/multipart.rs:324-337 | finds the one content-disposition, refuses a second, and keeps the first content-type, in time linear in the header section |
| Multiparts.ParsePart | crates/plugins/http/src/multipart.rs:306-385 | a part becomes a field or a file, or is refused for the stated reason, in the stated order, in time linear in the part |
| MultipartSpec.PartEnd | crates/plugins/http/src/multipart.rs:215-222 | what a delimiter line takes off the part before it is one line ending, with its carriage return if it has one, or nothing where no line ended |
| Multiparts.Parse | crates/plugins/http/src/multipart.rs:190-229 | the parse loop computes the form of the body, and for a boundary without line feed the whole parse, delimiter searches, header reading and disposition parameters, takes at most thirteen steps for each byte of the body |
| Forms.FormIsFold | crates/plugins/http/src/multipart.rs:208-228 | a body is accepted exactly if it splits into parts and the parts, added one by one, are |
| Forms.AddAllKeepsLimits | crates/plugins/http/src/multipart.rs:350-384 | an accepted form keeps every limit, names every entry and has one entry for each part |
| FormLaws.FormHoldsItsParts | crates/plugins/http/src/multipart.rs:308-385 | the fields and files of an accepted part list are its parts in order, each with the content and headers of its part and the name its one content-disposition reads; a file exactly if a filename was read, with that filename and the first content-type if it says something |
| FormLaws.AcceptedBodyHoldsItsParts | crates/plugins/http/src/multipart.rs:190-229 | an accepted body splits, and its form holds its parts in this sense |
| FormLaws.TakenExactly | crates/plugins/http/src/multipart.rs:350-384 | a part is taken if and only if it names itself and is not too long and, as a file, finds room and can be stored; the reasons for a refusal |
| FormLaws.AcceptedExactly | crates/plugins/http/src/multipart.rs:208-228 | a part list is accepted if and only if no limit is passed, every part can be taken and every file can be stored |
| MultipartLaws.WindowDelimiter | crates/plugins/http/src/multipart.rs:144-176 | whether a line is a delimiter line is settled within the lines around it |
| MultipartLaws.PaddedDelimiter | crates/plugins/http/src/multipart.rs:150-176 | at the start of a line a delimiter, any spaces and tabs, and a line ending with or without carriage return are a delimiter line, and the part begins behind it |
| MultipartLaws.PaddedClose | crates/plugins/http/src/multipart.rs:150-176 | the same for a close-delimiter, which may also end with the body |
| MultipartLaws.SplitInvertsEncode | crates/plugins/http/src/multipart.rs:190-229 | for all part lists: writing and splitting gives the parts back if and only if no part followed by a line ending holds a delimiter line |
| MultipartLaws.LineFeedBreaksRoundTrip | crates/plugins/http/src/multipart.rs:102-128 | with a boundary that holds a line feed a clean part is not read back |
| MultipartLaws.FormRoundTrip | crates/plugins/http/src/multipart.rs:190-229 | clean parts are parsed as they were written |
| FormLaws.WrittenItemsComeBack | crates/plugins/http/src/multipart.rs:190-229 | fields and files written into clean parts behind their headers come out of the written body as these very fields and files |
| Boundaries.FindBoundary | crates/plugins/http/src/multipart.rs:102-128 | the loop finds the first boundary parameter, quoted or not, and refuses what the specification refuses |
| Boundaries.BoundaryMakesDelimiter | crates/plugins/http/src/multipart.rs:102-128 | a boundary taken from a header value meets what the round trip asks of a delimiter |
| ParamLaws.FirstBoundaryDecides | crates/plugins/http/src/multipart.rs:102-128 | the first segment called boundary decides, whatever stands before and behind it |
| ParamLaws.QuotedBoundary | crates/plugins/http/src/multipart.rs:110-115 | a quoted boundary is read back if and only if it is not empty and holds neither a quote nor a semicolon |
| ParamLaws.BareBoundary | crates/plugins/http/src/multipart.rs:116-121 | one without quotes if and only if it is not empty, has no space at its ends, holds neither comma nor semicolon and does not begin with a quote |
| Dispositions.UnquoteUndoesQuote | crates/plugins/http/src/multipart.rs:251-270 | a value quoted with a backslash before every backslash and quote is read back, whatever its bytes |
| Dispositions.UnquotedSurvivesIffPlain | crates/plugins/http/src/multipart.rs:258-263 | an unescaped value is read back if and only if it has no quote, no escape pair and no final backslash |
| Dispositions.ParamsUndoFormat | crates/plugins/http/src/multipart.rs:238-296 | a written parameter list is read back in order |
| Dispositions.NameAndFilenameRoundTrip | crates/plugins/http/src/multipart.rs:238-296 | name and filename survive for all byte strings, with and without a filename |
| ParamLaws.BareSurvivesIff | crates/plugins/http/src/multipart.rs:264-275 | a value without quotes is read back if and only if it holds no semicolon, has no space at its ends and does not begin with a quote |
| ParamLaws.WrittenDisposition | crates/plugins/http/src/multipart.rs:276-296 | a written parameter list is refused if and only if a name or a filename comes twice, in whatever case, and otherwise read with the values of the one name and the one filename |
| ParamLaws.OpenQuoteRefuses | crates/plugins/http/src/multipart.rs:251-270 | a quote that stays open refuses the disposition |
| DispositionParsers.ReadQuoted | crates/plugins/http/src/multipart.rs:251-270 | the unquoting loop stops at the closing quote with the unescaped value, or reports that there is none |
| DispositionParsers.ReadValue | crates/plugins/http/src/multipart.rs:247-275 | one value, quoted or up to the semicolon, and where it ends |
| DispositionParsers.ReadParam | crates/plugins/http/src/multipart.rs:242-294 | one parameter is taken and the position moves forward |
| DispositionParsers.Assign | crates/plugins/http/src/multipart.rs:276-291 | name and filename are filled once; a second value is refused |
| DispositionParsers.DispositionParams | crates/plugins/http/src/multipart.rs:238-296 | the parser ends on every input with what the specification says, refused if a quote stays open or a key comes twice, in at most five steps for each byte |
| Base64.UndigitsUndoesDigits | crates/plugins/grpc/src/php/call.rs:171-172 | bytes regrouped into six-bit digits come back |
| Base64.PaddingIsTaken | crates/plugins/grpc/src/php/call.rs:91-95 | padding is recognised at the end of the last group, present or absent |
| Base64.DecodeUndoesEncode | crates/plugins/grpc/src/php/call.rs:91-95 | an encoded value is decoded with and without padding (section 4 of RFC 4648) |
| Base64.DecodeIsCanonical | crates/plugins/grpc/src/php/call.rs:91-95 | padding aside, only the encoded text decodes to a value |
| Base64.StandardAlphabet | crates/plugins/grpc/src/php/call.rs:91-95 | the alphabet is A to Z, a to z, 0 to 9, plus and slash, in this order |
| Base64.KnownVectors | crates/plugins/grpc/src/php/call.rs:91-95 | test vectors of section 10 of RFC 4648 |
| MetadataLaws.CheckedName | crates/plugins/grpc/src/php/call.rs:284-319 | an entry that passes the checks has a lower-case metadata name the transport does not own, and a value of its kind |
| MetadataLaws.AppendKeepsHalf | crates/plugins/grpc/src/php/call.rs:332-338 | adding an entry keeps each name once and each group legal |
| MetadataLaws.WireKeepsGroups | crates/plugins/grpc/src/php/call.rs:166-183 | the wire form holds each group once with its values in order |
| MetadataLaws.WireValueIsLegal | crates/plugins/grpc/src/php/call.rs:171-179 | every wire value is a legal header value without edge spaces, so the conversion cannot fail |
| MetadataLaws.MetadataRoundTrip | crates/plugins/grpc/src/php/call.rs:127-183 | reading the wire form of a half gives the same names and values in order, text trimmed and binary identical |
| MetadataLaws.JoinedValuesAreRead | crates/plugins/grpc/src/php/call.rs:145-152 | binary values joined by commas on one line, padded or not, are read one by one |
| GrpcCalls.AppendField | crates/plugins/grpc/src/php/call.rs:332-338 | the search pushes to the name's group or opens one at the end |
| GrpcCalls.WireForm | crates/plugins/grpc/src/php/call.rs:166-183 | the two loops build the wire form |
| GrpcCalls.ReadPieces | crates/plugins/grpc/src/php/call.rs:145-152 | the pieces of a line are decoded in order and undecodable ones dropped |
| GrpcCalls.ReadMetadata | crates/plugins/grpc/src/php/call.rs:127-162 | the loops read the metadata: reserved names skipped, unreadable values dropped, empty keys absent |
| GrpcCalls.GrpcState.constructor | crates/plugins/grpc/src/php/call.rs:205-215 | a new call is open and empty |
| GrpcCalls.GrpcState.Discard | crates/plugins/grpc/src/php/call.rs:264-271 | discards once and counts once |
| GrpcCalls.GrpcState.AddCore | crates/plugins/grpc/src/php/call.rs:284-340 | the entry is judged before the state, and added to its half only if both allow it |
| GrpcCalls.GrpcState.Finish | crates/plugins/grpc/src/php/call.rs:343-365 | one outcome with both halves on the wire, or the reason there is none, also when the receiver leaves in between |
| GrpcCalls.GrpcState.Free | crates/plugins/grpc/src/php/call.rs:671-677 | freeing an unsettled call counts it |
| CallRuns.OneOutcome | crates/plugins/grpc/src/php/call.rs:253-272 | over every run, freeing the call leaves exactly one Handled event and at most one reply, and the event is an error exactly if no reply went out |
| CallRuns.SettledAbsorbs | crates/plugins/grpc/src/php/call.rs:284-365 | a settled call stays as it is and reports its state; bad entries are still reported as bad |
| CallRuns.ReplyCarriesWhatWasAdded | crates/plugins/grpc/src/php/call.rs:343-355 | over every run, what the client reads from a reply is what the call accepted before it, half by half |
| CallRuns.GroupingKeepsOrder | crates/plugins/grpc/src/php/call.rs:332-338 | grouping keeps every value under its name in the order it was added |
| CallLaws.ReplyCarriesTheResult | crates/plugins/grpc/src/php/call.rs:343-365 | over every run there is a reply if and only if some finish was told it was done, never a second one, and it carries the result of that finish |
| CallLaws.FinishGoesOut | crates/plugins/grpc/src/php/call.rs:343-365 | a finish goes out if and only if no outcome came before it and the receiver neither left before nor leaves meanwhile |
| CallLaws.AddIsTaken | crates/plugins/grpc/src/php/call.rs:284-340 | an entry is taken if and only if nothing is wrong with it and no outcome came before |
| CallLaws.CheckIsExact | crates/plugins/grpc/src/php/call.rs:284-319 | what makes an entry acceptable, byte by byte |
| CallLaws.TransportKeepsItsOwn | crates/plugins/grpc/src/php/call.rs:97-125 | no entry of a handler is taken under a name of gRPC, of framing and content, or of the connection |
| Cgi.JoinedField | crates/sapi/src/callbacks.rs:95-113 | repeated lines join on the field's separator; a singleton keeps its first line |
| Cgi.DropUnsafeNames | crates/plugins/http/src/check.rs:48-58 | exactly the fields with safe names stay |
| Cgi.CgiHeaderVars | crates/sapi/src/callbacks.rs:135-151 | registration in order, the content length first |
| Cgi.SafeNamesDiffer | crates/sapi/src/callbacks.rs:118-130 | two safe names share a variable only if they are the same name |
| Cgi.OneVariableEach | crates/sapi/src/callbacks.rs:132-151 | each field gets a variable of its own if and only if no two names alias |
| Cgi.NoFieldIsLost | crates/plugins/http/src/check.rs:29-58 | after the unsafe names are dropped every field has its variable with its joined value, and the content length stays (section 4.1.18 of RFC 3875) |
| CgiLaws.VariableName | crates/sapi/src/callbacks.rs:118-130 | a variable is HTTP_ and the name in upper case with underscores for dashes |
| CgiLaws.ValueKeepsLines | crates/sapi/src/callbacks.rs:95-113 | a field that stands alone holds its first line; the lines of any other come apart again where they were joined, cookies on semicolons and the rest on commas |

## Left out

- Zend, C shells, bindgen values, exceptions and class registration: a bailout is only "the object was never freed" or a died cycle.
- Rust panics and the paths that catch them: the accounting laws are about runs without them.
- The drain task behind a dropped reply body, its flush watermark, TimedIo, header timeouts and drain grace: the consumer is modelled up to its last poll.
- The handler's staging of a short reply and its own refusals (timeouts, sizes, a 502 for a status it cannot forward): the consumer takes a staged frame as given.
- Header parsing: content-length lines arrive parsed, the header section of a part is a given function from bytes to lines and content, and framing fields are already split from a head.
- File system effects: opening and path checks of sendFile give the file or nothing; a spool write succeeds or not; unlinking spool files is not modelled. For the cache the filesystem is a history of versions per file and of files per path.
- Configuration, logging, metrics text, authentication tokens, descriptor loading and JSON transcoding: thin or easy claims.
- The gRPC shed path and the request context other than its metadata: one constant reply and plain copies.
- HeaderMap capacity: a map with more than its maximum of entries panics when one is appended; here it only grows. Its insertion order is taken as iteration order.
- Substring and byte search (memmem, memchr) and base64 are modelled by what they return, and each search counts one step for each byte it passes; the library's own cost is not part of the model. The header parser is a given function too: the step count takes it as one pass over its part, whose lines and content it cuts from the part.
- Usize conversions: lengths are naturals below 2^63 where the operating system guarantees it, and the u64 byte count of a response wraps as in a release build.
- Pools.EveryRunBalances: a queue slot is granted to any waiter, so the semaphore's first-come order is not modelled; and a leaving submitter may pay its counters in any order, of which the program's own is one.
- Pools.DestroyInv: the destruction of the queue gives back the permits of all its entries in one step; the program drops them one after the other.
- CacheRuns.HitIsRecent: time is a natural number of nanoseconds; a clock that stands still between two reads is allowed.
- MultipartLaws.SplitInvertsEncode: the writer uses CRLF and no padding; other spellings that the parser accepts are covered by the delimiter specification, not by the round trip.
