# GoRPC, modelled and proved in Dafny

GoRPC multiplexes calls and streams over one connection. This project models the parts of it
whose correctness depends on several functions, several goroutines or two ends at once, and
proves what they promise for every input, every run and every reachable state.

Each stateful component appears at two levels. The state module gives every critical section as
a function of the lock-protected fields. The object module holds a class with those fields, whose
methods update them in place and are proved equal to the functions. On top of the functions stand
step systems: a `Step` datatype, `Enabled`, `Apply`, and a run as any sequence of enabled steps, so
a theorem about runs is a theorem about every interleaving of goroutines. Cancellation, timeouts,
link loss and failing writes are steps that may happen at any moment.

| file | component | main theorems |
|---|---|---|
| `StreamState.dfy` | critical sections of `stream.go` and `stream_flow.go` | |
| `CreditProtocol.dfy` | one item direction: two streams, a FIFO wire each way, any number of `Recv` callers | conservation, no overflow, no lost wakeup, no stuck sender, order, completeness at EOF |
| `StreamObject.dfy` | the `Stream` object with 64-bit counters, against any peer | bounds for arbitrary frames, no wrap-around, the retry loop of `takeCredit` |
| `HalfClose.dfy` | half-close and termination, three stream kinds, two roles | each channel closed once, first cause kept, the second end finishes |
| `FinalResponse.dfy` | `CloseAndRecv` against reader, sweep, `CloseSend` and `finish` | exactly when the final response is not lost |
| `MessagePack.dfy` | the iterative validator and the recursive grammar | exact acceptance, exact prefix and suffix verdicts |
| `PeerState.dfy`, `PeerObject.dfy` | one peer relationship | state invariant, no client dropped, exactly when a linkless peer dials |
| `PeerNetwork.dfy` | two peers dialling each other | agreement on one socket |
| `ClientTables.dfy`, `ClientObject.dfy` | pending calls, tracked requests and streams across reconnects | each entry leaves once, no stale entry survives, generation-safe cleanup, loss always ends |
| `Framing.dfy` | length-prefixed frames with limits and compression | exact read-back, stream round trip, gzip |
| `Handshake.dfy` | signed transcript and both handshake scripts | injective transcript, agreement |
| `Bytes.dfy` | octets and big-endian integers | |

Three things one might expect of the code do not hold. Each has a run that shows it and the exact
condition under which it does hold.

- `Recv` can report EOF past a queued item, although its comment (stream.go:205-206) puts EOF after
  all of them: `CreditProtocol.EarlyEOFLosesItem` is the run, `CreditProtocol.EOFIsComplete` the exact
  condition, and `CreditProtocol.UncancelledEOFIsComplete` what a caller can rely on: without a cancelled
  context every EOF is complete.
- A leased peer without a link need not be dialling: `PeerState.CancelledDialIsNotRetried` is the run, and
  `PeerState.LinklessPeerDials` and `PeerState.OnlyFailedDialIdles` say exactly when it is.
- A final response that the reader has taken out of the pending table can be lost if the context is
  cancelled before the response reaches its channel: `FinalResponse.TakenResponseCanBeLost` is the run, and
  `FinalResponse.FinalResponseIsNotLost` the exact condition.

## Model

| member | source | states |
|---|---|---|
| `CreditProtocol.CreditIsConserved` | stream_flow.go:35-117 | In every reachable state of an open direction, sender credit + items being written, on the wire, queued, in a `Recv` caller's hands + batched returns + window frames unwritten or on the wire equals the initial window, for items and for bytes. |
| `CreditProtocol.EndsNeverFailEachOther` | stream.go:315-333 | Between conforming ends no arriving item takes the overflow branch and no arriving grant is rejected, now or earlier in any run. |
| `CreditProtocol.ItemFits` | stream.go:321-331 | An arriving item fits both the byte limit and the queue, because it was paid for. |
| `CreditProtocol.GrantFits` | stream_flow.go:69-78 | An arriving grant is nonempty and never lifts the sender above its first grant. |
| `CreditProtocol.NoLostWakeup` | stream_flow.go:80-115 | A sender in the select whose next pass would not wait finds a token, a closed `sendDone` or a done context. |
| `CreditProtocol.NoStuckSender` | stream_flow.go:44-56 | A sender blocked on an item within the byte window can be woken, or some delivery, receive, return, window write or accept is enabled, or the abort after a failed window write. |
| `CreditProtocol.DrainStep` | stream_flow.go:35-86 | Each such draining step strictly lowers a measure and leaves the sender where it waits. |
| `CreditProtocol.DrainedIsFull` | stream_flow.go:44-48 | With nothing left to drain the sender holds the whole window again, so no credit is stranded in a batch. |
| `CreditProtocol.DrainingEnds` | stream_flow.go:35-117 | Every run of draining steps is shorter than the measure, and when none is enabled full credit is restored. |
| `CreditProtocol.WorkNeverGrows` | stream_flow.go:35-117 | While the sender waits no step of anyone raises the measure. |
| `CreditProtocol.WaitingRunDrains` | stream_flow.go:88-117 | In every run in which the sender keeps waiting, whatever is interleaved, the draining steps are bounded by the measure. |
| `CreditProtocol.SenderCanProceed` | stream_flow.go:88-117 | From every stalled state some run of draining steps wakes the sender with enough credit for its item. |
| `CreditProtocol.ItemsArriveInOrder` | stream.go:167-288 | The items received are a prefix of those sent, nothing follows the end frame, and after it nothing more can be written. |
| `CreditProtocol.EOFIsComplete` | stream.go:207-240 | With EOF as the receive error, every sent item was received if and only if the queue is empty; a `Recv` that found it empty after `recvDone` closed always meets that. |
| `CreditProtocol.UncancelledEOFIsComplete` | stream.go:207-240 | In every run in which the receiver's context is not cancelled and nobody closes it with `io.EOF`, whenever `Recv` is about to report EOF all sent items were received. |
| `CreditProtocol.EarlyEOFLosesItem` | stream.go:229-239 | A reachable state in which a `Recv` woken by its context before `recvDone` closed reports EOF while an item is queued. |
| `CreditProtocol.StepKeeps` | stream.go:167-375 | Each of the 22 steps keeps the global invariant: accounting, termination flags, order. |
| `CreditProtocol.RunKeeps` | stream.go:167-375 | The invariant holds after every run. |
| `StreamObject.BoundsAgainstAnyPeer` | stream_flow.go:42-79 | For arbitrary frames from the peer: credit is nothing before the first accepted window and within that window ever after, queued bytes are within the limit and exactly those queued or held, each done channel is closed at most once, and no 64-bit addition or subtraction wraps. |
| `StreamObject.FirstGrantHolds` | stream_flow.go:69-78 | Over every history the limits are unset until the first accepted window and equal to it from then on. |
| `StreamObject.EventKeepsBounds` | stream.go:242-333 | Every frame and every local call keeps those bounds. |
| `StreamObject.Stream.constructor` | stream.go:78-96 | A new stream: empty queue, both directions open, nothing closed. |
| `StreamObject.Stream.Orient` | stream.go:100-117 | Which directions carry items for each kind and role, and that exactly a server stream starts with one half, and one channel, closed. |
| `StreamObject.Stream.Configure` | stream.go:99-121 | A new stream becomes one of its kind and role within the bounds, with flow state, and fresh, exactly under flow control. |
| `StreamObject.Stream.AcceptCredit` | stream_flow.go:59-86 | On the 64-bit fields: after the send half ends windows are ignored; without flow state or a sending half they are refused; a first window is accepted exactly if neither counter is zero and sets the limits; a later one exactly if it returns an item and keeps both counters within them; accepted credit is added and leaves a token. |
| `StreamObject.Stream.TakeCredit` | stream_flow.go:93-109 | On the fields: without flow state every item goes; with it an item is oversized exactly above the first grant's bytes, and else goes exactly when an item and its bytes are left, which it spends; nothing else changes. |
| `StreamObject.Stream.TakeCreditLoop` | stream_flow.go:88-117 | For any number of grants, items, end frames, closes, finishes and cancellations during each wait, the loop ends on the first pass that need not wait, with that pass's answer, and spends credit on that pass only; a done context or a closed send half refuses at once with its cause, and without flow state an open stream is credited at once. |
| `StreamObject.Stream.Strike` | client.go:2261-2290 | A refused window, an overflowing item and an end frame after the local end terminate the stream. |
| `StreamObject.Stream.AwaitWake` | stream_flow.go:111-115 | After a wait the token is consumed. |
| `StreamObject.Stream.DeliverItem` | stream.go:315-333 | On the fields: dropped exactly once the receiving half has ended, overflow exactly when it has not and a limit would be passed, else queued last with its bytes counted. |
| `StreamObject.Stream.Dequeue` | stream.go:218-221 | The payload and the rest of the queue are the queue before. |
| `StreamObject.Stream.Deduct` | stream.go:242-246 | Subtracts a held payload's bytes without wrapping. |
| `StreamObject.Stream.ReturnCredit` | stream_flow.go:35-57 | On the fields: nothing once the receiving half has ended; else one more item joins the batch, and the batch goes out exactly when twice its items or bytes reach the window or the queue is empty. |
| `StreamObject.Stream.CloseRecv` | stream.go:368-375 | Closes `recvDone` at most once and keeps the first cause. |
| `StreamObject.Stream.DeliverEnd` | stream.go:335-343 | Closes the receiving half with EOF, unless it has a cause already, and asks for a finish exactly when the local end was sent. |
| `StreamObject.Stream.BeginCloseSend` | stream.go:264-268 | `sendDone`, open before, is closed, and every later send is refused. |
| `StreamObject.Stream.RecordEnd` | stream.go:276-280 | Records whether the end was written and asks for a finish exactly when `recvDone` is closed. |
| `StreamObject.Stream.Finish` | stream.go:352-366 | On the fields: the first call marks the stream done and closes the receiving half; the receive error and the context cause, where there was none, are the cause given; later calls change nothing. |
| `HalfClose.StepKeeps` | stream.go:260-375 | Every step of every stream kind and role keeps the life-cycle invariant. |
| `HalfClose.ClosedAtMostOnce` | stream.go:352-375 | In every reachable state `recvDone` and `sendDone` were closed at most once and `onDone` is owed or has run exactly once if the stream is done, never otherwise. |
| `HalfClose.FirstCauseIsKept` | stream.go:352-375 | Receive error, context cause and the finish that terminated the stream survive every continuation. |
| `HalfClose.CausesAreThoseGiven` | stream.go:303-375 | In every reachable state the context cause is the first one given; the receive error is EOF if an end frame or the handler's role closed that half, else what the terminating finish passed; ends of both halves give closed, a failed end write its failure. |
| `HalfClose.FailedEndTerminates` | stream.go:276-285 | Once `CloseSend` returns after a failed end write the stream is done. |
| `HalfClose.SecondEndFinishes` | stream.go:276-343 | Once the local end is recorded and the remote end delivered, the stream is done or one of the two bookkeeping calls is about to finish it and will. |
| `HalfClose.ClientStreamWaits` | stream.go:113-117 | A client stream's caller is never finished by its own successful `CloseSend`, and no end frame finishes either side. |
| `HalfClose.EndsOnlyAfterBothHalves` | stream.go:260-343 | Without failures or outside finishes a stream is done, or about to be, only after both halves ended. |
| `HalfClose.CleanRunEnds` | stream.go:260-343 | From opening: such a run ends a server or bidirectional stream only after both end frames, and never a client stream. |
| `FinalResponse.FinalResponseIsNotLost` | stream.go:464-497 | A response sent into its channel is what `CloseAndRecv` returns, or still waits there, in every continuation, if and only if `CloseAndRecv` had not returned before the send; it has not if nothing had terminated the stream. |
| `FinalResponse.TakenResponseCanBeLost` | client.go:2172-2186 | A run in which the reader takes the entry of an open call with `CloseAndRecv` waiting, the context is cancelled before the send, and the response is lost. |
| `FinalResponse.CancelledCallCanStillGetIt` | stream.go:484-496 | A run in which the context is cancelled before the send and `CloseAndRecv` returns the response all the same. |
| `FinalResponse.DeliveryNeverBlocks` | client.go:2172-2204 | Taking the entry and sending being separate steps, neither the reader nor the sweep after a loss ever finds the one-slot channel full. |
| `FinalResponse.ResponseIsTaken` | stream.go:464-497 | With a response in time and `CloseSend` done, `CloseAndRecv` has an enabled step that returns it or leads to the look that does. |
| `FinalResponse.FrameFinishesStream` | client.go:1568-1579 | A response or error frame that finds the stream finishes it after its response is sent, or at once if nobody waits. |
| `FinalResponse.CloseErrorIsReported` | stream.go:476-483 | After a failed `CloseSend` without a response `CloseAndRecv` returns that failure. |
| `MessagePack.ValidateMessagePack` | msgpack.go:24-120 | The loop over the fixed 65-slot array computes the recursive reading and returns nil exactly for one grammar value nested at most 64 deep. |
| `MessagePack.ValidatedIsExact` | msgpack.go:24-120 | Acceptance if and only if the input encodes one well-formed value of depth at most 64, empty containers counted. |
| `MessagePack.PrefixIsShort` | msgpack.go:38-41 | Every proper prefix of an accepted input gives exactly unexpected EOF. |
| `MessagePack.SuffixIsTrailing` | msgpack.go:29-37 | Every accepted input followed by any nonempty octets gives exactly trailing data. |
| `MessagePack.TrailingIsExact` | msgpack.go:29-37 | Trailing data is reported if and only if a proper prefix is acceptable. |
| `MessagePack.BadCodeIsReported` | msgpack.go:79-80 | The octet 0xc1 where a value is due, after any values and inside any open containers, gives exactly the invalid-code error. |
| `MessagePack.BadCodeNeedsOctet` | msgpack.go:79-80 | The invalid-code error is never given for an input without that octet. |
| `MessagePack.DeepContainerIsRefused` | msgpack.go:105-118 | A container inside 64 others is too deep exactly when its elements could fit, else a short read. |
| `MessagePack.ParsesEncoding` | msgpack.go:24-120 | Completeness: what the grammar derives is read, with exactly the rest left over; the early children check never rejects it. |
| `MessagePack.ParsedIsEncoding` | msgpack.go:24-120 | Soundness: whatever is read is derived by the grammar within the depth. |
| `MessagePack.CutIsShort` | msgpack.go:38-109 | A cut at any octet of any nesting is a short read. |
| `MessagePack.TablesAgree` | msgpack.go:42-104 | The code's switch and the format table of the specification list the same codes with the same lengths and counts. |
| `MessagePack.ChildrenFit` | msgpack.go:78-112 | No child count overflows the 64-bit slot it is stored in. |
| `PeerState.PeerStaysCoherent` | peer.go:289-519 | In every run: readiness closed once exactly while a ready link is active, at most one dial, an active outbound link excludes a dial and is leased, leases equal the unreleased acquires. |
| `PeerState.NoClientIsDropped` | peer.go:317-519 | A dialled client is closed or about to be if and only if it is neither the dial under way nor the active link. |
| `PeerState.StepKeeps` | peer.go:289-519 | Every critical section, in any order, keeps the invariant. |
| `PeerState.LinklessPeerDials` | peer.go:344-403 | In every run an open, leased, linkless peer is dialling or owed a call of `ensureDial` if and only if no dial ended in an error with none owed since the last acquire or disconnect; otherwise nothing can dial, and the recorded error is the dial's unless that was a cancellation or a refusal. |
| `PeerState.OnlyFailedDialIdles` | peer.go:380-397 | The only step that leaves such a peer idle is the end of a dial in an error, any error, with no `ensureDial` to come. |
| `PeerState.IdleStaysIdle` | peer.go:344-363 | An idle peer stays idle through every run without an acquire, a release, an inbound connection or a close. |
| `PeerState.CancelledDialIsNotRetried` | peer.go:344-403 | A run from a new peer to an idle one: a lease is closed during its dial, a new lease starts no dial, the cancelled one ends, and no error is recorded. |
| `PeerObject.Peer.constructor` | peer.go:228-252 | A new relationship has no link, no dial and no lease. |
| `PeerObject.Peer.Acquire` | peer.go:289-315 | Refused exactly when closed, or when leased under another address; else one lease more, this configuration, and no recorded error. |
| `PeerObject.Peer.Release` | peer.go:317-342 | One lease less; the last one hands over the dial to cancel and, with an outbound link, gives it up and hands over its client. |
| `PeerObject.Peer.EnsureDial` | peer.go:344-363 | Starts a dial exactly when open, leased, configured, linkless and not dialling. |
| `PeerObject.Peer.EndDial` | peer.go:372-402 | Keeps the client exactly when the dial is the current one, succeeded, and is still wanted; else hands it back, recording an error that is no cancellation or refusal. |
| `PeerObject.Peer.AcceptInbound` | peer.go:405-450 | Accepted exactly when open and either already the link, or there is no link or a stale outbound one and no preferred dial; the dial to cancel and the stale client are handed over. |
| `PeerObject.Peer.Connected` | peer.go:452-470 | Succeeds exactly for the active accepted link of an open peer, which is then ready, readiness being closed once. |
| `PeerObject.Peer.Disconnected` | peer.go:472-488 | Clears the link of that connection only, and asks for a dial exactly when that was it and the peer is open, leased and configured. |
| `PeerObject.Peer.Close` | peer.go:490-519 | Closes once and hands over everything to shut. |
| `PeerNames.NormalizeIsStable` | peer.go:965-967 | A normalized name is its own normal form. |
| `PeerNames.ExactlyOneSidePrefers` | peer.go:965-971 | For distinct normalized names exactly one side prefers its own dial. |
| `PeerNames.SpaceIsIgnored` | peer.go:965-967 | White space before or after a name does not matter. |
| `PeerNames.CaseIsIgnored` | peer.go:965-967 | Nor does the case of its letters. |
| `PeerNames.PlainNameStays` | peer.go:965-967 | A lower-case name without outer white space is its own normal form. |
| `PeerNames.SmallerNamePrefers` | peer.go:969-971 | A side prefers its dial exactly when its normalized name comes first in lexicographic order. |
| `PeerNetwork.SidesAgree` | peer.go:405-450 | In every run without loss, release or close, two active links are opposite ends of one socket. |
| `PeerNetwork.WinnerIsNeverRejected` | peer.go:405-450 | The preferred side's dial is never rejected, so crossing dials are never both rejected, and no client is closed under a link the other side accepted. |
| `PeerNetwork.QuietSidesMatch` | peer.go:365-450 | With no dial under way one side has a link exactly when the other has. |
| `PeerNetwork.AcceptedDialBecomesLink` | peer.go:365-470 | A link that either side accepted is the dialler's link, or its dial is not cancelled and hearing the answer and ending make it so. |
| `PeerNetwork.LoneHelloIsAccepted` | peer.go:411-439 | In every run a side with neither link nor dial accepts the hello it answers, whichever side it is. |
| `PeerNetwork.LoneDiallerLinks` | peer.go:365-450 | From every state of every run, a side that dials while the other has neither link nor dial ends linked by the four steps of its dial, the other side on the same socket. |
| `PeerNetwork.StepKeeps` | peer.go:289-470 | Every step of either side keeps the two-sided invariant. |
| `ClientTables.EntryLeavesOnce` | client.go:2135-2204 | A pending entry is in the table or has left exactly once, and is delivered at most once, into an empty slot. |
| `ClientTables.LossNeverBlocks` | client.go:2101-2126 | The goroutine that holds `connMu` after a loss always has an enabled step, and its deliveries find empty slots. |
| `ClientTables.LossStepLowers` | client.go:2101-2126 | Each of its steps lowers a measure over the sweeps and the batch, and no other step touches it. |
| `ClientTables.LossEnds` | client.go:2101-2126 | From every state of every run its own steps alone free the lock, and each call of the batch, or still in the table when the sweeps begin, is answered once. |
| `ClientTables.NoStaleEntryAtPublish` | client.go:574-615 | An entry that passed its currency check belongs to the connection in use, and while it is pending no replacement can be published. |
| `ClientTables.TablesFollowConnection` | client.go:1312-1326 | Until close, tracked requests belong to the current generation and readiness is closed exactly while a connection is published. |
| `ClientTables.FieldsAreConsistent` | client.go:1312-1326 | In every run calls and streams are within their limits and pending IDs were handed out, at any time; whenever `connMu` is free the fields agree as well. |
| `ClientTables.ClosedTableIsEmpty` | client.go:2415-2447 | After close no call and no stream is left and none is admitted. |
| `ClientTables.UntrackSparesNewer` | client.go:2010-2019 | In every run, once a connection is past, cleanup by its handlers changes nothing at any later time, and until close every request then tracked is newer. |
| `ClientTables.UntrackIsExact` | client.go:2010-2019 | In every state of every run a cleanup removes a tracked request if and only if it names its ID, its generation and the connection in use. |
| `ClientTables.LostIsPast` | client.go:2101-2113 | A connection that is lost is past from that step on. |
| `ClientTables.LossStarts` | client.go:2101-2113 | In every run a loss of the connection in use, reported with its generation or with 0, clears it and starts the sweeps; any other changes nothing. |
| `ClientTables.CurrentCallPasses` | client.go:2355-2385 | A call passes its currency check exactly when its connection is in use. |
| `ClientTables.CallIsAdmitted` | client.go:2135-2163 | A call gets its entry exactly when the client is open and the table has room. |
| `ClientTables.CompletedCallIsDelivered` | client.go:2172-2186 | Completing a pending call takes it out of the table and puts its response into an empty slot. |
| `ClientTables.PublishConnects` | client.go:1242-1326 | An open client without a connection can connect, and is then ready on a generation never used before. |
| `ClientTables.RemoveStreamSparesNewer` | client.go:2245-2252 | In every run, cleanup by a stream that has left the table changes nothing at any later time, whoever has its ID; one still in the table takes out its own entry only. |
| `ClientTables.StepKeeps` | client.go:1993-2307 | Every step of callers, reader, connector, loss and close keeps the table invariant. |
| `ClientObject.Client.constructor` | client.go:191-238 | A new client is consistent, unconnected and empty. |
| `ClientObject.Client.SetConn` | client.go:1312-1326 | Publishing keeps the fields consistent: readiness, found open, is closed once, and no request of an earlier connection is tracked. |
| `ClientObject.Client.NextRequestID` | client.go:1404-1406 | At any time, also during a loss: the next odd number, which no pending call has. |
| `ClientObject.Client.AddPending` | client.go:2135-2163 | Admission if and only if open and below the limit; an admitted call adds exactly its entry and keeps the limit, a refused one changes nothing. |
| `ClientObject.Client.RemovePending` | client.go:2165-2170 | The entry is gone and every other call is still pending. |
| `ClientObject.Client.Complete` | client.go:2172-2186 | A call is handed out if and only if it was pending, is then no longer, and putting it back would restore the table. |
| `ClientObject.Client.TakeAllPending` | client.go:2188-2204 | The loop moves every entry out exactly once, leaving an empty table. |
| `ClientObject.Client.TakeAllStreams` | client.go:2291-2307 | The loop hands out every stream and leaves an empty table. |
| `ClientObject.Client.TrackRequest` | client.go:1993-2008 | Tracks if and only if open and on the connection in use, so all tracked requests stay of its generation. |
| `ClientObject.Client.UntrackRequest` | client.go:2010-2019 | Until close an entry leaves if and only if it is of that ID and generation on the connection in use; the rest are untouched. |
| `ClientObject.Client.AddStream` | client.go:2206-2243 | Admission if and only if open, below the limit and the ID unused; the limit is kept and a duplicate does not replace its stream. |
| `ClientObject.Client.RemoveStream` | client.go:2245-2252 | Afterwards the ID is not the stream's and every other stream is in place. |
| `ClientObject.Client.ConnectionLost` | client.go:2101-2126 | On the fields: for the connection in use, told its generation or 0, connection, readiness and all tables are cleared and handed over; for any other nothing changes. |
| `ClientObject.Client.CloseConn` | client.go:2426-2441 | No connection is left and readiness is closed, once, which releases all who wait for it. |
| `ClientObject.Client.CloseWithError` | client.go:2415-2447 | The first call hands over every stream and call and leaves nothing; later calls change nothing. |
| `Framing.NormalizeMaxFrameSize` | frame.go:154-163 | The limit is positive, fits 32 bits, and is the configured one whenever that does. |
| `Framing.Pipe.Write` | frame.go:35-98 | Exactly the writable frames are accepted; one joins the end of the queue of unread frames that the octets stand for, and a refused one leaves no octet behind. |
| `Framing.Pipe.ReadNext` | frame.go:104-152 | On any octets: a length over the limit is refused after four octets; a frame read has consumed at most four more than the limit, is of version 1, and if it was compressed is within the limit; a failed read has consumed from the front only, and all of it on a short read. |
| `Framing.Pipe.Read` | frame.go:104-152 | The oldest unread frame is handed out and leaves the queue; an empty queue is end of file. |
| `Framing.WriteIsExact` | frame.go:35-98 | A frame is written exactly when its payload and its encoding are within the limit, and which error else; its octets are the length of the encoding and the encoding. |
| `Framing.ReadIsExact` | frame.go:104-152 | For any prefix, body and rest: which error or which frame, by length, codec, version, label, decompressor and limit in that order. |
| `Bytes.BigEndian32` | frame.go:84-85 | The length prefix has its most significant octet first. |
| `Framing.ReadBackIsExact` | frame.go:35-163 | For any reader's compressor and any limit at least the writer's, a written frame comes back unchanged with exactly its octets consumed if and only if its payload went uncompressed or the reader has the writer's compressor; else it is refused as a protocol error. |
| `Framing.RoundTrip` | frame.go:35-163 | Between ends that share a compressor, or have none, every written frame is read back. |
| `Framing.GzipInverts` | compression.go:41-78 | The built-in compressor, its size caps included, meets what the round trip asks of a compressor. |
| `Framing.StreamRoundTrip` | frame.go:35-163 | Any concatenation of written frames is read back as the same sequence. |
| `Framing.CutFrameIsShort` | frame.go:104-121 | For any limit at least the writer's and any reader's compressor, a cut written frame is end of file where the prefix or the body would begin, unexpected end of file elsewhere. |
| `Handshake.Sign` | auth.go:53-70 | The octets fed to the keyed hash, capability loop included, are the transcript. |
| `Handshake.TranscriptIsInjective` | auth.go:53-82 | Equal transcripts have equal version, codec, name, challenge and capability list. |
| `Handshake.TranscriptReadsBack` | auth.go:53-82 | A reader of the format recovers version, codec, name, challenge and capabilities from every transcript. |
| `Handshake.NamesAreSpelled` | auth.go:53-55 | The label, the capability and the method are the protocol's strings, and its version is 1. |
| `Handshake.AuthStringIsPrefixFree` | auth.go:77-82 | A length-prefixed string can be read off the front in one way only. |
| `Handshake.EndsAgree` | client.go:1446-1473 | When the client's handshake succeeds so has the server's, with the same compressor and flow-control flag. |
| `Handshake.SuccessIsExact` | server.go:696-778 | Success if and only if codecs match, the server has the client's compressor, the caller is admitted and, where asked, both keys sign the transcript alike. |
| `Handshake.FlowControlIsNegotiated` | server.go:712-777 | For any hello both ends read the same flag, set exactly when it offered stream credit; without it the legacy transcript is signed. |
| `Handshake.ServerAckIsExact` | server.go:712-745 | For any hello: answered exactly for this version and codec and no compression or the server's; what the answer and the server's view hold. |
| `Handshake.ClientAcceptsIsExact` | client.go:1443-1486 | For any answer: taken exactly for this version and codec, the client's own compressor, no unknown capability and a challenge it can sign. |
| `Handshake.ServerVerifiesIsExact` | server.go:807-826 | A signature is admitted exactly for the server's method and its own transcript. |

## Left out

- Sockets, deadlines, write timeouts, pings, reconnect delays and jitter: loss, cancellation and timeout are steps that may occur at any moment.
- HMAC, gzip and the codec: function parameters, with inverse facts where the round trip needs them.
- StreamObject.Stream.TakeCreditLoop: takes what happens during its waits as a parameter; `Recv` calls meanwhile, which touch nothing it reads, are not among it, and real waiting and interleaving are in `CreditProtocol`.
- CreditProtocol.EOFIsComplete: exempts receivers that a `finish` call closed with `io.EOF` itself, as a handler returning that error does; it says nothing about the sender.
- Framing.Pipe.Write: transport write errors and short writes are not modelled.
- Framing.RoundTrip: frames whose compression label the caller set itself; only the writer sets it (frame.go:49).
- Handshake.TranscriptIsInjective: strings of 2^32 octets or more, whose length field wraps, are outside it, as is a challenge of another length than 32.
- PeerNames.NormalizeIsStable: names are ASCII; Unicode white space and case mapping are not modelled.
- PeerNetwork.SidesAgree: link loss, lease release, close and the replacement of a stale outbound link are outside the two-peer system; both sides may then hold different sockets for a while.
- ClientObject.Client.NextRequestID: request numbers are unbounded, without the wrap after 2^63 calls.
- Isolation of frames between connection generations: the code does not guarantee it.
- The accepting connection's own tables in `server.go` and the initial-credit order in its stream starters: the same sections as the client's with a fixed connection; the credit protocol starts from both places where the first grant can be.
- The write limiter: window, end, cancel and error frames bypass it (backpressure.go:42-49), so no step of the credit protocol depends on it.
- Asynchronous response handlers, handler registration, typed wrappers, interceptors, broadcast, singleflight and option defaults: thin, with only easy facts.
