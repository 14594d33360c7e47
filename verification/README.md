# Verified model of the session protocol, limiters, pools, metrics and breaker

XProtocol connects services over Unix domain sockets: a client that keeps one framed stream, a server
that answers frame by frame, rate limiters, connection pools, request metrics and a circuit breaker. This
project models the state-keeping code behind those parts and proves what it keeps over every run.

## What is modelled

- **Framing** (`Wire`). Encoding and decoding as functions on byte strings; `BufReader` and `BufWriter`
  classes that read and write through a transport delivering chunks of any size and failing at any byte.
- **The session** (`Protocol`, `Connection`, `Exchanges`, `Streaming`, `Calls`, `Client`, `Server`, `ServerLoop`). The server's
  answer to each frame is a function. The client is a class whose methods read and write a `Stream`; between any
  two of its own steps the server takes any number of steps (pull, take up a frame, flush some bytes, return to
  the loop head, or die). Whether the client gets through, how many bytes the transport moves at a time, when
  patience runs out and what the server does meanwhile are parameters, so that it can be said when an operation
  succeeds and not only what it then returns. The invariant is that a kept stream has nothing in flight either
  way. The server is modelled twice, as those concurrent steps and as the read/write loop of `src/server.rs` with
  its limiter and metrics; both are proved to hold the same conversation.
- **Rate limiters** (`SlidingWindow`, `RateLimiters`). The admission rule over the full history of calls, and
  the two classes that keep only a pruned list; the classes answer exactly as the full history would.
- **Pools** (`ProductionPool`, `ProductionPoolDoor`, `UdsClientPool`, `TopicPool`) and the **accept loop** (`AcceptLoop`). Any number of
  tasks, each with a program counter; every atomic access, lock section and semaphore operation is one step.
- **Metrics** (`Histogram`, `ServiceMetrics`, `MetricsInterleaved`, `ConnectionTracker`). Bucketed percentiles against
  ranks of the raw observations; the books of a service, as an object used by one call at a time and with every
  atomic access a step of its own; and the lock-free peak.
- **Circuit breaker** (`CircuitBreaker`, `BreakerInterleaved`). Once as an object used by one task at a time, whose
  state is read off the trace of events; once with every access a separate step.

Ghost fields such as `calls`, `trace`, `observed` and `ends` record the history an object has seen; the
real fields are tied to it by `Valid()`. In the step relations `diaries`, `errands`, `given` and `tally` do the
same for tasks: no step reads them.

## What turned out not to hold as one might expect

Each has a lemma with the exact condition or a concrete run.

- The limiter admits at least as many requests as any schedule that respects the window, *unless* it has
  neither an allowance nor a window: then it refuses everything although nothing would be too much
  (`GreedyBestIffAllowanceOrWindow`).
- `remaining` is exact unless the window is empty; then calls never add up and the next one is admitted too
  (`RemainingIsExact`).
- An `acquire` that has the limiter to itself ends exactly when there is an allowance (`AcquireEndsIffAllowance`).
- The timeouts shown by the production pool can exceed its failures for a moment, because a timeout is
  counted first. It happens in every pool with at least one permit (`TimeoutsWithinFailuresIffNoPermits`), by at
  most the calls caught between the two counts (`TimeoutsNearFailures`).
- `close` on the bounded pool resets a counter that other tasks are between incrementing and undoing. The
  counter is then off by the number of those tasks, exactly (`ReservationsByEpoch`). In any pool with a permit one
  close is enough to take it below zero, where it reads as a huge number (`CounterKeptIffNeverClosed`,
  `NoGrantBelowZero`).
- Calls of different topics are independent only while nobody closes the pool: a close holds the topic map while
  it waits for one topic's call, and holds up the calls of all others (`TopicsIndependentIffNoClose`,
  `CloseStallsOtherTopics`).
- The connection limit holds in every interleaving exactly when one accept loop uses the process-wide
  count (or the limit is zero); and connections whose task panics stay counted for good, so that the server
  refuses for ever exactly when as many have panicked as the limit allows (`LimitKeptIffOneLoop`,
  `RefusesForGoodIffCrashes`).
- Percentiles of a snapshot are ranked against all requests started. Active requests leave a percentile alone
  exactly when they do not move the rank, and one active request to fewer than 99 ended ones already makes the
  99th percentile the last bound (`ActiveHarmlessIffSameRank`, `ActiveSkewsIffOneIn99`).
- A response that is too large to write, or to send before the transport fails, leaves its request counted as
  active for good; nothing else does (`ServeRequest`, `HandleConnection`).
- A breaker that is Closed is short of its threshold exactly if the threshold is at least one
  (`ClosedShortIffThreshold`). A success recorded while Open lets a failure in HalfOpen be absorbed
  (`FailureAbsorbedAfterLateSuccess`). With two or more tasks HalfOpen can be entered from Closed, whatever the
  settings (`HalfOpenNotFromClosedIffAlone`).
- A streaming call can only succeed with no messages: this server never sends a chunk. A payload that is neither
  null nor an object makes it panic, past its own discard of the stream (`CallStreaming`).

## Model

| member | source | states |
|---|---|---|
| Wire.DecodeEncode | src/wire.rs:16-63 | what is written as one frame is read back as that frame, and the reader leaves alone whatever follows |
| Wire.DecodeProperPrefix | src/wire.rs:34-63 | a cut-off frame never reads as a frame or as a length error |
| Wire.DecodeStable | src/wire.rs:34-63 | a verdict the reader has reached is not changed by bytes that arrive later |
| Wire.FrameLayout | src/wire.rs:24-29 | the bytes of a frame: its length, most significant byte first and counting type and version, then type, version, payload |
| Wire.WritableIffReadable | src/wire.rs:20-48 | bytes laid out as a frame of any length are read as that frame iff the writer would have written them, and rejected otherwise |
| Wire.FramingRoundTrip | src/wire.rs:16-63 | reading the concatenation of any list of writable frames plus any suffix yields that list and leaves that suffix |
| Wire.FramingUnique | src/wire.rs:16-63 | framing is uniquely decodable: if one list's bytes start with another's, the lists agree frame by frame and the rest is the remaining frames |
| Wire.DecodePrefixOfMany | src/wire.rs:34-63 | a reader holding part of a stream of frames needs more or sees the first frame, never anything else |
| Wire.BufReader.ReadMessage | src/wire.rs:34-63 | frame, length error or end of file depend only on the bytes that arrive, not on their chunking, and exactly the frame's bytes are consumed |
| Wire.BufReader.ReadAll | src/wire.rs:34-63 | in any chunking, reading as many frames as were sent returns exactly those and leaves the suffix |
| Wire.BufReader.ReadExact | src/wire.rs:39-60 | the destination is filled from consecutive unread bytes across refills, or the reader is at end of file |
| Wire.BufWriter.WriteMessage | src/wire.rs:16-32 | an oversized frame is refused before a byte is sent; success means the whole frame is sent and nothing stays buffered; failure leaves a prefix of it and a dead transport |
| Protocol.RequestGetsOneReply | src/server.rs:196-272 | every request frame gets exactly one response or error, a response iff in limit, decodable and valid, carrying the handler's answer; no reply only when the reply is too large, and then the connection ends |
| Protocol.StreamGetsStartAndEnd | src/server.rs:273-301 | a stream request gets a start and an end in that order, or less, and never a chunk |
| Protocol.SchemaGetsOneReply | src/server.rs:305-311 | a schema request gets at most one frame, the connection then goes on, and a schema response carries the service's schema |
| Protocol.HandshakeGetsOneReply | src/server.rs:142-178 | the connection goes on iff the handshake is in limit and decodable, the limiter admits it and the acknowledgement, which carries the handler's greeting, can be written; a client not admitted gets that error and the end, anything else the end without a word |
| Protocol.OversizeGetsError | src/server.rs:196-203 | a frame over the limit gets that error whatever its kind, and the connection goes on |
| Protocol.PingGetsPong | src/server.rs:302-304 | a ping gets a pong |
| Protocol.CloseEnds | src/server.rs:312-312 | a close in limit ends the connection without a word |
| Protocol.OthersPassedOver | src/server.rs:313-313 | unknown kinds, and a second handshake, are passed over in silence |
| Protocol.StreamServed | src/server.rs:273-301 | with streaming on a decodable stream request gets its start and end, an undecodable one ends the connection; with streaming off it is ignored |
| Protocol.SchemaServed | src/server.rs:305-311 | with introspection on a schema request gets the schema, otherwise nothing |
| Protocol.EndsIff | src/server.rs:196-314 | a frame ends the connection iff it is a close in limit, an undecodable stream request with streaming on, or its reply is too large to write |
| Connection.QuietPlay | src/server.rs:180-315 | a kept connection nobody uses stays with nothing in flight, whatever the server does, and the server takes up nothing |
| Connection.UnderwayPlay | src/server.rs:180-315 | while one call is under way, no server behaviour mixes any other bytes into its exchange |
| Connection.ReadNext | src/client.rs:145-150 | a frame in the client's buffer is the next reply to this very request |
| Connection.AllRead | src/client.rs:142-161 | once the last reply is read, the reader about to be dropped is empty and nothing is in flight |
| Client.Stream.WriteMessage | src/client.rs:142-143 | what writing a frame comes to under given turns of transport and server |
| Client.Stream.ReadMessage | src/client.rs:145-150 | what reading a frame comes to under given turns of transport and server |
| Exchanges.WritingUnderway | src/client.rs:142-143 | whatever transport and server do, a frame being written stays the only thing in flight |
| Exchanges.ReadingUnderway | src/client.rs:145-150 | a frame that is read is the next reply to this exchange and accounts for every byte left in the buffer; a reader gives up only with no whole frame in hand |
| Exchanges.RoundTripUnderway | src/client.rs:142-150 | one exchange on a ready connection yields the first reply to the frame sent, or an error |
| Exchanges.FairWeatherSucceeds | src/client.rs:142-150 | a frame that fits, sent to a server that is there and has a reply, gets it when transport and server do their part |
| Exchanges.GoneNeverAnswers | src/client.rs:142-150 | on a connection whose server is gone no exchange succeeds |
| Exchanges.CanSucceedIff | src/client.rs:142-150 | an exchange can succeed iff the frame fits, the server is there and has a reply, and whenever it succeeds it yields that reply |
| Calls.ResponseIsAnswer | src/client.rs:148-160 | a response frame read for a request decodes to the handler's answer to that request |
| Client.UdsClient.Connect | src/client.rs:49-98 | succeeds iff the server was reached and its reply opens a session, with the right error otherwise; success means a new stream with nothing in flight and an empty dropped reader, failure keeps what the client had |
| Calls.ConnectCanSucceedIff | src/client.rs:49-98 | connecting can succeed iff the handshake fits, is decodable and admitted, and the acknowledgement fits and says so |
| Client.UdsClient.Call | src/client.rs:108-131 | succeeds iff it has a connection, kept or made, and reads a response from it, with the right error otherwise; Ok is the handler's answer to exactly this request, in an exchange of its own later than all earlier ones; a kept stream is quiet, an error discards it |
| Calls.CallCanSucceedIff | src/client.rs:108-161 | a call on a kept stream can succeed iff the server is still there, the request is valid and within frame and server limits, and the answer fits a frame |
| Client.UdsClient.DoCall | src/client.rs:133-161 | one exchange on the kept stream: Ok iff a response frame is read, a failed read's own error, a protocol error for any other frame; after Ok the dropped buffer is empty and the stream quiet |
| Client.UdsClient.CallStreaming | src/client.rs:163-189 | Ok is what the loop makes of the replies to the request with its mode put in, in an exchange of its own, on a server with streaming on; an error discards the stream, a panic over the payload keeps it, untouched |
| Client.UdsClient.DoCallStreaming | src/client.rs:191-246 | Ok is what the reading loop collects from exactly this request's replies, the first of which announces the mode asked for, and nothing is left in flight or in the dropped buffer; it panics iff the payload cannot take the mode |
| Client.UdsClient.ReadStream | src/client.rs:211-245 | the reading loop comes to what its reads and the decisions on their frames say, and has read every reply when it ends well |
| Calls.StreamCanSucceedIff | src/client.rs:163-246 | a streaming call can succeed iff the server is still there and streams, the request fits, and both answer frames fit, the last decodable and not an error |
| Calls.ModeAnnounced | src/client.rs:205-209 | the mode the client puts into the payload is the one the server's start frame is made with |
| Protocol.ModeRoundTrip | src/server.rs:276-281 | the server reads back exactly the mode put in by key, other fields are untouched, and a payload can take one iff it is null or an object |
| Calls.StreamTurn | src/client.rs:213-242 | against this server a stream goes on with no message, or ends well only at its last frame |
| Streaming.CollectedIffEndsWell | src/client.rs:211-245 | over any frames, from whatever server, the loop returns Ok(messages) iff starts and readable chunks run up to an end without an error, and then it is every chunk's message in order |
| Streaming.CollectedOtherwise | src/client.rs:220-242 | the first frame that is neither start, readable chunk nor good end fails the stream, with an encoding error iff its payload cannot be decoded |
| Streaming.CollectPush | src/client.rs:213-242 | the loop's progress over frames read one by one is the progress over the whole list |
| Client.UdsClient.GetSchema | src/client.rs:248-266 | succeeds iff it has a connection and reads a schema response; Ok is the service's schema; a kept stream is quiet, an error discards it |
| Calls.SchemaCanSucceedIff | src/client.rs:248-289 | a schema request can succeed iff the server is still there, introspection is on and the schema fits a frame |
| Client.UdsClient.DoGetSchema | src/client.rs:268-289 | one exchange on the kept stream: Ok is the schema it asked for, nothing is left in flight |
| Client.UdsClient.Close | src/client.rs:291-296 | stream and session are gone, and later calls use later exchanges |
| Client.UdsClient.Idle | src/client.rs:108-131 | time between calls, with the server free to act or leave, keeps the invariant |
| Client.UdsClient.Run | src/client.rs:108-296 | over any run of connects, calls, streams, schema requests and closes, every response, stream and schema returned is the right one to its own operation, no exchange answers two, and an operation returns nothing only if it could not succeed from where it starts under its conditions |
| Server.ConversationIsScript | src/server.rs:142-315 | sent any frames and then no whole frame, the server answers the handshake and then each frame in order up to the first that ends the connection |
| Server.NothingAfterClose | src/server.rs:312-312 | after a close in limit nothing more is answered, whatever else was sent |
| Server.PingThenMore | src/server.rs:302-304 | a ping is answered with a pong and the conversation goes on |
| Server.RequestThenMore | src/server.rs:206-272 | a request that does not end the connection is answered with its one reply and the conversation goes on |
| Server.ScriptStopsAtEnd | src/server.rs:180-315 | the conversation stops at the first frame that ends the connection, and only there |
| Server.ServerHoldsConversation | src/server.rs:142-315 | under every schedule, chunking and flushing the server has sent a prefix of that conversation; all of it when it waits with nothing left to read, and when it has ended without being cut off |
| ServerLoop.ServeRequest | src/server.rs:206-272 | one reply as specified; the request is started once and ended once with the right outcome, and stays active iff it reached the handler and its response is too large or longer than what the transport still takes |
| ServerLoop.ServeStream | src/server.rs:273-301 | start and end are delivered in order, or a prefix of them on failure |
| ServerLoop.ServeFrame | src/server.rs:196-314 | every kind of frame is answered as specified, only a close stops the loop without an error, and only in-limit requests touch the metrics, exactly once each |
| ServerLoop.ReadHello | src/server.rs:142-157 | a client is let in to the handshake exactly if the first frame is an in-limit, decodable handshake |
| ServerLoop.Welcome | src/server.rs:165-178 | a refused client gets one error and the connection ends; an admitted one gets the acknowledgement |
| ServerLoop.ServeLoop | src/server.rs:180-315 | the loop sends the rest of the conversation in order, each metered request is over before the next read, and it ends well iff the input runs out, a read times out or a close comes before anything breaks it |
| ServerLoop.HandleConnection | src/server.rs:125-320 | output is the conversation with what is heard before a read times out, a prefix of it only when the transport fails; it returns Ok iff that conversation ends well; on a normal end every in-limit request was started once and ended once with its own outcome; however it ends, one request stays active iff the conversation breaks at one that reached the handler; the limiter is asked once, for the client named, and decides as its window rule does |
| ServerLoop.OutcomeIsReply | src/server.rs:259-259 | a request is booked as a success iff its answer is a response with status success, and never as a timeout |
| ServerLoop.SuccessesAreSent | src/server.rs:206-272 | the successes a connection books number the successful responses it sends |
| ServerLoop.HeardStep | src/server.rs:181-194 | a read in time yields what it would have yielded anyway |
| ServerLoop.NotStranded | src/server.rs:253-260 | no request stays active if the transport takes the whole conversation and every response can be written |
| ServerLoop.SendFrame | src/wire.rs:16-32 | a frame is sent iff it can be written and fits what the transport still takes |
| SlidingWindow.RetainAgain | src/auth.rs:277-279 | pruning early and again later keeps the same entries as pruning once, later |
| SlidingWindow.PrunedListAgrees | src/auth.rs:273-286 | the pruned list is always the full admission log filtered to the window |
| SlidingWindow.WindowSafety | src/auth.rs:273-286 | no half-open interval of window length ever holds more than the allowed admissions |
| SlidingWindow.RespectsIffSpaced | src/auth.rs:273-286 | the limit on every interval is the same as any admission and the one `max_requests` later being a window apart |
| SlidingWindow.RefusedIffFull | src/auth.rs:273-286 | a request is refused iff exactly the allowed number of admissions lie within the last window |
| SlidingWindow.GreedyOptimal | src/auth.rs:273-286 | the limiter's i-th admission is no later than the i-th of any schedule that respects the limit |
| SlidingWindow.GreedyAdmitsMost | src/utils.rs:146-158 | on every prefix of the requests it admits at least as many as any such schedule |
| SlidingWindow.GreedyBestIffAllowanceOrWindow | src/utils.rs:146-158 | optimality holds iff the policy has an allowance or a window |
| SlidingWindow.RemainingIsExact | src/auth.rs:288-301 | `remaining` calls at that instant succeed and the next fails, except that with an empty window and an allowance it succeeds too |
| RateLimiters.RetainLive | src/auth.rs:279-279 | the in-place filter keeps exactly the entries younger than the window, in order |
| RateLimiters.SingleLimiter.TryAcquire | src/utils.rs:146-158 | the answer is the full-history rule's, whatever calls and readings came before |
| RateLimiters.SingleLimiter.Acquire | src/utils.rs:160-165 | it returns by the first poll after a full window, having been admitted exactly once, at the time it returns |
| RateLimiters.AcquireEndsIffAllowance | src/utils.rs:160-165 | some poll is admitted iff the allowance is not zero |
| RateLimiters.SingleLimiter.Available | src/utils.rs:167-172 | the free allowance of the full history; pruning on a read changes no later answer |
| RateLimiters.ClientLimiter.Check | src/auth.rs:273-286 | each client is answered as a limiter of its own would; no other client's list or history changes |
| RateLimiters.ClientLimiter.RemainingFor | src/auth.rs:288-301 | the free allowance of that client's own history, without changing anything |
| RateLimiters.ClientLimiter.Reset | src/auth.rs:303-306 | that client starts afresh, no other client changes |
| ProductionPool.ClientsBounded | src/pool.rs:610-655 | in every interleaving idle plus checked-out clients stay within `max_concurrent`, permits are conserved and no client serves two calls |
| ProductionPool.RequestsConserved | src/pool.rs:610-655 | total = successful + failed + active + refused + tasks between two of their own counter accesses |
| ProductionPool.OneReportEach | src/pool.rs:635-654 | each call that got a permit and finished recorded its own outcome in the breaker exactly once, no other task records anything, and recorded successes and failures each match their counter up to the calls about to count |
| ProductionPoolDoor.CallsDoAsTold | src/pool.rs:610-655 | a call is rejected iff the breaker refused it, counted only if admitted, and ends as its own client call ended |
| ProductionPoolDoor.AllRefused | src/pool.rs:610-613 | behind a breaker that refuses every call nothing is counted, no permit taken and no client made |
| ProductionPoolDoor.NoneRejected | src/pool.rs:610-610 | behind a breaker that admits every call none is rejected |
| ProductionPoolDoor.CloseShutsFirst | src/pool.rs:765-769 | a close sets the flag, then closes the semaphore, and only then turns to the idle clients |
| ProductionPoolDoor.ShutForLaterCalls | src/pool.rs:606-608 | a call that arrives after shutdown is told so and does nothing else |
| ProductionPoolDoor.NoPermitAfterClose | src/pool.rs:615-618 | once the semaphore is closed no permit is granted |
| ProductionPoolDoor.OpenWithoutClose | src/pool.rs:606-618 | while nobody closes the pool no call is told it is shutting down and none is refused a permit |
| ProductionPoolDoor.CloseClosesAllIdle | src/pool.rs:769-773 | a close closes every idle client in order and leaves the list empty and unlocked |
| ProductionPoolDoor.ReturnedIsTakenNext | src/pool.rs:620-633 | the client given back last is the one the next call takes |
| ProductionPoolDoor.NoDeadlock | src/pool.rs:610-655 | unless the limit is zero some task can move while one is unfinished |
| ProductionPool.TimeoutsNearFailures | src/pool.rs:648-653 | timeouts exceed failures at most by the calls between the two counts |
| ProductionPool.TimeoutsWithinFailuresIffNoPermits | src/pool.rs:610-653 | the metrics never show more timeouts than failures iff the pool has no permits |
| ProductionPool.TimeoutsAgainstFailures | src/pool.rs:648-653 | at any moment timeouts are within failures iff the calls caught between the two counts do not outnumber the plain failures |
| ProductionPool.TimeoutBeforeFailure | src/pool.rs:648-653 | for every pool with a permit, a run in which a timeout shows and no failure does |
| ProductionPool.BooksBalanceAtRest | src/pool.rs:666-741 | once every call has ended: nothing active, every permit back, each request succeeded, failed or was refused, timeouts within failures |
| UdsClientPool.PermitsAndIdleBounded | src/pool.rs:243-311 | in every run, closed or not, at most `max_concurrent` calls hold a permit and the idle list stays within `max_pool_size` |
| UdsClientPool.ClientsAccounted | src/pool.rs:265-311 | no client serves two calls, and every client is with a call, idle, closed by a close, or was thrown away because its call said so or the list was full |
| UdsClientPool.CallsDoAsTold | src/pool.rs:273-311 | a call keeps its client exactly as its result says, and makes one without a reservation only after finding the list empty four times, or once in a batch |
| UdsClientPool.ReturnedIsTakenNext | src/pool.rs:266-311 | a client put back while there is room is idle again and taken next, without a reservation |
| UdsClientPool.CloseClosesAllIdle | src/pool.rs:388-395 | a close closes every idle client in order before it empties the list and resets the counter |
| UdsClientPool.NoDeadlock | src/pool.rs:243-311 | unless the limit is zero some task can move while one is unfinished |
| UdsClientPool.ReservationsExact | src/pool.rs:265-292 | without close, `created_clients` is the reservations granted plus the tasks about to undo, and grants stay within `max_pool_size` |
| UdsClientPool.ReservationsByEpoch | src/pool.rs:265-292 | with any closes, `created_clients` is the grants since the last reset plus pending undos less the tasks that reset found between increment and undo; exact iff there were none, and an epoch over-grants by no more than that |
| UdsClientPool.CounterKeptIffNeverClosed | src/pool.rs:388-395 | the counter stays at or above zero over all runs with so many closes iff there is no close or no permit |
| UdsClientPool.CloseBreaksCounter | src/pool.rs:388-395 | for every pool with a permit, a run whose one close leaves the counter at -1 |
| UdsClientPool.NoGrantBelowZero | src/pool.rs:273-276 | in any run, while the counter is below zero it reads as a huge number and a task that asks is refused |
| TopicPool.TopicKeepsClient | src/pool.rs:440-459 | a topic keeps its client for the whole run and shares it with no other topic |
| TopicPool.TopicSerialised | src/pool.rs:440-459 | at most one call of a topic is in flight, on the topic's own client |
| TopicPool.CallsServedByTopic | src/pool.rs:427-459 | a call is on the topic it was made for and, once finished, was served by that topic's own client; one without a topic or with an empty one goes past the topics |
| TopicPool.CloseVisitsEveryTopic | src/pool.rs:502-508 | a close holds the lock of every bound topic's client in turn, and ends having visited exactly the topics bound when its sweep began |
| TopicPool.BlockedIff | src/pool.rs:440-459 | an unfinished topic call is held up iff it wants its client and a task holds that client, or wants the map and a close is sweeping it; the only call that can hold its client is one of its own topic |
| TopicPool.NoCloseIndependent | src/pool.rs:478-495 | without a close no call waits for the map, and a call is held up only by one of its own topic |
| TopicPool.CloseStallsOtherTopics | src/pool.rs:502-508 | a run in which a call of one topic holds up a close and the close holds up a call of another topic |
| TopicPool.TopicsIndependentIffNoClose | src/pool.rs:440-508 | calls of one topic never delay those of another, over all runs with so many closes, iff there are none |
| TopicPool.NoDeadlock | src/pool.rs:502-508 | with topic calls and any number of closes, some task can always move while one is unfinished |
| TopicPool.RunsEnd | src/pool.rs:440-508 | without new arrivals every run is bounded by the work left, so every call and close finishes |
| AcceptLoop.ActiveIsCounted | src/server.rs:88-115 | the count is the connections served or about to be, plus every crashed one, and stays within the limit plus the number of loops less one |
| AcceptLoop.LimitKeptIffOneLoop | src/server.rs:91-106 | `max_connections` is kept in every interleaving iff at most one accept loop shares the count, or the limit is zero |
| AcceptLoop.CrashesUseUpLimit | src/server.rs:108-115 | once as many connections have crashed as the limit allows, no further one is ever accepted |
| AcceptLoop.RefusesForGoodIffCrashes | src/server.rs:88-115 | from any state on no connection is ever accepted again iff as many have crashed as the limit allows |
| Histogram.SortedIsSort | src/metrics.rs:27-45 | the reference arrangement is ascending and a permutation of the observations |
| Histogram.CumulativeReaches | src/metrics.rs:31-36 | the running bucket sum reaches rank k exactly at the bounds covering the k-th smallest observation |
| Histogram.FoundAt | src/metrics.rs:31-44 | the bucket at which the scan stops is the smallest bound at or above the observation of the target rank, or the last bound |
| Histogram.PercentileMonotone | src/metrics.rs:27-45 | higher percentiles are never smaller |
| Histogram.PercentileIsFirstBound | src/metrics.rs:27-45 | the percentile is the first bound with at least the target number of observations at or below it, or the last bound |
| Histogram.PercentileDegenerate | src/metrics.rs:28-44 | with nothing counted it is 0, without bounds 100 |
| Histogram.TargetIsCeiling | src/metrics.rs:31-31 | the target is the least whole number not below total*p/100 |
| Histogram.TargetWithinTotal | src/metrics.rs:31-31 | for percentiles in (0, 100] the target is a rank of the total |
| Histogram.Histogram.Search | src/metrics.rs:20-23 | binary search finds the one bucket whose range holds the value |
| Histogram.Histogram.Observe | src/metrics.rs:19-25 | buckets count exactly the observations made, one per value |
| Histogram.Histogram.Percentile | src/metrics.rs:27-45 | the percentile read off the buckets is the percentile of the raw observations |
| ServiceMetrics.MaximumIsMax | src/metrics.rs:102-114 | the recorded maximum bounds every latency and is one of them |
| ServiceMetrics.TallyIsTotal | src/metrics.rs:118-124 | every ended request has exactly one outcome |
| ServiceMetrics.QuantilesOrdered | src/metrics.rs:127-143 | p50 <= p95 <= p99 whatever has ended |
| ServiceMetrics.MeanBounded | src/metrics.rs:127-143 | the truncated average is at most the maximum |
| ServiceMetrics.ServiceMetrics.RequestStart | src/metrics.rs:90-93 | one more request started and active, the books balance |
| ServiceMetrics.ServiceMetrics.RequestEnd | src/metrics.rs:95-125 | used by one call at a time: exactly one request ends with one outcome, its latency enters sum, maximum and histogram, the books balance |
| MetricsInterleaved.RequestsConserved | src/metrics.rs:90-125 | in every interleaving total = active + success + failure + timeout + requests between two accesses of their own start or end |
| MetricsInterleaved.LostExchangeMeansGrowth | src/metrics.rs:102-114 | an exchange fails iff the maximum has grown since it was loaded, and a request loses fewer exchanges than its latency |
| MetricsInterleaved.RestIsSequential | src/metrics.rs:90-125 | whenever no request is in progress each has ended as it was said to, and counters, sum, true maximum and every bucket are what the same requests would have left one after another |
| ServiceMetrics.ServiceMetrics.Snapshot | src/metrics.rs:127-143 | total is the requests started = active + success + failure + timeout, each the number that ended so; the average is the truncated mean and at most the maximum; the buckets sum to the latency count; percentiles ordered and those of the raw latencies; all zero for a fresh service |
| Histogram.BucketsSumToCount | src/metrics.rs:19-25 | the buckets together, the overflow one included, hold every observation once |
| ServiceMetrics.QuiescentPercentile | src/metrics.rs:127-143 | with nothing active, a snapshot percentile is a rank of the latencies themselves |
| ServiceMetrics.ActiveHarmlessIffSameRank | src/metrics.rs:127-143 | for all latencies a percentile is what it would be without the active requests iff they do not move its rank |
| ServiceMetrics.ActiveSkewsIffOneIn99 | src/metrics.rs:127-143 | p99 is the last bound whatever the latencies iff 99 times the active requests exceed the ended ones |
| ConnectionTracker.PeakIsHighWater | src/metrics.rs:184-206 | peak never exceeds the historical maximum of active and equals it when no opener is in its loop |
| ConnectionTracker.LostExchangeMeansGrowth | src/metrics.rs:188-200 | an exchange fails iff peak has grown since it was loaded, and an opener loses fewer exchanges than the count it carries |
| ConnectionTracker.ConnectionsConserved | src/metrics.rs:184-206 | total = active + closed + those between two accesses of one call, and active is never negative |
| CircuitBreaker.CounterIsRun | src/circuit_breaker.rs:38-56 | `failures` is the trailing run of failures and `last_failure` the latest one |
| CircuitBreaker.OpenHasFailure | src/circuit_breaker.rs:48-71 | a breaker that is not Closed has a failure time |
| CircuitBreaker.ClosedMeansShortRun | src/circuit_breaker.rs:48-56 | Closed implies the run is below the threshold |
| CircuitBreaker.ClosedShortIffThreshold | src/circuit_breaker.rs:22-56 | that holds on every trace iff the threshold is at least one |
| CircuitBreaker.NeverStraightToClosed | src/circuit_breaker.rs:38-71 | nothing leads from Open straight to Closed; only a success leads there, from HalfOpen |
| CircuitBreaker.HalfOpenFailure | src/circuit_breaker.rs:48-56 | a failure in HalfOpen reopens iff the run reaches the threshold |
| CircuitBreaker.FirstFailureReopens | src/circuit_breaker.rs:48-56 | with no success since the last trip the first failure reopens |
| CircuitBreaker.FailureAbsorbedAfterLateSuccess | src/circuit_breaker.rs:38-56 | a trace on which a success while Open lets a HalfOpen failure be absorbed |
| CircuitBreaker.StateReadOffTrace | src/circuit_breaker.rs:38-71 | the state is s iff the trace says s: last trip, first look more than `timeout` after the latest failure, later success |
| CircuitBreaker.Breaker.RecordSuccess | src/circuit_breaker.rs:38-46 | the object follows its trace through a success |
| CircuitBreaker.Breaker.RecordFailure | src/circuit_breaker.rs:48-56 | the object follows its trace through a failure |
| CircuitBreaker.Breaker.State | src/circuit_breaker.rs:58-71 | looking is itself an event, and the answer is the state after it |
| CircuitBreaker.Breaker.CanExecute | src/circuit_breaker.rs:77-84 | an error exactly when the breaker is Open after the look |
| BreakerInterleaved.CounterAndStamp | src/circuit_breaker.rs:38-71 | in every interleaving the counter is the increments since the last reset and Open implies a failure time |
| BreakerInterleaved.OpenNeverSticks | src/circuit_breaker.rs:58-71 | a look that sees Open and reads the clock past `timeout` answers and leaves HalfOpen, whatever other calls do before its reading and between it and its write |
| BreakerInterleaved.SawOpenDecidesByClock | src/circuit_breaker.rs:60-66 | a look that saw Open never misses the failure time, and nobody can move that time before its write |
| BreakerInterleaved.OpenWriteJustified | src/circuit_breaker.rs:48-56 | every write of Open, over Open too, follows within the same call a moment with at least `threshold` increments since the last reset |
| BreakerInterleaved.OpensIff | src/circuit_breaker.rs:48-56 | the breaker opens iff a failing call, at its last access, has loaded a count of at least the threshold |
| BreakerInterleaved.ClosesIff | src/circuit_breaker.rs:38-46 | it closes iff a successful call, at its last access, finds it HalfOpen; a success never closes an Open breaker |
| BreakerInterleaved.LeavesOpenIff | src/circuit_breaker.rs:58-71 | it leaves Open exactly by the write of a look that found the timeout passed, to HalfOpen |
| BreakerInterleaved.HalfOpensIff | src/circuit_breaker.rs:58-71 | it becomes HalfOpen by such writes only |
| BreakerInterleaved.CounterWrites | src/circuit_breaker.rs:38-56 | every failing call increments the counter once and every successful one resets it once, and nothing else writes it |
| BreakerInterleaved.StampWithinCall | src/circuit_breaker.rs:48-51 | a failing call stamps a time it read itself, between its beginning and now |
| BreakerInterleaved.StampedByFailureOnly | src/circuit_breaker.rs:48-51 | nothing else changes the failure time |
| BreakerInterleaved.LookAnswers | src/circuit_breaker.rs:58-71 | a look answers the state it loads, unless that is Open and the timeout has passed |
| BreakerInterleaved.HalfOpenNotFromClosedIffAlone | src/circuit_breaker.rs:58-71 | for all settings, no step leads from Closed to HalfOpen iff at most one task uses the breaker |

## Left out

- The pools, the accept loop, the connection tracker and the interleaved breaker are step relations on values, with one program counter for each task, because tasks interleave inside their methods; update in place and aliasing are not captured there.
- The order in which waiting tasks get a lock or permit: any waiter may be next.
- UdsClientPool.ReservationsExact: the bound on grants assumes fewer tasks than the counter's word can hold, here and in `ReservationsByEpoch`.
- TopicPool.NoDeadlock: a call or close on the default pool is a single step that always finishes.
- RateLimiters.SingleLimiter.Acquire: requires a non-zero allowance, without which the source never returns (`AcquireEndsIffAllowance`), and assumes no other caller meanwhile; other callers can starve it.
- ServiceMetrics.ServiceMetrics.Snapshot: a snapshot taken while other calls move the counters reads them at different moments; that is not modelled.
- ServiceMetrics.ServiceMetrics.RequestEnd: requires an active request; unpaired ends, which wrap the counter, are a caller's error.
- ServerLoop.HandleConnection: JSON encoding never fails, the handler never panics, and time is not measured: the number of reads that are in time is a parameter.
- Client.UdsClient.Run: covers calls that run to completion. A call dropped from outside, as the production pool's timeout around it does (src/pool.rs:626), skips the client's own discard, and the reply-matching claim does not extend to it.
- Client.UdsClient.DoCallStreaming: the decoder of the end frame is arbitrary, since the server's end frame lacks a field the client's type requires (src/server.rs:293-297, src/streaming.rs:61-66) and may always fail to decode.
- The client's reader buffer is the bytes pulled so far rather than a `BufReader` object, and its time limits are the number of turns a read has patience for.
- After its last flush the server may still be finishing its work for a request (metrics, notifications) when the client goes on; nothing is then in flight, and the model counts that state as quiet.
- `SharedUdsClient` adds a mutex around each operation of the client, so its runs are those of `Run`.
- The JSON and MessagePack codecs: requests, responses and schemas are assumed to decode to what was encoded, nothing else is assumed. The handler is an arbitrary function of the request and its place in the session.
- Limiter calls whose clock reading is older than another thread's later update: readings are assumed to be in lock order. Policies are fixed for a limiter's life.
- Histograms with bounds that do not increase strictly, floating-point rounding in percentiles (computed over reals with an exact ceiling), success rates and jitter.
- Counter wrap-around, except for the reservation counter of the bounded pool.
- The texts of errors.
- Webhooks, alerts, authenticators, sessions, discovery, configuration, schema contents, the dead-letter queue, TCP, TLS, gRPC, `UdsConnectionPool` and `ReliableUdsClient`.
