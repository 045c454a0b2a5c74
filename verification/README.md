# netpoisson: a verified model

netpoisson offers requests to a server at Poisson instants, matches the responses, and reports losses,
delays and timelines. This project models the parts its numbers rest on and proves what they promise.

- **The wire** (`Wire`, `Protocol`, `StatusBody`, `Streams`, `Resync`): the binary PDU, the telemetry trailer,
  the STATUS body, the parser that cuts a TCP byte stream into PDUs, and what it makes of a PDU beyond the limit.
- **The book** (`OrderedDict`, `Book`, `BookHistory`, `BookReap`, `BookVerdicts`): `InflightBook` as a class,
  each method proved equal to a function on the book's value, what its bounded memories and counters mean over
  every run, and what each operation answers in terms of the operations before it.
- **The client, network and server as step machines** (`Answers`, `ServerPipeline`, `ServerRuns`, `ServerProgress`,
  `ClientMachine`, `ClientSteps`, `ClientPlaces`, `ClientCounts`, `ClientRuns`, `ClientScripts`, `ClientStop`,
  `ClientAnswers`, `ClientTrips`, `ClientAlarms`, `Schedule`): every section under a lock, every queue operation and every socket call is one step, each thread
  has a program counter, and every interleaving is covered. The network keeps every PDU written and may lose,
  repeat, delay and reorder them; what arrives is what the parser cuts from PDUs written one after another, so
  PDUs within the limit arrive whole and longer ones may arrive in pieces. A failed `sendall` delivers nothing.
  Times are parameters of the steps, so the clock may do anything except where a theorem says otherwise. The
  scheduler and the probe test the stop flags where the program does; other threads may go on when a flag would end
  them, so the theorems hold for more runs than the program has. Payloads have any length between the client's two
  bounds, which may exceed the limit of a PDU and may be equal, and any contents: the program draws the contents
  from a pseudo-random generator, so runs that need particular bytes are runs of the model, and improbable ones of
  the program.
- **The timeline** (`Timing`, `Mirror`): `CounterSeries` as a class, the pruned cache against the full
  histogram, and the window as it travels from server to client.
- **The spectrum** (`Complex`, `BitReversal`, `Fft`): the in-place radix-2 FFT of the 3D view, over exact
  complex numbers, from two laws of the twiddle factors.
- **The report** (`Analysis`): percentiles and their order, over exact reals.

A history (`BookHistory.History`, the `hist` field of the client machine) keeps, beside the book, every item
ever added and the one place it is in: waiting, lost, forgotten (lost, and evicted from the memory),
answered, or dropped (counted as unsent). `InHand`, `OfferInHand` and `SendInHand` count what threads hold
between a lock-protected move and its counter.

`Clear(s)` says that no PDU beyond the limit has been written so far. Where something cut out of a longer one
may have been taken for an answer, the theorems carry it as an explicit term, `Phantoms`, and say that there is
none while `Clear` holds.

What the code does, where one might expect otherwise:

- With telemetry off, the server answers an ECHO with the request itself, REQ flag and all, as the protocol
  documentation says; the client refuses anything without RESP, so such a client receives nothing
  (`ClientAlarms.TelemetryOff`) and counts each answer as a protocol error (`ClientAlarms.OffAlarm`).
- Payloads are not limited to what fits a PDU with its trailer. A longer answer is resynchronised, and four zero
  bytes of its header come out as a PDU that does not decode, whatever its payload and its time
  (`Resync.FirstPieceIsZeros`, `ClientAlarms.OversizeAlarm`). The alarms stay at 0 in every run exactly if
  telemetry is on and payloads leave room for the trailer (`ClientAlarms.AlarmsIff`), unless no payload can be
  encoded at all.
- A payload beyond the limit may end in what reads as a PDU. The server then finds that PDU and answers it, and the
  client may take the answer for the carrier's (`ClientAlarms.EmbeddedRun`, `ClientAlarms.EmbeddedAlarm`): with
  telemetry off, nothing is received in any run exactly if payloads are within the limit
  (`ClientAlarms.NothingReceivedIff`). These runs need particular bytes, but no particular time: any time for
  payloads from 1,048,635 bytes on, half a minute to 26 days of uptime for the few lengths between the limit and that.
- `seq_mismatch` is never counted, whatever arrives: a response is looked up by its number, and so is only ever held
  against the item of that number (`ClientAnswers.SeqMismatchNever`).
- `mismatch` is counted exactly when the payloads differ or the request is beyond the limit
  (`ClientAnswers.CompareExactly`). Answers of the server always agree with their own requests, so a run in which a
  request that decodes differs takes a PDU at the end of another payload (`ClientAlarms.DifferingRun`).
- `reorder` counts the ECHOs answered in time whose number is beyond the one expected, so it is the one that
  overtakes that is counted, and not those overtaken (`BookVerdicts.DuplicatesAndLeaps`).
- `unsent` also counts STATUS probes; `lost` counts ECHOs only.
- An ECHO can be written and still be counted as unsent: the forced reap of `stop` may come between
  `sendall` and `mark_sent`, since `stop` joins its threads with a time limit. `ClientStop.CaughtExample`
  is such a run, `ClientStop.WireSettles` says exactly when it happens, and `ClientStop.MisfiledExactly`
  shows the only other way: a write after that reap.
- An ECHO can be offered and be left open at the end: counted before that reap, it enters the book after it
  (`ClientStop.LateOfferExample`). `ClientStop.StaysEmptyIff` says exactly when this can happen: if at the reap the
  scheduler or the probe is past its last test of the stop flags and not yet in the book. `ClientStop.StaysSettled`
  says that otherwise the three outcomes keep adding up to `offered`.
- The acks remembered after a "late" answer are not trimmed, so the ack memory exceeds `remember` by the late answers
  since the last "ok". An answered number beyond that memory is answered "unknown", not "duplicate".
- The wait for room in the queue falls through once when `sched_stop` is set, so the queue may hold one
  request more than `max_pending` (`Schedule.BacklogBoundIsReached`). A draw may follow `sched_stop` too, if it is set
  between the test at the head of the loop and the draw (`Schedule.DrawAfterStop`).
- The decoder forgets one byte of a PDU, the reserved one: re-encoding gives the same bytes exactly if it is 0.
- `nextPow2` ends exactly for arguments up to 2^30, and the stage loop of the FFT exactly for lengths up to 2^29: at
  2^30 the stage length wraps to -2^31, which is not above it (`Fft.StagesEndIff`). The bit reversal is right up to
  2^30, where `n >> 1` is still half of `n`.

Preconditions of the encoders say that a number fits its field (`struct.pack` raises otherwise) and that
slice counts are not negative; the STATUS lists must be shorter than 65536. In the client machine a number, a
time or a payload that does not fit ends its thread, as the exception does.

## Model

| member | source | states |
|---|---|---|
| Wire.UnpackPackInt | src/protocol.py:243-244 | a big-endian field of any width reads back as the number written, for every number that fits |
| Wire.UnpackPack | src/protocol.py:53-71 | a struct reads back field by field as it was written, whatever bytes follow |
| Wire.PackUnpack | src/protocol.py:53-71 | writing the fields read from a buffer gives the buffer's own bytes |
| Protocol.TelemetryRoundTrip | src/protocol.py:116-176 | a trailer reads back as the telemetry it was made from, up to the clamping of negative numbers and kernel sizes |
| Protocol.TelemetryFields | src/protocol.py:158-176 | which bytes of a trailer each of its twelve numbers is read from, and which value stands for an unknown kernel size |
| Protocol.TelemetryBytes | src/protocol.py:128-176 | every 68-byte trailer is in range and is the encoding of what it reads as |
| Protocol.DecodeOfPdu | src/protocol.py:239-304 | decoding an encoded PDU succeeds exactly up to the body limit, and splits off a trailer as the flags say |
| Protocol.EchoResponseRoundTrip | src/protocol.py:251-304 | any payload followed by a trailer is split exactly at the trailer, even if the payload looks like one; refused exactly above the body limit |
| Protocol.AcceptedParts | src/protocol.py:274-304 | what acceptance says about the bytes: a full header with magic, version and a known type, the announced length, a body within the limit |
| Protocol.DecodesExactly | src/protocol.py:274-304 | byte by byte: the decoder accepts a PDU if and only if its lengths, magic, version and type are right and a flagged trailer fits, whatever the reserved byte and the other flags; and every field it returns, the two flag bits and the split of the body included |
| Protocol.AcceptedReencodes | src/protocol.py:239-304 | an accepted frame keeps its raw bytes, and re-encoding it gives them back if and only if the reserved byte is 0 |
| Protocol.EncodedEchoRequest | src/protocol.py:247-304 | an encoded ECHO request decodes to its own number, time and payload, with REQ and no trailer |
| Protocol.CanonicalEcho | src/protocol.py:326-334 | an ECHO request is its own identity if and only if its flags are just REQ and its reserved byte is 0 |
| Protocol.IdentityIs | src/protocol.py:326-334 | exactly ECHOs have an identity: the request with their number, time and payload and nothing else set |
| Protocol.StatusAnswerCarries | src/protocol.py:353-356 | for every STATUS request and every body, the answer decodes to that body under the request's number and time |
| Protocol.EchoAnswerCarries | src/protocol.py:346-350 | for every ECHO request with room and every trailer, the answer decodes to the request's payload and that trailer's telemetry |
| Protocol.AnswerIdentity | src/protocol.py:326-351 | the identity of the answer with telemetry is the request, byte for byte, if and only if the request is canonical and leaves room for the trailer |
| Protocol.AnswerWithoutTelemetry | src/protocol.py:337-351 | without telemetry the answer is the request, and carries RESP exactly if the request did |
| StatusBody.ReadCounts | src/protocol.py:211-219 | the list loop reads the n counts that start at its offset and leaves the offset behind them |
| StatusBody.DecodeStatusBodyLoop | src/protocol.py:203-236 | the decoder with its loops computes the specified snapshot, or refuses as specified |
| StatusBody.StatusDecodesExactly | src/protocol.py:203-236 | byte by byte: a STATUS body is accepted if and only if it has a head, a positive bucket and the counts it announces; and which bytes every field and every count is read from |
| StatusBody.StatusRoundTrip | src/protocol.py:179-236 | decoding an encoded body, whatever bytes trail it, gives the snapshot's normal form: fields clamped, bucket at least 1, kernel sizes normal, lists cut and capped at 65535 |
| StatusBody.NormalStatusIdempotent | src/protocol.py:179-200 | sending on what was received changes nothing more |
| Streams.PopPdusLoop | src/protocol.py:307-323 | the parser's loop ends and returns the frames and the rest that the recursive reading of the stream gives |
| Streams.SegmentationIsPopped | src/protocol.py:307-323 | a segmentation into whole PDUs, bytes that start an over-limit length, and an incomplete rest is unique: it is the one returned |
| Streams.EveryByteAccounted | src/protocol.py:307-323 | every input has such a segmentation: frames are disjoint slices in order, and each dropped byte starts an over-limit length |
| Streams.BytesConserved | src/protocol.py:307-323 | bytes in = bytes of frames + bytes dropped + bytes kept |
| Streams.StreamRoundTrip | src/protocol.py:243-323 | any sequence of wrapped PDUs followed by part of another comes back as exactly those PDUs and that part |
| Streams.PopInTwo | src/protocol.py:307-323 | popping what has arrived and later the rest with what follows gives what popping it all at once gives, resync included |
| Streams.FeedIsPop | src/peer_client/binary_io.py:102-105 | the read loop over any chunks gives what one call on the whole stream gives |
| Streams.ChunkingIndependence | src/peer_client/binary_io.py:102-105 | two ways of cutting one stream into chunks give the same frames and leave the same rest |
| Streams.RestBound | src/protocol.py:307-323 | the buffer kept between reads never exceeds 1,048,605 bytes |
| Streams.PopWhole | src/protocol.py:307-323 | whole PDUs within the limit, one after another, come back as they are and leave nothing |
| Streams.PopPrefix | src/protocol.py:307-323 | when only part of them has arrived, the complete ones come back in order, and the rest is the beginning of the next one |
| Streams.CutWhole | src/protocol.py:307-323 | nothing but the PDUs themselves can be cut from any sequence of PDUs within the limit |
| Resync.FirstPieceIsZeros | src/protocol.py:314-317 | an ECHO with a body over the limit by at most a trailer, any number below 2^40, any time and any body, loses its length and half of its header to resynchronisation, and four zero bytes come out of it first |
| Resync.Lands | src/protocol.py:307-323 | if before some place every length the parser could read is either not believed or ends before that place, the parser comes to that place and finds there what it would find starting there |
| Resync.TailCutOut | src/protocol.py:307-323 | a whole PDU of 30 bytes at the end of the payload of a first ECHO beyond the limit, behind 0xFF bytes, is cut out of it: at any time for a payload of 1,048,635 bytes or more, at times between 2^35 and 2^51 ns for a shorter one |
| Streams.RestBoundIsReached | src/protocol.py:307-323 | some stream does leave that many |
| Answers.AnswerExists | src/protocol.py:337-357 | exactly the requests are answered, and never with nothing |
| Answers.AnswerNumber | src/protocol.py:337-357 | an answer that decodes carries its request's number and type; an ECHO answer without telemetry is its request |
| Answers.EchoAnswersEcho | src/protocol.py:337-357 | an ECHO answer answers an ECHO request |
| Answers.AnswerIsPdu | src/protocol.py:251-263 | an answer can be cut off whole if and only if it is no ECHO with telemetry or leaves room for the trailer |
| Answers.AnswerSays | src/peer_server.py:481-485 | an answer to a STATUS request, or with telemetry on and room for the trailer to an ECHO, decodes, has RESP and the request's type, number, time and ECHO payload, and a STATUS answer has a body that some snapshot was encoded as and the client accepts |
| Answers.AnswerCarries | src/peer_server.py:481-485 | and the ECHO answer has the telemetry of the very trailer the server made, the STATUS answer the very body |
| OrderedDict.Dict.Put | src/traffic/book.py:38-40 | assignment keeps an insertion-ordered dictionary without repeated keys |
| OrderedDict.DropFirstSteps | src/traffic/book.py:104-107 | deleting the oldest keys one at a time drops the first n in insertion order |
| Book.InflightBook.constructor | src/traffic/book.py:25-36 | a new book is empty, its counters 0 |
| Book.InflightBook.Add | src/traffic/book.py:38-40 | the whole new state of the book after add |
| Book.InflightBook.Sent | src/traffic/book.py:42-46 | the whole new state after mark_sent: only the send time of an open item changes |
| Book.InflightBook.Unsend | src/traffic/book.py:48-53 | the whole new state after drop_unsent: an open unsent item leaves and is counted, anything else stays |
| Book.InflightBook.TakeResponse | src/traffic/book.py:55-77 | the answer and the whole new state after take, in all four cases |
| Book.InflightBook.ForgetOldest | src/traffic/book.py:67-69 | the oldest acks go, the rest stay in order |
| Book.InflightBook.ReapItem | src/traffic/book.py:91-103 | what the loop body of reap does to one open item, and what it adds to the two results |
| Book.InflightBook.EvictLost | src/traffic/book.py:104-107 | the oldest lost items go until `remember` are left |
| Book.InflightBook.ReapNow | src/traffic/book.py:87-108 | the whole new state after reap, and that the results are the changes of the two counters |
| Book.InflightBook.Waiting | src/traffic/book.py:79-81 | the number of open items that were sent |
| BookHistory.OpsKeep | src/traffic/book.py:38-108 | in every run without reused numbers the dictionaries, the counters and the ack memory agree with the history: each item in exactly one place |
| BookHistory.ExactlyOnce | src/traffic/book.py:55-77 | over any run take answers "ok" or "late" at most once per number, even after eviction from either memory |
| BookHistory.DictionariesDisjoint | src/traffic/book.py:38-108 | open, lost_seqs and seen_acks never share a key |
| BookHistory.DuplicateMemory | src/traffic/book.py:55-77 | in every reachable state the ack memory is exactly the last accepted numbers, `remember` of them and as many more as there were late answers since the last "ok", and exactly these are answered "duplicate" |
| BookHistory.LossAccounting | src/traffic/book.py:71-108 | `lost` is the number of tracked items that timed out and were not answered since, remembered or not; at most `remember` are remembered; the clamp of the late branch never binds; `unsent` is the number of dropped items |
| BookReap.ReapExact | src/traffic/book.py:87-108 | an item stays open exactly if it does not leave, unchanged; lost_seqs is the old ones and the timed-out ones in order, cut to the newest `remember` |
| BookReap.NothingOverdue | src/traffic/book.py:98-103 | after a reap at `now` no open sent item is overdue at `now` |
| BookReap.ReapTwice | src/traffic/book.py:87-108 | a second reap at the same instant changes nothing |
| BookReap.ForcedReapSettles | src/peer_client/client.py:227 | after a forced reap nothing is open, and every item was answered, lost or never sent |
| BookReap.ReapPlaces | src/traffic/book.py:87-108 | a reap moves items only from waiting to lost or dropped and from lost to forgotten, and accepts none |
| BookVerdicts.ItemsAreAdded | src/traffic/book.py:38-40 | the items of a run are the ones its operations add, as they add them |
| BookVerdicts.SendTimes | src/traffic/book.py:42-46 | in every reachable state an item held, open or lost, is the one added with the instant it was last marked at while waiting |
| BookVerdicts.TakeAnswers | src/traffic/book.py:55-77 | over every run, take answers "ok" with the item, send time included, exactly if it is waiting, "late" with the item exactly if it is lost and remembered, "duplicate" exactly if it is answered and in the ack memory, else "unknown"; and the number is answered then |
| BookVerdicts.ReapDecides | src/traffic/book.py:87-108 | over every run, a waiting item last marked at t leaves in a reap at now exactly if the reap is forced or now - t >= timeout_ns, and is lost; one never marked leaves exactly if the reap is forced, and is unsent |
| BookVerdicts.UnsendDecides | src/traffic/book.py:48-53 | over every run, drop_unsent takes an item out and counts it exactly if it is waiting and was never marked |
| BookVerdicts.DuplicatesAndLeaps | src/traffic/book.py:55-69 | over every run, `duplicates` is the number of "duplicate" answers, expect_next the number after the highest ECHO answered in time, and `reorder` how many of them came with a number beyond the one expected |
| ServerPipeline.ConnKept | src/peer_server.py:344-411 | every step of a connection's reader, worker and writer keeps its invariant: the frames queued are those of the byte stream, and responses answer the first requests in order |
| ServerRuns.RunKeeps | src/peer_server.py:344-411 | the invariant of all connections and of the shared counters holds in every reachable state |
| ServerRuns.PipelineRefines | src/peer_server.py:344-411 | on each connection, at every step, response k written answers request k read; the responses written, those on their way and the requests unanswered account for every request read, in order |
| ServerRuns.RepliesInOrder | src/peer_server.py:464-485 | with telemetry on, response k carries the type, number, time and ECHO payload of request k, if that request leaves room for the trailer |
| ServerRuns.ClientReads | src/peer_client/binary_io.py:102-105 | whatever part of the bytes written has arrived and however it is chunked, the client's read loop returns exactly the responses that have arrived completely, in order, and keeps the beginning of the next one, if the requests leave room; a response can be cut off whole exactly if its request does |
| ServerRuns.QuietMeansAllAnswered | src/peer_server.py:371-411 | when nothing is queued or in hand and no write failed, every request read has been answered on the wire |
| ServerRuns.WorkerLeavesNothing | src/peer_server.py:386-393 | when a worker leaves, every request queued so far is answered, and every one received if the reader has ended |
| ServerRuns.TxAtMostRx | src/peer_server.py:472-494 | echo_tx never exceeds echo_rx |
| ServerRuns.RequestsCounted | src/peer_server.py:464-485 | echo_rx + status_rx is the number of requests the workers took up: each is counted once |
| ServerRuns.ClampNeverBinds | src/peer_server.py:377-383 | `processing` is the number of workers inside the handler, so max(0, processing - 1) never binds |
| ServerRuns.CutOffUnreachable | src/peer_server.py:349-361 | with reads of at most 65536 bytes the buffer never exceeds 1,114,141 bytes, so the cut-off at 2,000,000 is never taken |
| ServerProgress.AllCanBeAnswered | src/peer_server.py:344-411 | from every reachable state, for every connection whose worker and writer are still there, some continuation without further input writes an answer to every request in the bytes received, in order |
| ClientPlaces.PlaceSteps | src/traffic/book.py:38-108 | what each book operation may do to the place of one item |
| ClientSteps.NumbersKept | src/peer_client/client.py:234-237 | a number from _next_seq is used for one item only |
| ClientSteps.NewItemFresh | src/peer_client/schedule.py:52-60 | an item enters the book made at the clock of its step, not yet sent, and with its loss counted exactly if it is an ECHO |
| ClientSteps.LineMoves | src/peer_client/binary_io.py:26-56 | requests go from the scheduler to the socket in order, none lost or repeated on the way |
| ClientSteps.LineKept | src/peer_client/binary_io.py:26-56 | the requests on their way are distinct ECHO items not yet written |
| ClientSteps.NetKept | src/peer_client/binary_io.py:35-42 | every request on the network is the encoding of an item that was written, and every response answers something cut from the requests |
| ClientPlaces.HeldKept | src/peer_client/binary_io.py:43-49 | until the forced reap, a request on its way is still open and unsent in the book, or answered by something cut from a PDU beyond the limit |
| ClientPlaces.SentKept | src/peer_client/binary_io.py:48-49 | what the book takes for sent or lost was written, what it takes for answered was too while nothing beyond the limit was written, and what was written it takes for sent, but for the item between sendall and mark_sent |
| ClientCounts.ReadersKept | src/peer_client/binary_io.py:107-126 | while nothing beyond the limit was written, a reader that had a response accepted holds the item it answers |
| ClientCounts.SentCountsKept | src/peer_client/binary_io.py:51-52 | offered, wire_sent and status_sent are the ECHOs enlisted and the ECHOs and probes written, up to what threads hold |
| ClientCounts.ReceivedCountsKept | src/peer_client/binary_io.py:132-140 | received, status_received and late are the ECHOs, the probes and the late responses accepted, up to what readers hold |
| ClientCounts.StepKept | src/peer_client/binary_io.py:26-178 | every step of any thread, of the network and of the server keeps the whole invariant |
| ClientCounts.CalmIsClear | src/protocol.py:247-271 | if payloads, and with telemetry payloads with their trailer, are within the limit, or no payload can be encoded, no PDU beyond it is ever written |
| ClientRuns.RunKeeps | src/peer_client/binary_io.py:26-178 | the invariant holds in every reachable state |
| ClientRuns.Conservation | src/peer_client/schedule.py:40-72 | in every reachable state offered = received + lost + unsent ECHOs + open ECHOs, with the readers' and the scheduler's hands as explicit terms; `unsent` is the unsent ECHOs and the unsent STATUS probes |
| ClientRuns.WireConservation | src/peer_client/binary_io.py:43-52 | in every reachable state wire_sent and the phantoms make up received + lost + open sent ECHOs + misfiled ones, up to the readers' hands and the one item the sender holds; there are no phantoms while nothing beyond the limit was written, and nothing is misfiled before the forced reap |
| ClientRuns.ResponsesBounded | src/peer_client/binary_io.py:114-140 | in every reachable state no more probes are answered than sent, no more ECHOs received than written, and no more late responses counted than responses received, up to what threads hold and to phantoms |
| ClientStop.MisfiledExactly | src/peer_client/client.py:225-227 | a written ECHO is counted as unsent in two cases only: the forced reap finds it between sendall and mark_sent, or it is written after that reap dropped it |
| ClientStop.StopSettles | src/peer_client/client.py:191-227 | right after stop's forced reap nothing is open, each ECHO in the book is exactly one of received, lost and unsent, and with the offer and the responses in threads' hands they add up to offered |
| ClientStop.StaysSettled | src/peer_client/client.py:225-227 | the same in every later state, as long as nothing new enters the book |
| ClientStop.StaysEmptyIff | src/peer_client/client.py:225-227 | over all continuations, the book stays empty if and only if at the reap neither the scheduler nor the probe was past its last test of the stop flags with something that can be encoded and is not yet in the book |
| ClientStop.LateOfferExample | src/peer_client/schedule.py:43-60 | for any payload and time, a run in which one was: ECHO 1 is counted before the reap, enters the book after it, and is open |
| ClientStop.WireSettles | src/peer_client/client.py:191-227 | what was written is then received or lost (but for phantoms), with nothing misfiled, if and only if the reap did not catch the sender with an ECHO written, unanswered and not yet marked sent |
| ClientStop.CaughtExample | src/peer_client/client.py:225-227 | for any payload and time, a run in which it does: ECHO 1 is written and counted as unsent |
| ClientAnswers.RunIsOps | src/peer_client/binary_io.py:26-178 | in every reachable state the client's book is that of a legal run of the book's operations, so that what is proved of those runs holds in the machine |
| ClientAnswers.DeliverExactly | src/peer_client/binary_io.py:107-119 | in every reachable state, what a PDU that arrives does: a protocol error and nothing else if it is not acceptable or has no RESP bit; else taken for the item under its number if that waits, or, as late, if it is lost and remembered; else nothing but a duplicate |
| ClientAnswers.CompareExactly | src/peer_client/binary_io.py:120-123 | for every number, time, payload and frame, the comparison raises mismatch by one if and only if the payloads or the numbers differ or the request is beyond the limit, and changes nothing else |
| ClientAnswers.ApplyExactly | src/peer_client/binary_io.py:164-169 | a STATUS answer raises mismatch by one if and only if its body is not acceptable, an ECHO answer never |
| ClientAnswers.ItemsAreEncoded | src/peer_client/schedule.py:52-60 | in every reachable state every item is an ECHO or STATUS request as the encoder makes it from its number, a time and a payload |
| ClientAnswers.SeqMismatchNever | src/peer_client/binary_io.py:124-126 | seq_mismatch is 0 in every run, whatever arrives |
| ClientAnswers.FailedWrite | src/peer_client/binary_io.py:43-47 | in every reachable state, a failed write leaves its item not open, and counts it as unsent if it was; before the forced reap and while nothing beyond the limit was written, it was |
| ClientAnswers.SenderEndsStopped | src/peer_client/binary_io.py:28-56 | in every reachable state the sender has ended only with the stop flag set, which a failed write sets |
| ClientTrips.AnswerReceived | src/peer_client/binary_io.py:107-140 | with telemetry on, for every payload with room, time, mark and trailer, a run in which the first ECHO is written, marked sent, answered and received, with nothing left open and no alarm |
| ClientTrips.LateReceived | src/peer_client/binary_io.py:107-140 | the same when a reap at least timeout_ns after the mark comes first: the ECHO is lost then, and received and late once the answer has come, and lost no more |
| ClientTrips.FailedRun | src/peer_client/binary_io.py:43-47 | for every payload and time, a run in which writing the first ECHO fails: it is unsent, nothing is open or written, and the stop flag is set |
| ClientTrips.StatusReceived | src/peer_client/binary_io.py:64-82 | with telemetry on or off, for every time, mark and body, a run in which the first probe is written, marked sent, answered, counted and applied, with no alarm |
| ClientAlarms.NoFalseAlarms | src/peer_client/binary_io.py:107-126 | with telemetry on, or without ECHOs, mismatch, seq_mismatch and protocol_errors stay 0 in every run as long as nothing beyond the limit is written, which it never is if payloads leave room for the trailer |
| ClientAlarms.OffAlarm | src/protocol.py:350-351 | with telemetry off, for every payload within the limit and every time, a run in which the answer to the first ECHO is a protocol error |
| ClientAlarms.OversizeAlarm | src/protocol.py:307-323 | with telemetry on, for every payload within the limit that leaves no room for the trailer, every trailer and every time, a run in which what is cut from the answer is a protocol error |
| ClientAlarms.EmbeddedAlarm | src/protocol.py:307-323 | for every length beyond the limit and a time in reach, with telemetry on or off, a run in which a PDU that the first payload, of that length, ends in makes an alarm |
| ClientAlarms.DifferingRun | src/peer_client/binary_io.py:120-123 | with telemetry on, for every first payload that is not empty and within the limit, a run in which its request decodes, another payload arrives for it, and that is the only alarm |
| ClientAlarms.AlarmsIff | src/peer_client/binary_io.py:107-126 | for a client whose payloads have lengths between any two bounds, all runs keep the three alarms at 0 if and only if telemetry is on and the largest leaves room for the trailer, or none can be encoded |
| ClientAlarms.TelemetryOff | src/peer_client/binary_io.py:107-113 | with telemetry off and nothing beyond the limit written, nothing is received, and each ECHO answer that arrives counts as a protocol error and does nothing else |
| ClientAlarms.EmbeddedRun | src/protocol.py:307-323 | with telemetry off, for every length beyond the limit and a time in reach, a run in which what the first payload, of that length, ends in is received as its answer |
| ClientAlarms.NothingReceivedIff | src/peer_client/binary_io.py:107-113 | for a client whose payloads have lengths between any two bounds, with telemetry off, nothing is received in any run if and only if the largest is within the limit, or none can be encoded |
| Schedule.PlanKept | src/peer_client/schedule.py:18-38 | every step keeps the next instant at the start plus all draws, and the offers on the plan |
| Schedule.NoDriftNoSkip | src/peer_client/schedule.py:18-38 | the k-th offer is planned for the start plus the first k draws however long waits and sends take; none is skipped and none is early |
| Schedule.BacklogBound | src/peer_client/schedule.py:31-36 | the queue holds at most max_pending while sched_stop is clear, and at most one more ever |
| Schedule.BacklogBoundIsReached | src/peer_client/schedule.py:34-36 | for every max_pending some run reaches max_pending + 1 |
| Schedule.OneMoreAfterStop | src/peer_client/schedule.py:21-38 | after sched_stop at most one more draw is made and at most one more request is offered, and not both; where neither is pending, neither comes |
| Schedule.OneMoreAfterStopped | src/peer_client/schedule.py:21-38 | the same after the other stop flag: at most one more draw or one more offer, and none where the flag is yet to be tested |
| Schedule.EndsSoon | src/peer_client/schedule.py:21-36 | after sched_stop the scheduler ends within seven steps of its own, however far off the next instant is and however full the queue; until then it always has a step |
| Schedule.DrawAfterStop | src/peer_client/schedule.py:21-22 | some run does make a draw after sched_stop: it is set between the test and the draw |
| Timing.CounterSeries.AddTo | src/traffic/timing.py:45-52 | the counts after add, pruning included |
| Timing.CounterSeries.PruneOver | src/traffic/timing.py:48-52 | pruning removes exactly the slices older than the newest less keep, and only when there are more than keep |
| Timing.CounterSeries.ReplaceWindow | src/traffic/timing.py:54-63 | the counts after a window is laid over them |
| Timing.AddedAt | src/traffic/timing.py:45-52 | slice by slice after add: what it holds, and that it is dropped exactly if there are more than keep slices and it is more than keep older |
| Timing.ReplacedAt | src/traffic/timing.py:54-63 | slice by slice after a window is laid in: the window's value inside it, the old count outside, dropped exactly as after add |
| Timing.CacheExact | src/traffic/timing.py:45-52 | through any counts and any changes of keep, the cache holds the true total of every slice that was never behind a pruning cutoff |
| Timing.HorizonOfFixedKeep | src/traffic/timing.py:45-52 | with a fixed keep those are the slices from the newest less keep on |
| Timing.WindowExact | src/traffic/timing.py:70-72 | a window read from the cache is the full histogram's, as far back as the horizon |
| Timing.CacheSize | src/traffic/timing.py:45-52 | at most keep + 1 + d slices are held when none arrives more than d late |
| Timing.MirrorShifts | src/traffic/timing.py:54-72 | a window laid in reads back for its first keep + 1 slices, and d slices later behind d zeros |
| Mirror.WindowIsMirrored | src/peer_client/binary_io.py:164-178 | whatever STATUS bodies came before, the client shows the server's window, counts capped at 65535, for as many slices as both keep; later shifted right behind zeros |
| Mirror.AnswerIsMirrored | src/peer_server.py:481-485 | the same for the body as it arrives in the server's answer to any STATUS request |
| Mirror.CountedIsShown | src/peer_server.py:191-219 | once such an answer is applied, what the client shows for a slice is the number the server ever counted for it, capped, if the server's series covers the window |
| Mirror.WindowAlwaysCovered | src/peer_server.py:87-88 | a series that keeps twice its window covers every window that ends near its newest slice |
| BitReversal.NextPow2 | src/web_raw3d.js:115-119 | the least power of two that is at least the argument |
| BitReversal.NextPow2EndsIff | src/web_raw3d.js:115-119 | on 32-bit integers the loop ends if and only if the argument is at most 2^30 |
| BitReversal.RevRev | src/web_raw3d.js:122-126 | reversing the bits twice gives the index back |
| BitReversal.NextReversed | src/web_raw3d.js:123-125 | the carry loop turns the reversal of i - 1 into the reversal of i |
| BitReversal.BitReverseInPlace | src/web_raw3d.js:122-130 | for lengths up to 2^30 both arrays end up permuted by bit reversal |
| BitReversal.BitReversedTwice | src/web_raw3d.js:122-130 | the permutation undoes itself |
| Fft.FourthRoots | src/web_raw3d.js:132-133 | the exact roots of lengths 1, 2 and 4 obey the twiddle laws |
| Fft.HalfTurn | src/web_raw3d.js:132-133 | from the two twiddle laws: a root raised to half its length is -1 |
| Fft.CombinedIsDft | src/web_raw3d.js:136-145 | butterflies turn the transforms of the even and the odd part into the transform of the whole |
| Fft.CombineBlock | src/web_raw3d.js:135-145 | the innermost loop puts the butterflies of one block in place and leaves the rest of the arrays alone |
| Fft.Stage | src/web_raw3d.js:131-147 | one stage turns transforms of length len/2 into transforms of length len, block by block |
| Fft.StagesEndIff | src/web_raw3d.js:131 | on 32-bit integers the stage length comes to exceed the length 2^m of the arrays if and only if m is at most 29 |
| Fft.AllStages | src/web_raw3d.js:131-147 | for lengths up to 2^29, after all stages the array is one block, the transform of the permuted input undone |
| Fft.Fft1d | src/web_raw3d.js:120-148 | for every power of two up to 2^29, for which the stage loop ends, and every input the arrays end as the discrete Fourier transform, output k being the sum of x[j] root(n)^(jk) |
| Analysis.PercentileOfPermutation | src/traffic/analysis.py:26-37 | a percentile does not depend on the order of the samples |
| Analysis.PercentileIs | src/traffic/analysis.py:26-37 | at (n - 1) p / 100 = r + f the percentile is the fraction f of the way from the r-th value to the next, the r-th value being the one with at least r + 1 samples at most it and n - r at least it |
| Analysis.NthExists | src/traffic/analysis.py:29 | there is such a value for every place |
| Analysis.NthUnique | src/traffic/analysis.py:29 | and only one |
| Analysis.PercentileMonotone | src/traffic/analysis.py:26-37 | a higher percentile is never smaller |
| Analysis.PercentileEnds | src/traffic/analysis.py:26-37 | the 0th is the minimum and the 100th the maximum |
| Analysis.SummaryIs | src/traffic/analysis.py:40-58 | the report gives the number of samples, the extremes and the 50th, 90th, 95th and 99th percentile, each rounded to the nearest tenth, a tie to the even one |
| Analysis.SummaryInOrder | src/traffic/analysis.py:40-58 | the reported min, p50, p90, p95, p99 and max, rounded to tenths, stand in order |
| Analysis.SummaryOfPermutation | src/traffic/analysis.py:40-58 | the report does not depend on the order of the samples |

## Left out

- Sockets, TLS, SSH children, `select`, thread start and join times, the HTTP dashboard, drawing, i18n and the command line: I/O or foreign calls.
- The NDJSON stdio transport and `UdpSeal`: JSON, UTF-8, base64, hashes and random numbers come from libraries.
- The server's UDP threads: one shared queue pair, the same handler as on TCP, no order promised.
- Floating point: the FFT, the percentiles and the schedule use exact reals; Float32 storage and rounding errors are not modelled.
- The twiddles' own values: `cos` and `sin` enter as a function `root` with root(2) = -1 and root(2L)^2 = root(L).
- Live changes of `bucket_ms`, which rescale slice ids under existing keys: the bucket is fixed.
- The draws' distribution: they are any non-negative reals.
- `queued`, the unsent counterpart of `waiting`; `note_depth`, byte counters, session totals, skew, jitter and sample windows: nothing modelled depends on them.
- The mean and the standard deviation of a summary, histograms, `best_lag` and `build_notes`.
- A write that fails halfway: a failed `sendall` puts nothing on the network, and a connection lost halfway delivers no part of a PDU.
- What a server reports about itself: the trailer and the STATUS snapshot of an answer are any in range (`Answers.IsAnswer`), not the counters of the server machine at that time.
- Schedule.BacklogBound: the scheduler machine counts the queue and not its contents; those are in the client machine, in which the scheduler may find room, or none, at any length of the queue.
