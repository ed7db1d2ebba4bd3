# Verified models of the tunnel's protocols

OpenFlux carries IP packets over carriers that lose, delay, repeat and reorder what they are given. This
project models the protocols that make that bearable and proves what they are for.

* **The striped link** (`Seq32`, `AckWire`, `Acks`, `Reorder`, `ReorderBuffer`, `Flight`, `RoundTrip`, `SenderRing`,
  `Departures`, `SendRuns`, `SendSteps`, `Frames`, `FrameQueue`, `CodelDrops`, `Link`, `LinkAcks`, `LinkSteps`,
  `Restarts`): retransmission over many lanes. `Reorder` and `Flight` are references over unbounded indices; the classes
  `ReorderBuffer` and `Sender` work on rings of 2^15 slots with wrapping 32-bit numbers and are proved to compute them.
  `Link` runs one sender, its frame queue and one receiver against a network that may deliver any cut piece and any sent
  ack any number of times, in any order, or never; `LinkAcks` says what an ack does there, `LinkSteps` ties the steps to
  the objects, and `Restarts` puts the runs of one sender after another before the same receiver. `SendRuns` holds the
  sender against the history of what left, `CodelDrops` the queue against the history of its drops.
* **The session** (`Envelope`, `ReplayWindow`, `SessionState`, `Session`, `SessionNet`, `SessionRuns`, `SessionCalls`,
  `Takeover`, `Handshake`, `HandshakeTimers`): the challenge-echo handshake, peer replacement, sequenced data and the
  bit-ring replay window. `SessionNet` runs any number of sessions over a wire from which everything ever sent can be
  received again, `SessionRuns` says what holds in every such run, `SessionCalls` what one call does in the fields and
  bytes of its packet, `Takeover` how a restarted peer gets in, `Handshake` follows one hello exchange to its end, and
  `HandshakeTimers` runs it with its timers.
* **Fragments** (`Fragment`, `Reassembly`, `ReassemblyTimes`, `Reassembler`): 24 reassembly slots with eviction and
  timeout.
* **The cups.online stream** (`Records`, `CupsStream`, `CupsRoom`, `CursorText`, `CursorParse`, `CursorRelay`):
  bytes in 48-bit cursor numbers, the hand-written printer and parser, one buffer per member.
* **Batches** (`Batch`), **the H.264 bit writer** (`ExpGolomb`) and **checksums** (`Checksum`).

A class is the code's object; its methods are proved against functions over values, and the lemmas are about those
functions. Locked sections are atomic steps, time is an argument, and what the cryptography and the compressor
promise is assumed: only what was sent is received, a drawn challenge was never drawn before and is not zero, and
decompression undoes compression. `dafny verify dfyconfig.toml` checks everything.

What the proofs showed to be false of the code is stated with its exact condition:

* `CursorRelay.RelayIsRead`: a sender id that is one of the two keys falls back to the JSON decoder.
* `ExpGolomb.ReadBackExactly`: ue(2^32-1) writes nothing and se(-2^31) writes the code of zero.
* `Checksum.FoldsExactly`: a 32-bit sum overflows, first at 131075 bytes (`Checksum.OneByteTooMany`).
* `Reassembly.CuttableFitsExactly`: with `TELEMOST_FRAG_BYTES` over 4120 frames are cut that are never put together.
* `Reassembly.OutOfRangeExactly`: a fragment whose index is past the count of the slot open under its tag ends the
  code (`Reassembly.TwoBodiesGoOutOfRange`).
* `CupsStream.TakesAllExactly`, `CupsRoom.ExactWithoutEmptyPackets`: an empty packet, which the sender does not
  refuse, loses what is buffered behind it (`CupsStream.EmptyPacketDropsTheRest`).
* `Handshake.ReadyExactly`: the exit is never ready when none of the client's replies gets through, and it does not
  ask again (`Handshake.LostReplyStalls`, for good by `HandshakeTimers.StallIsPermanent`).
* `SendRuns.CrashesExactly`: when a piece has left a multiple of 256 times its eight-bit count is zero, and timing it
  shifts by a negative amount (`SendSteps.LostTooOften`).
* `Link.DeliversAStretch`: the first piece handed up is the first cut only if the first to arrive is less than half a
  window past it (`LinkSteps.LateStartLosesAFrame`).

## Model

| member | source | states |
|---|---|---|
| Link.LosslessLink | examples/moduleopenflux/native/openflux/transport/striped.go:909-981 | In every run over lanes that lose, duplicate and reorder pieces and acks: the low mark never passes the receiver, the receiver never passes what was cut, at most a ring of pieces is in flight, with the bytes they were cut with, and no arrival makes the receiver restart or give up on a hole |
| Link.DeliversAStretch | examples/moduleopenflux/native/openflux/transport/striped.go:1340-1415 | While no hole timed out, what was handed up is a gap-free stretch of the cut pieces, byte for byte and in order; it starts at the first piece cut if the first to arrive is less than half a window past it, and at the first to arrive otherwise |
| Link.AckSoundness | examples/moduleopenflux/native/openflux/transport/striped.go:1119-1189 | Even with holes given up on and acks late, repeated or overtaken: a piece the sender released was buffered, handed up or given up on, and if buffered then with its bytes |
| Link.NoSplicedFrames | examples/moduleopenflux/native/openflux/transport/striped.go:414-438 | In every run, from frames enqueued to frames handed up: whatever CoDel dropped and whatever holes were given up on, the frames handed up are an in-order, byte-for-byte subsequence of the frames enqueued |
| Link.EveryFrameArrives | examples/moduleopenflux/native/openflux/transport/striped.go:1032-1078 | In every run with no drop, no hole and a first arrival less than half a window from the start, the frames handed up are exactly the frames enqueued, up to the one being received; once everything was cut and arrived, all of them |
| Restarts.NoSpliceOverRestarts | examples/moduleopenflux/native/openflux/transport/striped.go:1340-1399 | Over any number of sender restarts, each recognized by a first arrival outside the window, the frames handed up are an in-order, byte-for-byte subsequence of the frames enqueued in one run after the other: no frame spans two runs |
| Restarts.FeedAnew | examples/moduleopenflux/native/openflux/transport/striped.go:1382-1389 | After a restart the receiver holds and hands up, behind a marked gap, exactly what a new receiver would |
| Link.RunKeeps | examples/moduleopenflux/native/openflux/transport/striped.go:909-981 | The link invariant (sender, receiver, every ack on its way) survives every step of every run |
| Link.RunKeepsQueue | examples/moduleopenflux/native/openflux/transport/striped.go:1032-1078 | However enqueueing and pulling take turns, the pieces cut are at every moment the first pieces of the frames CoDel kept |
| Link.ArrivalIsInWindow | examples/moduleopenflux/native/openflux/transport/striped.go:1340-1399 | An arriving piece is read under its true unbounded index, the stream is begun where the code begins it, and it always fits the window |
| Link.ReleasesTruthfully | examples/moduleopenflux/native/openflux/transport/striped.go:1119-1189 | What any ack on its way releases the receiver has, and the new low mark is not past what the receiver waits for |
| LinkAcks.AckDoes | examples/moduleopenflux/native/openflux/transport/striped.go:1119-1189 | Any ack that arrives, however old: if its cumulative mark and its top are at most a ring behind the flight and not ahead of it, exactly the pieces it reports leave the flight and the low mark moves up to its mark; if not, nothing changes |
| LinkAcks.PresentAckReleases | examples/moduleopenflux/native/openflux/transport/striped.go:1119-1189 | An ack of what the receiver has at present is never ignored: it leaves in flight exactly the pieces the receiver does not have (and, of a report cut short at 100 runs, those above its top), and the low mark is then what the receiver waits for |
| LinkAcks.LastAckEndsTheFlight | examples/moduleopenflux/native/openflux/transport/striped.go:1119-1189 | In every run: once everything sent has reached the receiver, the ack that says so leaves nothing in flight to resend |
| Link.PullSendsCutPieces | examples/moduleopenflux/native/openflux/transport/striped.go:909-981 | Every frame a pull puts out after the ack is the wire form of some piece that was cut, resends and spare copies included |
| Link.ArrivalReads | examples/moduleopenflux/native/openflux/transport/striped.go:1340-1380 | The bytes of a piece on the wire are read by the receiver as its number, the low mark it was cut under and its data |
| LinkSteps.PullIsAStep | examples/moduleopenflux/native/openflux/transport/striped.go:909-981 | What a pull of the sender object promises is a pull of the run: the pieces it cut are the next ones of the frames kept |
| LinkSteps.AckIsAStep | examples/moduleopenflux/native/openflux/transport/striped.go:1119-1189 | What the sender object promises on the bytes of any ack that was sent, whatever bytes follow, is an arrival of that ack in the run |
| LinkSteps.AckFrameIsAStep | examples/moduleopenflux/native/openflux/transport/striped.go:1469-1503 | The bytes the receiver object makes of an ack are those of an ack the run may send |
| LinkSteps.ArrivalIsAStep | examples/moduleopenflux/native/openflux/transport/striped.go:1340-1380 | What the receiver object makes of the bytes of a piece is an arrival of that piece in the run |
| LinkSteps.LateStartLosesAFrame | examples/moduleopenflux/native/openflux/transport/striped.go:1393-1399 | A run in which the piece half a window past the first one arrives first: the receiver begins there, hands up nothing of the frame, and drops every earlier piece that comes after |
| Seq32.DiffIsDistance | examples/moduleopenflux/native/openflux/transport/striped.go:1337 | The wrapped comparison orders indices that are less than half the number space apart |
| Seq32.NearRecovers | examples/moduleopenflux/native/openflux/transport/striped.go:1337 | The index nearest a known one is recovered from its 32-bit number |
| ReorderBuffer.ReorderBuffer.Push | examples/moduleopenflux/native/openflux/transport/striped.go:1340-1380 | For every piece, wrapped numbers and all restarts included, the ring computes the reference map and stays consistent with it |
| ReorderBuffer.ReorderBuffer.DrainLocked | examples/moduleopenflux/native/openflux/transport/striped.go:1401-1415 | The ring hands up exactly what the map holds from the next index on |
| ReorderBuffer.ReorderBuffer.LowestLocked | examples/moduleopenflux/native/openflux/transport/striped.go:1419-1426 | Finds the first buffered number, or the limit |
| ReorderBuffer.ReorderBuffer.SkipToLocked | examples/moduleopenflux/native/openflux/transport/striped.go:1428-1436 | Skipping ahead agrees with the map and marks the gap |
| ReorderBuffer.ReorderBuffer.StartAt | examples/moduleopenflux/native/openflux/transport/striped.go:1393-1399 | Begins at the low mark if it is less than half a window back, else at the piece |
| ReorderBuffer.ReorderBuffer.ResyncLocked | examples/moduleopenflux/native/openflux/transport/striped.go:1382-1389 | A restarted sender clears the ring and begins anew, with the gap marked |
| ReorderBuffer.ReorderBuffer.Expire | examples/moduleopenflux/native/openflux/transport/striped.go:1438-1459 | One turn of the hole timer skips exactly the holes whose next piece waited too long |
| ReorderBuffer.ReorderBuffer.AckFrame | examples/moduleopenflux/native/openflux/transport/striped.go:1469-1503 | The frame encodes an ack that reports exactly what is buffered up to its top, at most 100 runs, the top buffered when truncated |
| Acks.RunsAreMaximal | examples/moduleopenflux/native/openflux/transport/striped.go:1469-1503 | Every run of an ack is missing throughout and both its neighbours have arrived |
| Acks.ListedReports | examples/moduleopenflux/native/openflux/transport/striped.go:1469-1503 | A finished scan of the ring is a truthful ack |
| AckWire.DecodeEncode | examples/moduleopenflux/native/openflux/transport/striped.go:1119-1189 | An encoded ack is read back by the sender as it was |
| Reorder.DrainFacts | examples/moduleopenflux/native/openflux/transport/striped.go:1401-1415 | Draining hands up the unbroken stretch from the next index, in order, the first piece marked if a gap precedes it, and keeps the rest |
| Reorder.GiveUpFacts | examples/moduleopenflux/native/openflux/transport/striped.go:1340-1380 | Making room skips only holes, hands up what was buffered, never passes the arriving piece, and does nothing when the piece fits |
| Reorder.FileKeepsOk | examples/moduleopenflux/native/openflux/transport/striped.go:1340-1380 | Between calls every buffered index lies strictly inside the window and the highest seen is buffered or was the last one passed |
| Reorder.FileKeepsOut | examples/moduleopenflux/native/openflux/transport/striped.go:1340-1415 | Pieces come out in order and one is marked exactly if it does not follow the last |
| Reorder.ExpireFacts | examples/moduleopenflux/native/openflux/transport/striped.go:1438-1459 | The hole timer loses no buffered piece and keeps order and marks |
| Reorder.ExpireExactly | examples/moduleopenflux/native/openflux/transport/striped.go:1438-1459 | The timer passes a hole exactly if the piece after it waited longer than the deadline, and stops at the first that did not |
| Reorder.BufferedComesUp | examples/moduleopenflux/native/openflux/transport/striped.go:1401-1459 | Draining, skipping, making room and expiring lose nothing: a piece that is not buffered any more was handed up with its bytes |
| Reorder.PositionOk | examples/moduleopenflux/native/openflux/transport/striped.go:1340-1399 | After a start or a restart the piece is near the window |
| Reorder.PushWhere | examples/moduleopenflux/native/openflux/transport/striped.go:1340-1399 | In indices, a piece from a ring below what is awaited to two rings above is filed under its index; any other makes the receiver begin anew, at the piece or the low mark less than half a ring back |
| SenderRing.Sender.Pull | examples/moduleopenflux/native/openflux/transport/striped.go:909-981 | A pull computes, on the ring with wrapped numbers, the resends of the queue walk, then new pieces until room, ring or queue is exhausted, then the overdue copies, and puts out exactly their bytes behind the ack |
| SenderRing.Sender.Retransmit | examples/moduleopenflux/native/openflux/transport/striped.go:926-953 | The in-place walk over the queue computes the reference walk |
| SenderRing.Sender.SendNew | examples/moduleopenflux/native/openflux/transport/striped.go:954-975 | A new piece takes the next number, its own slot and a header with the low mark |
| SenderRing.Sender.Duplicates | examples/moduleopenflux/native/openflux/transport/striped.go:991-1011 | Copies exactly the oldest overdue pieces, sent once and on another lane, among 512 numbers, as room allows |
| SenderRing.OverdueExactly | examples/moduleopenflux/native/openflux/transport/striped.go:991-1011 | Copies go, oldest first and as many as there is room for, to the pieces among the oldest 512 numbers that wait for no resend, have no copy, left on another lane, and are at least five quarters of the round trip and 40 ms old; to none before a round trip is known |
| SenderRing.Sender.OnAck | examples/moduleopenflux/native/openflux/transport/striped.go:1119-1189 | For any bytes: an unacceptable ack changes nothing, the round-trip figures included; an accepted one releases exactly the reported pieces, credits the lanes, feeds the estimate the shortest round trip that a released piece tells (sent once and not overtaken by a spare copy, none of them taking no time), and then queues what is lost |
| SenderRing.Sender.DetectLocked | examples/moduleopenflux/native/openflux/transport/striped.go:1232-1254 | Queues exactly what the loss rule says, once each, or ends with a negative shift exactly if some piece neither queued nor overtaken has a count of zero |
| SenderRing.Sender.Rto | examples/moduleopenflux/native/openflux/transport/striped.go:1209-1221 | 500 ms before a sample; then the smoothed round trip, four deviations and two ack intervals, held between 50 ms and 2 s |
| SenderRing.Sender.RttSample | examples/moduleopenflux/native/openflux/transport/striped.go:1191-1205 | Sets the smoothed round trip, its deviation and the minimum, which a smaller sample renews, or any sample ten seconds later or when there is none |
| RoundTrip.MovesAnEighth | examples/moduleopenflux/native/openflux/transport/striped.go:1191-1205 | A sample moves the smoothed round trip an eighth of the way to it and the deviation a quarter of the way to the distance, rounded down (section 2.3 of RFC 6298) |
| RoundTrip.SmoothedWithin | examples/moduleopenflux/native/openflux/transport/striped.go:1191-1205 | After any samples the smoothed round trip lies among them and its deviation within their spread |
| RoundTrip.MinIsOfLate | examples/moduleopenflux/native/openflux/transport/striped.go:1191-1205 | The minimum is one of the samples, with the time it was taken; no sample since is smaller and none came more than ten seconds after it |
| SenderRing.Sender.constructor | examples/moduleopenflux/native/openflux/transport/striped.go:879-885 | Starts with nothing in flight at any first number |
| SendRuns.RunKeeps | examples/moduleopenflux/native/openflux/transport/striped.go:909-981 | In every run of new pieces, resends, spare copies, acks and looks for losses, what the sender keeps is what the history of departures says: of a piece when, on which lane and as which one there it last left and how often in eight bits; of a lane the last departure that an ack showed to have come through |
| SendRuns.CrashesExactly | examples/moduleopenflux/native/openflux/transport/striped.go:1232-1254 | In every state of every run the next look for losses ends the code exactly if some piece neither queued nor overtaken on its lane has left a multiple of 256 times |
| SendRuns.LookQueuesExactly | examples/moduleopenflux/native/openflux/transport/striped.go:1232-1254 | In every state of every run, a look at any time with any timeout queues a piece exactly if a departure after its last one on that lane has come through, or its last departure is one timeout old, two if it has left before |
| SendRuns.LossBorders | examples/moduleopenflux/native/openflux/transport/striped.go:1232-1254 | The borders one by one: a first send is queued from one timeout on and not before, a resend from two, an overtaken piece at once |
| SendRuns.SampleIsARoundTrip | examples/moduleopenflux/native/openflux/transport/striped.go:1140-1163 | What an ack feeds the estimate is the time since the one departure of a released piece, of which no spare copy can have come through |
| SendSteps.LostTooOften | examples/moduleopenflux/native/openflux/transport/striped.go:926-953 | A piece that is lost 255 times in a row and sent again each time gets there: none of the looks on the way ends the code, and the next one does |
| SendSteps.PullSplits | examples/moduleopenflux/native/openflux/transport/striped.go:909-981 | How a pull spends its room: on the pieces that wait and may leave on this lane, in queue order; on new pieces; on copies of the oldest overdue pieces, of those in flight before the pull, with what is left; a dead lane gets no resends and no copies |
| SendSteps.PullIsARun | examples/moduleopenflux/native/openflux/transport/striped.go:909-981 | What a pull of the sender object promises is such a run, and what leaves in it are the pieces resent, then the new ones under the next numbers |
| SendSteps.AckIsARun | examples/moduleopenflux/native/openflux/transport/striped.go:1119-1189 | So is what an accepted ack promises, while no look for losses ends the code |
| Flight.ResendFacts | examples/moduleopenflux/native/openflux/transport/striped.go:926-953 | A walk drops no piece and changes no bytes; what goes out was waiting, what still waits is kept once, and never more goes out than there is room for |
| Flight.ResendKeepsOk | examples/moduleopenflux/native/openflux/transport/striped.go:926-953 | After the walk a piece is in the queue exactly once if marked and not at all otherwise |
| Flight.ResendExactly | examples/moduleopenflux/native/openflux/transport/striped.go:926-953 | A walk sends, in queue order and as many as there is room for, the first pieces waiting that may leave on the lane (not while others work and the piece left there less than two timeouts ago), and keeps the rest in order |
| Flight.AcceptsExactly | examples/moduleopenflux/native/openflux/transport/striped.go:1128-1136 | In indices, an ack is applied exactly if its cumulative mark lies from a ring below the low mark to one past the last number and its top from a ring and one below to the last number |
| Flight.ReleasesWhatIsReported | examples/moduleopenflux/native/openflux/transport/striped.go:1119-1189 | The walk over an ack's runs releases an index exactly if it is below the cumulative mark, or not above the top and in no run |
| Flight.AckedKeepsOk | examples/moduleopenflux/native/openflux/transport/striped.go:1119-1189 | Any accepted ack keeps the books and never moves the low mark back |
| Flight.NewLowIs | examples/moduleopenflux/native/openflux/transport/striped.go:1119-1189 | An accepted ack moves the low mark to at most one past the last number |
| Flight.DetectFacts | examples/moduleopenflux/native/openflux/transport/striped.go:1232-1254 | Detection marks exactly the lost pieces and changes nothing else about any piece |
| Flight.DetectLeavesNoneLost | examples/moduleopenflux/native/openflux/transport/striped.go:1232-1254 | Right after detection a piece not queued was not overtaken on its lane and left less than two timeouts ago |
| Flight.FramedReads | examples/moduleopenflux/native/openflux/transport/striped.go:954-975 | A framed piece carries its number, the low mark and its bytes |
| Frames.Assembler.DeliverPiece | examples/moduleopenflux/native/openflux/transport/striped.go:414-438 | Putting pieces together computes the reference assembler |
| Frames.NoSplice | examples/moduleopenflux/native/openflux/transport/striped.go:414-438 | From any in-order selection of the pieces, gaps marked, the assembler hands up only whole frames that were cut, in order, and what it holds is a prefix of one |
| Frames.NothingLost | examples/moduleopenflux/native/openflux/transport/striped.go:414-438 | From an unbroken stretch it hands up exactly the frames cut so far |
| Frames.CutStable | examples/moduleopenflux/native/openflux/transport/striped.go:1032-1059 | Queueing further frames does not change the pieces already cut |
| FrameQueue.FrameQueue.NextPiece | examples/moduleopenflux/native/openflux/transport/striped.go:1032-1059 | Cuts the next piece of the frames kept, at most one flag and a piece's bytes, and as much as that if another one of its frame follows; none only when the queue is empty |
| FrameQueue.FrameQueue.Dequeue | examples/moduleopenflux/native/openflux/transport/striped.go:1063-1078 | Takes the oldest frame the CoDel rule lets through, every frame before it dropped by the rule |
| FrameQueue.FrameQueue.Enqueue | examples/moduleopenflux/native/openflux/transport/striped.go:888-898 | Accepts a frame exactly if it fits the limit; frames are conserved and the byte count is their sum |
| FrameQueue.DropExactly | examples/moduleopenflux/native/openflux/transport/striped.go:1080-1112 | A frame is dropped exactly when every look since some earlier one found a long wait with two pieces' bytes queued, that stretch (never run dry) has lasted a full interval, and the next drop is due (section 5 of RFC 8289) |
| CodelDrops.DropsWhenDue | examples/moduleopenflux/native/openflux/transport/striped.go:1080-1116 | In every history of looks a frame is dropped exactly if long waits have stood for an interval and, if they have since the last drop, the next one is due, where count and due time are told from the earlier drops alone: one more in a spell, two less than before if a new spell comes within 16 intervals, else one (section 5 of RFC 8289) |
| CodelDrops.Paced | examples/moduleopenflux/native/openflux/transport/striped.go:1080-1116 | Within a spell the next drop comes exactly at the first look at or after the time it is due, and the one after that is due the control law's time for one more later |
| CodelDrops.SpellBegins | examples/moduleopenflux/native/openflux/transport/striped.go:1080-1116 | A new spell drops at its first look |
| CodelDrops.ShortWaitsAreKept | examples/moduleopenflux/native/openflux/transport/striped.go:1080-1116 | No frame is dropped that waited less than the target or left fewer than two pieces' bytes behind it |
| CodelDrops.LongWaitsAreDropped | examples/moduleopenflux/native/openflux/transport/striped.go:1080-1116 | After an interval of long waits the first drop has come |
| FrameQueue.FirstAboveIsStreak | examples/moduleopenflux/native/openflux/transport/striped.go:1080-1112 | The remembered time is one interval after the present stretch of long waits began |
| FrameQueue.KeptPicks | examples/moduleopenflux/native/openflux/transport/striped.go:1063-1078 | The frames kept are an in-order subsequence of those enqueued |
| ReplayWindow.ReplayWindow.Accept | examples/moduleopenflux/native/openflux/transport/session.go:1532-1556 | For every sequence of calls the 64-word bit ring accepts exactly as the set of accepted numbers says, after any jump |
| ReplayWindow.AcceptsExactly | examples/moduleopenflux/native/openflux/transport/session.go:1532-1556 | A number is accepted iff it is not zero, was not called before and is less than 4096 behind every number called before |
| ReplayWindow.AcceptsAtMostOnce | examples/moduleopenflux/native/openflux/transport/session.go:1532-1556 | No number is accepted twice |
| ReplayWindow.ReplayWindow.SetBit | examples/moduleopenflux/native/openflux/transport/session.go:1520-1523 | Sets one number's bit and no other in the window |
| ReplayWindow.ReplayWindow.ClearBit | examples/moduleopenflux/native/openflux/transport/session.go:1525-1528 | Clears one number's bit and no other in the window |
| ReplayWindow.ReplayWindow.SkipOver | examples/moduleopenflux/native/openflux/transport/session.go:1539-1545 | Forgets exactly the numbers skipped over, bits left by a full turn included |
| Envelope.Encode | examples/moduleopenflux/native/openflux/transport/control/control.go:89-127 | Encodes exactly the well-formed envelopes, into the 78-byte layout |
| Envelope.Decode | examples/moduleopenflux/native/openflux/transport/control/control.go:133-176 | Reads an envelope exactly when the packet starts with one and, for a control message, has the announced length and zero reserved bytes |
| Envelope.EncodedIsRead | examples/moduleopenflux/native/openflux/transport/control/control.go:89-176 | An encoded envelope with its payload is read back as it was, and as nothing else |
| Envelope.ReadsUnique | examples/moduleopenflux/native/openflux/transport/control/control.go:133-176 | No packet starts with two different envelopes |
| Session.Session.ReceiveHello | examples/moduleopenflux/native/openflux/transport/session.go:1234-1324 | Computes the reference handshake step, every reject included |
| Session.Session.OfferReplacementLocked | examples/moduleopenflux/native/openflux/transport/session.go:1326-1405 | Computes the replacement step: candidate, rate limit, expiry and takeover |
| Takeover.StrangerIsOffered | examples/moduleopenflux/native/openflux/transport/session.go:1326-1405 | To a ready session a stranger's hello with no echo, none pending and none drawn within the last second, is answered with the challenge drawn, and nothing else changes |
| Takeover.TakesOverInTime | examples/moduleopenflux/native/openflux/transport/session.go:1326-1405 | Of the strangers' hellos that can come next exactly the one that echoes that challenge from the same sender within 20 s takes over: ready under it with the new peer, agreed anew, counter and window empty; any other leaves the session with its old peer |
| Takeover.SameOfferAgain | examples/moduleopenflux/native/openflux/transport/session.go:1326-1405 | The same stranger asking again in that time is offered the same challenge |
| Takeover.OneDrawASecond | examples/moduleopenflux/native/openflux/transport/session.go:1326-1405 | Another stranger is not heard within a second of the draw, and is offered a challenge of its own after it |
| Takeover.PeerKeepsTheTerms | examples/moduleopenflux/native/openflux/transport/session.go:1234-1324 | No hello from its own peer changes anything about a ready session |
| SessionCalls.ValidExactly | examples/moduleopenflux/native/openflux/transport/session.go:236-243 | Parameters are valid exactly if they have IPv4 and TCP and no unknown bit, and a size from 1280 to 65000 |
| SessionCalls.OthersAreIgnored | examples/moduleopenflux/native/openflux/transport/session.go:1234-1263 | A hello without a tail, with reserved bits, a ready mark over 1, no challenge, capabilities other than 3, 7, 19 or 23 or a size outside 1280 to 65000 changes nothing and gets no answer |
| SessionCalls.BeforeReady | examples/moduleopenflux/native/openflux/transport/session.go:1264-1324 | Before a session is ready, an echo of its challenge makes it ready with the sender on the common terms, a hello with no echo names the sender, a stale echo does nothing; answered are the first and any hello of a new sender |
| SessionCalls.OfItsPeer | examples/moduleopenflux/native/openflux/transport/session.go:1264-1324 | A ready session answers its peer exactly if that says it is not ready yet, on the terms agreed, with no echo or the present one |
| SessionCalls.StartsAnew | examples/moduleopenflux/native/openflux/transport/session.go:647-657 | After a restart nothing goes out or comes in until a hello echoes the new challenge; then counter and window begin anew |
| Session.Session.ResetLocked | examples/moduleopenflux/native/openflux/transport/session.go:647-657 | Starts over with an empty window, under a fresh challenge or, if none could be drawn, the old one |
| Session.Session.Send | examples/moduleopenflux/native/openflux/transport/session.go:969-1023 | Numbers a permitted packet under the present challenges, or says why not |
| Session.Session.ReceiveIPv4 | examples/moduleopenflux/native/openflux/transport/session.go:1407-1452 | Hands up a packet exactly if it names the present challenges, is permitted and fresh |
| Session.Session.constructor | examples/moduleopenflux/native/openflux/transport/session.go:207-234 | A new session knows no peer |
| SessionRuns.ReadyIsFresh | examples/moduleopenflux/native/openflux/transport/session.go:1234-1299 | In every reachable state a ready session has received a hello, sent by the other role, from its current peer that echoes its current challenge |
| SessionRuns.PeersAgree | examples/moduleopenflux/native/openflux/transport/session.go:1234-1299 | Two ready sessions naming each other hold the same parameters, what both can do, so what one lets out the other lets in |
| SessionRuns.NeverBarred | examples/moduleopenflux/native/openflux/transport/session.go:1104-1126 | A data packet that reaches the ready session it was sent to is never refused as not permitted: it is handed up exactly if the window lets it through |
| SessionRuns.NewPacketIsTaken | examples/moduleopenflux/native/openflux/transport/session.go:969-1023 | In every reachable state: a packet the agreed terms let pass goes out under the next number, and the ready peer it goes to takes it if it comes in as the newest |
| SessionRuns.AtMostOnce | examples/moduleopenflux/native/openflux/transport/session.go:1407-1452 | Over any number of restarts and replacements no data packet is handed up twice, by one session or several, and what is handed up was sent to the session that drew the challenge it echoes |
| SessionRuns.NamesOnePacket | examples/moduleopenflux/native/openflux/transport/session.go:969-1023 | Each (sender challenge, recipient challenge, number) names one packet |
| SessionRuns.EverySendIsNew | examples/moduleopenflux/native/openflux/transport/session.go:969-1023 | Every send uses a name nothing on the wire has |
| SessionRuns.RunKeeps | examples/moduleopenflux/native/openflux/transport/session.go:1191-1225 | The invariant over all sessions, the wire and the log survives every step of every run |
| SessionState.CommonIsMutual | examples/moduleopenflux/native/openflux/transport/session.go:1291-1299 | What two ends agree on does not depend on which end computes it |
| SessionCalls.CommonIsBoth | examples/moduleopenflux/native/openflux/transport/session.go:1291-1299 | A capability is agreed exactly if both ends have it, and the size agreed is the smaller one |
| SessionState.AndIsBitwise | examples/moduleopenflux/native/openflux/transport/session.go:1291-1299 | The capabilities agreed are, bit by bit, those both ends have |
| SessionState.PassesExactly | examples/moduleopenflux/native/openflux/transport/session.go:1104-1126 | In header bytes, the packets that may pass: complete IPv4 no longer than agreed, and TCP, or UDP or ICMP where the capability bit says so |
| SessionCalls.GoesOutExactly | examples/moduleopenflux/native/openflux/transport/session.go:969-1023 | A packet goes out exactly if the session is ready, its header bytes, size and protocol may pass, the counter is below 2^64-1 and a carrier is alive; under the next number between the present challenges, and no other packet uses a number up |
| SessionCalls.HandedUpExactly | examples/moduleopenflux/native/openflux/transport/session.go:1407-1452 | A packet is handed up exactly if the session is ready, it names both present challenges, may pass, and has a number that is not zero, not taken and less than 4096 below every one taken |
| Handshake.RepliesDieOut | examples/moduleopenflux/native/openflux/transport/session.go:1284-1324 | With no restart and no timer an exchange, lossy or not, is never longer than its weight, which every delivery, reply and loss lowers |
| Handshake.HearWeighsLess | examples/moduleopenflux/native/openflux/transport/session.go:1284-1324 | Hearing a hello lowers the weight: a transition is used up, or a hello of an unready session is, or no reply is owed |
| Handshake.BothGetReady | examples/moduleopenflux/native/openflux/transport/session.go:1234-1324 | Started by a client's hello with nothing lost, however hellos overtake each other, the exchange ends with both ready, naming each other and agreeing |
| Handshake.ReadyExactly | examples/moduleopenflux/native/openflux/transport/session.go:1234-1324 | In every run, lossy or not, the exit is ready, and so both are, exactly if the exit has heard a hello that echoes its challenge; then both name each other and agree |
| Handshake.LostReplyStalls | examples/moduleopenflux/native/openflux/transport/session.go:545-601 | With one carrier and the client's only reply lost the exchange is over with the client ready and the exit not |
| HandshakeTimers.StallIsPermanent | examples/moduleopenflux/native/openflux/transport/session.go:545-657 | With the hello timer, the keepalive reset, pings and pongs running: once the client is ready, the exit is not and no hello is owed or on its way, nothing ever changes again at either end |
| HandshakeTimers.LostReplyIsFinal | examples/moduleopenflux/native/openflux/transport/session.go:545-657 | So it is after the client's only reply was lost: the exit is never ready |
| Reassembler.Fragmenter.FragmentFrame | examples/moduleopenflux/native/openflux/transport/yandex/fragment.go:74-114 | Cuts a frame under the next tag, or refuses one that needs more than 255 fragments and uses no tag |
| Reassembler.Reassembler.PushBody | examples/moduleopenflux/native/openflux/transport/yandex/fragment.go:232-314 | For every body the slots compute the reference: a frame handed up, nothing yet, or an index past the parts of a slot, which ends the code |
| Reassembler.Reassembler.FindSlot | examples/moduleopenflux/native/openflux/transport/yandex/fragment.go:201-208 | Finds the first slot open under a tag |
| Reassembler.Reassembler.ClaimSlot | examples/moduleopenflux/native/openflux/transport/yandex/fragment.go:215-230 | Claims the first free slot; only when none is free the one with the earliest deadline, the first of them |
| Reassembler.Reassembler.Sweep | examples/moduleopenflux/native/openflux/transport/yandex/fragment.go:265-282 | Frees exactly the slots past their deadline |
| Reassembly.NeverMixes | examples/moduleopenflux/native/openflux/transport/yandex/fragment.go:232-314 | However fragments are interleaved, repeated, padded, evicted or timed out, what comes out is nothing or, byte for byte, the frame whose fragment completed it, while no two frames of one tag are open at once |
| Reassembly.ComesOutWhenComplete | examples/moduleopenflux/native/openflux/transport/yandex/fragment.go:232-314 | With a slot for every frame and no timeout, a frame comes out exactly when its last missing fragment arrives |
| ReassemblyTimes.ComesOutExactly | examples/moduleopenflux/native/openflux/transport/yandex/fragment.go:232-314 | For fragments of any frames, in any order, repeated or padded, at any non-decreasing times, with fewer than 24 other frames being put together and none under the same tag: a frame comes out exactly when the fragments of an attempt are all there, an attempt lasting 1.2 s from its first fragment |
| ReassemblyTimes.ComesOutInTime | examples/moduleopenflux/native/openflux/transport/yandex/fragment.go:232-314 | If every fragment comes at most 1.2 s after the first one of its frame since that last came out, a frame comes out exactly at its last missing fragment |
| ReassemblyTimes.LateStartsAnew | examples/moduleopenflux/native/openflux/transport/yandex/fragment.go:232-314 | A fragment later than that begins its frame anew, with nothing of what came before |
| Reassembly.OutOfRangeExactly | examples/moduleopenflux/native/openflux/transport/yandex/fragment.go:232-314 | After any bodies whatever the next one makes the code index out of range exactly if it is well-formed and a slot not timed out is open under its tag for no more fragments than its index |
| Reassembly.OthersTouchNothing | examples/moduleopenflux/native/openflux/transport/yandex/fragment.go:232-263 | What is not a fragment goes up as it is, and a fragment with a senseless header, too large a total or fewer bytes than its place asks for is ignored; no slot changes |
| Reassembly.TwoBodiesGoOutOfRange | examples/moduleopenflux/native/openflux/transport/yandex/fragment.go:232-314 | At the default fragment size the first fragment of two and the third of three under one tag do so |
| Reassembly.TameStaysInRange | examples/moduleopenflux/native/openflux/transport/yandex/fragment.go:232-314 | Fragments of frames, no two frames of one tag open at once, never do so |
| Reassembly.TooLongNeverComesOut | examples/moduleopenflux/native/openflux/transport/yandex/fragment.go:316-319 | A frame over the limit is never taken, and disturbs no slot |
| Reassembly.CuttableFitsExactly | examples/moduleopenflux/native/openflux/transport/yandex/fragment.go:74-83 | Every frame that can be cut is within the reassembler's limit exactly for chunks of up to 4112 bytes |
| Reassembly.DefaultFramesFit | examples/moduleopenflux/native/openflux/transport/yandex/fragment.go:60-63 | At the default fragment size every frame that can be cut is within the limit |
| Reassembly.FragmentReads | examples/moduleopenflux/native/openflux/transport/yandex/fragment.go:232-263 | A fragment, padded or not, is read as its index, count, length, tag and bytes, and is well-formed exactly up to the limit |
| Fragment.CountFits | examples/moduleopenflux/native/openflux/transport/yandex/fragment.go:74-83 | The fragments cover the frame and the last one is not empty unless the frame is |
| Fragment.FullSlotIsTheFrame | examples/moduleopenflux/native/openflux/transport/yandex/fragment.go:299-313 | A slot with every part holds the frame |
| CupsStream.PackNumbers | examples/moduleopenflux/native/openflux/transport/cupsonline/cupsonline.go:984-998 | Six bytes to a number, highest first, the last padded with zeros |
| CupsStream.BytesFromNumbers | examples/moduleopenflux/native/openflux/transport/cupsonline/cupsonline.go:1001-1012 | The low six bytes of every number, highest first |
| CupsStream.UnpackedPacked | examples/moduleopenflux/native/openflux/transport/cupsonline/cupsonline.go:984-1012 | Unpacking gives the bytes back followed by at most five zeros |
| CupsStream.SendBatch | examples/moduleopenflux/native/openflux/transport/cupsonline/cupsonline.go:899-927 | A batch goes as the chunks of its one stream, each its own message |
| CupsStream.SendChunk | examples/moduleopenflux/native/openflux/transport/cupsonline/cupsonline.go:948-957 | A message carries the length of its chunk, then the chunk |
| CupsStream.ChunkIsRead | examples/moduleopenflux/native/openflux/transport/cupsonline/cupsonline.go:948-957 | A chunk is read back whatever numbers pad the message |
| CupsStream.TakePrefix | examples/moduleopenflux/native/openflux/transport/cupsonline/cupsonline.go:1108-1128 | Of a prefix of the stream the receiver takes a prefix of the packets and keeps at most 65536 bytes; of the whole stream it takes everything |
| CupsStream.TakeAppend | examples/moduleopenflux/native/openflux/transport/cupsonline/cupsonline.go:1108-1128 | Taking a buffer in two parts takes the same packets |
| CupsStream.TakesAllExactly | examples/moduleopenflux/native/openflux/transport/cupsonline/cupsonline.go:1108-1128 | A whole stream is taken as the packets it was made of, with nothing left, exactly if none of them is empty or longer than its length can say |
| CupsStream.EmptyPacketDropsTheRest | examples/moduleopenflux/native/openflux/transport/cupsonline/cupsonline.go:1111-1115 | An empty packet puts the receiver out of step: what is buffered is dropped |
| CupsRoom.Receiver.DeliverNums | examples/moduleopenflux/native/openflux/transport/cupsonline/cupsonline.go:1091-1147 | Computes the reference delivery, malformed messages and resets included |
| CupsRoom.EveryMemberExactly | examples/moduleopenflux/native/openflux/transport/cupsonline/cupsonline.go:1091-1147 | Whatever other members send in between, a member's packets come out exactly and in order, its pending bytes never reach the reset limit, and nothing is left once all came |
| CupsRoom.ExactWithoutEmptyPackets | examples/moduleopenflux/native/openflux/transport/cupsonline/cupsonline.go:1091-1147 | Once all messages of a member came, whatever others sent in between, its packets came out exactly if and only if none of them was empty or too long |
| CupsRoom.OnlyPacketsGoUp | examples/moduleopenflux/native/openflux/transport/cupsonline/cupsonline.go:1091-1147 | Whatever messages come, no empty packet is handed up |
| CupsRoom.PendingIsBounded | examples/moduleopenflux/native/openflux/transport/cupsonline/cupsonline.go:1129-1140 | Whatever messages come, a member's pending bytes never exceed the greatest packet and a message |
| CupsRoom.OthersDoNotDisturb | examples/moduleopenflux/native/openflux/transport/cupsonline/cupsonline.go:1091-1147 | Another member's message changes neither a member's buffer nor its packets |
| CursorText.AppendChunkMessage | examples/moduleopenflux/native/openflux/transport/cupsonline/fastcodec.go:20-43 | Prints the message with the cursor array, two numbers to a cursor |
| CursorParse.ParseCursorPush | examples/moduleopenflux/native/openflux/transport/cupsonline/fastcodec.go:67-159 | For any text the position-by-position parser computes the reference reading |
| CursorParse.ValueAfterKeyAt | examples/moduleopenflux/native/openflux/transport/cupsonline/fastcodec.go:52-62 | Finds the value after the only place of a key, or fails |
| CursorParse.PushIsRead | examples/moduleopenflux/native/openflux/transport/cupsonline/fastcodec.go:67-159 | A push with a printed cursor array is read as its sender and the same numbers, in pairs, exactly if each of the two keys occurs once in it; otherwise it is left to the JSON decoder |
| CursorParse.ItemsAreRead | examples/moduleopenflux/native/openflux/transport/cupsonline/fastcodec.go:20-159 | A printed cursor array of numbers below 2^48 is read back with no overflow and no fallback |
| CursorRelay.RelayIsRead | examples/moduleopenflux/native/openflux/transport/cupsonline/fastcodec.go:20-159 | The relayed push is read back for every sender free of quotes and backslashes but the two ids that look like a key, which fall back |
| Batch.FrameBatch | examples/moduleopenflux/native/openflux/transport/framing.go:52-65 | Every packet behind its length, in order |
| Batch.EncodeBatch | examples/moduleopenflux/native/openflux/transport/framing.go:69-83 | The framed batch, compressed exactly if that is shorter |
| Batch.EncodedIsShortest | examples/moduleopenflux/native/openflux/transport/framing.go:69-83 | A frame is two bytes longer than the shorter of the framed and the compressed batch, and flagged exactly if compression is strictly shorter |
| Batch.DecodeBatch | examples/moduleopenflux/native/openflux/transport/framing.go:94-141 | Computes the reference decoder, every reject included |
| Batch.DecodedEncoded | examples/moduleopenflux/native/openflux/transport/framing.go:69-141 | A batch is decoded to its packets exactly if it has at most 2^20 framed bytes and 1024 records, and rejected otherwise |
| Batch.DecodedExactly | examples/moduleopenflux/native/openflux/transport/framing.go:94-141 | Any bytes are decoded to given packets exactly if, with a good version and flag, they are the frame of those packets, compressed or not as the flag says, within every limit |
| Batch.SplitIsFramed | examples/moduleopenflux/native/openflux/transport/framing.go:119-140 | Only frames are split, and into the packets they are made of |
| Batch.Batched.Flush | examples/moduleopenflux/native/openflux/transport/batched.go:207-268 | Whatever is configured, every frame sent has at most 1023 records and 1048575 framed bytes, is decoded to its batch, and the batches are the queued packets in order |
| Batch.Batched.Gather | examples/moduleopenflux/native/openflux/transport/batched.go:218-253 | The batch is a first stretch of the queue, not begun to be full before its last packet; short of the limits it holds all that was ready, or the queue is empty |
| Batch.Batched.Send | examples/moduleopenflux/native/openflux/transport/batched.go:134-158 | Queues a packet of at most 65535 bytes while running and there is room |
| Batch.Batched.constructor | examples/moduleopenflux/native/openflux/transport/batched.go:59-82 | Any configured sizes are cut to limits that leave room for one more packet |
| ExpGolomb.BitWriter.WriteBit | examples/moduleopenflux/native/openflux/transport/yandex/canvas_h264.go:39-47 | Adds one bit to the bits written |
| ExpGolomb.BitWriter.WriteBits | examples/moduleopenflux/native/openflux/transport/yandex/canvas_h264.go:49-53 | Adds the low bits of a number, highest first |
| ExpGolomb.BitWriter.WriteUE | examples/moduleopenflux/native/openflux/transport/yandex/canvas_h264.go:57-65 | Adds the unsigned code |
| ExpGolomb.BitWriter.WriteSE | examples/moduleopenflux/native/openflux/transport/yandex/canvas_h264.go:71-79 | Adds the code of the signed value, in 32-bit arithmetic |
| ExpGolomb.BitWriter.RbspTrailingBits | examples/moduleopenflux/native/openflux/transport/yandex/canvas_h264.go:85-91 | Ends the bits with a one and zeros to a whole byte |
| ExpGolomb.BitWriter.WriteAll | examples/moduleopenflux/native/openflux/transport/yandex/canvas_h264.go:39-79 | Any sequence of calls adds the codes in order |
| ExpGolomb.ReadBackExactly | examples/moduleopenflux/native/openflux/transport/yandex/canvas_h264.go:49-79 | Any sequence of fields is read back by sections 9.1 and 9.1.1 of ITU-T H.264, each with its value and nothing after it touched, exactly if none is a number too wide for its bits, ue(2^32-1) or se(-2^31) |
| ExpGolomb.PayloadIsRead | examples/moduleopenflux/native/openflux/transport/yandex/canvas_h264.go:85-91 | The finished payload is read back as the fields, the stop bit and fewer than eight zeros |
| ExpGolomb.UnsignedIsRead | examples/moduleopenflux/native/openflux/transport/yandex/canvas_h264.go:57-65 | Every unsigned code but that of 2^32-1 is read back |
| Checksum.RewriteL4Checksum | examples/moduleopenflux/native/openflux/nodetunnel/checksum_rewrite.go:6-27 | After the rewrite every TCP segment of at least 18 bytes and UDP segment of at least 8, up to 65535, odd or even, sums with its pseudo-header to all ones; a computed zero goes out as all ones over UDP; other bytes and other packets are untouched |
| Checksum.L4Checksum | examples/moduleopenflux/native/openflux/network/checksum.go:18-47 | The complement of the 32-bit sum of pseudo-header and segment folded until done |
| Checksum.SeenIs | examples/moduleopenflux/native/openflux/network/checksum.go:18-40 | What is summed are the words of both addresses, the protocol, the length and the words of the segment |
| Checksum.IPChecksum | examples/moduleopenflux/native/openflux/network/checksum.go:49-60 | Two fixed folds give the sum folded until done, for every 32-bit sum |
| Checksum.FoldsExactly | examples/moduleopenflux/native/openflux/network/checksum.go:49-60 | The header checksum is the true one exactly if the words sum to less than 2^32 |
| Checksum.ShortSumsFit | examples/moduleopenflux/native/openflux/network/checksum.go:49-60 | Up to 131074 bytes it always is |
| Checksum.OneByteTooMany | examples/moduleopenflux/native/openflux/network/checksum.go:49-60 | At 131075 bytes of all ones it is not |
| Checksum.FoldIsModulo | examples/moduleopenflux/native/openflux/network/checksum.go:42-46 | The folded sum is the sum modulo 65535, zero only for zero (section 1 of RFC 1071) |

## Left out

- SenderRing.Sender.Pull: takes lane death, the other lanes' health and the probe pause as arguments, since those depend on per-lane statistics; it requires that no queued number is nearly a whole number space old.
- SenderRing.Sender.OnAck: leaves out the per-lane delivery and loss statistics an ack also updates.
- SenderRing.Sender.DetectLocked: leaves out the same statistics; after a negative shift, which ends the code, it promises no more than a consistent ring.
- Link.LosslessLink: is about one run of one sender, with no receiver restart; it assumes no copy more than a window behind the receiver, no ack older than nearly half the number space, and a first number not within a ring of half the number space from the receiver's reference point; a run ends where the code would end.
- Restarts.NoSpliceOverRestarts: assumes that a new sender's first piece to arrive is outside the receiver's window, that no old piece comes after it, and that no ack of an earlier run is taken for one of the present run.
- Link.NoSplicedFrames: a frame the full queue refuses does not count as enqueued.
- FrameQueue.FrameQueue.constructor: takes a positive piece size; a configured fragment size too small for the headers leaves none and is not modelled.
- FrameQueue.DropExactly: takes the CoDel control law, a floating-point square root, as any function of the drop count.
- SenderRing.Sender.RttSample: models the integer smoothing but not the wall clock it reads; the time is an argument.
- ReorderBuffer.ReorderBuffer.AckFrame: is about a stream that has begun, which the code checks before it asks for an ack; the counter and timing that decide when are left out.
- Session.Session.ReceiveHello: leaves out the classic layering, keepalive timing and carrier supervision; a reply goes out on every carrier.
- SessionRuns.AtMostOnce: models control messages only as packets that change nothing; every draw of a challenge in its runs succeeds, since the random source of the Go version that the module asks for (go.mod, 1.26) never reports an error, though the session object models that branch too.
- Handshake.RepliesDieOut: leaves out the hello timer, which only makes a client that is not ready say hello again; `HandshakeTimers` has it.
- Reassembler.Fragmenter.constructor: takes the bytes a fragment carries, which are positive; a configured size of 8 bytes or less leaves none and is not modelled.
- Reassembly.NeverMixes: assumes that no two frames of one tag are open at once, which the code relies on too.
- Batch.Batched.Flush: a turn of the loop is one step; packets that come in during it count as already queued, and zstd is any function with an inverse.
- CursorRelay.RelayIsRead: uses one fixed push around the array; `CursorParse.PushIsRead` is about every push.
- Checksum.RewriteL4Checksum: promises nothing about the checksum of segments over 65535 bytes, which no IPv4 packet holds.
- Lane autoscaling, token buckets, hello pacing, keepalives, carrier supervision and diagnostics: timing and I/O.
- Encryption, key derivation and compression: used only through the assumptions above.
- Sockets, WebRTC, WebSocket, HTTP, login and captcha code, the host protocol and the platform glue: I/O around libraries.
- The generic JSON decoder behind the cursor parser's fallback, and the classic codec: other code paths with no property beyond these.
