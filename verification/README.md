# AutoLink, modelled and proved in Dafny

AutoLink is a UART link layer. This project models its ASYNC data path and the machinery around it, and proves what
that machinery promises. `dafny verify dfyconfig.toml` checks everything.

- **Go-back-N.** `SeqSpace` is the arithmetic of the 254 wire sequences and the 64-entry slot table. `GoBackN` is
  the two-node system in unbounded numbering: a sender, a receiver and a FIFO wire each way that loses frames at
  will; its frames carry only the wire's sequences. `Cache`, `Arq`, `SenderSide`, `ReceiverSide` and `SendPath` are
  the handlers themselves, as classes whose fields and arrays are updated in place, each proved to do one step of
  `GoBackN`. A branch of the source that guards against a broken table is an `assert false` here: it is never taken.
  `Repair` says what those steps come to in chunk numbers: which chunks an ACK or a NAK frees, how every frame is answered,
  and that one ACK clears a window and one NAK repairs a loss.
- **Messages.** `Messages` is header, chunking and reassembly; `EndToEnd` puts messages, chunks, lossy network and
  message cursor together in one system; `Progress` shows that system cannot wedge, `Fairness` that in every fair run
  every accepted message arrives.
- **Frames.** `Crc`, `Cobs` and `Framer` are the codecs and the streaming framer; `Demux` splits control frames from
  the COBS stream; `WirePath` takes frames through both; `ByteLink` puts `EndToEnd` on top of them, so that the two
  nodes talk in bytes.
- **Retry and health.** `Timing` and `Ladder` are the RTO ladder of a stuck base and the NAK-driven resends;
  `Keepalive` is the health verdict and two idle nodes in real time.
- **Sweep.** `SweepSpec` is the baud sweep as a step function, `SweepSide` the node that runs it; `SweepRound` is about
  whole rounds: the master's walk over the bauds, the camp, and two nodes from kickoff to lock.
- **Zip.** `Zip` is the streaming reader of stored zip archives (section 4.3.7 of PKWARE's APPNOTE 6.3).

Clocks, ring space, delivery boundaries, sink decisions and what other tasks do while the link lock is free are
parameters. Bytes and fixed-width counters are bounded integers; wrap-around is written out.

## What holds only under a condition

- A run of consecutive chunks occupies distinct slots exactly up to length 62 (`SeqSpace.RunFitsExactly`); the window
  of 32 is inside it.
- Of the chunks within one lap of 254 either way, `classifyGap` puts exactly those from 127 behind the cursor to 126
  ahead in their true order (`SeqSpace.ClassifyExact`); every frame in flight is inside that band.
- `ArqCache::insert` keeps its counters true unless it replaces a held chunk with one it then refuses
  (`Cache.ArqCache.Insert`, `Drifts`). An oversize replacement does that (`Cache.ArqCache.OversizeReplacement`); the link
  itself never replaces a held chunk nor caches more than 250 bytes (`SenderSide.Sender.SendChunk`).
- A stuck base draws at most `maxRetx + 1` NAK resends when `maxRetx < 255` (`Ladder.NakResendsBounded`); with 255 the
  saturating counter never passes the limit and the number is unbounded (`Ladder.NakResendsUnbounded`).
- A delivery behind a carry, once the two make five bytes, is routed as if both had come in one piece if and only if
  those five bytes are a control frame, or no control frame starts, or may yet start in a tail too short to judge, at
  the second to fifth of them (`Demux.CarryMatters`). One stray 0xAA and an unlucky delivery boundary make the
  demultiplexer miss a valid control frame (`Demux.StrayByteHidesCtrl`).
- A data frame gets through the demultiplexer whole, in one delivery, if and only if its bytes hold no CRC-valid control
  frame (`WirePath.DeliveryPasses`), and is reported as itself under the same condition (`WirePath.FrameArrives`). A chunk
  of its own that holds the pattern is not (`WirePath.PatternFrameIsEaten`). Such a frame is not always lost: what is left
  of it can be another frame with a good checksum (`WirePath.PatternFrameArrivesAltered`), and the receiver then pushes
  and acknowledges bytes that were never sent, on a wire that loses and changes nothing
  (`ByteLink.UncleanDeliveryMisleads`). That is why `ByteLink.BytesArriveIntact` asks for clean deliveries.
- A camp stays within P3 unless a camping slave is kicked off again (`SweepSpec.OnlyKickoffStrandsCamp`), which happens
  in a run of four events (`SweepSpec.KickoffStrandsCamp`). The looks used up and the deadline left behind then decide
  whether its next P3 outlives the first tick (`SweepSpec.StrandedDeadlineCutsCamp`).
- A link reset leaves the slot table and the cache in agreement if and only if it ends an OK session or nothing was
  pending (`SenderSide.Sender.Reset`): the cache is emptied either way, the slot table only with an OK session.
- The single-frame path of `sendMsg` reports a full TX ring as pool exhaustion (`SendPath.SendMsg`, `Blames`); the
  pool itself can never refuse a message the window gate has admitted.
- A resync keeps the order of the bytes when the buffer is no longer than the scan sees (`Messages.ResyncCuts`); of a longer
  one the bytes scanned go behind the others (`Messages.ResyncOfLong`), and so a whole message at its front is lost
  (`Messages.ResyncReorders`).
- The comment at src/al/link/arq/LinkArq.cpp:128-140 describes a sentinel the code does not write, and the one at
  src/al/link/LinkApi.cpp:1031-1039 a lap read when the header is stamped, where the code reads it when the call ends; the
  model follows the code.

## Model

| member | source | states |
|---|---|---|
| SeqSpace.SlotInjective | src/al/link/arq/LinkArq.h:116 | two chunks fewer than 62 apart never share a slot of the 64-entry table, across the 253 -> 0 wrap too |
| SeqSpace.RunFitsExactly | src/al/link/arq/LinkArq.h:116 | a run of consecutive chunks occupies distinct slots if and only if it is at most 62 long |
| SeqSpace.PendingNoExact | src/al/link/arq/LinkArq.h:110-116 | the distance from the base, modulo 254, finds the one pending chunk a wire sequence names, and nothing else |
| SeqSpace.SlotAndIndexExact | src/al/link/io/LinkRx.cpp:764-835 | the slot test and the window test together accept a byte, 254 and 255 included, exactly when it names a pending chunk |
| SeqSpace.CursorOfNext | src/al/link/LinkCore.cpp:78-107 | with the cursor seeded to 253, the next expected sequence is that of the next chunk not yet accepted |
| SeqSpace.ClassifyExact | src/al/link/sweep/LinkDecision.h:83-104 | of the chunks within one lap of 254 either way, exactly those from 127 behind the cursor to 126 ahead are classified in true order; a stale chunk of these is a sure duplicate exactly up to 65 behind |
| GoBackN.ReceiverSeesTrueOrder | src/al/link/io/LinkRx.cpp:345-390 | every frame in flight is classified by true order, and no duplicate is ever dropped as wrap-ambiguous |
| GoBackN.SenderSeesTrueChunk | src/al/link/io/LinkRx.cpp:811-846 | feedback in flight names the chunk it was sent about or one already freed; a NAK always still names it |
| GoBackN.DeliverKeepsCursors | src/al/link/io/LinkRx.cpp:509-661 | a delivery pushes the next chunk or nothing, and no byte of it is lost or doubled |
| GoBackN.AnswerKeepsInv | src/al/link/io/LinkRx.cpp:846-877 | moving the base by a cumulative ACK or NAK, and replaying from there, keeps the invariant |
| GoBackN.StepKeepsInv | src/al/link/io/LinkRx.cpp:345-661 | send, resend, loss, delivery either way and drain all keep the invariant of cursors, frames and feedback in flight |
| GoBackN.DeliveryIsPrefix | src/al/link/io/LinkRx.cpp:345-661 | in every run of any length the chunks pushed are a prefix of the chunks sent, byte for byte, and base <= next <= sent <= base + 32 |
| GoBackN.WireNeverMisleads | src/al/link/sweep/LinkDecision.h:83-104 | in every reachable state every frame in flight is a byte-exact copy of its chunk seen in true order, and feedback names the right chunk |
| Repair.AckIsCumulative | src/al/link/io/LinkRx.cpp:846-877 | delivering an ACK sent for chunk n frees everything through n, exactly, whatever became of the ACKs before it; one for a chunk already freed moves nothing |
| Repair.NakIsCumulative | src/al/link/io/LinkRx.cpp:1053-1238 | delivering a NAK sent for chunk n frees everything before n, exactly, and puts the chunks from n on, as many as asked for, on the wire again |
| Repair.DeliveryAnswers | src/al/link/io/LinkRx.cpp:390-661 | in every state of every run: a chunk the receiver has is acknowledged again, the next one is taken and acknowledged if it fits, any other and the next without room are answered with a NAK for exactly the next |
| Repair.LastAckSuffices | src/al/link/io/LinkRx.cpp:846-877 | when every answer on the way back but the ACK of the last chunk is lost, that one leaves nothing pending |
| Repair.WindowClears | src/al/link/io/LinkRx.cpp:846-877 | a whole window resent over quiet wires, all its ACKs lost but the last, ends with nothing pending and nothing missing |
| Repair.NakRepairs | src/al/link/io/LinkRx.cpp:465-500 | a frame that shows a loss makes the missing chunk travel again, with no RTO round: its NAK alone does it |
| Repair.LossIsRepaired | src/al/link/io/LinkRx.cpp:465-500 | and the receiver then has that chunk, though everything else on both wires is lost |
| Cache.ArqCache.constructor | src/al/link/arq/ArqCache.cpp:11-26 | a new cache is empty and its window is exactly the one asked for, whatever that is |
| Cache.ArqCache.NoSharing | src/al/link/arq/ArqCache.cpp:249-275 | no two slots in use share a pool buffer |
| Cache.ArqCache.FindFree | src/al/link/arq/ArqCache.cpp:76-100 | when the free count is positive the scan finds a free buffer |
| Cache.ArqCache.Insert | src/al/link/arq/ArqCache.cpp:44-110 | the cache afterwards maps the sequence to the bytes, or is unchanged when the insert is refused; its counters stay true if and only if the insert is not a refused replacement |
| Cache.ArqCache.OversizeReplacement | src/al/link/arq/ArqCache.cpp:44-110 | a held chunk of one byte replaced by one of 257 leaves a cache whose counters no longer match its contents |
| Cache.ArqCache.FreeBySeq | src/al/link/arq/ArqCache.cpp:112-183 | exactly that sequence leaves the map, its buffer is free again |
| Cache.ArqCache.PeekForRetx | src/al/link/arq/ArqCache.cpp:185-207 | finds a copy exactly when one with bytes is held, and returns those bytes |
| Cache.ArqCache.SlotInUse | src/al/link/arq/ArqCache.cpp:227-229 | true exactly for the sequences held |
| Cache.ArqCache.HasRoom | src/al/link/arq/ArqCache.cpp:35-37 | the counters answer what counting slots and buffers would |
| Cache.ArqCache.FreeRoom | src/al/link/arq/ArqCache.cpp:39-42 | the smaller of free slots and free buffers, by content |
| Cache.ArqCache.ClearAll | src/al/link/arq/ArqCache.cpp:209-223 | nothing is held afterwards and the window stands |
| Cache.ArqCache.SetWindow | src/al/link/arq/ArqCache.cpp:28-33 | the window is clamped between one and the size the cache was made for |
| Arq.LinkArq.OnSent | src/al/link/arq/LinkArq.cpp:72-102 | only the chunk's slot changes: pending, counters zero, stamped now with base sequence and lap; the byte count of its last chunk stays |
| Arq.LinkArq.OnAcked | src/al/link/arq/LinkArq.cpp:119-158 | only the chunk's slot changes: no longer pending, counters zero, byte count as acknowledged, base sequence and lap kept |
| Arq.LinkArq.RearmSlot | src/al/link/arq/LinkArq.cpp:104-117 | one more RTO for the slot, its RTO count forgotten, its NAK count kept |
| Arq.LinkArq.OnNaked | src/al/link/arq/LinkArq.cpp:187-208 | the NAK count saturates at 255 and the RTO clock restarts; the RTO count stands |
| Arq.LinkArq.NoteSuppressedNak | src/al/link/arq/LinkArq.cpp:164-185 | a suppressed NAK is counted without restarting the RTO clock |
| Arq.LinkArq.ApplyRetx | src/al/link/arq/LinkArq.cpp:460-500 | only an RTO-driven resend counts and restamps the slot |
| Arq.LinkArq.PendingCount | src/al/link/arq/LinkArq.cpp:408-414 | the number of pending slots |
| Arq.LinkArq.ClearAll | src/al/link/arq/LinkArq.cpp:32-70 | every field of every slot is zero afterwards, the window is inactive and the epoch has moved on |
| SenderTables.FlagsAreImage | src/al/link/arq/LinkArq.cpp:72-102 | a slot is pending exactly when some chunk of the window hashes to it |
| SenderTables.CopiesAreExact | src/al/link/timers/LinkTimersOk.cpp:170-218 | the cached map holds each pending chunk under its own sequence, byte for byte, and nothing else |
| SenderTables.FreeFirstSlot | src/al/link/io/LinkRx.cpp:866-870 | freeing the base's slot leaves the table the image of the shorter window |
| SenderTables.FreeFirstCached | src/al/link/io/LinkRx.cpp:866-870 | freeing the base's copy leaves the cache the copies of the shorter window |
| SenderTables.TakeSlot | src/al/link/io/LinkTx.cpp:275-288 | a new chunk takes a slot no pending chunk uses |
| SenderTables.AddCached | src/al/link/io/LinkTx.cpp:275-288 | a new chunk's sequence is not yet cached, and its copy completes the cache |
| SenderTables.FreedAt | src/al/link/io/LinkRx.cpp:850-870 | each chunk an ACK or NAK frees has its slot released with its own byte count and both counters cleared; the slots of the chunks behind them stand |
| SenderTables.ReplayedAt | src/al/link/timers/LinkTimerBreak.cpp:177-235 | a replay bumps each replayed chunk's slot once when driven by an RTO, never when driven by a NAK, and no other slot |
| SenderTables.TestsAreExact | src/al/link/io/LinkRx.cpp:764-835 | with agreeing tables the handlers' two tests accept a byte exactly when it names a pending chunk |
| SenderSide.Sender.constructor | src/al/link/LinkCore.cpp:30-45 | a new sender has sent nothing and its tables agree |
| SenderSide.Sender.BytesOf | src/al/link/io/LinkRx.cpp:860-866 | the ACK walk records the ACK's own byte count for the chunk it names and the cached length for every other; the zero of a cache miss is never recorded |
| SenderSide.Sender.FreeThrough | src/al/link/io/LinkRx.cpp:846-873 | the ACK walk frees exactly the chunks up to the acknowledged one; its window abort is never taken |
| SenderSide.Sender.OnAck | src/al/link/io/LinkRx.cpp:664-905 | one ACK byte that names chunk n of the window moves the base to n + 1, releases exactly those slots with their byte counts and clears the retry ladder; a byte naming no pending chunk frees nothing |
| SenderSide.Sender.FreeUpTo | src/al/link/io/LinkRx.cpp:1053-1089 | the NAK walk frees exactly the chunks before the missing one; its abort is never taken |
| SenderSide.Sender.RepairBase | src/al/link/io/LinkRx.cpp:1105-1238 | a NAK for the base is always counted, and draws a resend exactly when the base is not stuck and the loss is not already being repaired |
| SenderSide.Sender.OnNak | src/al/link/io/LinkRx.cpp:911-1240 | one NAK byte that names chunk n of the window moves the base to n, releases exactly the slots before it, and counts and replays as the repair rules say, in order and byte for byte; a byte naming no pending chunk frees and sends nothing |
| SenderSide.Sender.RetxSeq | src/al/link/timers/LinkTimersOk.cpp:170-218 | the frame resent equals the frame first sent; the cache-miss and zero-byte branches are never taken |
| SenderSide.Sender.GbnResendWindow | src/al/link/timers/LinkTimerBreak.cpp:177-235 | an in-order prefix of the window goes out, as long as burst cap and ring allow, and its slots are bumped once each |
| SenderSide.Sender.PoolRoom | src/al/link/LinkApi.cpp:402-420 | the pool always has at least as many free buffers as 64 less the window in flight |
| SenderSide.Sender.SendChunk | src/al/link/io/LinkTx.cpp:198-289 | inside the window a chunk is refused only by a full TX ring, and then nothing changes; otherwise it joins the window and both tables, its slot alone is written, the lap counts every 254 chunks, and an empty window starts a fresh ladder |
| SenderSide.Sender.RetxBaseAndRearm | src/al/link/timers/gbn/LinkTimersGbn.cpp:246-273 | an RTO round replays a prefix of the window and moves the retry fields as the ladder says |
| SenderSide.Sender.ObserveTick | src/al/link/timers/gbn/LinkTimersGbn.cpp:45-129 | the stuck clock restarts on a new base, after a CPU stall, and for at most five ticks of app backlog |
| SenderSide.Sender.ClimbLadder | src/al/link/timers/gbn/LinkTimersGbn.cpp:21-244 | the ladder's part of an OK tick never moves the window and climbs by exactly one step |
| SenderSide.Sender.SweepRetx | src/al/link/timers/gbn/LinkTimersGbn.cpp:21-244 | one OK tick is one step of the ladder: an expired base gets a round exactly while rounds are left, a Keep only when the peer was heard within the ACK timeout and fewer than three were given, a reset only otherwise; a reset leaves nothing pending and both tables empty, anything else leaves the window alone |
| SenderSide.Sender.Reset | src/al/link/LinkCore.cpp:532-667 | the cache is always emptied; the slot table, the numbering and the retry fields are cleared, and the lap moved on, only when an OK session ends; the tables agree afterwards if and only if one did or nothing was pending |
| Timing.BackoffMonotone | src/al/link/sweep/LinkDecision.h:118-134 | the pause between rounds never shrinks and never falls below the base pause |
| Timing.DecideGbnBackoff | src/al/link/sweep/LinkDecision.h:118-134 | the shifting loop computes the base pause doubled once a round, capped |
| Timing.RtoCoversWire | src/al/link/Link.h:924-951 | the RTO is never shorter than the ACK timeout nor, to the millisecond, than twice the wire time of a full chunk |
| Timing.StuckCoversDrain | src/al/link/Link.h:891-915 | a base counts as stuck no sooner than all that is pending could have drained, nor than the ACK timeout |
| Ladder.TickLowersRank | src/al/link/timers/gbn/LinkTimersGbn.cpp:141-273 | with ring room and an unmoved base, a tick that neither holds nor resets lowers the pair of Keeps left and rounds left |
| Ladder.VerdictExact | src/al/link/timers/gbn/LinkTimersGbn.cpp:141-244 | when a tick waits, sends a round, gives one more chance or resets, each if and only if, in clock readings and counts alone |
| Ladder.StuckClockRuns | src/al/link/timers/gbn/LinkTimersGbn.cpp:45-129 | over an unmoved base the stuck clock runs on while ticks keep coming and the app buffer drains |
| Ladder.StuckClockRestarts | src/al/link/timers/gbn/LinkTimersGbn.cpp:45-129 | it restarts over a new base, behind a CPU stall, and for the first five ticks of app backlog |
| Ladder.RoundsLengthenPause | src/al/link/timers/gbn/LinkTimersGbn.cpp:246-273 | each further round over one base doubles the pause up to its cap; a round over a new base starts afresh |
| Ladder.KeepStartsAfresh | src/al/link/timers/gbn/LinkTimersGbn.cpp:176-222 | a Keep gives the base a whole RTO with no rounds against it, keeps its NAK count, and starts the pauses afresh |
| Ladder.BurstIsLongest | src/al/link/timers/LinkTimerBreak.cpp:177-235 | a round is as long as the burst cap, the window and the ring all allow |
| Ladder.LadderEnds | src/al/link/timers/gbn/LinkTimersGbn.cpp:141-273 | a stuck base gets at most 4 * max(maxRetx, 2) RTO rounds and three Keeps over any sequence of ticks |
| Ladder.LadderResets | src/al/link/timers/gbn/LinkTimersGbn.cpp:195-244 | more than 4 * max(maxRetx, 2) + 3 ticks that do not hold always end in a reset |
| Ladder.HeardPeerIsRescued | src/al/link/sweep/LinkDecision.h:154-162 | in every run whose ticks all find a byte within the ACK timeout, no reset comes before the third Keep |
| Ladder.SilentPeerIsNotRescued | src/al/link/sweep/LinkDecision.h:154-162 | in every run whose ticks all find the peer silent, no Keep is given |
| Ladder.ResetTakesRounds | src/al/link/timers/gbn/LinkTimersGbn.cpp:141-244 | no run resets before maxRetx rounds, or two if that is fewer, have been spent on the base |
| Ladder.EventsBeforeHorizon | src/al/link/timers/gbn/LinkTimersGbn.cpp:141-273 | with ticks at bounded spacing, every event of a ladder not yet over lies within as many spans of one RTO and one tick as its RTO clock can still be restarted |
| Ladder.LadderResetsInTime | src/al/link/timers/gbn/LinkTimersGbn.cpp:141-273 | with ticks at most p ms apart and maxRetx below 255, a base that stays stuck has reset the link 4 * max(maxRetx, 2) + maxRetx + 5 spans of RTO + p after it was last sent, whatever NAKs arrive |
| Ladder.NakKeepsRtoCount | src/al/link/io/LinkRx.cpp:1105-1238 | NAKs never raise the base's RTO count |
| Ladder.NakResendsBounded | src/al/link/io/LinkRx.cpp:1130-1200 | for maxRetx below 255 a stuck base draws at most maxRetx + 1 NAK resends, however many NAKs arrive |
| Ladder.NakDeduplicated | src/al/link/io/LinkRx.cpp:1180-1238 | behind a resend, NAKs inside the dedup window draw no other |
| Ladder.FreshNakAnswered | src/al/link/io/LinkRx.cpp:1130-1238 | a NAK outside that window, for a base with NAKs left, always draws one |
| Ladder.NakResendsUnbounded | src/al/link/io/LinkRx.cpp:1130-1200 | for maxRetx 255 every slow NAK draws a resend, so no bound exists |
| ReceiverSide.Receiver.constructor | src/al/link/LinkCore.cpp:78-94 | the first session expects chunk 0 and holds nothing |
| ReceiverSide.Receiver.Expected | src/al/link/LinkCore.cpp:105-107 | the expected sequence is that of the next chunk in unbounded numbering |
| ReceiverSide.Receiver.OnPayload | src/al/link/io/LinkRx.cpp:297-661 | by chunk number: the next is taken and acknowledged if it fits and NAKed if not, one up to 126 ahead is answered with a NAK for the next, one up to 65 behind is acknowledged, one up to 127 behind is not answered; only NAKs for a chunk whose hold stands are withheld, and the held head is NAKed again on drain progress or after a second |
| ReceiverSide.Receiver.Accept | src/al/link/io/LinkRx.cpp:603-661 | accepting the awaited chunk ends its hold, also across the lap of the sequence space, which is counted at sequence 0 |
| ReceiverSide.Receiver.Hold | src/al/link/io/LinkRx.cpp:548-602 | a full app buffer is answered on a fresh hold, on drain progress, and once a second |
| ReceiverSide.StaleOutlastsLadder | src/al/link/LinkApi.cpp:1060-1077 | a partial message is not abandoned before maxRetx RTOs and the longest pause have passed, as long as that fits 32 bits |
| ReceiverSide.Receiver.FindMsgHeaderResync | src/al/link/io/LinkRx.cpp:33-55 | the buffer after a resync scan, and the number of bytes that went |
| ReceiverSide.Receiver.RecvMsg | src/al/link/LinkApi.cpp:1050-1192 | one call does what the message cursor says, with no byte lost between buffer and caller; a stale partial message is abandoned and the buffer rescanned |
| Messages.HdrDecodesEncode | src/al/link/io/LinkMsgCodec.h:11-30 | a header decodes to the length and checksum it was made from |
| Messages.HdrEncodesDecode | src/al/link/io/LinkMsgCodec.h:11-30 | every six bytes are the header of what they decode to |
| Messages.HeaderLayout | src/al/link/io/LinkMsgCodec.h:11-30 | the six bytes are length and checksum, least significant byte first |
| Messages.ChunksCarry | src/al/link/LinkApi.cpp:739-1010 | the chunks of a message carry exactly its encoding, none empty or over 250 bytes, as many as announced |
| Messages.ChunkBudgetExact | src/al/AutoLinkConfig.h:66-86 | a message fits a chunk budget if and only if it is no longer than the announced maximum |
| Messages.SplitAt | src/al/link/LinkApi.cpp:905-985 | body chunk i starts at byte 250 * i and only the last is shorter |
| Messages.ScanFindsFirst | src/al/link/io/LinkMsgCodec.cpp:6-18 | the resync scan finds a plausible header, and no earlier offset was one |
| Messages.MsgResyncScan | src/al/link/io/LinkMsgCodec.cpp:6-18 | the scanning loop computes that offset |
| Messages.ResyncCuts | src/al/link/io/LinkRx.cpp:33-55 | a buffer the scan sees whole is cut in front of its first believable header, or given up when it has none |
| Messages.ResyncOfLong | src/al/link/io/LinkRx.cpp:33-55 | of a longer one the bytes from the first believable header on go behind those not scanned; without a header all of it is given up |
| Messages.ResyncReorders | src/al/link/io/LinkRx.cpp:33-55 | a concrete buffer begins with a whole message and comes back with another byte in front of it |
| Messages.BadHeaderRejected | src/al/link/LinkApi.cpp:1089-1130 | a header that announces nothing or more than a message may hold is rejected and the buffer behind it rescanned |
| Messages.BodyChecked | src/al/link/LinkApi.cpp:1150-1192 | a complete body is given out if and only if it fits the caller and matches its checksum, and leaves the buffer either way |
| SendPath.Interfere | src/al/link/LinkApi.cpp:985-1002 | what other tasks do while the lock is free between chunks is the ACKs and NAKs of the pause one after the other and adds no chunk, unless a tick resets the link, and then nothing of the session is left |
| SendPath.FurthestInputCounts | src/al/link/LinkApi.cpp:985-1002 | whatever ACKs and NAKs come in a pause, in whatever order, the base ends up exactly where the furthest of them puts it |
| SendPath.SendBody | src/al/link/LinkApi.cpp:900-1002 | the chunk loop sends the body's chunks in order and stops exactly at the first bad pause, or earlier at one in which the link is reset |
| SendPath.Admit | src/al/link/LinkApi.cpp:359-480 | a message passes exactly when length, chunk count, link state, quiet period, window room and rate all pass; a refusal names the first test failed |
| SendPath.AdmitsIsGate | src/al/link/LinkApi.cpp:402-420 | with an OK, unthrottled link the gate of the handler admits exactly what the message system of `EndToEnd` admits |
| SendPath.SendMsg | src/al/link/LinkApi.cpp:359-1048 | a call is refused if and only if length, chunk count, link state, quiet period, window room, rate or ring fails, names the first that does, and then changes nothing; otherwise a prefix of the message's chunks joins the window, all of them when it returns true, and the first sequence and the closing lap are reported; the pool never refuses; a reset inside the call cuts the message off and ends the session |
| EndToEnd.NextHeader | src/al/link/LinkApi.cpp:1089-1098 | after k whole messages the next six bytes of the stream are the header of message k |
| EndToEnd.NextBody | src/al/link/LinkApi.cpp:1150-1192 | after that header the next bytes are the body of message k |
| EndToEnd.ArrivedIsPrefix | src/al/link/io/LinkRx.cpp:603-661 | the bytes taken and still buffered are a prefix of the encodings of the accepted messages |
| EndToEnd.PushIsSend | src/al/link/LinkApi.cpp:402-420 | once a message is admitted no chunk of it is ever refused by the window |
| EndToEnd.ReceiveKeepsGood | src/al/link/LinkApi.cpp:1050-1192 | a recvMsg call between any two steps keeps cursor, buffer and receipts in line with the accepted messages |
| EndToEnd.MessagesArriveIntact | src/al/link/LinkApi.cpp:739-1192 | in any run in which no sendMsg call was cut off, what recvMsg returned is the accepted messages, whole, in order, once each; only messages longer than the caller's buffer are rejected |
| Progress.SameMessage | src/al/link/LinkApi.cpp:1091-1150 | the message a waiting receiver is in is the one its next chunk belongs to, and its buffer ends at a chunk boundary |
| Progress.NextChunkFits | src/al/link/io/LinkRx.cpp:529-603 | whenever recvMsg has nothing to give, the next chunk in order passes the all-or-nothing admission test |
| Progress.OneRound | src/al/link/timers/LinkTimerBreak.cpp:177-235 | on quiet wires one RTO round of a single frame frees the base |
| Progress.NothingWedges | src/al/link/LinkApi.cpp:739-1192 | from every reachable state some continuation of retries and receive calls delivers every accepted message, whatever was lost before |
| Fairness.ChunkAcked | src/al/link/timers/LinkTimerBreak.cpp:177-235 | in every fair run every chunk sent is acknowledged in the end |
| Fairness.MessageReceived | src/al/link/LinkApi.cpp:1050-1192 | in every fair run every message accepted at any moment is received in the end, however much is sent meanwhile |
| Fairness.EveryMessageArrives | src/al/link/LinkApi.cpp:739-1192 | from the start, on wires that may lose anything but not one frame for ever, every message accepted is received later, in its place and as it was sent |
| Fairness.EveryRunExtends | src/al/link/LinkApi.cpp:739-1192 | fairness rules no finite run out: each one in which no call was cut off is the beginning of a fair one |
| Cobs.DecodeEncode | src/al/util/codec/UtilCobs.cpp:6-48 | decode(encode(x)) = x for every byte string |
| Cobs.EncodingShape | src/al/util/codec/UtilCobs.cpp:6-27 | the encoding has no zero byte and is at most n + n/254 + 1 long, exactly that for input without zeros |
| Cobs.BlocksAdd | src/al/util/codec/UtilCobs.cpp:6-27 | up to 253 bytes without a zero become their number plus one and themselves, and a zero behind them only closes that block |
| Cobs.CutShortRefused | src/al/util/codec/UtilCobs.cpp:29-48 | such a block cut short anywhere is refused, and so is anything that begins with a zero |
| Cobs.DecShorter | src/al/util/codec/UtilCobs.cpp:29-48 | decoding writes fewer bytes than it reads, whatever the input |
| Cobs.Encode | src/al/util/codec/UtilCobs.cpp:6-27 | the in-place loop writes exactly the encoding and touches nothing else |
| Cobs.DecodeInto | src/al/util/codec/UtilCobs.cpp:29-48 | the in-place loop writes exactly the decoding, and returns 0 for malformed input |
| Crc.Crc8Loop | src/al/util/codec/UtilCrc.cpp:62-67 | the table loop equals the bit-serial CRC-8 with polynomial 0x07 |
| Crc.Crc16Loop | src/al/util/codec/UtilCrc.cpp:69-75 | the table loop equals the bit-serial CRC-16 with polynomial 0x1021 and initial value 0xFFFF |
| Crc.Crc8DetectsByte | src/al/util/codec/UtilCrc.cpp:62-67 | any change within one byte of a message of any length changes the CRC-8 |
| Crc.Crc16DetectsTwoBytes | src/al/util/codec/UtilCrc.cpp:69-75 | any change within two adjacent bytes of a message of any length changes the CRC-16 |
| Framer.FrameShape | src/al/link/io/LinkTx.cpp:106-196 | every frame built is at most 255 bytes, fits both framer buffers, and is zero only at its ends |
| Framer.BodyLayout | src/al/link/io/LinkTx.cpp:312-400 | the bytes of each kind of body, the byte count of an ACK low byte first |
| Framer.BuildFrame | src/al/link/io/LinkTx.cpp:143-196 | the data frame built in place is the printed frame, an overlong chunk cut to 250 bytes |
| Framer.BuildAck | src/al/link/io/LinkTx.cpp:312-383 | the ACK frame built is the printed frame |
| Framer.BuildNak | src/al/link/io/LinkTx.cpp:312-400 | the NAK frame built is the printed frame |
| Framer.AnySplit | src/al/link/io/LinkFrameRx.cpp:8-55 | any split of a byte stream gives the same events and the same state |
| Framer.ClassifiesOwn | src/al/link/io/LinkFrameRx.cpp:20-43 | a frame's body is recognised as its own kind with its own content |
| Framer.ShortAckUnderstood | src/al/link/io/LinkFrameRx.cpp:20-43 | an ACK without a byte count is understood as one of zero bytes |
| Framer.DamageIsAnError | src/al/link/io/LinkFrameRx.cpp:20-43 | a body that is no ACK or NAK and fails its checksum is an error, never a chunk |
| Framer.OverlongBodyIsAnError | src/al/link/io/LinkFrameRx.cpp:44-52 | the 257th byte of a body is an error, and what follows starts a new body |
| Framer.FrameReported | src/al/link/io/LinkFrameRx.cpp:8-55 | after any garbage a well-formed frame is reported once, as itself; the garbage is reported as if a zero had ended it |
| Framer.PrintedFramesArrive | src/al/link/io/LinkFrameRx.cpp:8-55 | a list of frames behind any garbage, in any pieces, is reported as exactly that list |
| Framer.FrameRx.Feed | src/al/link/io/LinkFrameRx.cpp:8-55 | the byte loop reports exactly the events of the bytes consumed and stops early only behind a report that gave the link up |
| Demux.NoByteLost | src/al/link/io/LinkRx.cpp:57-157 | over any deliveries each byte goes once, in order, to a CRC-valid control frame, to the framer, or into a carry of at most four bytes |
| Demux.HeldOnlyInDoubt | src/al/link/io/LinkRx.cpp:96-157 | what a delivery leaves over is its own last bytes, at most four, and they begin like a control frame |
| Demux.SplitCtrlSeen | src/al/link/io/LinkRx.cpp:63-89 | a control frame cut in two by a delivery boundary is recognised |
| Demux.CarryMatters | src/al/link/io/LinkRx.cpp:63-95 | a delivery that completes a carry to five bytes is routed, and leaves a tail, as if both had come in one piece if and only if the five are a control frame or no offset behind the first starts or may start one; a shorter one only joins the carry |
| Demux.StrayByteHidesCtrl | src/al/link/io/LinkRx.cpp:63-95 | a concrete control frame behind a stray 0xAA goes to the framer byte by byte when the delivery ends one byte short of it, though one delivery would have found it |
| Demux.RxDemux.OnRx | src/al/link/io/LinkRx.cpp:57-157 | the loop routes a delivery, and keeps a carry, exactly as specified |
| WirePath.DeliveryPasses | src/al/link/io/LinkRx.cpp:96-157 | one delivery reaches the framer whole, but for a doubtful tail, if and only if no CRC-valid control frame starts anywhere in it |
| WirePath.FrameArrives | src/al/link/io/LinkRx.cpp:96-157 | a printed frame delivered in one piece is reported as itself if and only if no CRC-valid control frame starts anywhere in its bytes |
| WirePath.AllToFramer | src/al/link/io/LinkRx.cpp:57-157 | without such a pattern no delivery boundaries can make the demultiplexer see one |
| WirePath.FramesSurvive | src/al/link/io/LinkRx.cpp:57-157 | printed frames without such a pattern, through demultiplexer and framer in any pieces, are reported as exactly those frames |
| WirePath.PatternFrameIsEaten | src/al/link/io/LinkRx.cpp:96-130 | a chunk that is the pattern itself neither reaches the framer whole nor is reported as itself, under any sequence but 0 |
| WirePath.PatternFrameArrivesAltered | src/al/link/io/LinkFrameRx.cpp:8-55 | a concrete chunk of ten bytes is reported as one of five with a good checksum under the same sequence |
| ByteLink.DeliverySplits | src/al/link/io/LinkRx.cpp:57-157 | a delivery of any size in which no control frame starts moves frames from the wire to the node and makes, loses and reorders none |
| ByteLink.LossIsOne | src/al/link/io/LinkFrameRx.cpp:8-55 | when the bytes of one frame are lost, that frame and no other is missing from what the framer will report |
| ByteLink.BytesRefineFrames | src/al/link/io/LinkRx.cpp:57-157 | every run of both nodes over printed bytes, cut into deliveries anywhere, is a run of the frame-level system of `EndToEnd` |
| ByteLink.BytesArriveIntact | src/al/link/LinkApi.cpp:739-1192 | over bytes as well, what recvMsg returned is the accepted messages, whole, in order, once each, in every run in which no delivery holds a control pattern and no call was cut off |
| ByteLink.UncleanDeliveryMisleads | src/al/link/io/LinkRx.cpp:96-157 | without clean deliveries the receiver may push and acknowledge bytes that were never sent, on a wire that loses and changes nothing |
| SweepSpec.StepKeepsGood | src/al/link/timers/LinkTimersSwp.cpp:17-388 | every frame, timer tick, reset and kickoff keeps the sweep invariant; the tick that uses up the one-shot timer arms it again |
| SweepSpec.SweepNeverLost | src/al/link/timers/LinkSweepGlue.cpp:205-391 | in every run the UART is tuned to the current baud, the one-shot timer is armed after every event, P3 is at its own baud, a master's camp is in P3, and a master past P1 outside a camp has had its PONG |
| SweepSpec.FallbackHasEvidence | src/al/link/timers/LinkTimersSwp.cpp:48-82 | a master that locks on its own timer has heard the peer this round; a fallback is never denied |
| SweepSpec.OnlyKickoffStrandsCamp | src/al/link/LinkCore.cpp:302-339 | a camp leaves P3 pending if and only if a camping slave is kicked off again |
| SweepSpec.KickoffStrandsCamp | src/al/link/LinkCore.cpp:302-339 | a concrete run reaches that state: a lock, a watchdog reset that keeps the baud, and a kickoff leave a slave in P1 with its camp pending |
| SweepSpec.StrandedDeadlineCutsCamp | src/al/link/timers/LinkTimersSwp.cpp:333-388 | from any camp, a kickoff and two PINGs put the slave back in P3 with the camp's old looks and deadline, and its first tick keeps it there if and only if looks are left and that deadline has not passed; a slave without a stranded camp always stays |
| SweepSpec.MasterDwells | src/al/link/timers/LinkTimersSwp.cpp:25-55 | inside one dwell the master pings at every sub-tick and stays at its baud |
| SweepRound.MasterWalks | src/al/link/timers/LinkTimersSwp.cpp:25-92 | with nothing heard the master dwells at each baud but the slowest in turn, fastest first, for exactly one dwell each, and pings at every sub-tick |
| SweepRound.MasterRoundEnds | src/al/link/timers/LinkTimersSwp.cpp:48-82 | after the last of those dwells it locks at the slowest baud and tells the peer |
| SweepSpec.SlaveWalks | src/al/link/timers/LinkTimersSwp.cpp:263-303 | the slave visits every baud of the list downwards, wrapping once a round |
| SweepSpec.PingMeetsSlave | src/al/link/sweep/LinkSweep.cpp:123-136 | for every list of bauds, every slave position and timer offset, one ping of each master dwell goes out while the slave listens at that baud |
| SweepSpec.FirstMeeting | src/al/link/sweep/LinkSweep.cpp:123-136 | the first ping of the dwell that reaches the slave, no later than one round of the list, finds both in P2 at the master's baud |
| SweepSpec.MeetingLocks | src/al/link/timers/LinkSweepGlue.cpp:205-391 | once a PING has met the slave, three answers each way lock both nodes at that baud |
| SweepSpec.RendezvousLocks | src/al/link/timers/LinkSweepGlue.cpp:205-391 | for every list of bauds, slave position and timer offset, the first ping of a master's dwell that reaches the slave starts a handshake that ends with both nodes locked at the master's baud |
| SweepRound.RoundLocks | src/al/link/timers/LinkTimersSwp.cpp:25-92 | for every list of bauds, slave position and timer offset, the first ping of a whole round that reaches the slave is sent at the fastest baud that carries frames, and locks both nodes there |
| SweepRound.FirstContact | src/al/link/timers/LinkSweepGlue.cpp:205-391 | after a kickoff each, one PING and its PONG at the slowest baud take both nodes to P2 |
| SweepRound.KickoffLocks | src/al/link/timers/LinkSweepGlue.cpp:205-391 | from kickoff to lock: when the slowest baud carries that contact, both nodes end up locked at the fastest baud of the list that carries frames |
| SweepRound.Phase1Waits | src/al/link/timers/LinkTimersSwp.cpp:19-24 | a node that hears nothing in P1 stays where it is; a master pings at every tick |
| SweepRound.MasterLeavesPhase3 | src/al/link/timers/LinkTimersSwp.cpp:194-232 | an unanswered P3 outside a camp leads to one ping at the next slower baud and back to P1, and from the slowest baud to a lock there that is not announced |
| SweepRound.SlaveOutwaitsMaster | src/al/link/sweep/LinkSweep.cpp:76-136 | a slave waits in P3 for three of the master's P3 timers, and in P1 for longer than a master's dwell |
| SweepRound.Phase3TimerCovers | src/al/link/timers/LinkTimersSwp.cpp:160-175 | a master's P3 timer covers a round trip for each ACK still missing and one more, and never grows as they come in |
| SweepRound.CampPings | src/al/link/timers/LinkTimersSwp.cpp:134-176 | until its deadline a master's camp pings at the baud it kept at every tick, 24 times at most |
| SweepRound.CampGivesUp | src/al/link/timers/LinkTimersSwp.cpp:176-193 | behind the deadline, or after 24 pings, the next tick ends the camp and starts over at the slowest baud |
| SweepRound.SlaveLooksTwice | src/al/link/timers/LinkTimersSwp.cpp:304-388 | a camping slave looks twice more before its deadline and forgets its baud at the third tick |
| SweepRound.ResetCamps | src/al/link/LinkCore.cpp:469-653 | a reset camps at the baud of the last lock, for three to five seconds, whenever it may keep it |
| SweepRound.ResetStartsOver | src/al/link/LinkCore.cpp:469-653 | any other reset starts over in P1 at the slowest baud with no camp; which ones forget the baud |
| SweepRound.LockThenCamp | src/al/link/LinkCore.cpp:469-653 | however a node has locked, a preserving reset of a master, or of a slave by its watchdog, camps at that baud |
| SweepRound.KickoffStartsOver | src/al/link/LinkCore.cpp:252-340 | a kickoff has a node that is not locked start over in P1; a slave keeps its camp and its baud, a master does not |
| SweepRound.LockFrameLocks | src/al/link/timers/LinkSweepGlue.cpp:220-234 | a LOCK for a baud of the list locks there whatever the phase, and for any other value does nothing |
| SweepRound.RequestLocksBest | src/al/link/timers/LinkSweepGlue.cpp:235-242 | a slave asked for its verdict locks at the fastest baud it has heard a PING at, or at the fastest, and says so |
| SweepRound.PingsAreScored | src/al/link/timers/LinkSweepGlue.cpp:205-391 | every PING a slave hears counts for the baud it is tuned to and no other |
| SweepRound.OnlyResetUnlocks | src/al/link/timers/LinkSweepGlue.cpp:205-391 | frames, ticks and kickoffs leave a locked node as it is; only a reset ends the lock |
| SweepSide.SweepNode.BestSpd | src/al/link/timers/LinkSweepGlue.cpp:41-49 | whatever the hit threshold, the answer is the fastest baud that heard a PING, or the fastest of all |
| SweepSide.SweepNode.LockOk | src/al/link/timers/LinkSweepGlue.cpp:51-203 | a lock tunes, records the baud and that there was a lock, arms the OK tick and closes the camp; while already locked it changes nothing |
| SweepSide.SweepNode.HandleSwp | src/al/link/timers/LinkSweepGlue.cpp:205-391 | one control frame moves the node as specified and keeps it sound with its timer armed |
| SweepSide.SweepNode.OnTimerMaster | src/al/link/timers/LinkTimersSwp.cpp:17-239 | one master tick moves the node as specified and arms the spent timer again; it locks only after a PONG, and both branches that deny a fallback are never taken |
| SweepSide.SweepNode.OnTimerSlave | src/al/link/timers/LinkTimersSwp.cpp:240-388 | one slave tick moves the node as specified, arms the spent timer again and never locks; the drop below the fastest baud is never taken |
| SweepSide.SweepNode.ResetLink | src/al/link/LinkCore.cpp:469-653 | a reset from any state leaves a sound node, in a pending camp exactly when a proven baud may be kept and no breaker vetoes it, else in P1 |
| SweepSide.SweepNode.KickOff | src/al/link/LinkCore.cpp:252-340 | a kickoff is ignored while locked, resets a master and puts a slave back to P1 |
| SweepSide.SweepNode.Handle | src/al/link/timers/LinkSweepGlue.cpp:205-391 | any event does exactly one step of the specification and keeps the invariant |
| Keepalive.HeardPeerIsKept | src/al/link/timers/LinkHealth.h:210-310 | whatever is pending, stuck or full, a peer heard recently is kept exactly unless sends have been rejected for a whole idle timeout and still are |
| Keepalive.DropsOnEvidence | src/al/link/timers/LinkHealth.h:210-310 | a link is dropped if and only if clocks and counters show one of eight pieces of evidence, four of them waived in SYNC mode or while the retry ladder is at work |
| Keepalive.VerdictNamesEvidence | src/al/link/timers/LinkHealth.h:210-310 | the verdict names the first piece of evidence in a fixed order |
| Keepalive.SilentPeerIsDropped | src/al/link/timers/LinkTimersOk.cpp:595-613 | the first OK tick more than three idle timeouts after the last frame drops the link, and on a slave already the first more than two camp budgets after it |
| Keepalive.SilenceBounded | src/al/link/timers/LinkTimersOk.cpp:595-613 | no node of an idle pair hears nothing for longer than half the idle timeout, one tick and one crossing |
| Keepalive.IdleIsKept | src/al/link/timers/LinkHealth.h:210-310 | within that silence the health verdict of an idle master or slave is Keep, at any clock reading |
| Keepalive.IdlePairNeverDrops | src/al/link/timers/LinkTimersOk.cpp:595-613 | in every run of two idle nodes over a lossless wire no OK tick reaches a drop verdict, as long as that bound fits the watchdogs |
| Keepalive.DefaultsFit | src/al/link/timers/LinkSweepGlue.cpp:23-37 | the defaults fit exactly for crossings of up to 2.5 seconds |
| Keepalive.OkTickIsAckTimeout | src/al/link/timers/LinkSweepGlue.cpp:23-37 | in ASYNC mode the OK tick is the ACK timeout, at least 50 ms |
| Zip.FeedSplit | src/al/web/OtaCore.cpp:48-167 | any split of the input gives the same state and tells the sinks the same entries, data and ends |
| Zip.HdrReadsBack | src/al/web/OtaCore.cpp:73-107 | a printed local header is accepted and its lengths read back |
| Zip.HeaderAccepted | src/al/web/OtaCore.cpp:84-97 | a header is accepted if and only if it is of a stored entry without a data descriptor and with a name of 1 to 96 bytes; otherwise the first of these to fail is the reason |
| Zip.EntrySizes | src/al/web/OtaCore.cpp:87-135 | the data run for the packed size of the header, while the application is told the unpacked one |
| Zip.ReadEntry | src/al/web/OtaCore.cpp:48-167 | a printed entry is told once, with all its data if wanted, and leads to the next signature |
| Zip.ArchiveReadsBack | src/al/web/OtaCore.cpp:48-167 | an archive of stored entries is read back as exactly those entries and ends done, whatever follows the central-directory signature |
| Zip.ArchiveRefused | src/al/web/OtaCore.cpp:48-107 | behind any stored entries a header not accepted or an unknown signature has the archive refused for good, the entries before it told and nothing else |
| Zip.OtaZipStream.Feed | src/al/web/OtaCore.cpp:48-167 | the state-machine loop does, for a delivery of any size, what its bytes one by one call for; it answers false exactly when the archive is refused |

## Left out

- SYNC mode and its blocking waits; `Link::write`; the legacy single-slot ACK path.
- Sessions that trust whatever sequence arrives first, and delivery across a reset: the delivery theorems are about one
  seeded session.
- Line errors that pass a CRC: a frame the line corrupts counts as lost. What the demultiplexer itself does to an intact
  frame is modelled (`WirePath.FrameArrives`).
- SendPath.SendMsg: the verdicts of the quiet period and of the rate limiter are inputs; one task sends at a time; a link
  reset in a pause is not back in OK at the end of that pause.
- EndToEnd.MessagesArriveIntact: says nothing of runs in which a call was cut off in the middle of a message, nor of
  calls made after a partial message has gone stale; for those, `ReceiverSide.Receiver.RecvMsg` gives the buffer only.
- ReceiverSide.Receiver.FindMsgHeaderResync: states the buffer as the code leaves it; when the buffer is longer than the
  scan window the kept bytes go behind the bytes not scanned, so byte order is not preserved (`Messages.ResyncReorders`).
- SenderSide.Sender.Reset: the ARQ half of a link reset only; the receiver's half is a new `ReceiverSide.Receiver`.
- Ladder.LadderResetsInTime: the base does not move, and the ring takes a frame at each tick.
- ByteLink.BytesArriveIntact: a frame is lost with all its bytes; bytes that a line error changes or drops singly are not
  modelled, nor are genuine control frames between data frames of a locked link.
- Progress.NothingWedges: existence of a delivering continuation; `Fairness` has every fair run. Both are about wires of
  frames, in one session: the ladder's own reset, which ends a session that stays stuck long enough, is not among the steps.
- Fairness.EveryMessageArrives: time is not bounded; the app buffer holds one longest message and its header.
- SweepRound.KickoffLocks: the two timers run at one pace, `offset` apart, from the end of the first contact; no frame is lost
  at a baud that carries frames and none arrives at one that does not.
- SweepSpec.RendezvousLocks: ideal timers up to the meeting, no frame lost and no timer firing in the handshake; what
  becomes of a handshake whose last LOCK is lost is not stated.
- SweepSpec.SweepNeverLost: at least one baud, none zero, and a P1 delay of at least a millisecond.
- Keepalive.IdlePairNeverDrops: nothing pending, no TX rejects, no peer-baud-mismatch escalation, no frame lost.
- Zip.OtaZipStream.Feed: the data and end-of-entry sinks accept; a name is its bytes, also when it holds a NUL.
- Baud upgrade and break handling, epochs of the sweep frames, statistics, logs, and the per-message sum of byte counts.
- The HAL, tasks and locks, the web server, OTA flash writing, the ping-pong applications.
