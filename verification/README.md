# udpfsd in Dafny

A model of the core of udpfsd, a server that offers files and block devices to a console over UDP,
and proofs of what that core keeps whatever the network and the clients do.

- `Basics.dfy` - types and arithmetic that the other modules share.
- `Wire.dfy` - the UDPRDMA bit fields, the packets a session builds, and how it reads a datagram.
- `Transfers.dfy` - how one transfer is cut into packets, written as a list with its laws.
- `SessionSpec.dfy` - the UDPRDMA session as a state machine on values: Go-Back-N sender with a retransmit
  ring, 12-bit numbers, an 8-packet window and one ACK timer, and the in-order receiver beside it.
- `SessionInv.dfy` - the invariant of that machine and its proof for every step and every run.
- `SessionTheorems.dfy` - consequences: when pruning and resending do what they say, when the sender gives up,
  what the receiving side promises.
- `SessionLimits.dfy` - where the 12-bit numbers run out: exactly when the ring holds more than the window and when
  a FIN waits without a timer, with runs that get there.
- `SessionEffects.dfy` - what the operations do to the world: the datagrams a send, an ACK, a NACK, a timeout or a repeated
  packet puts out, the answer to each packet, the bytes handed up, the silence of a closed session.
- `Session.dfy` - the session as the program keeps it: one object, a 2048-slot array, two indices, a view of the
  caller's buffer. Each method is proved to take exactly one step of the state machine.
- `Delivery.dfy` - a sender and an in-order peer that answers and sends requests of its own, transfer after transfer,
  across a network that loses, duplicates and reorders and still carries datagrams of earlier transfers.
- `Abandoned.dfy` - the same two ends when the sender starts a transfer before the last one was acknowledged.
- `Connection.dfy` - the read buffer that all replies of a connection share, with the timer firing at any moment.
- `BlockCache.dfy`, `CachedReader.dfy` - the seekable reader over compressed images and its LRU cache.
- `HandleTable.dfy` - the 64 handles, idle eviction, and the "many readers or one writer" rule.
- `Writes.dfy` - assembling a write from chunks that arrive in any order, on values and on the file objects behind
  the handle table.

Integers are unbounded in the model; the 12-bit, 14-bit and 16-bit wrap-arounds of the program are written out.
Time is a parameter, the timer is a step that may happen at any moment, the file system's answers are
parameters, and what is written to the network is appended to a history.

## What the proofs say about the program

Main results, each for all inputs, all states reachable or all runs:

- In every run of transfers one after the other, what the peer accepts during a transfer is a prefix of its packets,
  and all of them once the FIN is acknowledged, whatever earlier transfers have left on the network
  (`PeerGetsTransfer`, `PeerHoldsReply`), as long as no datagram is overtaken by more than 4087 packets, which is the
  exact bound (`LateCopyAccepted`); and while the sender is still trying, losing everything on the network
  does not prevent that end (`CanFinish`, `ReplyCanArrive`).
- Every run keeps `Inv` (`Run`): the ring is the newest packets in number order and byte for byte, holds at most nine,
  the transfer is on plan, an armed timer waits for something real, a blocked transfer has the timer armed, deliveries
  count up from 0 per life of the peer.
- What leaves and what goes up is said byte for byte: a send or an ACK puts out the next packets of the plan, in order and
  numbered (`StartPutsOut`, `AckPutsOut`); a NACK, a timeout and a repeated packet put out exactly a part of the ring
  (`NackPutsOut`, `TimeoutPutsOut`, `RepeatPutsOut`), all of it between two ends in step (`NackRefills`,
  `TimeoutRefills`, `RepeatRefills`); the packet that is due goes up whole (`GoesUpIff`, `DuePacketGoesUp`).
- The object with its array, indices and aliased buffer takes the steps of the machine (`Session.Session.*`), and a
  reply is cut from the bytes read for it even if the timer fires while the buffer is being overwritten (`HandleRead`).
- Reads through the cache answer like a flat file for every sequence of operations (`Replay`), the cache is exact LRU, and
  a smaller cache holds a subset of a larger one after the same operations (`ReplayBoth`).
- Whatever the order and repetition of its chunks, a write leaves the file alone until the last chunk is taken in line,
  and then lands once and whole; a block write lands only in the sectors its request names (`WriteLands`,
  `BlockWriteLandsAt`).

Where the code does not do what its comments say, the exact condition is proved:

- "Keep packets strictly after seqNrAck" (udprdma/session_tx.go:158-169) holds if and only if the gap left is less
  than half a ring longer than the buffered packets (`PruneExactIff`); `AckDropsLivePacket` is a run in which an ACK
  discards a live, unacknowledged packet and leaves its FIN waiting in silence.
- "Retransmits buffered packets from fromSeq" (udprdma/session_tx.go:171-193) holds for a buffered packet if and only
  if it is the oldest; a NACK for a later one resends nothing (`NackResendsSuffixIff`); `NackResendsNothing` is such a
  run.
- The ACK timer is meant to cover whoever waits (udprdma/ack_timer.go:40-54), but a pending FIN has no timer if and only
  if the ring is empty or the gap has wrapped to 0 (`StalledIff`); `Stalls` says before each operation whether it ends
  there (`StepLimits`), no later timer call helps (`StaysStalled`), and `FinForgotten` is a run: 4096 unacknowledged
  replies.
- "Max unacked packets in flight" is 8 (udprdma/protocol.go:25), but nine live packets are reachable after 4095
  unacknowledged replies (`NinePacketsReached`). An operation leaves more than 8 if and only if it starts the send
  loop on an empty ring with a gap of 4095 and at least nine packets to send, or finds nine there and does not touch
  them (`Overfills`, `StepLimits`). The "ring buffer is full" panic is unreachable in any case
  (`Session.Session.PackDataPacket`).
- A transfer started while the peer still wants an earlier packet, whose copies are lost, never reaches the peer before
  the numbers have gone once round (`PeerWaitsInVain`); `OnlyLastArrives` is a family of such runs, up to the wrong
  packet accepted in the end.
- A late copy of packet 0 is taken for a peer reset and delivered again; every other late copy is not
  (`StaleRedeliveredIff`); `PacketZeroDeliveredTwice` is such a run.
- `optimalChunkSize` always chooses 1408 (`OptimalChunkSize`).

## Model

| member | source | states |
|---|---|---|
| Wire.HeaderRoundTrip | udprdma/protocol.go:62-78 | packing then reading keeps the low 4 and 12 bits of the fields, exactly them |
| Wire.HeaderRoundTripBack | udprdma/protocol.go:62-78 | reading two bytes and packing again gives the same two bytes |
| Wire.DataHeaderRoundTrip | udprdma/protocol.go:111-132 | the four data header fields do not leak into each other |
| Wire.DataHeaderRoundTripBack | udprdma/protocol.go:111-132 | reading four bytes and packing again gives the same four bytes |
| Wire.HeaderLayout | udprdma/protocol.go:62-78 | type in the low half of the first byte, number in the twelve bits above |
| Wire.DataHeaderLayout | udprdma/protocol.go:111-132 | which bits of the four bytes hold which of the four fields |
| Wire.DecodeEncodeData | udprdma/session_tx.go:197-219 | the receive rule reads a built DATA packet back as its number, flags and header ++ chunk ++ zero padding |
| Wire.DecodeKeepsNumber | udprdma/session_tx.go:197-219 | no built DATA packet, describable or not, is read under another number |
| Wire.DataPacketLayout | udprdma/session_tx.go:197-219 | every field of both headers of a built DATA packet, and the bytes behind them |
| Wire.ControlLayout | udprdma/session_tx.go:134-150 | every field of both headers of an ACK or NACK |
| Wire.DecodeCuts | udprdma/session_rx.go:24-44 | a payload is cut to what the counts announce and to what is there; none at all makes a control packet |
| Wire.DecodeEncodeControl | udprdma/session_tx.go:134-150 | the receive rule reads a built ACK or NACK back as itself |
| Transfers.ChunksLaws | udprdma/session_tx.go:71-86 | the chunks concatenate to the data from the offset, all full but the last, FIN on the last only |
| Transfers.PlanLaws | udprdma/session_tx.go:46-87 | the packets of a transfer carry its data once and in order, header in front only, FIN at the end only |
| Transfers.ReplyLaws | udprdma/session_tx.go:50-86 | a reply with a word-sized header pads only its FIN packet, stays within 1408 payload bytes and within the 1500-byte slot |
| Transfers.MessageLaws | udprdma/session_tx.go:9-18 | a message is one FIN packet, or none when empty |
| Transfers.PayloadBytesOfPlan | udprdma/session_tx.go:197-219 | the payloads in order are header, data and the padding of the whole |
| Transfers.FewestPackets | udprdma/session_tx.go:240-251 | 1408 never needs more packets than a smaller chunk size even with the 8-byte header, and the number is 1 or 1 + ceil((n-1400)/1408) |
| Transfers.OptimalChunkSize | udprdma/session_tx.go:240-251 | the size chosen gives the fewest packets of the candidates, and is 1408 |
| SessionSpec.AdvanceLaws | udprdma/session_tx.go:50-86 | one turn of the send loop removes exactly the first remaining packet and shrinks the loop's measure, so the loop ends |
| SessionInv.AckMovesForward | udprdma/session.go:133-142 | the window test is a distance test on the 12-bit ring, and an accepted ACK never moves the mark backwards |
| SessionInv.PruneClosed | udprdma/session_tx.go:160-169 | pruning discards a prefix of the ring whose length is a function of count and gap |
| SessionInv.ResendClosed | udprdma/session_tx.go:173-193 | a retransmission is a prefix of the live ring whose length is a function of count and distance |
| SessionInv.PushKeepsNumbers | udprdma/session_tx.go:221-231 | a new packet is numbered next, becomes the newest of the ring, and keeps the occupancy bounds when the window allows it |
| SessionInv.PumpKeeps | udprdma/session_tx.go:46-87 | the whole send loop keeps the core, and stops only at a full window or at the end of the transfer |
| SessionInv.UpdateTimerKeeps | udprdma/ack_timer.go:42-54 | afterwards a blocked transfer, and a FIN with a packet in the ring and a gap that is not 0, has the timer armed, and an armed timer waits for something |
| SessionInv.HandleTransferKeeps | udprdma/session_tx.go:46-92 | sending what the window allows re-establishes the full invariant |
| SessionInv.StartTransferKeeps | udprdma/session_tx.go:9-30 | a new send establishes the invariant whatever state the abandoned transfer was in |
| SessionInv.TakeAckRing | udprdma/acks.go:7-18 | an accepted ACK prunes by the closed form, never widens the gap, and closes it exactly when it names the last packet sent |
| SessionInv.TakeAckKeeps | udprdma/acks.go:16-18 | an accepted ACK keeps the core; an ACK of the last packet empties the ring |
| SessionInv.OnPeerAckKeeps | udprdma/acks.go:31-36 | an ACK, with the packets it lets out, keeps the invariant |
| SessionInv.OnPeerNackKeeps | udprdma/acks.go:40-48 | a NACK keeps the invariant |
| SessionInv.FireKeeps | udprdma/ack_timer.go:57-65 | a timer step keeps the invariant, and the early exit of the timeout handler is unreachable from it |
| SessionInv.FireKeepsReady | udprdma/ack_timer.go:57-65 | a timer step needs and changes nothing of the transfer's bytes: what a new send needs still holds, and no packet is built |
| SessionInv.DeliverKeeps | udprdma/session_rx.go:46-82 | an accepted packet is the next of its epoch, or opens a new epoch at 0 |
| SessionInv.ProcessIs | udprdma/session_rx.go:46-82 | a DATA packet is sorted and answered first, then its ACK is taken, and only a repeat during a transfer resends |
| SessionInv.ProcessKeeps | udprdma/session_rx.go:10-83 | every datagram keeps the invariant |
| SessionInv.ApplyKeeps | udprdma/session.go:11-47 | every operation of the session keeps the invariant |
| SessionInv.Run | udprdma/session.go:11-47 | the invariant holds after every sequence of sends, ACKs, NACKs, data packets, timeouts and closes |
| SessionTheorems.SentIsPrefix | udprdma/session_tx.go:46-92 | across all resumptions the chunks sent are data[..offset], complete when FIN is out; header first only, FIN last only |
| SessionTheorems.PruneExactIff | udprdma/session_tx.go:158-169 | pruning keeps exactly the packets after the acknowledged number if and only if the gap is under half a ring plus the buffered count |
| SessionLimits.AckDropsLivePacket | udprdma/acks.go:7-18 | a run in which an ACK datagram makes pruning discard an unacknowledged packet, whose FIN then waits without a timer |
| SessionTheorems.TimeoutResendsAllIff | udprdma/session_tx.go:105-106 | a timeout resends the whole ring if and only if the ring lies in the gap and the gap in half a number ring |
| SessionTheorems.NackResendsSuffixIff | udprdma/session_tx.go:171-193 | a NACK naming a buffered packet resends from there on if and only if it is the oldest, and otherwise nothing |
| SessionLimits.NackResendsNothing | udprdma/session_tx.go:173-193 | a run with two live packets in which a NACK datagram for the second puts nothing on the network |
| SessionTheorems.ResendRepeatsHistory | udprdma/session_tx.go:173-193 | what is resent was on the network before, byte for byte, in order |
| SessionTheorems.GivesUp | udprdma/session_tx.go:96-130 | from any armed state the remaining retries fire with the same ring; the last one abandons the wait and the timer is idle for good |
| SessionTheorems.RepeatNotDelivered | udprdma/session_rx.go:47-62 | a packet repeated right after its delivery is not delivered again |
| SessionTheorems.StaleRedeliveredIff | udprdma/session_rx.go:47-75 | a late copy is delivered again if and only if it is numbered 0 and not the newest |
| SessionLimits.PacketZeroDeliveredTwice | udprdma/session_rx.go:63-66 | a run of three datagrams in which packet 0 is delivered twice, the second time in a new epoch |
| SessionTheorems.ProcessReceives | udprdma/session_rx.go:46-82 | exactly which deliveries and epochs each verdict adds |
| SessionTheorems.AckNamesLastDelivered | udprdma/session_tx.go:134-150 | a fresh ACK names the last number delivered in the current epoch, a fresh NACK the next |
| SessionTheorems.PumpAcks | udprdma/session_tx.go:207-212 | every packet the send loop builds acknowledges the number before the one expected, and the loop leaves the receiving side alone |
| SessionTheorems.FreshPacketsAck | udprdma/session_tx.go:207-212 | every DATA packet any operation builds acknowledges the number delivered last, deliveries of that same operation included |
| SessionLimits.OneShot | udprdma/session_tx.go:9-18 | a one-packet message goes out at once whatever is unacknowledged, and leaves the mark where it was |
| SessionLimits.PumpFills | udprdma/session_tx.go:48 | how many packets the send loop adds to a ring that is not empty, and the gap it leaves |
| SessionLimits.PumpFromEmpty | udprdma/session_tx.go:46-87 | how many packets the send loop puts into an empty ring, for every gap and every number of packets |
| SessionLimits.StalledIff | udprdma/ack_timer.go:42-54 | on an open session a pending FIN has the timer armed if and only if the ring is not empty and the gap is not 0 |
| SessionLimits.StaysStalled | udprdma/ack_timer.go:57-65 | no number of timer calls changes a session whose FIN waits without a timer |
| SessionLimits.HandleTransferLimits | udprdma/session_tx.go:46-92 | the send step overfills the ring, or ends on a FIN without a timer, exactly from an empty ring with a gap of 4095 |
| SessionLimits.StartLimits | udprdma/session_tx.go:9-30 | a transfer starts with exactly so many packets and with all its retries, more than eight or stalled if and only if the gap is 4095 and the plan long enough or one packet |
| SessionLimits.AckLimits | udprdma/acks.go:7-36 | exactly which ACKs leave more than eight packets live, and which leave a FIN without a timer |
| SessionLimits.StepLimits | udprdma/session.go:11-47 | the same two questions answered if-and-only-if for every operation from every reachable state |
| SessionLimits.FinForgotten | udprdma/ack_timer.go:42-46 | a run that ends with a live packet whose FIN is pending and no timer armed |
| SessionLimits.NinePacketsReached | udprdma/session.go:153-159 | a run of replies with the server's 8-byte header that ends with nine live packets |
| SessionEffects.SendPutsOut | udprdma/session_tx.go:46-92 | the send step puts out the next packets of the plan, each once, in order, numbered, acknowledging the last delivery |
| SessionEffects.StartPutsOut | udprdma/session_tx.go:9-30 | starting a transfer puts out its first packets and nothing else, and how many they are |
| SessionEffects.AckPutsOut | udprdma/acks.go:31-36 | an ACK puts out the next packets of the transfer, or nothing when none is under way |
| SessionEffects.NackPutsOut | udprdma/acks.go:40-48 | a NACK puts out exactly a prefix of the ring, the whole ring when it names the oldest packet, and restarts the retries |
| SessionEffects.TimeoutPutsOut | udprdma/session_tx.go:96-130 | a timeout puts out exactly the part of the ring behind the mark, and counts the try |
| SessionEffects.RepeatPutsOut | udprdma/session_rx.go:49-62 | after the answer and the ACK a repeat puts out part of the ring if a transfer is under way, and nothing otherwise |
| SessionEffects.AnswerIs | udprdma/session_rx.go:46-82 | a packet delivered now or last is answered by its ACK, any other by a NACK of the number due; the answer carries the next send number |
| SessionEffects.GoesUpIff | udprdma/session_rx.go:46-82 | exactly which packets are handed up, and that the bytes handed up are those recorded as delivered |
| SessionEffects.DuePacketGoesUp | udprdma/session_rx.go:24-82 | the packet that is due, as a sender builds it, goes up as header ++ chunk ++ padding |
| SessionEffects.ResetIsFresh | udprdma/session.go:107-123 | after a peer reset the sending side is that of a new session |
| SessionEffects.GenerationMoves | udprdma/ack_timer.go:11-39 | stopping, re-arming and firing change the timer generation, and a stopped timer no longer matches the expected one |
| SessionEffects.ClosedForGood | udprdma/session.go:90-100 | a closed session stays closed through every operation, and its timer does nothing |
| Session.WindowPush | udprdma/session_tx.go:221-227 | storing at the write index appends to the live window, and the indices do not meet |
| Session.Session.constructor | udprdma/session.go:62-88 | a new session is in the initial state |
| Session.Session.InFlight | udprdma/session.go:125-131 | the gap of the machine, or 0 for an empty ring |
| Session.Session.UpdateAckTimer | udprdma/ack_timer.go:42-54 | takes the timer update step |
| Session.Session.PackDataPacket | udprdma/session_tx.go:195-237 | takes the push step; the ring-full panic is dead code |
| Session.Session.SendChunks | udprdma/session_tx.go:46-87 | the send loop over array and view builds exactly the packets of the machine's loop |
| Session.Session.HandleTransfer | udprdma/session_tx.go:43-92 | takes the send step |
| Session.Session.SendData | udprdma/session_tx.go:8-18 | starts a message and is valid afterwards |
| Session.Session.SendRawDataWithHeader | udprdma/session_tx.go:20-30 | starts a reply cut from the caller's buffer and is valid afterwards |
| Session.Session.SendACK | udprdma/session_tx.go:132-156 | writes one control packet |
| Session.Session.PruneAcked | udprdma/session_tx.go:158-169 | the index loop leaves the pruned ring |
| Session.Session.RetransmitFrom | udprdma/session_tx.go:171-193 | the index loop writes the resent packets and counts them |
| Session.Session.OnAck | udprdma/acks.go:5-27 | takes the ACK step |
| Session.Session.OnPeerAck | udprdma/acks.go:29-36 | takes the peer ACK step and stays valid |
| Session.Session.OnPeerNack | udprdma/acks.go:38-48 | takes the peer NACK step and stays valid |
| Session.Session.HandleAckTimeout | udprdma/session_tx.go:94-130 | takes the timeout step |
| Session.Session.AckTimerFunc | udprdma/ack_timer.go:56-65 | takes the timer step even while the transfer's buffer is being overwritten; a valid session stays valid |
| Session.Session.ResetSession | udprdma/session.go:107-123 | takes the peer reset step |
| Session.Session.ProcessDataPacket | udprdma/session_rx.go:8-83 | takes the receive step for the decoded datagram, returns what it delivers, stays valid |
| Session.Session.Close | udprdma/session.go:90-100 | takes the close step and stays valid |
| Delivery.PumpInSync | udprdma/session_tx.go:46-92 | with nothing unacknowledged at the start, ring and unacknowledged packets stay the same thing |
| Delivery.AckInSync | udprdma/acks.go:7-18 | an ACK given when the peer wanted packet u is accepted if and only if u is not yet pruned away, and then prunes up to u |
| Delivery.DeliverDataStep | udprdma/session_rx.go:47-82 | a copy of packet i is accepted by the peer if and only if i is the one it wants |
| Delivery.LinkStands | udprdma/session_tx.go:46-193 | a step of the sender leaves the peer with exactly the packets before the one it wants |
| Delivery.ProcessMoves | udprdma/session_rx.go:36-82 | an ACK, a NACK or a request of a peer that waited for packet u discards exactly what precedes u if it carries an ACK, and puts out only answers and packets still held |
| Delivery.NextTransferKeeps | udprdma/session_tx.go:9-30 | a transfer may start with old datagrams still on the network; the peer has everything built before it |
| Delivery.StepKeeps | udprdma/session_tx.go:9-193 | every delivery in either direction, late or repeated, every request of the peer, every timeout and every new transfer keeps sender and peer consistent |
| Delivery.CurrentIsPrefix | udprdma/session_tx.go:46-193 | in every consistent state what the peer has of the transfer under way is a prefix of its packets, all of them at FIN acknowledged |
| Delivery.PeerGetsTransfer | udprdma/session_tx.go:9-193 | in every run, for every transfer of it, the peer accepts a prefix of that transfer's packets, and all of them once the FIN is acknowledged |
| Delivery.PeerHoldsReply | udprdma/session_tx.go:21-30 | for a reply, all of them means header ++ data ++ padding |
| Delivery.FinWaitEnds | udprdma/acks.go:20-24 | an ACK, alone or in a request, that ends the FIN wait acknowledges every packet |
| Delivery.TimeoutRefills | udprdma/session_tx.go:96-119 | a timeout puts a copy of every unacknowledged packet on the network |
| Delivery.NackRefills | udprdma/acks.go:40-48 | a NACK of the oldest packet puts a copy of every unacknowledged packet on the network |
| Delivery.NackNamesOldest | udprdma/acks.go:40-48 | a peer that waits for the oldest packet held names just that packet |
| Delivery.RepeatRefills | udprdma/session_rx.go:49-62 | a request that arrives again during a transfer puts a copy of every packet then unacknowledged on the network |
| Delivery.CanFinish | udprdma/session_tx.go:96-119 | while the sender is still trying, some continuation that uses nothing now on the network completes the transfer |
| Delivery.ReplyCanArrive | udprdma/session_tx.go:21-30 | whenever nothing is unacknowledged, the next reply can be brought across completely without anything now on the network |
| Delivery.LateCopyAccepted | udprdma/protocol.go:25 | a run in which a copy late by one packet more than the runs allow is accepted a second time |
| Abandoned.ProcessSends | udprdma/session_rx.go:36-82 | in step with its peer or not, a session puts out only answers and packets of the transfer under way |
| Abandoned.PeerWaitsInVain | udprdma/session_tx.go:9-30 | if a transfer starts while the peer wants an earlier packet whose copies are lost, the peer accepts nothing until the numbers have gone round |
| Abandoned.OnlyLastArrives | udprdma/session_tx.go:9-18 | of n messages in haste only the last arrives: it is accepted if and only if it is whole turns of the ring away from packet 0 |
| Connection.Connection.Interrupt | udprdma/ack_timer.go:56-65 | any number of timer firings, valid session or not, build no packet and change no transfer |
| Connection.Connection.Fill | udpfs/handlers.go:140-142 | overwriting the shared buffer byte by byte, with the timer firing in between, leaves the session ready for a new send |
| Connection.PackResultReply | udpfs/utils.go:93-99 | the header reads back as type 0x26, three zero bytes and the signed result |
| Connection.Connection.HandleRead | udpfs/handlers.go:131-150 | after a read reply, with the timer firing all along, the session's transfer is the bytes the file system returned behind a header that tells the client their number, or the error; the session is valid again |
| Connection.Connection.HandlePayload | udpfs/handlers.go:10-61 | every handler leaves the connection valid, and the transfer under way is the reply it sent, with the result its header tells |
| Connection.Connection.HandleData | internal/udpfsd/data.go:39-76 | a datagram without a delivery leaves the transfer under way; one with a read restarts it with the new bytes |
| BlockCache.RecencyByLastUse | internal/fs/compression/cache.go:29-36 | the recency list of a history is ordered by last use |
| BlockCache.HitKeepsLatest | internal/fs/compression/cache.go:22-37 | moving a hit to the end keeps the list equal to the latest blocks of the history |
| BlockCache.MissShiftsLatest | internal/fs/compression/cache.go:39-49 | evicting the first and appending keeps the list equal to the latest blocks of the history |
| BlockCache.SmallerIsIncluded | internal/fs/compression/cache.go:39-49 | on the same history a smaller cache holds a subset of a larger one |
| BlockCache.CachesIncluded | internal/fs/compression/cache.go:7-49 | of two caches with the same past the smaller one's blocks are all in the larger one |
| BlockCache.BlockCache.Get | internal/fs/compression/cache.go:22-37 | returns the cached block, keeps exact LRU |
| BlockCache.BlockCache.Put | internal/fs/compression/cache.go:39-49 | stores a block after a miss, keeps exact LRU |
| CachedReader.LastBlockSize | internal/fs/compression/reader.go:45-54 | the size computed for the current block is what it covers of the file, and the position lies inside it |
| CachedReader.CachedReader.Seek | internal/fs/compression/reader.go:75-93 | moves by the offset from start, position or end, goes to the nearer end when that lies outside, and stays for a bad whence |
| CachedReader.CachedReader.GetBlock | internal/fs/compression/reader.go:107-117 | the decoder's answer, hit or miss; failures are not cached |
| CachedReader.CachedReader.Read | internal/fs/compression/reader.go:35-69 | exactly the image bytes at the position, as many as buffer, file and decoder allow, independent of the cache; the access history grows by the blocks read |
| CachedReader.AllReadable | internal/fs/compression/reader.go:35-69 | without decoder errors nothing is cut short |
| CachedReader.ReadableStops | internal/fs/compression/reader.go:35-69 | a read stops at the first block that cannot be read and nowhere else |
| CachedReader.Replay | internal/fs/compression/reader.go:35-93 | any sequence of reads and seeks is answered like a flat file, and goes through the blocks a flat file names |
| CachedReader.FlatTail | internal/fs/compression/reader.go:35-93 | the flat file's answer to a seek back from the end and a read is its last bytes |
| CachedReader.FlatSlice | internal/fs/compression/reader.go:35-93 | the flat file's answer to a seek from the start and a read is that slice |
| CachedReader.ReadTail | internal/fs/compression/reader.go:35-93 | the reader's last k bytes, whatever is cached and wherever it stands |
| CachedReader.ReplayBoth | internal/fs/compression/reader.go:35-117 | after the same operations two readers of different cache size have answered alike, and the smaller cache's keys are among the larger one's |
| HandleTable.JoinKeepsShared | internal/fs/fileops.go:23-34 | a handle that passes the check may replace any slot without breaking the sharing rule |
| HandleTable.Backend.GetFileState | internal/fs/handles.go:159-170 | the first match tells whether any handle is open and whether any is a writer |
| HandleTable.Backend.AllocHandle | internal/fs/handles.go:63-94 | first free slot, else the least recently used one if idle an hour, else nothing changes |
| HandleTable.Backend.FreeHandle | internal/fs/handles.go:96-113 | empties exactly that slot |
| HandleTable.Backend.GetFile | internal/fs/handles.go:115-142 | returns the file and refreshes only its timestamp; number 0 is the block device |
| HandleTable.Backend.Open | internal/fs/fileops.go:16-112 | refused exactly by the sharing rule; otherwise one slot changes and the rule still holds |
| Writes.BlockWriteStaysInside | internal/fs/fileops.go:187-202 | a block write leaves everything outside its own sectors as it was |
| Writes.OverwriteLands | internal/fs/fileops.go:196-206 | a write leaves the bytes given at its position, the old bytes elsewhere, zeros in a gap; that decides the file |
| Writes.CompleteLands | internal/fs/fileops.go:172-212 | the buffer lands at the position, or cut to its sectors at the first of them |
| Writes.AtMostOncePerRequest | udpfs/handlers.go:152-242 | over any sequence of requests, writes carried out never exceed requests accepted |
| Writes.OneArrival | internal/fs/fileops.go:155-170 | one chunk moves the assembly by at most one, and completes it exactly at the last, with the length in the reply |
| Writes.FeedCut | udpfs/handlers.go:204-242 | any chunk header and bytes: cut to the announced size, taken exactly in line, completed exactly at the announced total, answered with the length |
| Writes.FlattenHolds | internal/fs/fileops.go:166 | the concatenation holds every chunk where its predecessors end |
| Writes.AnyOrderAssembles | internal/fs/fileops.go:155-212 | for any order and repetition of chunks the buffer is the chunks taken in line, and the write happens once with all of them |
| Writes.ProgressIsMost | internal/fs/fileops.go:163-168 | the chunks taken are the most that arrive in order |
| Writes.AssemblyBegins | udpfs/handlers.go:165-201 | an accepted request begins the assembly, its own chunk being the first arrival |
| Writes.WriteAnyOrder | udpfs/handlers.go:153-242 | from WRITE_REQ to the last arrival: the file is as it was, or all chunks in line have landed at the old position |
| Writes.BlockWriteAnyOrder | udpfs/handlers.go:397-449 | from BWRITE_REQ to the last arrival: bytes outside the sectors named are as they were, zero where the file grew, and the chunks, cut to fit, have landed at the first sector once all are in |
| Writes.WriteLands | udpfs/handlers.go:153-242 | a request built from handle and length, then chunks in any order: landed at the old position if all arrive in line, otherwise nothing changes |
| Writes.BlockWriteLandsAt | udpfs/handlers.go:397-449 | the same for handle, sector and count, with the device's sector size or 512 |
| Writes.OpenedWriteLands | internal/fs/handles.go:191-202 | a file just opened is written from its start |
| Writes.Refused | internal/fs/fileops.go:137-153 | an unknown handle gives EIO, a read-only file EACCES, and no file changes |
| Writes.ReadOnlyKept | internal/fs/fileops.go:145-147 | no run of requests changes a read-only file with no write in progress on it |
| Writes.CloseForgets | udpfs/connection.go:140-148 | closing ends the write in progress: later chunks change nothing, other files stay |
| Writes.WriteServer.WriteStart | internal/fs/fileops.go:137-153 | the write state of the object behind the handle is emptied in place, and no other open file changes |
| Writes.WriteServer.BwriteStart | internal/fs/fileops.go:358-376 | the same for a block write, with its sectors |
| Writes.WriteServer.WriteChunk | internal/fs/fileops.go:155-170 | the object behind the handle takes the chunk if it is the next, no other open file changes, and an unknown handle is an error |
| Writes.WriteServer.CompleteWrite | internal/fs/fileops.go:172-212 | only the object behind the handle is written, with the sector size of its kind, and the buffer has landed at its position; an unknown handle is an error |
| Writes.WriteServer.HandleWriteReq | udpfs/handlers.go:152-202 | the heap follows the request step on values |
| Writes.WriteServer.HandleBwriteReq | udpfs/handlers.go:396-449 | the heap follows the block request step on values |
| Writes.WriteServer.HandleWriteData | udpfs/handlers.go:204-242 | the heap follows the chunk step on values for the active handle |
| Writes.WriteServer.CloseFile | udpfs/connection.go:140-148 | the slot is emptied, a write in progress on it is forgotten, other files stay |
| Writes.WriteServer.OpenFile | internal/fs/handles.go:191-202 | a new file object, with no write in progress, takes the slot; other files stay |
| Writes.Serve | udpfs/handlers.go:16-61 | any sequence of requests, opens and closes takes the file objects where it takes the values |

## Left out

- Sockets, batching, discovery, peer map clean-up, signals, logging and metrics: plumbing around the model.
- Real time: the timer may fire at any moment, and the two timeout lengths play no part.
- Stale timer callbacks: a callback carries no generation (udprdma/ack_timer.go:57-65), so a late one after a re-arm counts as a firing; nothing is claimed about it.
- Ring slots as byte buffers: a slot holds its packet as a value, so the in-place writes into a 1500-byte slot and batches that alias slots are not captured; that a packet fits its slot is a precondition proved for every caller.
- Session.Session.ProcessDataPacket: does not model the packet counters or the reset callback, and takes the listener's guard against DATA packets of 2 to 5 bytes (internal/udpfsd/data.go:31-34) as a precondition.
- Session.Session.SendData: takes as a precondition that the message fits a slot; the program would panic otherwise.
- Delivery.StepKeeps: a late packet 0 of the peer, which resets the session (StaleRedeliveredIff), is kept out of the runs; the peer resends a request only as a copy of the datagram.
- Delivery.PeerGetsTransfer: the peer is the console's in-order receiver, not this server's own receive rule; with that rule a late copy of packet 0 restarts the peer (StaleRedeliveredIff).
- Delivery.CanFinish: says that completion stays possible, not that a given network achieves it; a sender on its last try to open the window is excluded, because the next timeout abandons the transfer.
- Connection.Connection.HandlePayload: which request leads to which reply is a parameter; the encoding of the other replies, and reuse of handles after a peer reset, are not modelled.
- Transfers.OptimalChunkSize: divides integers where the program divides floats and rounds up; the two agree far beyond any buffer size.
- CachedReader.CachedReader.Read: the block decoders are an arbitrary function from block numbers to bytes or an error; the CSO, ZSO and CHD formats are not modelled.
- HandleTable.Backend.Open: path resolution and the operating system's answer are parameters; one instant stands for all clock readings of a call; a compressed image reports the empty name, so the rule is about reported names.
- Writes.WriteServer.OpenFile: which slot is free or evicted is decided in HandleTable and is a parameter here; directory handles and timestamps are kept there only.
- HandleTable.Backend.GetFile: handle numbers above 64, on which the program would panic, are excluded by precondition, as in the write handlers.
- Writes.ReadOnlyKept: says nothing of a read-only file that takes the slot of an evicted one while a write to that number is in progress; the operating system refuses that write.
- Writes.WriteServer.CompleteWrite: disk errors and append mode are not modelled; sector arithmetic does not overflow.
- Directory listing, stat encoding, mkdir, remove and shutdown: thin wrappers that would only add easy members.
