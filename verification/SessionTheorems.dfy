/**
 Consequences of the invariant that need an argument of their own: when pruning and
 resending do what their comments say, how tight the ring bound is, when the sender gives up,
 and what a peer can rely on in the acknowledgements.
 */
module SessionTheorems {
  import opened Basics
  import opened Wire
  import opened Transfers
  import opened SessionSpec
  import opened SessionInv

  // ----- What has gone out -----

  /**
   Across the first send and every resumption, the chunks sent so far are a prefix of the transfer's
   data, of length `offset` while it lasts and complete once FIN is out; the header is in the first
   packet only, and FIN, if sent, on the last.
   */
  lemma SentIsPrefix(st: State)
    requires Inv(st)
    ensures var job, e := st.hist.job, Emitted(st);
            && ChunkBytes(e) <= job.data
            && (st.transfer.Sending? ==> ChunkBytes(e) == job.data[..st.transfer.offset])
            && (st.finPending ==> ChunkBytes(e) == job.data)
            && (forall i :: 0 <= i < |e| ==> e[i].header == (if i == 0 then job.header else []))
            && (forall i :: 0 <= i < |e| - 1 ==> !e[i].fin)
            && (e != [] && e[|e| - 1].fin <==> e != [] && e == job.Items())
  {
    hide Numbered, Bounded, Waits, Armed, Written, InEpochs, Plan, FitsSlots;
    var job, e := st.hist.job, Emitted(st);
    var rest := job.Items()[|e|..];
    PlanLaws(job.header, job.data, job.maxChunk);
    assert job.Items() == e + rest;
    ChunkBytesAppend(e, rest);
    if st.transfer.Sending? {
      assert rest == Remaining(st.transfer);
      RemainingBytes(st.transfer);
    }
    if e == job.Items() {
      assert rest == [];
    }
  }

  lemma RemainingBytes(t: Transfer)
    requires WellFormed(t) && t.Sending?
    ensures ChunkBytes(Remaining(t)) == t.data[t.offset..]
  {
    if t.offset == 0 {
      PlanLaws(t.header, t.data, t.maxChunk);
    } else {
      ChunksLaws(t.data, t.offset, t.maxChunk);
    }
  }

  lemma {:induction false} ChunkBytesAppend(a: seq<Item>, b: seq<Item>)
    ensures ChunkBytes(a + b) == ChunkBytes(a) + ChunkBytes(b)
  {
    if a == [] {
      assert a + b == b;
    } else {
      hide ChunkBytes;
      ChunkBytesAppend(a[1..], b);
      ChunkBytesCons(a);
      ChunkBytesCons(a + b);
      TailOfSum(a, b);
      Associate(a[0].chunk, ChunkBytes(a[1..]), ChunkBytes(b));
    }
  }

  lemma TailOfSum(a: seq<Item>, b: seq<Item>)
    requires a != []
    ensures (a + b)[0] == a[0] && (a + b)[1..] == a[1..] + b
  {
  }

  lemma ChunkBytesCons(a: seq<Item>)
    requires a != []
    ensures ChunkBytes(a) == a[0].chunk + ChunkBytes(a[1..])
  {
  }

  // ----- Pruning -----

  /**
   pruneAcked keeps exactly the buffered packets strictly after the acknowledged number
   if and only if the remaining gap reaches less than half a ring beyond the buffered packets.
   Otherwise it discards every live packet, acknowledged or not.
   */
  lemma PruneExactIff(st: State, nr: Seq12)
    requires Numbered(st) && Bounded(st) && AckAccepted(st, nr)
    ensures var r := TakeAck(st, nr);
            var keep := Min(|st.ring|, Gap(r));
            && (r.ring == st.ring[|st.ring| - keep..] <==> Gap(r) < HALF_RING + |st.ring|)
            && (Gap(r) >= HALF_RING + |st.ring| ==> r.ring == [])
  {
    hide EncodeData, Prune;
    TakeAckRing(st, nr);
    var keep := Min(|st.ring|, Gap(TakeAck(st, nr)));
    assert |st.ring[|st.ring| - keep..]| == keep;
  }

  // ----- Resending -----

  /** A timeout resends the whole ring if and only if the ring lies inside the gap and the gap inside half a ring. */
  lemma TimeoutResendsAllIff(st: State)
    requires Numbered(st) && Bounded(st)
    ensures Resend(st.ring, (st.acked + 1) % RING) == Datagrams(st.ring)
            <==> st.ring == [] || |st.ring| <= Gap(st) <= HALF_RING
  {
    hide EncodeData, Resend;
    var n, c, g := |st.hist.sent|, |st.ring|, Gap(st);
    ResendClosed(st.ring, n, (st.acked + 1) % RING);
    ResendOffset(n, c, st.acked);
    ModSub(n, st.acked + 1);
    ModSmall(g - c);
    var k := ResendCount(c, (g - c) % RING);
    assert |Datagrams(st.ring[..k])| == k && |Datagrams(st.ring)| == c;
    assert st.ring[..c] == st.ring;
  }

  lemma ResendOffset(n: nat, c: nat, acked: Seq12)
    ensures (n - c - (acked + 1) % RING) % RING == ((n - acked - 1) % RING - c) % RING
  {
    var q := (acked + 1) / RING;
    ModShift(n - c - (acked + 1), q);
    assert n - c - (acked + 1) % RING == n - c - (acked + 1) + q * RING;
    ModSub(n - acked - 1, c);
  }

  /**
   A NACK that names the j-th buffered packet resends everything from that packet on if and only if
   that packet is the oldest; a NACK naming a later one resends nothing at all.
   */
  lemma NackResendsSuffixIff(st: State, j: nat)
    requires Numbered(st) && Bounded(st) && j < |st.ring|
    ensures Resend(st.ring, st.ring[j].nr) == Datagrams(st.ring[j..]) <==> j == 0
    ensures j > 0 ==> Resend(st.ring, st.ring[j].nr) == []
  {
    hide EncodeData, Resend;
    var n, c := |st.hist.sent|, |st.ring|;
    ResendClosed(st.ring, n, st.ring[j].nr);
    var q := (n - c + j) / RING;
    assert n - c - st.ring[j].nr == (0 - j) + q * RING;
    ModShift(0 - j, q);
    ModSmall(0 - j);
    assert st.ring[..c] == st.ring == st.ring[0..];
  }

  /** Whatever is resent was on the network before, byte for byte, and goes out again in order. */
  lemma ResendRepeatsHistory(st: State, from: Seq12)
    requires Inv(st)
    ensures exists k :: 0 <= k <= |st.ring| && Resend(st.ring, from) == Datagrams(st.ring[..k])
    ensures forall d :: d in Resend(st.ring, from) ==> d in st.hist.wire
  {
    hide EncodeData, Resend, Gap, Emitted;
    ResendClosed(st.ring, |st.hist.sent|, from);
    var k := ResendCount(|st.ring|, (|st.hist.sent| - |st.ring| - from) % RING);
    forall d | d in Datagrams(st.ring[..k])
      ensures d in st.hist.wire
    {
      var i :| 0 <= i < k && d == Datagrams(st.ring[..k])[i];
      assert d == Slot(st.hist.sent[|st.hist.sent| - |st.ring| + i]).data;
    }
  }

  // ----- Giving up -----

  function FireTimes(st: State, n: nat): State {
    if n == 0 then st else Fire(FireTimes(st, n - 1))
  }

  /**
   From any state in which the timer is armed, the retries that are left fire one by one with the same
   ring; the last one abandons the FIN wait or the transfer, and nothing fires after it.
   */
  lemma {:induction false} GivesUp(st: State, n: nat)
    requires Inv(st) && !st.closed && st.mode != NoWait
    ensures var r := FireTimes(st, n);
            && Inv(r) && r.ring == st.ring && r.acked == st.acked && !r.closed
            && (n < MAX_RETRANSMITS - st.attempts ==>
                  && r.mode == st.mode && r.transfer == st.transfer && r.finPending == st.finPending
                  && r.attempts == st.attempts + n)
            && (n >= MAX_RETRANSMITS - st.attempts ==>
                  r.mode == NoWait && r.transfer.Idle? && !r.finPending && r.attempts == 0)
  {
    hide EncodeData, Resend, Gap, Numbered, Bounded, OnPlan, Written, InEpochs;
    if n == 0 {
    } else {
      GivesUp(st, n - 1);
      FireKeeps(FireTimes(st, n - 1));
    }
  }

  // ----- What the receiving side promises -----

  /** A packet that has just been delivered is never delivered again when it is repeated at once. */
  lemma RepeatNotDelivered(st: State, m: Inbound)
    requires Inv(st) && m.Data? && ReplyTo(st, m).Delivered?
    ensures Inv(Process(st, m))
    ensures ReplyTo(Process(st, m), m) == Nothing
    ensures Process(Process(st, m), m).hist.epochs == Process(st, m).hist.epochs
  {
    hide Process, Numbered, Bounded, Emitted, Plan, Chunks, Waits, Armed, Written;
    ProcessKeeps(st, m);
    ProcessReceives(st, m);
    ProcessReceives(Process(st, m), m);
    ModSub(m.seqNr + 1, 1);
  }

  /** The deliveries a packet adds, and nothing else about it, decide the receiving side. */
  lemma ProcessReceives(st: State, m: Inbound)
    requires Inv(st) && m.Data?
    ensures var r := Process(st, m);
            var d := Delivery(m.seqNr, m.payload);
            var last := |st.hist.epochs| - 1;
            match Classify(st.rxExpected, m.seqNr)
            case InOrder =>
              && r.hist.epochs == st.hist.epochs[last := st.hist.epochs[last] + [d]]
              && r.rxExpected == (m.seqNr + 1) % RING
            case PeerReset => r.hist.epochs == st.hist.epochs + [[d]] && r.rxExpected == 1
            case _ => r.hist.epochs == st.hist.epochs && r.rxExpected == st.rxExpected
  {
    hide OnPeerAck, OnPeerNack, Numbered, Bounded, Emitted, Plan, Chunks, Waits, Armed, Written, EncodeControl, Process;
    ProcessIs(st, m);
    ReceivedKeeps(st, m);
    var s := Received(st, m);
    if Classify(st.rxExpected, m.seqNr) == PeerReset {
      assert s.hist.epochs[|st.hist.epochs|] == [Delivery(m.seqNr, m.payload)];
      assert s.hist.epochs == st.hist.epochs + [[Delivery(m.seqNr, m.payload)]];
    }
    OnPeerAckFrame(s, m.nr);
    OnPeerNackFrame(AckIf(s, m.isAck, m.nr), (st.acked + 1) % RING);
  }

  lemma OnPeerNackFrame(st: State, nr: Seq12)
    ensures var r := OnPeerNack(st, nr);
            && r.hist == st.hist.(wire := r.hist.wire) && r.rxExpected == st.rxExpected && r.transfer == st.transfer
            && r.ring == st.ring && r.txSeq == st.txSeq && r.acked == st.acked
            && r.finPending == st.finPending && r.closed == st.closed
  {
    hide Resend;
  }

  /** An ACK concerns the sending side only, and never changes which transfer is under way. */
  lemma OnPeerAckFrame(st: State, nr: Seq12)
    requires WellFormed(st.transfer)
    ensures var r := OnPeerAck(st, nr);
            r.hist.epochs == st.hist.epochs && r.rxExpected == st.rxExpected && r.hist.job == st.hist.job
  {
    hide OnAck, HandleTransfer;
    OnAckFrame(st, nr);
    if st.transfer.Sending? {
      HandleTransferFrame(OnAck(st, nr));
    }
  }

  lemma OnAckFrame(st: State, nr: Seq12)
    ensures var r := OnAck(st, nr);
            && r.hist == st.hist.(unacked := r.hist.unacked) && r.rxExpected == st.rxExpected
            && r.transfer == st.transfer
  {
    hide Prune, UpdateTimer, AckAccepted;
    UpdateTimerFrame(TakeAck(st, nr));
  }

  /**
   A late copy of something already delivered in this life of the peer is delivered a second time
   if and only if it is numbered 0 and is not the newest delivery: such a copy passes for a peer reset.
   */
  lemma StaleRedeliveredIff(st: State, j: nat, m: Inbound)
    requires Inv(st) && m.Data? && m.seqNr == j % RING
    requires var epoch := st.hist.epochs[|st.hist.epochs| - 1]; j < |epoch| < j + RING
    ensures ReplyTo(st, m).Delivered? <==> j % RING == 0 && j + 1 != |st.hist.epochs[|st.hist.epochs| - 1]|
  {
    hide Core, Waits, Armed, Written;
    var e := |st.hist.epochs[|st.hist.epochs| - 1]|;
    ModSub(e, 1);
    ModSub(e - 1, j);
    ModSmall(e - 1 - j);
  }

  /** The number delivered last in the peer's current life. */
  function LastDelivered(st: State): Seq12
    requires st.hist.epochs != []
  {
    var epoch := st.hist.epochs[|st.hist.epochs| - 1];
    if epoch == [] then 0xFFF else epoch[|epoch| - 1].seqNr
  }

  lemma LastDeliveredIs(st: State)
    requires InEpochs(st)
    ensures LastDelivered(st) == (st.rxExpected - 1) % RING && (LastDelivered(st) + 1) % RING == st.rxExpected
  {
    var epoch := st.hist.epochs[|st.hist.epochs| - 1];
    ModSub(|epoch|, 1);
    ModSub(|epoch| - 1, -1);
  }

  /** Every ACK built afresh names the number delivered last, every NACK the one after it. */
  lemma AckNamesLastDelivered(st: State, ack: bool)
    requires InEpochs(st)
    ensures var last, w := LastDelivered(st), SendControl(st, ack).hist.wire;
            && |w| == |st.hist.wire| + 1
            && Decode(w[|w| - 1]) == Control(ack, if ack then last else (last + 1) % RING)
  {
    hide EncodeControl, Decode, InEpochs, LastDelivered;
    LastDeliveredIs(st);
    DecodeEncodeControl(st.txSeq, (st.rxExpected - 1) % RING, true);
    DecodeEncodeControl(st.txSeq, st.rxExpected, false);
  }

  /** The packets in `after` that `before` does not have acknowledge this number. */
  predicate NewOnesAck(before: State, after: State, nr: Seq12) {
    && before.hist.sent <= after.hist.sent
    && forall i :: |before.hist.sent| <= i < |after.hist.sent| ==> after.hist.sent[i].ackNr == nr
  }

  lemma {:induction false} PumpAcks(st: State)
    requires WellFormed(st.transfer)
    ensures NewOnesAck(st, Pump(st), (st.rxExpected - 1) % RING) && SameElsewhere(st, Pump(st))
    ensures st.attempts == 0 ==> Pump(st).attempts == 0
    decreases Left(st.transfer)
  {
    hide Slot, Remaining, InFlight;
    if st.transfer.Idle? || InFlight(st) >= SEND_WINDOW || Remaining(st.transfer) == [] {
    } else {
      AdvanceLaws(st.transfer);
      PumpAcks(Push(st.(transfer := Advance(st.transfer)), Remaining(st.transfer)[0]));
    }
  }

  lemma HandleTransferAcks(st: State)
    requires WellFormed(st.transfer)
    ensures NewOnesAck(st, HandleTransfer(st), (st.rxExpected - 1) % RING)
  {
    hide Pump, HandleTransfer;
    PumpAcks(st);
    HandleTransferFrame(st);
  }

  lemma OnPeerAckAcks(st: State, nr: Seq12)
    requires WellFormed(st.transfer)
    ensures NewOnesAck(st, OnPeerAck(st, nr), (st.rxExpected - 1) % RING)
  {
    hide OnAck, HandleTransfer;
    OnAckFrame(st, nr);
    HandleTransferAcks(OnAck(st, nr));
  }

  /** The packets a DATA packet lets out acknowledge it if it was delivered; a peer reset forgets all packets. */
  lemma ProcessAcks(st: State, m: Inbound)
    requires Inv(st)
    ensures var r := Process(st, m);
            if Resets(st, m) then r.hist.sent == [] && |r.hist.epochs| == |st.hist.epochs| + 1
            else NewOnesAck(st, r, (r.rxExpected - 1) % RING) && |r.hist.epochs| == |st.hist.epochs|
  {
    hide OnPeerAck, OnPeerNack, Process, Inv, Received;
    InvShape(st);
    if m.Data? {
      ProcessIs(st, m);
      var s := Received(st, m);
      var a := AckIf(s, m.isAck, m.nr);
      OnPeerAckAcks(s, m.nr);
      OnPeerAckFrame(s, m.nr);
      OnPeerNackFrame(a, (st.acked + 1) % RING);
      if Resets(st, m) {
        ReceivedReset(st, m);
        AckNothing(s, m.nr);
      } else {
        ReceivedFrame(st, m);
      }
    } else {
      ProcessControl(st, m);
      if m.Control? {
        OnPeerAckAcks(st, m.nr);
        OnPeerAckFrame(st, m.nr);
        OnPeerNackFrame(st, m.nr);
      }
    }
  }

  /** An ACK when nothing is buffered and nothing under way does nothing. */
  lemma AckNothing(st: State, nr: Seq12)
    requires st.ring == [] && st.transfer.Idle?
    ensures OnPeerAck(st, nr) == st
  {
  }

  /**
   Every DATA packet that any operation builds acknowledges the number delivered last in the peer's current
   life, at the end of that operation; a peer reset leaves no packet of the former life.
   */
  lemma FreshPacketsAck(st: State, ev: Event)
    requires Inv(st) && Legal(ev)
    ensures var r := Apply(st, ev);
            && r.hist.epochs != []
            && if |r.hist.epochs| > |st.hist.epochs| then r.hist.sent == [] else NewOnesAck(st, r, LastDelivered(r))
  {
    hide Process, HandleTransfer, Fire, Core, Waits, Armed, Written, InEpochs, LastDelivered, EncodeControl, NewOnesAck;
    ApplyKeeps(st, ev);
    InvShape(st);
    var r := Apply(st, ev);
    InvShape(r);
    LastDeliveredIs(r);
    match ev
    case SendData(payload) => StartTransferAcks(st, [], payload, |payload|);
    case SendRaw(header, data) => StartTransferAcks(st, header, data, MAX_DATA_PAYLOAD);
    case SendAck(ack) => SameAcks(st, r);
    case Receive(datagram) => ProcessAcks(st, Decode(datagram));
    case TimerFires =>
      FireFrame(st);
      SameAcks(st, r);
    case CloseSession => SameAcks(st, r);
  }

  lemma SameAcks(st: State, r: State)
    requires r.hist.sent == st.hist.sent
    ensures forall nr: Seq12 :: NewOnesAck(st, r, nr)
  {
  }

  lemma FireFrame(st: State)
    ensures var r := Fire(st);
            && r.hist == st.hist.(wire := r.hist.wire) && r.rxExpected == st.rxExpected
            && r.ring == st.ring && r.txSeq == st.txSeq && r.acked == st.acked && r.closed == st.closed
  {
    hide Resend;
  }

  lemma StartTransferAcks(st: State, header: seq<byte>, data: seq<byte>, maxChunk: nat)
    requires data == [] || maxChunk >= 1
    ensures var r := StartTransfer(st, header, data, maxChunk);
            && NewOnesAck(st, r, (r.rxExpected - 1) % RING) && r.hist.epochs == st.hist.epochs
            && r.rxExpected == st.rxExpected
  {
    hide HandleTransfer, Pump, Plan;
    var b := Begin(st, header, data, maxChunk);
    HandleTransferAcks(b);
    HandleTransferFrame(b);
  }

  /** HandleTransfer is the send loop, and otherwise only writes to the network and sets the timer. */
  lemma HandleTransferFrame(st: State)
    requires WellFormed(st.transfer)
    ensures var r, p := HandleTransfer(st), Pump(st);
            && r.ring == p.ring && r.transfer == p.transfer && r.txSeq == p.txSeq && r.acked == p.acked == st.acked
            && r.rxExpected == st.rxExpected && r.finPending == p.finPending && r.closed == st.closed
            && (st.attempts == 0 ==> r.attempts == 0)
            && r.hist.sent == p.hist.sent && r.hist.job == st.hist.job && r.hist.epochs == st.hist.epochs
            && st.hist.sent <= p.hist.sent && r.hist.wire == st.hist.wire + Built(st, p)
  {
    hide Pump, Built, UpdateTimer;
    PumpAcks(st);
    PumpGrows(st);
    UpdateTimerFrame(Write(Pump(st), Built(st, Pump(st))));
  }

  lemma UpdateTimerFrame(st: State)
    ensures var r := UpdateTimer(st);
            r == st.(mode := r.mode, timerSeq := r.timerSeq, expectSeq := r.expectSeq)
  {
    hide InFlight;
  }

  lemma PumpStep(st: State)
    requires WellFormed(st.transfer) && st.transfer.Sending?
    requires InFlight(st) < SEND_WINDOW && Remaining(st.transfer) != []
    ensures Pump(st) == Pump(PumpOne(st))
  {
  }
}
