/**
 What the operations of a session do to the world: which datagrams a NACK, a timeout or a repeated packet puts
 out again, how each packet is answered, which bytes go up to the layer above, and when the timer is silent.
 */
module SessionEffects {
  import opened Basics
  import opened Wire
  import opened Transfers
  import opened SessionSpec
  import opened SessionInv
  import opened SessionTheorems
  import opened SessionLimits

  // ----- What goes out -----

  /** The datagrams read as these packets, numbered from n on and all acknowledging `ackNr`. */
  predicate Carry(datagrams: seq<seq<byte>>, items: seq<Item>, n: nat, ackNr: Seq12) {
    && |datagrams| == |items|
    && forall i :: 0 <= i < |datagrams| ==>
         var it := items[i];
         Decode(datagrams[i]) == Data((n + i) % RING, true, ackNr, it.fin, Payload(it.header, it.chunk))
  }

  /**
   The operation has built the next packets of the transfer under way and put them on the network, each once, in order
   and with its number, and nothing else.
   */
  predicate PutOut(st: State, r: State, ackNr: Seq12) {
    var job, n := r.hist.job, |st.hist.sent|;
    && st.hist.wire <= r.hist.wire && n <= |r.hist.sent|
    && job.WellFormed() && job.start <= n && |r.hist.sent| - job.start <= |job.Items()|
    && Carry(r.hist.wire[|st.hist.wire|..], job.Items()[n - job.start..|r.hist.sent| - job.start], n, ackNr)
  }

  lemma SendPutsOut(st: State)
    requires Core(st) && TimerCurrent(st) && InEpochs(st) && Written(st) && st.hist.job.WellFormed()
    requires Describables(st.hist.job.Items())
    ensures PutOut(st, HandleTransfer(st), LastDelivered(st))
  {
    hide HandleTransfer, Pump, Plan, Decode, EncodeData, Payload, LastDelivered, Describable, Waits, Armed, Written,
         FitsSlots, Bounded;
    LastDeliveredIs(st);
    HandleTransferKeeps(st);
    HandleTransferFrame(st);
    PumpAcks(st);
    var r, n, job := HandleTransfer(st), |st.hist.sent|, st.hist.job;
    var ds, items := r.hist.wire[|st.hist.wire|..], job.Items()[n - job.start..|r.hist.sent| - job.start];
    assert ds == Built(st, Pump(st));
    forall i | 0 <= i < |ds|
      ensures Decode(ds[i]) ==
              Data((n + i) % RING, true, LastDelivered(st), items[i].fin, Payload(items[i].header, items[i].chunk))
    {
      var e := r.hist.sent[n + i];
      assert e.item == Emitted(r)[n - job.start + i] == job.Items()[n - job.start + i] == items[i];
      assert ds[i] == Slot(e).data;
      DecodeEncodeData(e.seqNr, e.ackNr, e.item.header, e.item.chunk, e.item.fin);
    }
  }

  /** Starting a transfer puts out its first packets. */
  lemma StartPutsOut(st: State, header: seq<byte>, data: seq<byte>, maxChunk: nat)
    requires Inv(st) && (data == [] || maxChunk >= 1)
    requires FitsSlots(Plan(header, data, maxChunk)) && Describables(Plan(header, data, maxChunk))
    ensures var r := StartTransfer(st, header, data, maxChunk);
            && r.hist.job == Job(header, data, maxChunk, |st.hist.sent|) && PutOut(st, r, LastDelivered(st))
            && |r.hist.sent| - |st.hist.sent| == FirstBurst(Gap(st), |Plan(header, data, maxChunk)|)
  {
    hide HandleTransfer, Pump, Plan, Describables, FitsSlots, Carry, Numbered, Bounded, OnPlan, Slot, FirstBurst;
    var b := Begin(st, header, data, maxChunk);
    BeginCore(st, header, data, maxChunk);
    HandleTransferFrame(b);
    SendPutsOut(b);
    PumpFromEmpty(b);
  }

  /** An ACK that frees the window puts out the next packets of the transfer, and otherwise nothing. */
  lemma AckPutsOut(st: State, nr: Seq12)
    requires Inv(st) && st.hist.job.WellFormed() && Describables(st.hist.job.Items())
    ensures st.hist.epochs != [] && WellFormed(st.transfer)
    ensures var r := Process(st, Control(true, nr));
            && r.hist.job == st.hist.job
            && (st.transfer.Idle? ==> r.hist.wire == st.hist.wire && r.hist.sent == st.hist.sent)
            && (st.transfer.Sending? ==> PutOut(st, r, LastDelivered(st)))
  {
    hide HandleTransfer, OnAck, Plan, Describables, Carry, Numbered, Bounded, OnPlan, Slot, Waits, Armed, InEpochs;
    InvShape(st);
    OnAckKeeps(st, nr);
    OnAckFrame(st, nr);
    if st.transfer.Sending? {
      HandleTransferFrame(OnAck(st, nr));
      SendPutsOut(OnAck(st, nr));
    }
  }

  // ----- What goes out again -----

  /** The part of the ring, oldest first, that a retransmission from this number puts out. */
  function Again(st: State, from: Seq12): seq<seq<byte>>
    requires |st.ring| <= |st.hist.sent|
  {
    Datagrams(st.ring[..ResendCount(|st.ring|, (|st.hist.sent| - |st.ring| - from) % RING)])
  }

  lemma ResendIsAgain(st: State, from: Seq12)
    requires Numbered(st) && Bounded(st)
    ensures Resend(st.ring, from) == Again(st, from)
  {
    hide Slot, Resend;
    RingConsecutive(st);
    ResendClosed(st.ring, |st.hist.sent|, from);
  }

  /** A NACK puts part of the ring out again: all of it when it names the oldest packet, and it restarts the retries. */
  lemma NackPutsOut(st: State, nr: Seq12)
    requires Inv(st)
    ensures st.hist.epochs != [] && WellFormed(st.transfer) && |st.ring| <= |st.hist.sent|
    ensures var r := Process(st, Control(false, nr));
            && r.hist.wire == st.hist.wire + Again(st, nr) && r.attempts == 0
            && (st.ring != [] && nr == st.ring[0].nr ==> r.hist.wire == st.hist.wire + Datagrams(st.ring))
  {
    hide Resend, Numbered, Bounded, OnPlan, Waits, Armed, Written, InEpochs, Again;
    InvShape(st);
    RingInSent(st);
    ResendIsAgain(st, nr);
    UpdateTimerFrame(Write(st.(attempts := 0), Resend(st.ring, nr)));
    if st.ring != [] && nr == st.ring[0].nr {
      NackResendsSuffixIff(st, 0);
      assert st.ring[0..] == st.ring;
    }
  }

  lemma RingInSent(st: State)
    requires Numbered(st)
    ensures |st.ring| <= |st.hist.sent|
  {
  }

  /** A timeout puts out the part of the ring behind the acknowledged number, and counts the try. */
  lemma TimeoutPutsOut(st: State)
    requires Inv(st) && !st.closed && st.mode != NoWait
    ensures |st.ring| <= |st.hist.sent|
    ensures var r := Fire(st);
            && r.hist.wire == st.hist.wire + Again(st, (st.acked + 1) % RING)
            && r.attempts == (st.attempts + 1) % MAX_RETRANSMITS
  {
    hide Resend, Numbered, Bounded, OnPlan, Written, InEpochs, Again;
    RingInSent(st);
    ResendIsAgain(st, (st.acked + 1) % RING);
  }

  /**
   A repeated packet is acknowledged, its ACK is taken, and during a transfer the unacknowledged packets go out
   again.
   */
  lemma RepeatPutsOut(st: State, m: Inbound)
    requires Inv(st) && m.Data? && m.seqNr == LastDelivered(st)
    ensures WellFormed(st.transfer) && Inv(AckIf(SendControl(st, true), m.isAck, m.nr))
    ensures var s, r := AckIf(SendControl(st, true), m.isAck, m.nr), Process(st, m);
            && |s.ring| <= |s.hist.sent| && r.ring == s.ring && r.hist.sent == s.hist.sent
            && r.hist.wire == s.hist.wire + if st.transfer.Sending? then Again(s, (st.acked + 1) % RING) else []
  {
    hide OnPeerAck, SendControl, Resend, Numbered, Bounded, OnPlan, Waits, Armed, Written, Process, Again,
         LastDelivered;
    InvShape(st);
    LastDeliveredIs(st);
    ModSub(st.rxExpected, 1);
    RepeatIs(st, m);
    ProcessIs(st, m);
    SendControlKeeps(st, true);
    OnPeerAckKeeps(SendControl(st, true), m.nr);
    var s := AckIf(SendControl(st, true), m.isAck, m.nr);
    RingInSent(s);
    ResendIsAgain(s, (st.acked + 1) % RING);
    UpdateTimerFrame(Write(s.(attempts := 0), Resend(s.ring, (st.acked + 1) % RING)));
  }

  lemma RepeatIs(st: State, m: Inbound)
    requires st.hist.epochs != [] && m.Data? && m.seqNr == (st.rxExpected - 1) % RING
    ensures Classify(st.rxExpected, m.seqNr) == Repeat && Received(st, m) == SendControl(st, true)
  {
    hide SendControl;
  }

  // ----- How packets are answered -----

  lemma OnPeerAckWrites(st: State, nr: Seq12)
    requires WellFormed(st.transfer)
    ensures st.hist.wire <= OnPeerAck(st, nr).hist.wire
  {
    hide OnAck, HandleTransfer, Pump, Built;
    OnAckFrame(st, nr);
    if st.transfer.Sending? {
      HandleTransferFrame(OnAck(st, nr));
    }
  }

  lemma ProcessWrites(st: State, m: Inbound)
    requires Inv(st) && m.Data?
    ensures st.hist.epochs != [] && WellFormed(st.transfer)
    ensures Received(st, m).hist.wire <= Process(st, m).hist.wire
  {
    hide Process, OnPeerAck, Received, Inv, Resend;
    InvShape(st);
    ProcessIs(st, m);
    OnPeerAckWrites(Received(st, m), m.nr);
    UpdateTimerWrites(AckIf(Received(st, m), m.isAck, m.nr), (st.acked + 1) % RING);
  }

  lemma UpdateTimerWrites(st: State, nr: Seq12)
    ensures st.hist.wire <= OnPeerNack(st, nr).hist.wire
  {
    hide Resend, UpdateTimer;
    UpdateTimerFrame(Write(st.(attempts := 0), Resend(st.ring, nr)));
  }

  /**
   The first datagram that leaves on a DATA packet: an ACK of the packet if it was delivered, now or last;
   otherwise a NACK of the number that is due. It carries the number the sender will use next.
   */
  lemma AnswerIs(st: State, m: Inbound)
    requires Inv(st) && m.Data?
    ensures st.hist.epochs != [] && WellFormed(st.transfer)
    ensures var last, r := LastDelivered(st), Process(st, m);
            && st.hist.wire < r.hist.wire
            && var w := r.hist.wire[|st.hist.wire|];
               && Decode(w) == (if ReplyTo(st, m).Delivered? || m.seqNr == last then Control(true, m.seqNr)
                                else Control(false, (last + 1) % RING))
               && UnpackHeader(w) == Some(Header(2, if Resets(st, m) then 0 else st.txSeq))
  {
    hide Process, EncodeControl, Decode, UnpackHeader, LastDelivered, Core, Waits, Armed, Written, InEpochs;
    InvShape(st);
    LastDeliveredIs(st);
    ProcessWrites(st, m);
    var v := Classify(st.rxExpected, m.seqNr);
    var tx: Seq12 := if Resets(st, m) then 0 else st.txSeq;
    ModSub(m.seqNr + 1, 1);
    ModSmall(m.seqNr);
    ReceivedAnswer(st, m);
    if v == OutOfOrder {
      DecodeEncodeControl(tx, st.rxExpected, false);
      ControlLayout(tx, st.rxExpected, false);
    } else {
      DecodeEncodeControl(tx, m.seqNr, true);
      ControlLayout(tx, m.seqNr, true);
    }
  }

  lemma ReceivedAnswer(st: State, m: Inbound)
    requires st.hist.epochs != [] && m.Data?
    ensures var tx: Seq12 := if Resets(st, m) then 0 else st.txSeq;
            var ack := Classify(st.rxExpected, m.seqNr) != OutOfOrder;
            Received(st, m).hist.wire ==
            st.hist.wire + [EncodeControl(tx, if ack then m.seqNr else st.rxExpected, ack)]
  {
    hide EncodeControl;
    ModSub(m.seqNr + 1, 1);
    ModSmall(m.seqNr);
  }

  // ----- What goes up -----

  /**
   A packet is handed up if and only if it is the one due, or is numbered 0 and not a repeat; if and only if the
   deliveries recorded change; and then the bytes handed up are those recorded last.
   */
  lemma GoesUpIff(st: State, m: Inbound)
    requires Inv(st)
    ensures st.hist.epochs != [] && WellFormed(st.transfer)
    ensures var last, reply, r := LastDelivered(st), ReplyTo(st, m), Process(st, m);
            && (reply.Rejected? <==> m.Malformed?)
            && (reply.Delivered? <==> m.Data? && (m.seqNr == (last + 1) % RING || (m.seqNr == 0 && last != 0)))
            && (reply.Delivered? <==> r.hist.epochs != st.hist.epochs)
            && (reply.Delivered? ==> LastOf(r) == Some(Delivery(m.seqNr, reply.bytes)))
  {
    hide Process, LastDelivered, Inv, LastOf;
    InvShape(st);
    InvReady(st);
    LastDeliveredIs(st);
    if m.Data? {
      Recorded(st, m);
    } else {
      ControlRecordsNothing(st, m);
    }
  }

  lemma Recorded(st: State, m: Inbound)
    requires Inv(st) && m.Data?
    ensures st.hist.epochs != [] && WellFormed(st.transfer)
    ensures var v, r := Classify(st.rxExpected, m.seqNr), Process(st, m);
            if v == InOrder || v == PeerReset
            then r.hist.epochs != st.hist.epochs && LastOf(r) == Some(Delivery(m.seqNr, m.payload))
            else r.hist.epochs == st.hist.epochs
  {
    hide Process, Inv, Classify;
    InvShape(st);
    ProcessReceives(st, m);
    var last, epochs := |st.hist.epochs| - 1, st.hist.epochs;
    var d, r := Delivery(m.seqNr, m.payload), Process(st, m);
    if Classify(st.rxExpected, m.seqNr) == InOrder {
      assert |r.hist.epochs| == |epochs| && r.hist.epochs[last] == epochs[last] + [d];
      assert |r.hist.epochs[last]| == |epochs[last]| + 1;
    } else if Classify(st.rxExpected, m.seqNr) == PeerReset {
      assert |r.hist.epochs| == |epochs| + 1 && r.hist.epochs[last + 1] == [d];
    }
  }

  lemma ControlRecordsNothing(st: State, m: Inbound)
    requires Inv(st) && !m.Data?
    ensures st.hist.epochs != [] && WellFormed(st.transfer) && Process(st, m).hist.epochs == st.hist.epochs
  {
    hide Process, Inv, OnPeerAck, OnPeerNack;
    InvShape(st);
    ProcessControl(st, m);
    if m.Control? {
      OnPeerAckFrame(st, m.nr);
      OnPeerNackFrame(st, m.nr);
    }
  }

  /** The delivery recorded last in the peer's current life. */
  function LastOf(st: State): Option<Delivery> {
    if st.hist.epochs == [] then None
    else
      var epoch := st.hist.epochs[|st.hist.epochs| - 1];
      if epoch == [] then None else Some(epoch[|epoch| - 1])
  }

  /** End to end on bytes: the packet that is due, as a sender builds it, goes up as header, chunk and padding. */
  lemma DuePacketGoesUp(st: State, ackNr: Seq12, header: seq<byte>, chunk: seq<byte>, fin: bool)
    requires Inv(st) && Describable(header, chunk)
    ensures st.hist.epochs != []
    ensures ReplyTo(st, Decode(EncodeData((LastDelivered(st) + 1) % RING, ackNr, header, chunk, fin)))
            == Delivered(header + chunk + Zeros(Pad4(|chunk|) - |chunk|))
  {
    hide Decode, EncodeData, LastDelivered, Core, Waits, Armed, Written, InEpochs, Payload, Pad4;
    InvShape(st);
    LastDeliveredIs(st);
    DecodeEncodeData((LastDelivered(st) + 1) % RING, ackNr, header, chunk, fin);
    PayloadIs(header, chunk);
  }

  /** A peer reset leaves the sending side as it is in a new session. */
  lemma ResetIsFresh(st: State, m: Inbound)
    requires Inv(st) && Resets(st, m)
    ensures st.hist.epochs != [] && WellFormed(st.transfer)
    ensures var r := Process(st, m);
            && r.ring == INIT.ring && r.transfer == INIT.transfer && r.txSeq == INIT.txSeq && r.acked == INIT.acked
            && r.attempts == 0 && !r.finPending && r.mode == NoWait && r.rxExpected == 1
  {
    hide Process, EncodeControl, Core, Waits, Armed, Written, InEpochs;
    InvShape(st);
    ProcessIs(st, m);
    AckNothing(Received(st, m), m.nr);
  }

  // ----- When the timer is silent -----

  /** A stopped or re-armed timer is a new generation, and a stopped one no longer matches the expected generation. */
  lemma GenerationMoves(st: State)
    ensures StopTimer(st).timerSeq != st.timerSeq
    ensures UpdateTimer(st).mode != st.mode ==> UpdateTimer(st).timerSeq != st.timerSeq
    ensures st.mode != NoWait && st.expectSeq == st.timerSeq ==>
              StopTimer(st).expectSeq != StopTimer(st).timerSeq
    ensures Inv(st) && !st.closed && st.mode != NoWait ==> Fire(st).timerSeq != st.timerSeq
  {
    hide Core, InEpochs, Written, Resend, Gap;
  }

  /** Once closed, a session stays closed, and its timer does nothing, whatever has been started since. */
  lemma ClosedForGood(st: State, ev: Event, n: nat)
    requires Inv(st) && st.closed && Legal(ev)
    ensures WellFormed(st.transfer) && st.hist.epochs != [] && Apply(st, ev).closed
    ensures FireTimes(st, n) == st
  {
    hide Process, StartTransfer, Inv, Plan;
    InvShape(st);
    ClosedFires(st, n);
    match ev
    case SendData(payload) => StartStaysClosed(st, [], payload, |payload|);
    case SendRaw(header, data) => StartStaysClosed(st, header, data, MAX_DATA_PAYLOAD);
    case Receive(datagram) => ProcessStaysClosed(st, Decode(datagram));
    case SendAck(_) =>
    case TimerFires =>
    case CloseSession =>
  }

  lemma {:induction false} ClosedFires(st: State, n: nat)
    requires st.closed
    ensures FireTimes(st, n) == st
  {
    if n == 0 {
    } else {
      ClosedFires(st, n - 1);
    }
  }

  lemma StartStaysClosed(st: State, header: seq<byte>, data: seq<byte>, maxChunk: nat)
    requires data == [] || maxChunk >= 1
    ensures StartTransfer(st, header, data, maxChunk).closed == st.closed
  {
    hide HandleTransfer, Pump, Plan;
    HandleTransferFrame(Begin(st, header, data, maxChunk));
  }

  lemma AckStaysClosed(st: State, nr: Seq12)
    requires WellFormed(st.transfer)
    ensures OnPeerAck(st, nr).closed == st.closed
  {
    hide HandleTransfer, Prune, AckAccepted, UpdateTimer;
    UpdateTimerFrame(TakeAck(st, nr));
    if OnAck(st, nr).transfer.Sending? {
      OnAckFrame(st, nr);
      HandleTransferFrame(OnAck(st, nr));
    }
  }

  lemma ProcessStaysClosed(st: State, m: Inbound)
    requires Inv(st)
    ensures st.hist.epochs != [] && WellFormed(st.transfer) && Process(st, m).closed == st.closed
  {
    hide Process, OnPeerAck, OnPeerNack, Inv, EncodeControl;
    InvShape(st);
    if m.Data? {
      ProcessIs(st, m);
      var s := Received(st, m);
      AckStaysClosed(s, m.nr);
      OnPeerNackFrame(AckIf(s, m.isAck, m.nr), (st.acked + 1) % RING);
    } else {
      ProcessControl(st, m);
      if m.Control? {
        AckStaysClosed(st, m.nr);
        OnPeerNackFrame(st, m.nr);
      }
    }
  }
}
