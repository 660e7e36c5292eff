/**
 Where the 12-bit numbers run out: with how many packets a transfer starts, when the ring holds more than
 the window, when a FIN waits without a timer, and runs that reach these states.
 */
module SessionLimits {
  import opened Basics
  import opened Wire
  import opened Transfers
  import opened SessionSpec
  import opened SessionInv
  import opened SessionTheorems

  // ----- The send loop, counted -----

  /** How many of n packets leave at once when the ring is empty and the gap is `gap`. */
  function FirstBurst(gap: Seq12, n: nat): (k: nat)
    ensures k <= n
  {
    var next := (gap + 1) % RING;
    if n == 0 then 0 else 1 + Min(if next < SEND_WINDOW then SEND_WINDOW - next else 0, n - 1)
  }

  /** How many packets the send loop adds to a ring that is not empty. */
  lemma {:induction false} PumpFills(st: State)
    requires Core(st) && st.transfer.Sending? && st.ring != [] && Gap(st) <= SEND_WINDOW
    ensures var r, k := Pump(st), Min(SEND_WINDOW - Gap(st), |Remaining(st.transfer)|);
            |r.ring| == |st.ring| + k && Gap(r) == Gap(st) + k && |r.hist.sent| == |st.hist.sent| + k
    decreases Left(st.transfer)
  {
    hide EncodeData, Plan, Chunks;
    if Gap(st) == SEND_WINDOW || Remaining(st.transfer) == [] {
    } else {
      AdvanceLaws(st.transfer);
      PumpOneKeeps(st);
      GapAfterPush(st);
      ModSmall(Gap(st) + 1);
      var r := PumpOne(st);
      if r.transfer.Sending? {
        PumpFills(r);
      } else {
        assert Remaining(r.transfer) == [];
      }
    }
  }

  /** How many packets the send loop puts into an empty ring. */
  lemma PumpFromEmpty(st: State)
    requires Core(st) && WellFormed(st.transfer) && st.transfer.Sending? && st.ring == []
    ensures var r, k := Pump(st), FirstBurst(Gap(st), |Remaining(st.transfer)|);
            && |r.ring| == k && Gap(r) == (Gap(st) + k) % RING && |r.hist.sent| == |st.hist.sent| + k
            && (|Remaining(st.transfer)| == 1 ==> r.finPending)
  {
    hide Slot, Remaining, Pump, Numbered, Bounded, OnPlan, FirstBurst, Gap;
    BurstStep(Gap(st), |Remaining(st.transfer)|);
    if Remaining(st.transfer) == [] {
      PumpEnds(st);
      SameGap(st, Pump(st));
    } else {
      PumpOneKeeps(st);
      FirstPushed(st);
      PumpStep(st);
      var r := PumpOne(st);
      if r.transfer.Idle? || Gap(r) >= SEND_WINDOW {
        PumpStops(r);
      } else {
        PumpFills(r);
      }
    }
  }

  lemma FirstPushed(st: State)
    requires WellFormed(st.transfer) && Remaining(st.transfer) != [] && st.ring == []
    ensures var r := PumpOne(st);
            && |r.ring| == 1 && Gap(r) == (Gap(st) + 1) % RING && |r.hist.sent| == |st.hist.sent| + 1
            && WellFormed(r.transfer) && Remaining(r.transfer) == Remaining(st.transfer)[1..]
            && (r.transfer.Idle? <==> |Remaining(st.transfer)| == 1) && (r.transfer.Idle? ==> r.finPending)
  {
    hide Slot, Plan, Chunks;
    AdvanceLaws(st.transfer);
    GapAfterPush(st);
  }

  lemma BurstStep(gap: Seq12, n: nat)
    ensures var next, k := (gap + 1) % RING, FirstBurst(gap, n);
            && (n == 0 ==> k == 0 && (gap + k) % RING == gap)
            && (n >= 1 && (next >= SEND_WINDOW || n == 1) ==> k == 1)
            && (n >= 1 && next < SEND_WINDOW ==>
                  k == 1 + Min(SEND_WINDOW - next, n - 1) && (gap + k) % RING == next + k - 1)
  {
    ModSub(gap + 1, 1 - FirstBurst(gap, n));
  }

  lemma PumpEnds(st: State)
    requires WellFormed(st.transfer) && st.transfer.Sending? && st.ring == [] && Remaining(st.transfer) == []
    ensures Pump(st) == st.(transfer := Idle)
  {
  }

  lemma PumpStops(st: State)
    requires WellFormed(st.transfer) && (st.transfer.Idle? || InFlight(st) >= SEND_WINDOW)
    ensures Pump(st) == st
  {
  }

  /** A burst exceeds the window, or ends on a gap of 0, exactly when the gap before it was one short of the ring. */
  lemma BurstLimits(gap: Seq12, n: nat)
    requires n >= 1
    ensures FirstBurst(gap, n) >= 1 && (FirstBurst(gap, n) > SEND_WINDOW <==> gap == RING - 1 && n > SEND_WINDOW)
    ensures (gap + FirstBurst(gap, n)) % RING == 0 <==> gap == RING - 1 && n == 1
  {
    ModSmall(gap + 1);
    ModSmall(gap + FirstBurst(gap, n));
    ModShift(FirstBurst(gap, n) - 1, 1);
  }

  // ----- A FIN that waits in silence -----

  /** The session waits for its FIN to be acknowledged, and no timer will ever resend it. */
  predicate Stalled(st: State) {
    !st.closed && st.finPending && st.mode == NoWait
  }

  /** A pending FIN has the timer armed if and only if the ring is not empty and the gap is not 0. */
  lemma StalledIff(st: State)
    requires Inv(st) && !st.closed && st.finPending
    ensures st.mode == FinWait <==> st.ring != [] && Gap(st) != 0
    ensures Stalled(st) <==> st.ring == [] || Gap(st) == 0
  {
    hide Core, InEpochs, Written, Gap;
  }

  /** However often the timer routine is called, a stalled session stays as it is. */
  lemma {:induction false} StaysStalled(st: State, n: nat)
    requires Stalled(st)
    ensures FireTimes(st, n) == st
  {
    if n == 0 {
    } else {
      StaysStalled(st, n - 1);
    }
  }

  /** A session about to run the send loop, with no more in the ring than in the gap. */
  lemma HandleTransferLimits(st: State)
    requires Core(st) && TimerCurrent(st) && InEpochs(st) && Written(st)
    requires st.transfer.Sending? && |st.ring| <= Gap(st)
    ensures var r, n := HandleTransfer(st), |Remaining(st.transfer)|;
            && (|r.ring| > SEND_WINDOW <==> st.ring == [] && Gap(st) == RING - 1 && n > SEND_WINDOW)
            && (Stalled(r) <==> !st.closed && st.ring == [] && Gap(st) == RING - 1 && n == 1)
  {
    hide Slot, Plan, Chunks, Pump, HandleTransfer, FirstBurst, InEpochs, Written, Waits, Armed, Numbered;
    var r := HandleTransfer(st);
    HandleTransferKeeps(st);
    HandleTransferFrame(st);
    if r.finPending && !r.closed {
      StalledIff(r);
    }
    if st.ring == [] {
      PumpFromEmpty(st);
      if Remaining(st.transfer) == [] {
        PumpEnds(st);
      } else {
        BurstLimits(Gap(st), |Remaining(st.transfer)|);
      }
    } else if Gap(st) >= SEND_WINDOW {
      PumpStops(st);
    } else {
      PumpFills(st);
    }
  }

  // ----- What each operation can do -----

  /**
   A transfer starts with this many packets; they exceed the window if and only if the gap is one short of
   the ring and there are enough of them, and the FIN stalls at once if and only if the gap is one short of
   the ring and there is just one.
   */
  lemma StartLimits(st: State, header: seq<byte>, data: seq<byte>, maxChunk: nat)
    requires Numbered(st) && Bounded(st) && InEpochs(st) && Written(st)
    requires data == [] || maxChunk >= 1
    requires FitsSlots(Plan(header, data, maxChunk))
    ensures var r, n := StartTransfer(st, header, data, maxChunk), |Plan(header, data, maxChunk)|;
            && |r.ring| == FirstBurst(Gap(st), n) && r.attempts == 0
            && (|r.ring| > SEND_WINDOW <==> Gap(st) == RING - 1 && n > SEND_WINDOW)
            && (Stalled(r) <==> !st.closed && Gap(st) == RING - 1 && n == 1)
  {
    hide Slot, Plan, Pump, HandleTransfer, FirstBurst, OnPlan, Numbered, Bounded;
    var b := Begin(st, header, data, maxChunk);
    BeginCore(st, header, data, maxChunk);
    PumpFromEmpty(b);
    HandleTransferFrame(b);
    HandleTransferLimits(b);
  }

  /** An ACK after which the ring holds more than the window. */
  predicate AckOverfills(st: State, nr: Seq12)
    requires WellFormed(st.transfer)
  {
    if !AckAccepted(st, nr) then |st.ring| > SEND_WINDOW
    else st.transfer.Sending? && Gap(TakeAck(st, nr)) == RING - 1 && |Remaining(st.transfer)| > SEND_WINDOW
  }

  /** An ACK after which a FIN waits without a timer. */
  predicate AckStalls(st: State, nr: Seq12)
    requires WellFormed(st.transfer)
  {
    if !AckAccepted(st, nr) then Stalled(st)
    else
      && !st.closed
      && if st.transfer.Sending? then Gap(TakeAck(st, nr)) == RING - 1 && |Remaining(st.transfer)| == 1
         else st.finPending && Gap(TakeAck(st, nr)) >= HALF_RING + |st.ring|
  }

  lemma AckLimits(st: State, nr: Seq12)
    requires Inv(st)
    ensures |OnPeerAck(st, nr).ring| > SEND_WINDOW <==> AckOverfills(st, nr)
    ensures Stalled(OnPeerAck(st, nr)) <==> AckStalls(st, nr)
  {
    hide Slot, Remaining, Pump, HandleTransfer, InEpochs, Written, Numbered, Emitted, AckAccepted, OnAck, Prune, Gap;
    if AckAccepted(st, nr) {
      AcceptedLimits(st, nr);
    } else if st.transfer.Sending? {
      OnAckSkips(st, nr);
      PumpStops(st);
      HandleTransferFrame(st);
    } else {
      OnAckSkips(st, nr);
    }
  }

  lemma OnAckSkips(st: State, nr: Seq12)
    requires st.ring == [] || !AckAccepted(st, nr)
    ensures OnAck(st, nr) == st
  {
  }

  /** After an accepted ACK the ring is within the gap and the window, and is emptied when the gap is too long. */
  lemma TakenLimits(st: State, nr: Seq12)
    requires Numbered(st) && Bounded(st) && AckAccepted(st, nr)
    ensures var t := TakeAck(st, nr);
            && |t.ring| <= Gap(t) && |t.ring| <= SEND_WINDOW
            && (t.ring == [] <==> Gap(t) == 0 || Gap(t) >= HALF_RING + |st.ring|)
            && (Gap(t) == 0 <==> nr == (st.txSeq - 1) % RING)
  {
    hide Slot, Prune, SeqBetween, Numbered, Gap;
    TakeAckRing(st, nr);
  }

  lemma AcceptedLimits(st: State, nr: Seq12)
    requires Inv(st) && AckAccepted(st, nr)
    ensures |OnPeerAck(st, nr).ring| > SEND_WINDOW <==> AckOverfills(st, nr)
    ensures Stalled(OnPeerAck(st, nr)) <==> AckStalls(st, nr)
  {
    hide Slot, Remaining, Pump, HandleTransfer, InEpochs, Written, Numbered, Emitted, AckAccepted, OnAck, Prune, Gap;
    var t, s := TakeAck(st, nr), OnAck(st, nr);
    TakenLimits(st, nr);
    OnAckKeeps(st, nr);
    OnAckTaken(st, nr);
    OnPeerAckKeeps(st, nr);
    if st.transfer.Sending? {
      HandleTransferLimits(s);
    } else if s.finPending && !s.closed {
      StalledIff(s);
    }
  }

  /** Past the window test, OnAck only sets the timer and the FIN flag. */
  lemma OnAckTaken(st: State, nr: Seq12)
    requires AckAccepted(st, nr)
    ensures var r, t := OnAck(st, nr), TakeAck(st, nr);
            && r.ring == t.ring && r.txSeq == st.txSeq && r.acked == t.acked && Gap(r) == Gap(t)
            && r.transfer == st.transfer && r.closed == st.closed && r.attempts == 0
            && r.hist == st.hist.(unacked := Gap(t))
            && r.finPending == (st.finPending && nr != (st.txSeq - 1) % RING)
  {
    hide Prune, AckAccepted;
  }

  /** The datagram carries an ACK, alone or with data. */
  predicate CarriesAck(m: Inbound) {
    !m.Malformed? && m.isAck
  }

  /** The operations after which the ring holds more than the window. */
  predicate Overfills(st: State, ev: Event)
    requires WellFormed(st.transfer)
  {
    match ev
    case SendData(payload) => Gap(st) == RING - 1 && |Plan([], payload, |payload|)| > SEND_WINDOW
    case SendRaw(header, data) => Gap(st) == RING - 1 && |Plan(header, data, MAX_DATA_PAYLOAD)| > SEND_WINDOW
    case Receive(datagram) =>
      var m := Decode(datagram);
      !Resets(st, m) && if CarriesAck(m) then AckOverfills(st, m.nr) else |st.ring| > SEND_WINDOW
    case _ => |st.ring| > SEND_WINDOW
  }

  /** The operations after which a FIN waits without a timer. */
  predicate Stalls(st: State, ev: Event)
    requires WellFormed(st.transfer)
  {
    match ev
    case SendData(payload) => !st.closed && Gap(st) == RING - 1 && |Plan([], payload, |payload|)| == 1
    case SendRaw(header, data) => !st.closed && Gap(st) == RING - 1 && |Plan(header, data, MAX_DATA_PAYLOAD)| == 1
    case Receive(datagram) =>
      var m := Decode(datagram);
      !Resets(st, m) && if CarriesAck(m) then AckStalls(st, m.nr) else Stalled(st)
    case CloseSession => false
    case _ => Stalled(st)
  }

  /**
   Over every operation from every reachable state: exactly when the ring ends up with more than the window
   of eight, and exactly when a FIN ends up waiting without a timer.
   */
  lemma StepLimits(st: State, ev: Event)
    requires Inv(st) && Legal(ev)
    ensures |Apply(st, ev).ring| > SEND_WINDOW <==> Overfills(st, ev)
    ensures Stalled(Apply(st, ev)) <==> Stalls(st, ev)
  {
    hide Inv, Process, StartTransfer, Fire, Gap, Decode, Plan, FitsSlots, AckOverfills, AckStalls, EncodeControl;
    InvShape(st);
    match ev
    case SendData(payload) =>
      InvReady(st);
      StartLimits(st, [], payload, |payload|);
    case SendRaw(header, data) =>
      InvReady(st);
      StartLimits(st, header, data, MAX_DATA_PAYLOAD);
    case Receive(datagram) => ReceiveLimits(st, Decode(datagram));
    case TimerFires => FireLimits(st);
    case SendAck(ack) =>
    case CloseSession =>
  }

  lemma InvReady(st: State)
    requires Inv(st)
    ensures Numbered(st) && Bounded(st) && InEpochs(st) && Written(st)
  {
  }

  lemma FireLimits(st: State)
    requires Inv(st)
    ensures Fire(st).ring == st.ring && (Stalled(Fire(st)) <==> Stalled(st))
  {
    hide Core, InEpochs, Written, Resend;
  }

  /** A NACK changes neither the ring nor what waits. */
  lemma NackLimits(st: State, nr: Seq12)
    requires Inv(st)
    ensures OnPeerNack(st, nr).ring == st.ring && (Stalled(OnPeerNack(st, nr)) <==> Stalled(st))
  {
    hide OnPeerNack, Inv, Gap;
    var r := OnPeerNack(st, nr);
    OnPeerNackKeeps(st, nr);
    OnPeerNackFrame(st, nr);
    SameGap(st, r);
    if st.finPending && !st.closed {
      StalledIff(st);
      StalledIff(r);
    }
  }

  lemma SameGap(st: State, r: State)
    requires r.txSeq == st.txSeq && r.acked == st.acked
    ensures Gap(r) == Gap(st)
  {
  }

  lemma ReceiveLimits(st: State, m: Inbound)
    requires Inv(st)
    ensures st.hist.epochs != [] && WellFormed(st.transfer)
    ensures var r := Process(st, m);
            && (|r.ring| > SEND_WINDOW <==>
                  !Resets(st, m) && if CarriesAck(m) then AckOverfills(st, m.nr) else |st.ring| > SEND_WINDOW)
            && (Stalled(r) <==> !Resets(st, m) && if CarriesAck(m) then AckStalls(st, m.nr) else Stalled(st))
  {
    hide OnPeerAck, OnPeerNack, Process, Inv, AckOverfills, AckStalls, Received;
    InvShape(st);
    if m.Data? {
      ProcessIs(st, m);
      ReceivedKeeps(st, m);
      var s := Received(st, m);
      if Resets(st, m) {
        ReceivedReset(st, m);
        AckNothing(s, m.nr);
      } else {
        ReceivedFrame(st, m);
        AckLimitsFrame(st, s, m.nr);
        AckLimits(s, m.nr);
        OnPeerAckKeeps(s, m.nr);
        NackLimits(AckIf(s, m.isAck, m.nr), (st.acked + 1) % RING);
      }
    } else {
      ProcessControl(st, m);
      if m.Control? {
        AckLimits(st, m.nr);
        NackLimits(st, m.nr);
      }
    }
  }

  /** What an ACK does depends on the sending side only. */
  lemma AckLimitsFrame(st: State, s: State, nr: Seq12)
    requires WellFormed(st.transfer)
    requires s.ring == st.ring && s.transfer == st.transfer && s.txSeq == st.txSeq && s.acked == st.acked
    requires s.finPending == st.finPending && s.mode == st.mode && s.closed == st.closed
    ensures AckOverfills(s, nr) == AckOverfills(st, nr) && AckStalls(s, nr) == AckStalls(st, nr)
  {
    hide Prune, Remaining;
  }

  // ----- Runs that reach the limits -----


  /** A one-packet message goes out at once, whatever is still unacknowledged. */
  lemma OneShot(st: State, payload: seq<byte>)
    requires payload != [] && Pad4(|payload|) + 6 <= SLOT_SIZE
    ensures var r := StartTransfer(st, [], payload, |payload|);
            var e := Emission(st.txSeq, (st.rxExpected - 1) % RING, Item([], payload, true));
            && r.ring == [Slot(e)] && r.transfer.Idle? && r.acked == st.acked && r.rxExpected == st.rxExpected
            && r.txSeq == (st.txSeq + 1) % RING && r.finPending && r.closed == st.closed
            && r.hist.sent == st.hist.sent + [e] && r.hist.unacked == st.hist.unacked + 1
  {
    hide EncodeData, Plan, Chunks;
    MessageLaws(payload);
    var t := Sending([], payload, 0, |payload|);
    assert Remaining(t) == [Item([], payload, true)];
    var b := Begin(st, [], payload, |payload|);
    AdvanceLaws(t);
    var p := Push(b.(transfer := Advance(t)), Remaining(t)[0]);
    assert Pump(b) == Pump(p) == p;
  }

  /** n replies that are never acknowledged. */
  lemma {:induction false} UnackedReplies(n: nat) returns (evs: seq<Event>)
    ensures |evs| == n && forall i :: 0 <= i < n ==> Legal(evs[i])
    ensures var st := Run(evs);
            && st.acked == 0xFFF && st.hist.unacked == n && |st.hist.sent| == n && |st.ring| == Min(n, 1)
            && !st.closed && st.transfer.Idle? && st.finPending == (n > 0)
  {
    hide Plan, Apply, Inv, Run, Legal;
    if n == 0 {
      evs := [];
      RunNothing();
    } else {
      var before := UnackedReplies(n - 1);
      var ev := SendData([0]);
      OneByteLegal();
      evs := before + [ev];
      RunSnoc(before, ev);
      OneShotApply(Run(before));
    }
  }

  lemma OneByteLegal()
    ensures Legal(SendData([0]))
  {
    MessageLaws([0]);
  }

  lemma RunNothing()
    ensures Run([]) == INIT
  {
  }

  lemma RunSnoc(evs: seq<Event>, ev: Event)
    requires Legal(ev) && forall i :: 0 <= i < |evs| ==> Legal(evs[i])
    ensures forall i :: 0 <= i < |evs + [ev]| ==> Legal((evs + [ev])[i])
    ensures Inv(Run(evs)) && Run(evs + [ev]) == Apply(Run(evs), ev)
  {
    hide Apply, Inv, Legal;
    assert (evs + [ev])[..|evs|] == evs;
  }

  lemma OneShotApply(st: State)
    requires Inv(st)
    ensures var r := Apply(st, SendData([0]));
            && r.acked == st.acked && r.hist.unacked == st.hist.unacked + 1
            && |r.hist.sent| == |st.hist.sent| + 1 && |r.ring| == 1
            && r.closed == st.closed && r.transfer.Idle? && r.finPending
  {
    hide EncodeData, Plan, Chunks, StartTransfer;
    OneShot(st, [0]);
  }

  const REPLY_HEADER: seq<byte> := [6, 0, 0, 0, 0, 0, 0, 0]

  /** A read reply of so many bytes, as the server sends it: behind an 8-byte header. */
  function ReadReply(n: nat): Event {
    SendRaw(REPLY_HEADER, Zeros(n))
  }

  lemma ReadReplyLegal(n: nat)
    ensures Legal(ReadReply(n))
    ensures |Plan(REPLY_HEADER, Zeros(n), MAX_DATA_PAYLOAD)| ==
            if n <= 1400 then 1 else 1 + CeilDiv(n - 1400, MAX_DATA_PAYLOAD)
  {
    hide CeilDiv;
    ReplyLaws(REPLY_HEADER, Zeros(n));
    FewestPackets(REPLY_HEADER, Zeros(n), MAX_DATA_PAYLOAD);
  }

  /** Nine live packets: 4095 unacknowledged replies, then one long reply. */
  lemma NinePacketsReached() returns (evs: seq<Event>)
    ensures forall i :: 0 <= i < |evs| ==> Legal(evs[i])
    ensures |Run(evs).ring| == SEND_WINDOW + 1
  {
    hide Apply, OnPlan, Numbered, Run, Legal, Waits, Armed, Written, InEpochs, Plan;
    var before := UnackedReplies(4095);
    var reply := ReadReply(9 * 1408);
    ReadReplyLegal(9 * 1408);
    evs := before + [reply];
    RunSnoc(before, reply);
    assert Gap(Run(before)) == RING - 1;
    StepLimits(Run(before), reply);
    RunKeeps(evs);
  }

  /** A FIN that nobody will resend: 4096 unacknowledged replies close the gap to 0, and the timer stops. */
  lemma FinForgotten() returns (evs: seq<Event>)
    ensures forall i :: 0 <= i < |evs| ==> Legal(evs[i])
    ensures var st := Run(evs);
            Stalled(st) && |st.ring| == 1 && st.hist.unacked == RING
  {
    hide Apply, Core, Run, Legal, Written, InEpochs, Gap;
    evs := UnackedReplies(RING);
    RunKeeps(evs);
    GapIs(Run(evs));
    StalledIff(Run(evs));
  }

  lemma GapIs(st: State)
    requires Bounded(st)
    ensures Gap(st) == st.hist.unacked % RING
  {
  }

  /** Two live packets, and a NACK for the second of them that puts nothing on the network. */
  lemma NackResendsNothing() returns (evs: seq<Event>, nack: Event)
    ensures Legal(nack) && nack.Receive? && forall i :: 0 <= i < |evs| ==> Legal(evs[i])
    ensures var st := Run(evs);
            && |st.ring| == 2 && Decode(nack.datagram) == Control(false, st.ring[1].nr)
            && Run(evs + [nack]).hist.wire == st.hist.wire && Run(evs + [nack]).ring == st.ring
  {
    hide Apply, Run, Decode, EncodeControl, Inv, Plan, Legal;
    var reply := ReadReply(2800);
    ReadReplyLegal(2800);
    evs := [reply];
    RunNothing();
    RunSnoc([], reply);
    assert [] + [reply] == evs;
    InitReply(reply);
    var st := Run(evs);
    nack := Receive(EncodeControl(0, st.ring[1].nr, false));
    DecodeEncodeControl(0, st.ring[1].nr, false);
    ReceiveLegal(nack);
    RunSnoc(evs, nack);
    RunKeeps(evs);
    NackResendsSuffixIff(st, 1);
    ReceiveNack(st, nack);
  }

  lemma ReceiveLegal(ev: Event)
    requires ev.Receive?
    ensures Legal(ev)
  {
  }

  lemma InitReply(reply: Event)
    requires reply.SendRaw? && Legal(reply)
    ensures |Apply(INIT, reply).ring| == FirstBurst(0, |Plan(reply.header, reply.data, MAX_DATA_PAYLOAD)|)
  {
    hide StartTransfer, Plan;
    InitHolds();
    StartLimits(INIT, reply.header, reply.data, MAX_DATA_PAYLOAD);
  }

  /**
   A repeated ACK of the very first mark makes pruneAcked discard the one live, unacknowledged packet, and
   leaves its FIN waiting without a timer.
   */
  lemma AckDropsLivePacket() returns (evs: seq<Event>, ack: Event)
    ensures Legal(ack) && ack.Receive? && forall i :: 0 <= i < |evs| ==> Legal(evs[i])
    ensures var st, r := Run(evs), Run(evs + [ack]);
            && Decode(ack.datagram) == Control(true, st.acked) && |st.ring| == 1
            && r.ring == [] && r.hist.unacked == st.hist.unacked > 0 && Stalled(r)
  {
    hide Inv, Apply, Run, Legal, Numbered, Bounded, Gap, Decode, EncodeControl, AckAccepted, AckOverfills;
    evs := UnackedReplies(2049);
    var st := Run(evs);
    ack := Receive(EncodeControl(0, st.acked, true));
    DecodeEncodeControl(0, st.acked, true);
    ReceiveLegal(ack);
    RunSnoc(evs, ack);
    RunKeeps(evs);
    RepeatedAck(st);
    StepLimits(st, ack);
    ReceiveAck(st, ack);
  }

  /** What an accepted ACK that is not for the last packet does to a session with nothing left to send. */
  lemma ReceiveAck(st: State, ack: Event)
    requires Inv(st) && ack.Receive? && Decode(ack.datagram).Control? && Decode(ack.datagram).isAck
    requires AckAccepted(st, Decode(ack.datagram).nr) && st.transfer.Idle?
    ensures var t := TakeAck(st, Decode(ack.datagram).nr);
            Apply(st, ack).ring == t.ring && Apply(st, ack).hist.unacked == Gap(t)
  {
    hide Decode, AckAccepted, OnAck, TakeAck, Gap, Core;
    OnAckTaken(st, Decode(ack.datagram).nr);
  }

  lemma ReceiveNack(st: State, nack: Event)
    requires Inv(st) && nack.Receive? && Decode(nack.datagram).Control? && !Decode(nack.datagram).isAck
    requires Resend(st.ring, Decode(nack.datagram).nr) == []
    ensures Apply(st, nack).hist.wire == st.hist.wire && Apply(st, nack).ring == st.ring
  {
    hide Decode, Resend, Core, Gap;
    assert st.hist.wire + [] == st.hist.wire;
  }

  /** Packets 0 and 1 arrive, then a late copy of packet 0: it is delivered again, in a new epoch. */
  lemma PacketZeroDeliveredTwice() returns (evs: seq<Event>)
    ensures |evs| == 3 && evs[2] == evs[0] && forall i :: 0 <= i < |evs| ==> Legal(evs[i])
    ensures var zero, one := Delivery(0, [7, 0, 0, 0]), Delivery(1, [8, 0, 0, 0]);
            Run(evs).hist.epochs == [[zero, one], [zero]]
  {
    hide Apply, Run, Process, Decode, EncodeData, Core, Waits, Armed, Written;
    var zero, one := Arrival(0, 7), Arrival(1, 8);
    RunNothing();
    var d0, d1 := Delivery(0, [7, 0, 0, 0]), Delivery(1, [8, 0, 0, 0]);
    ReceiveData([], zero, 0, 7);
    var first := [] + [zero];
    assert Run(first).hist.epochs[0] == [] + [d0] == [d0];
    assert Run(first).hist.epochs == [[d0]];
    ReceiveData(first, one, 1, 8);
    var second := first + [one];
    assert Run(second).hist.epochs[0] == [d0] + [d1] == [d0, d1];
    assert Run(second).hist.epochs == [[d0, d1]];
    ReceiveData(second, zero, 0, 7);
    evs := second + [zero];
  }

  /** A one-byte DATA packet of the peer. */
  function Arrival(nr: Seq12, b: byte): Event {
    Receive(EncodeData(nr, 0xFFF, [], [b], false))
  }

  lemma ReceiveData(evs: seq<Event>, ev: Event, nr: Seq12, b: byte)
    requires ev == Arrival(nr, b) && forall i :: 0 <= i < |evs| ==> Legal(evs[i])
    ensures forall i :: 0 <= i < |evs + [ev]| ==> Legal((evs + [ev])[i])
    ensures var st, r := Run(evs), Run(evs + [ev]);
            var d := Delivery(nr, [b, 0, 0, 0]);
            var last := |st.hist.epochs| - 1;
            && last >= 0
            && match Classify(st.rxExpected, nr)
               case InOrder =>
                 r.hist.epochs == st.hist.epochs[last := st.hist.epochs[last] + [d]] && r.rxExpected == (nr + 1) % RING
               case PeerReset => r.hist.epochs == st.hist.epochs + [[d]] && r.rxExpected == 1
               case _ => r.hist.epochs == st.hist.epochs && r.rxExpected == st.rxExpected
  {
    hide Run, Process, Decode, EncodeData, Core, Waits, Armed, Written;
    RunSnoc(evs, ev);
    DecodeEncodeData(nr, 0xFFF, [], [b], false);
    assert Payload([], [b]) == [b, 0, 0, 0];
    ProcessReceives(Run(evs), Decode(ev.datagram));
  }

  lemma RunKeeps(evs: seq<Event>)
    requires forall i :: 0 <= i < |evs| ==> Legal(evs[i])
    ensures Inv(Run(evs)) && Numbered(Run(evs)) && Bounded(Run(evs))
  {
    hide Run, Legal, Numbered, Bounded;
  }

  /** A repeated ACK is accepted and, once the gap is half a ring longer than the ring, empties it. */
  lemma RepeatedAck(st: State)
    requires Numbered(st) && Bounded(st) && st.ring != [] && HALF_RING + |st.ring| <= st.hist.unacked < RING
    ensures AckAccepted(st, st.acked) && TakeAck(st, st.acked).ring == []
    ensures Gap(TakeAck(st, st.acked)) == Gap(st) == st.hist.unacked >= HALF_RING + |st.ring|
  {
    hide Numbered, Prune, SeqBetween;
    ModSmall(st.hist.unacked);
    AckMovesForward(st.txSeq, st.acked, st.acked);
    PruneExactIff(st, st.acked);
  }
}
