/**
 What every run of a session keeps, whatever packets arrive, timers fire and transfers are
 started or abandoned.
 */
module SessionInv {
  import opened Basics
  import opened Wire
  import opened Transfers
  import opened SessionSpec

  // ----- The invariant -----

  /** The slots are numbered consecutively on the 12-bit ring, the next number being n. */
  predicate Consecutive(ring: seq<TxPacket>, n: nat) {
    |ring| <= n && forall i :: 0 <= i < |ring| ==> ring[i].nr == (n - |ring| + i) % RING
  }

  /** The i-th packet built since the last reset is number i, and the ring is the newest of them. */
  predicate Numbered(st: State) {
    var sent := st.hist.sent;
    && (forall i :: 0 <= i < |sent| ==> sent[i].seqNr == i % RING)
    && st.txSeq == |sent| % RING
    && |st.ring| <= |sent|
    && (forall i :: 0 <= i < |st.ring| ==> st.ring[i] == Slot(sent[|sent| - |st.ring| + i]))
  }

  /** How full the ring can get, against the unacknowledged gap. */
  predicate Bounded(st: State) {
    && Gap(st) == st.hist.unacked % RING
    && |st.ring| <= st.hist.unacked
    && |st.ring| <= Gap(st) + 1
    && |st.ring| <= SEND_WINDOW + 1
    && (|st.ring| == SEND_WINDOW + 1 ==> Gap(st) == SEND_WINDOW)
    && (st.hist.unacked < RING ==> |st.ring| <= SEND_WINDOW)
  }

  function ItemsOf(es: seq<Emission>): (items: seq<Item>) {
    seq(|es|, i requires 0 <= i < |es| => es[i].item)
  }

  /** The packets the current transfer has sent so far. */
  function Emitted(st: State): seq<Item>
    requires st.hist.job.start <= |st.hist.sent|
  {
    ItemsOf(st.hist.sent[st.hist.job.start..])
  }

  /** The packets of the current transfer, sent and to come, are those of its plan. */
  predicate OnPlan(st: State) {
    var job := st.hist.job;
    && job.WellFormed() && WellFormed(st.transfer)
    && job.start <= |st.hist.sent| - |st.ring|
    && FitsSlots(job.Items())
    && Emitted(st) <= job.Items()
    && (st.transfer.Sending? ==> Emitted(st) + Remaining(st.transfer) == job.Items() && !st.finPending)
    && (st.transfer.Sending? ==> st.transfer.data == job.data)
    && (st.transfer.Sending? ==> Remaining(st.transfer) != [] || st.ring == [])
    && (st.finPending ==> Emitted(st) == job.Items())
  }

  /** Everything that holds even in the middle of an operation of the sender. */
  predicate Core(st: State) {
    Numbered(st) && Bounded(st) && OnPlan(st) && st.attempts < MAX_RETRANSMITS
  }

  /** An armed timer waits for something real, and a waiting transfer is blocked by a full window. */
  predicate Waits(st: State) {
    && (st.transfer.Sending? ==> InFlight(st) >= SEND_WINDOW)
    && (st.mode == WindowWait ==> st.transfer.Sending?)
    && (st.mode == FinWait ==> st.finPending && InFlight(st) > 0)
    && (st.mode != NoWait ==> st.expectSeq == st.timerSeq)
  }

  /**
   On an open session a blocked transfer has the timer armed, and so has a pending FIN as long as the ring
   is not empty and the gap not wrapped to 0. The remaining FINs wait in silence: see SessionLimits.
   */
  predicate Armed(st: State) {
    !st.closed ==>
      && (st.transfer.Sending? ==> st.mode == WindowWait)
      && (st.finPending && InFlight(st) > 0 ==> st.mode == FinWait)
  }

  /** Deliveries count up from 0 in every life of the peer. */
  predicate InEpochs(st: State) {
    var epochs := st.hist.epochs;
    && epochs != []
    && (forall e, j :: 0 <= e < |epochs| && 0 <= j < |epochs[e]| ==> epochs[e][j].seqNr == j % RING)
    && (forall e :: 1 <= e < |epochs| ==> epochs[e] != [])
    && st.rxExpected == |epochs[|epochs| - 1]| % RING
  }

  /** Every packet built since the last reset has been put on the network. */
  predicate Written(st: State) {
    forall i :: 0 <= i < |st.hist.sent| ==> Slot(st.hist.sent[i]).data in st.hist.wire
  }

  predicate Inv(st: State) {
    Core(st) && Waits(st) && Armed(st) && InEpochs(st) && Written(st)
  }

  // ----- Arithmetic on the ring -----

  lemma ModSub(a: int, b: int)
    ensures (a % RING - b) % RING == (a - b) % RING
  {
    var q := a / RING;
    assert a - b == (a % RING - b) + q * RING;
    ModShift(a % RING - b, q);
  }

  lemma ModSubRight(a: int, b: int)
    ensures (a - b % RING) % RING == (a - b) % RING
  {
    var q := b / RING;
    assert a - b % RING == (a - b) + q * RING;
    ModShift(a - b, q);
  }

  lemma ModShift(x: int, q: int)
    ensures (x + q * RING) % RING == x % RING
  {
  }

  lemma ModSmall(x: int)
    ensures 0 <= x < RING ==> x % RING == x
    ensures -RING <= x < 0 ==> x % RING == x + RING
  {
  }

  /** The window test is a distance test, and an accepted ACK never moves the mark backwards. */
  lemma AckMovesForward(txSeq: Seq12, acked: Seq12, nr: Seq12)
    ensures SeqBetween(acked, nr, (txSeq - 1) % RING) <==> (nr - acked) % RING <= (txSeq - acked - 1) % RING
    ensures SeqBetween(acked, nr, (txSeq - 1) % RING) ==>
              (txSeq - nr - 1) % RING == (txSeq - acked - 1) % RING - (nr - acked) % RING
  {
  }

  // ----- Pruning and resending in closed form -----

  /** How many of `count` buffered packets an ACK discards when it leaves a gap of `gap`. */
  function PruneDrop(count: nat, gap: nat): (k: nat)
    ensures k <= count
  {
    if gap < count then count - gap
    else if gap - count < HALF_RING then 0
    else count
  }

  lemma {:induction false} PruneClosed(ring: seq<TxPacket>, n: nat, nr: Seq12)
    requires Consecutive(ring, n) && |ring| <= HALF_RING
    ensures Prune(ring, nr) == ring[PruneDrop(|ring|, (n - nr - 1) % RING)..]
  {
    var c, g := |ring|, (n - nr - 1) % RING;
    if c == 0 {
    } else {
      ModSub(n - c, nr + 1);
      ModSub(n - nr - 1, c);
      ModSmall(g - c);
      assert ring[0].nr == (n - c + 0) % RING;
      assert (ring[0].nr - nr - 1) % RING == (g - c) % RING;
      if (g - c) % RING >= HALF_RING {
        PruneClosed(ring[1..], n, nr);
        var k := PruneDrop(c - 1, g);
        assert ring[1..][k..] == ring[1 + k..];
      }
    }
  }

  function Datagrams(ring: seq<TxPacket>): (ds: seq<seq<byte>>) {
    seq(|ring|, i requires 0 <= i < |ring| => ring[i].data)
  }

  /** How many of `count` buffered packets a retransmission sends when the oldest lies `d` past its start. */
  function ResendCount(count: nat, d: Seq12): (k: nat)
    ensures k <= count
  {
    if d >= HALF_RING then 0 else Min(count, HALF_RING - d)
  }

  /** Every retransmission is a prefix of the live ring. */
  lemma {:induction false} ResendClosed(ring: seq<TxPacket>, n: nat, from: Seq12)
    requires Consecutive(ring, n) && |ring| <= HALF_RING
    ensures Resend(ring, from) == Datagrams(ring[..ResendCount(|ring|, (n - |ring| - from) % RING)])
  {
    var c, d := |ring|, (n - |ring| - from) % RING;
    if c == 0 {
    } else {
      assert ring[0].nr == (n - c + 0) % RING;
      ResendHead(n - c, from);
      if d < HALF_RING {
        ResendClosed(ring[1..], n, from);
        DatagramsCons(ring, ResendCount(c, d));
      }
    }
  }

  /** Distances of the packet numbered m and of the next one from the start of a retransmission. */
  lemma ResendHead(m: nat, from: Seq12)
    ensures (m % RING - from) % RING == (m - from) % RING
    ensures (m - from) % RING < HALF_RING ==>
              m % RING != (from - 1) % RING && (m + 1 - from) % RING == (m - from) % RING + 1
  {
    ModSub(m, from);
    ModSub(m - from, -1);
    ModSmall((m - from) % RING + 1);
  }

  lemma DatagramsCons(ring: seq<TxPacket>, k: nat)
    requires 1 <= k <= |ring|
    ensures Datagrams(ring[..k]) == [ring[0].data] + Datagrams(ring[1..][..k - 1])
  {
    assert ring[1..][..k - 1] == ring[1..k];
  }

  lemma RingConsecutive(st: State)
    requires Numbered(st)
    ensures Consecutive(st.ring, |st.hist.sent|)
  {
  }

  // ----- Every step of the sender keeps the core -----

  lemma GapAfterPush(st: State)
    ensures ((st.txSeq + 1) % RING - st.acked - 1) % RING == (Gap(st) + 1) % RING
  {
    ModSub(st.txSeq + 1, st.acked + 1);
    ModSub(st.txSeq - st.acked - 1, -1);
  }

  lemma PushKeepsNumbers(st: State, item: Item)
    requires Numbered(st) && Bounded(st)
    requires st.ring == [] || Gap(st) < SEND_WINDOW
    ensures Numbered(Push(st, item)) && Bounded(Push(st, item))
  {
    hide EncodeData;
    var n := |st.hist.sent|;
    ModSub(n, -1);
    GapAfterPush(st);
    ModSub(st.hist.unacked, -1);
    ModSmall(Gap(st) + 1);
    ModSmall(st.hist.unacked);
    var r := Push(st, item);
    assert r.hist.sent[n] == Emission(st.txSeq, (st.rxExpected - 1) % RING, item);
  }

  lemma ItemsOfAppend(es: seq<Emission>, e: Emission)
    ensures ItemsOf(es + [e]) == ItemsOf(es) + [e.item]
  {
  }

  /** One turn of the send loop. */
  function PumpOne(st: State): State
    requires WellFormed(st.transfer) && Remaining(st.transfer) != []
  {
    Push(st.(transfer := Advance(st.transfer)), Remaining(st.transfer)[0])
  }

  lemma PumpOneKeeps(st: State)
    requires Core(st) && st.transfer.Sending? && InFlight(st) < SEND_WINDOW && Remaining(st.transfer) != []
    ensures Core(PumpOne(st))
  {
    hide EncodeData, Plan, Chunks;
    var t, item := st.transfer, Remaining(st.transfer)[0];
    var job, sent := st.hist.job, st.hist.sent;
    AdvanceLaws(t);
    PushKeepsNumbers(st.(transfer := Advance(t)), item);
    var r := PumpOne(st);
    var e := Emission(st.txSeq, (st.rxExpected - 1) % RING, item);
    assert (sent + [e])[job.start..] == sent[job.start..] + [e];
    ItemsOfAppend(sent[job.start..], e);
    assert Emitted(r) == Emitted(st) + [item];
    assert Remaining(t) == [item] + Remaining(t)[1..];
    assert Emitted(r) + Remaining(r.transfer) == job.Items();
    PlanLaws(job.header, job.data, job.maxChunk);
    assert item == job.Items()[|Emitted(st)|];
  }

  /** The send loop touches nothing but the sending side. */
  predicate SameElsewhere(st: State, r: State) {
    && r.acked == st.acked && r.rxExpected == st.rxExpected && r.closed == st.closed
    && r.mode == st.mode && r.timerSeq == st.timerSeq && r.expectSeq == st.expectSeq
    && r.hist.wire == st.hist.wire && r.hist.job == st.hist.job && r.hist.epochs == st.hist.epochs
  }

  lemma {:induction false} PumpKeeps(st: State)
    requires Core(st)
    ensures Core(Pump(st)) && SameElsewhere(st, Pump(st))
    ensures Pump(st).transfer.Sending? ==> InFlight(Pump(st)) >= SEND_WINDOW
    decreases Left(st.transfer)
  {
    hide EncodeData, Plan, Chunks;
    if st.transfer.Idle? || InFlight(st) >= SEND_WINDOW || Remaining(st.transfer) == [] {
    } else {
      AdvanceLaws(st.transfer);
      PumpOneKeeps(st);
      PumpKeeps(PumpOne(st));
    }
  }

  /** An armed timer belongs to the generation last started. */
  predicate TimerCurrent(st: State) {
    st.mode != NoWait ==> st.expectSeq == st.timerSeq
  }

  /** The core does not look at the timer, the network or the receiving side. */
  lemma CoreFrame(st: State, r: State)
    requires Core(st)
    requires r.ring == st.ring && r.transfer == st.transfer && r.txSeq == st.txSeq && r.acked == st.acked
    requires r.hist.sent == st.hist.sent && r.hist.unacked == st.hist.unacked && r.hist.job == st.hist.job
    requires r.attempts == st.attempts || r.attempts < MAX_RETRANSMITS
    requires r.finPending ==> st.finPending
    ensures Core(r)
  {
    hide EncodeData, Plan, Chunks;
  }

  /** updateAckTimer restores both timer rules from any state in which transfers only wait for a full window. */
  lemma UpdateTimerKeeps(st: State)
    requires Core(st) && TimerCurrent(st)
    requires st.transfer.Sending? ==> InFlight(st) >= SEND_WINDOW
    ensures Core(UpdateTimer(st)) && Waits(UpdateTimer(st)) && Armed(UpdateTimer(st))
  {
    hide EncodeData, Plan, Chunks;
  }

  lemma HandleTransferKeeps(st: State)
    requires Core(st) && TimerCurrent(st) && InEpochs(st) && Written(st)
    ensures Inv(HandleTransfer(st))
  {
    hide EncodeData, Plan, Chunks, Pump;
    var p := Pump(st);
    PumpKeeps(st);
    PumpGrows(st);
    var w := Write(p, Built(st, p));
    forall i | 0 <= i < |p.hist.sent|
      ensures Slot(p.hist.sent[i]).data in w.hist.wire
    {
      var n := |st.hist.sent|;
      if i >= n {
        assert Built(st, p)[i - n] == Slot(p.hist.sent[i]).data;
      } else {
        assert p.hist.sent[i] == st.hist.sent[i];
      }
    }
    assert Core(w);
    UpdateTimerKeeps(w);
  }

  /** Starting a transfer needs nothing of the transfer it abandons. */
  lemma BeginCore(st: State, header: seq<byte>, data: seq<byte>, maxChunk: nat)
    requires Numbered(st) && Bounded(st)
    requires data == [] || maxChunk >= 1
    requires FitsSlots(Plan(header, data, maxChunk))
    ensures Core(Begin(st, header, data, maxChunk))
  {
    hide EncodeData, Plan, Chunks;
    assert Emitted(Begin(st, header, data, maxChunk)) == [];
  }

  lemma StartTransferKeeps(st: State, header: seq<byte>, data: seq<byte>, maxChunk: nat)
    requires Numbered(st) && Bounded(st) && InEpochs(st) && Written(st)
    requires data == [] || maxChunk >= 1
    requires FitsSlots(Plan(header, data, maxChunk))
    ensures Inv(StartTransfer(st, header, data, maxChunk))
  {
    hide Core, Slot, HandleTransfer, Numbered, Bounded;
    BeginCore(st, header, data, maxChunk);
    HandleTransferKeeps(Begin(st, header, data, maxChunk));
  }

  // ----- Acknowledgements -----

  /** An accepted ACK prunes by the closed form, and never widens the gap. */
  lemma TakeAckRing(st: State, nr: Seq12)
    requires Numbered(st) && Bounded(st) && AckAccepted(st, nr)
    ensures var r := TakeAck(st, nr);
            && r.ring == st.ring[PruneDrop(|st.ring|, Gap(r))..]
            && Gap(r) <= Gap(st)
            && (Gap(r) == 0 <==> nr == (st.txSeq - 1) % RING)
  {
    hide Slot, Prune, PruneDrop, SeqBetween, Consecutive;
    var n := |st.hist.sent|;
    RingConsecutive(st);
    PruneClosed(st.ring, n, nr);
    AckGap(n, st.acked, nr);
  }

  lemma AckGap(n: nat, acked: Seq12, nr: Seq12)
    ensures (n % RING - nr - 1) % RING == (n - nr - 1) % RING
    ensures SeqBetween(acked, nr, (n % RING - 1) % RING) ==> (n % RING - nr - 1) % RING <= (n % RING - acked - 1) % RING
    ensures (n % RING - nr - 1) % RING == 0 <==> nr == (n % RING - 1) % RING
  {
    ModSub(n, nr + 1);
    AckMovesForward(n % RING, acked, nr);
  }

  lemma TakeAckKeeps(st: State, nr: Seq12)
    requires Core(st) && AckAccepted(st, nr)
    ensures Core(TakeAck(st, nr))
    ensures nr == (st.txSeq - 1) % RING ==> TakeAck(st, nr).ring == []
  {
    hide EncodeData, Plan, Chunks, Prune, AckAccepted;
    TakeAckRing(st, nr);
    ModSmall(Gap(TakeAck(st, nr)));
  }

  lemma OnAckKeeps(st: State, nr: Seq12)
    requires Inv(st)
    ensures var r := OnAck(st, nr);
            && Core(r) && TimerCurrent(r) && InEpochs(r) && Written(r)
            && (r.transfer.Idle? ==> Waits(r) && Armed(r))
  {
    hide EncodeData, Plan, Chunks, Prune, Core, AckAccepted, Slot;
    if AckAccepted(st, nr) {
      TakeAckKeeps(st, nr);
      var moved := TakeAck(st, nr);
      if nr == (st.txSeq - 1) % RING {
        CoreFrame(moved, OnAck(st, nr));
      } else if moved.transfer.Idle? {
        UpdateTimerKeeps(moved);
      } else {
        CoreFrame(moved, UpdateTimer(moved));
      }
    }
  }

  lemma OnPeerAckKeeps(st: State, nr: Seq12)
    requires Inv(st)
    ensures Inv(OnPeerAck(st, nr))
  {
    hide EncodeData, Plan, Chunks, OnAck, HandleTransfer, Core, Written, InEpochs;
    OnAckKeeps(st, nr);
    var s := OnAck(st, nr);
    if s.transfer.Sending? {
      HandleTransferKeeps(s);
    }
  }

  lemma OnPeerNackKeeps(st: State, nr: Seq12)
    requires Inv(st)
    ensures Inv(OnPeerNack(st, nr))
  {
    hide EncodeData, Plan, Chunks, Resend;
    var w := Write(st.(attempts := 0), Resend(st.ring, nr));
    assert Core(w);
    UpdateTimerKeeps(w);
  }

  // ----- Timer -----

  /** The early exit of handleAckTimeout is unreachable from the timer. */
  lemma FireKeeps(st: State)
    requires Inv(st)
    ensures Inv(Fire(st))
    ensures !st.closed && st.mode != NoWait ==>
              st.finPending || (st.transfer.Sending? && InFlight(st) >= SEND_WINDOW)
  {
    hide EncodeData, Plan, Chunks, Resend;
  }

  /** A timer step needs nothing of the bytes of the transfer: it reads the ring only. */
  lemma FireKeepsReady(st: State)
    requires Numbered(st) && Bounded(st) && InEpochs(st) && Written(st)
    ensures var r := Fire(st);
            && Numbered(r) && Bounded(r) && InEpochs(r) && Written(r)
            && r.hist.sent == st.hist.sent && r.hist.job == st.hist.job
  {
    hide Resend, EncodeData;
  }

  // ----- Receiving -----

  lemma SendControlKeeps(st: State, ack: bool)
    requires Inv(st)
    ensures Inv(SendControl(st, ack))
  {
    hide EncodeData, EncodeControl, Plan, Chunks;
  }

  lemma ResetKeeps(st: State)
    requires Inv(st)
    ensures var r := ResetSession(st);
            && Core(r) && Waits(r) && Armed(r) && Written(r)
            && r.hist.epochs == st.hist.epochs + [[]] && r.rxExpected == 0
  {
    assert Emitted(ResetSession(st)) == [];
  }

  /** Recording a delivery is invisible to the sending side. */
  lemma DeliverFrame(st: State, seqNr: Seq12, payload: seq<byte>)
    requires Core(st) && Waits(st) && Armed(st) && Written(st) && st.hist.epochs != []
    ensures var r := Deliver(st, seqNr, payload);
            Core(r) && Waits(r) && Armed(r) && Written(r)
  {
    hide Core, Slot;
    CoreFrame(st, Deliver(st, seqNr, payload));
  }

  /** A delivered packet is the next of its epoch, or opens a new one. */
  lemma DeliverKeeps(st: State, seqNr: Seq12, payload: seq<byte>)
    requires Inv(st)
    ensures seqNr == st.rxExpected ==> Inv(Deliver(st, seqNr, payload))
    ensures seqNr == 0 ==> Inv(Deliver(ResetSession(st), 0, payload))
  {
    hide Core, Waits, Armed, Written;
    DeliverFrame(st, seqNr, payload);
    ModSub(|st.hist.epochs[|st.hist.epochs| - 1]|, -1);
    ResetKeeps(st);
    DeliverFrame(ResetSession(st), 0, payload);
  }

  /** The session once a DATA packet has been sorted and answered, before the ACK it carries is looked at. */
  function Received(st: State, m: Inbound): State
    requires m.Data? && st.hist.epochs != []
  {
    match Classify(st.rxExpected, m.seqNr)
    case InOrder => SendControl(Deliver(st, m.seqNr, m.payload), true)
    case PeerReset => SendControl(Deliver(ResetSession(st), m.seqNr, m.payload), true)
    case OutOfOrder => SendControl(st, false)
    case Repeat => SendControl(st, true)
  }

  /** The packet is taken for the first of a peer that was reset. */
  predicate Resets(st: State, m: Inbound) {
    m.Data? && Classify(st.rxExpected, m.seqNr) == PeerReset
  }

  lemma ReceivedReset(st: State, m: Inbound)
    requires st.hist.epochs != [] && Resets(st, m)
    ensures var s := Received(st, m);
            && s.ring == [] && s.transfer.Idle? && !s.finPending && s.hist.sent == []
            && |s.hist.epochs| == |st.hist.epochs| + 1
  {
    hide EncodeControl;
  }

  /** Sorting and answering a DATA packet does not touch the sending side, unless it is a peer reset. */
  lemma ReceivedFrame(st: State, m: Inbound)
    requires st.hist.epochs != [] && m.Data? && !Resets(st, m)
    ensures var s := Received(st, m);
            && s.ring == st.ring && s.transfer == st.transfer && s.txSeq == st.txSeq && s.acked == st.acked
            && s.finPending == st.finPending && s.mode == st.mode && s.closed == st.closed
            && s.hist.sent == st.hist.sent && s.hist.job == st.hist.job && s.hist.unacked == st.hist.unacked
            && |s.hist.epochs| == |st.hist.epochs|
  {
    hide EncodeControl;
  }

  lemma ReceivedKeeps(st: State, m: Inbound)
    requires Inv(st) && m.Data?
    ensures Inv(Received(st, m))
  {
    hide Inv, Deliver, SendControl;
    InvShape(st);
    DeliverKeeps(st, m.seqNr, m.payload);
    SendControlKeeps(st, true);
    SendControlKeeps(st, false);
    var v := Classify(st.rxExpected, m.seqNr);
    if v == InOrder {
      SendControlKeeps(Deliver(st, m.seqNr, m.payload), true);
    } else if v == PeerReset {
      SendControlKeeps(Deliver(ResetSession(st), m.seqNr, m.payload), true);
    }
  }

  lemma InvShape(st: State)
    requires Inv(st)
    ensures st.hist.epochs != [] && WellFormed(st.transfer)
  {
  }

  /** A DATA packet is sorted and answered, its ACK is taken, and a repeat during a transfer resends as well. */
  lemma ProcessIs(st: State, m: Inbound)
    requires Inv(st) && m.Data?
    ensures st.hist.epochs != [] && WellFormed(st.transfer) && WellFormed(Received(st, m).transfer)
    ensures var s := AckIf(Received(st, m), m.isAck, m.nr);
            Process(st, m) == if Classify(st.rxExpected, m.seqNr) == Repeat && st.transfer.Sending?
                              then OnPeerNack(s, (st.acked + 1) % RING) else s
  {
    hide AckIf, OnPeerNack, EncodeControl, Numbered, Bounded, Emitted, Plan, Waits, Armed, Written;
  }

  lemma ProcessKeeps(st: State, m: Inbound)
    requires Inv(st)
    ensures Inv(Process(st, m))
  {
    hide OnPeerAck, OnPeerNack, Received, Inv, Process;
    InvShape(st);
    if m.Data? {
      ProcessIs(st, m);
      ReceivedKeeps(st, m);
      var s := Received(st, m);
      OnPeerAckKeeps(s, m.nr);
      OnPeerNackKeeps(AckIf(s, m.isAck, m.nr), (st.acked + 1) % RING);
    } else if m.Control? {
      OnPeerAckKeeps(st, m.nr);
      OnPeerNackKeeps(st, m.nr);
      ProcessControl(st, m);
    } else {
      ProcessControl(st, m);
    }
  }

  lemma ProcessControl(st: State, m: Inbound)
    requires WellFormed(st.transfer) && st.hist.epochs != [] && !m.Data?
    ensures Process(st, m) == if m.Malformed? then st
                              else if m.isAck then OnPeerAck(st, m.nr) else OnPeerNack(st, m.nr)
  {
    hide OnPeerAck, OnPeerNack;
  }

  // ----- Runs -----

  lemma InitHolds()
    ensures Inv(INIT)
  {
    assert Emitted(INIT) == [];
  }

  lemma ApplyKeeps(st: State, ev: Event)
    requires Inv(st) && Legal(ev)
    ensures Inv(Apply(st, ev))
  {
    hide EncodeData, EncodeControl, Plan, Chunks, StartTransfer, SendControl, Process, Fire;
    match ev
    case SendData(payload) => StartTransferKeeps(st, [], payload, |payload|);
    case SendRaw(header, data) => StartTransferKeeps(st, header, data, MAX_DATA_PAYLOAD);
    case SendAck(ack) => SendControlKeeps(st, ack);
    case Receive(datagram) => ProcessKeeps(st, Decode(datagram));
    case TimerFires => FireKeeps(st);
    case CloseSession =>
  }

  /** The state after a whole run. */
  function Run(evs: seq<Event>): (st: State)
    requires forall i :: 0 <= i < |evs| ==> Legal(evs[i])
    ensures Inv(st)
  {
    if evs == [] then
      InitHolds();
      INIT
    else
      var st := Run(evs[..|evs| - 1]);
      ApplyKeeps(st, evs[|evs| - 1]);
      Apply(st, evs[|evs| - 1])
  }
}
