/**
 The UDPRDMA session as a state machine on values. Every operation of the session
 (udprdma/session*.go, acks.go, ack_timer.go) is one function from state to state; the
 class in Session.dfy is proved to take exactly these steps.

 The state carries a history that the program does not keep: what was written to the
 network, which packets were ever built, and what was delivered upwards.
 */
module SessionSpec {
  import opened Basics
  import opened Wire
  import opened Transfers

  datatype WaitMode = NoWait | WindowWait | FinWait

  /** A slot of the retransmit ring. */
  datatype TxPacket = TxPacket(data: seq<byte>, nr: Seq12)

  /** A DATA packet at the moment it was built. */
  datatype Emission = Emission(seqNr: Seq12, ackNr: Seq12, item: Item)

  function Slot(e: Emission): TxPacket {
    TxPacket(EncodeData(e.seqNr, e.ackNr, e.item.header, e.item.chunk, e.item.fin), e.seqNr)
  }

  /** The transfer begun last: what it was asked to send, and where its packets start in the history. */
  datatype Job = Job(header: seq<byte>, data: seq<byte>, maxChunk: nat, start: nat) {
    predicate WellFormed() {
      data == [] || maxChunk >= 1
    }

    function Items(): seq<Item>
      requires WellFormed()
    {
      Plan(header, data, maxChunk)
    }
  }

  datatype Delivery = Delivery(seqNr: Seq12, payload: seq<byte>)

  datatype History = History(
    wire: seq<seq<byte>>,           // every datagram written, in order
    sent: seq<Emission>,            // every DATA packet built since the last peer reset
    unacked: nat,                   // packets built since the number last acknowledged, not wrapped
    job: Job,
    epochs: seq<seq<Delivery>>)     // delivered upwards, one list per life of the peer

  datatype State = State(
    ring: seq<TxPacket>,            // live slots, oldest first
    transfer: Transfer,
    txSeq: Seq12,
    acked: Seq12,
    rxExpected: Seq12,
    mode: WaitMode,
    timerSeq: uint16,
    expectSeq: uint16,
    attempts: nat,
    finPending: bool,
    closed: bool,
    hist: History)

  const INIT := State([], Idle, 0, 0xFFF, 0, NoWait, 0, 0, 0, false, false, History([], [], 0, Job([], [], 0, 0), [[]]))

  // ----- Sequence numbers -----

  /** Number of packets from the one after `acked` up to the last sent, on the 12-bit ring. */
  function Gap(st: State): Seq12 {
    (st.txSeq - st.acked - 1) % RING
  }

  function InFlight(st: State): Seq12 {
    if st.ring == [] then 0 else Gap(st)
  }

  function SeqBetween(start: Seq12, nr: Seq12, end: Seq12): bool {
    if start <= end then start <= nr <= end else nr >= start || nr <= end
  }

  // ----- ACK timer -----

  function StopTimer(st: State): State {
    st.(timerSeq := (st.timerSeq + 1) % 0x1_0000, mode := NoWait)
  }

  function ArmTimer(st: State): State {
    var mode := if st.finPending then FinWait else WindowWait;
    if st.mode == mode then st
    else
      var next := (st.timerSeq + 1) % 0x1_0000;
      st.(timerSeq := next, expectSeq := next, mode := mode)
  }

  function UpdateTimer(st: State): State {
    if InFlight(st) == 0 then StopTimer(st)
    else if st.finPending || (st.transfer.Sending? && InFlight(st) >= SEND_WINDOW) then ArmTimer(st)
    else StopTimer(st)
  }

  // ----- Sending -----

  function Write(st: State, datagrams: seq<seq<byte>>): State {
    st.(hist := st.hist.(wire := st.hist.wire + datagrams))
  }

  /** packDataPacket: number the packet, put it in the ring. */
  function Push(st: State, item: Item): State {
    var e := Emission(st.txSeq, (st.rxExpected - 1) % RING, item);
    st.(ring := st.ring + [Slot(e)],
        txSeq := (st.txSeq + 1) % RING,
        attempts := if item.fin then 0 else st.attempts,
        finPending := item.fin || st.finPending,
        hist := st.hist.(sent := st.hist.sent + [e], unacked := st.hist.unacked + 1))
  }

  /** A transfer after its next packet has been cut. */
  function Advance(t: Transfer): Transfer
    requires WellFormed(t) && Remaining(t) != []
  {
    var it := Remaining(t)[0];
    if it.fin then Idle else t.(offset := t.offset + |it.chunk|)
  }

  /** Bytes a transfer can still send; the send loop's measure. */
  function Left(t: Transfer): nat
    requires WellFormed(t)
  {
    if t.Idle? then 0 else 1 + |t.data| - t.offset
  }

  lemma AdvanceLaws(t: Transfer)
    requires WellFormed(t) && Remaining(t) != []
    ensures WellFormed(Advance(t)) && Left(Advance(t)) < Left(t)
    ensures Remaining(Advance(t)) == Remaining(t)[1..]
    ensures Advance(t).Sending? ==> Remaining(Advance(t)) != []
  {
    if t.offset == 0 {
      PlanLaws(t.header, t.data, t.maxChunk);
    } else {
      ChunksLaws(t.data, t.offset, t.maxChunk);
    }
  }

  /** The send loop: cut packets while the window allows. */
  function Pump(st: State): (r: State)
    requires WellFormed(st.transfer)
    ensures WellFormed(r.transfer)
    decreases Left(st.transfer)
  {
    if st.transfer.Idle? || InFlight(st) >= SEND_WINDOW then st
    else if Remaining(st.transfer) == [] then st.(transfer := Idle)
    else
      AdvanceLaws(st.transfer);
      Pump(Push(st.(transfer := Advance(st.transfer)), Remaining(st.transfer)[0]))
  }

  /** The datagrams of the packets built between two states. */
  function Built(before: State, after: State): seq<seq<byte>>
    requires |before.hist.sent| <= |after.hist.sent|
  {
    var added := after.hist.sent[|before.hist.sent|..];
    seq(|added|, i requires 0 <= i < |added| => Slot(added[i]).data)
  }

  lemma {:induction false} PumpGrows(st: State)
    requires WellFormed(st.transfer)
    ensures st.hist.sent <= Pump(st).hist.sent
    decreases Left(st.transfer)
  {
    if st.transfer.Idle? || InFlight(st) >= SEND_WINDOW || Remaining(st.transfer) == [] {
    } else {
      AdvanceLaws(st.transfer);
      PumpGrows(Push(st.(transfer := Advance(st.transfer)), Remaining(st.transfer)[0]));
    }
  }

  function HandleTransfer(st: State): (r: State)
    requires WellFormed(st.transfer)
    ensures WellFormed(r.transfer)
  {
    PumpGrows(st);
    UpdateTimer(Write(Pump(st), Built(st, Pump(st))))
  }

  function ResetSendState(st: State): State {
    StopTimer(st).(ring := [], attempts := 0, finPending := false)
  }

  /** A session about to send its first packet of a transfer. */
  function Begin(st: State, header: seq<byte>, data: seq<byte>, maxChunk: nat): (r: State)
    requires data == [] || maxChunk >= 1
    ensures WellFormed(r.transfer)
  {
    ResetSendState(st).(transfer := Sending(header, data, 0, maxChunk),
                        hist := st.hist.(job := Job(header, data, maxChunk, |st.hist.sent|)))
  }

  /** SendData and SendRawDataWithHeader differ only in the header and the chunk size. */
  function StartTransfer(st: State, header: seq<byte>, data: seq<byte>, maxChunk: nat): (r: State)
    requires data == [] || maxChunk >= 1
    ensures WellFormed(r.transfer)
  {
    HandleTransfer(Begin(st, header, data, maxChunk))
  }

  /** sendACK: an ACK names the last number received, a NACK the number expected. */
  function SendControl(st: State, ack: bool): State {
    var nr := if ack then (st.rxExpected - 1) % RING else st.rxExpected;
    Write(st, [EncodeControl(st.txSeq, nr, ack)])
  }

  // ----- Acknowledgements -----

  /** pruneAcked: drop the oldest packets until one lies strictly after nr. */
  function Prune(ring: seq<TxPacket>, nr: Seq12): seq<TxPacket> {
    if ring == [] || (ring[0].nr - nr - 1) % RING < HALF_RING then ring else Prune(ring[1..], nr)
  }

  /** retransmitFrom: the packets it resends, in order. */
  function Resend(ring: seq<TxPacket>, from: Seq12): seq<seq<byte>> {
    if ring == [] || (ring[0].nr - from) % RING >= HALF_RING then []
    else (if ring[0].nr != (from - 1) % RING then [ring[0].data] else []) + Resend(ring[1..], from)
  }

  predicate AckAccepted(st: State, nr: Seq12) {
    st.ring != [] && SeqBetween(st.acked, nr, (st.txSeq - 1) % RING)
  }

  /** An accepted ACK moves the mark, discards what it covers and restarts the retry count. */
  function TakeAck(st: State, nr: Seq12): State {
    st.(acked := nr, ring := Prune(st.ring, nr), attempts := 0,
        hist := st.hist.(unacked := (st.txSeq - nr - 1) % RING))
  }

  function OnAck(st: State, nr: Seq12): State {
    if !AckAccepted(st, nr) then st
    else
      var moved := TakeAck(st, nr);
      if nr == (st.txSeq - 1) % RING then StopTimer(moved).(finPending := false)
      else UpdateTimer(moved)
  }

  function OnPeerAck(st: State, nr: Seq12): (r: State)
    requires WellFormed(st.transfer)
    ensures WellFormed(r.transfer)
  {
    var s := OnAck(st, nr);
    if s.transfer.Sending? then HandleTransfer(s) else s
  }

  function OnPeerNack(st: State, nr: Seq12): State {
    UpdateTimer(Write(st.(attempts := 0), Resend(st.ring, nr)))
  }

  // ----- Timeouts -----

  function HandleTimeout(st: State): State {
    if !st.finPending && !(st.transfer.Sending? && InFlight(st) >= SEND_WINDOW) then StopTimer(st)
    else
      var s := Write(st.(attempts := st.attempts + 1), Resend(st.ring, (st.acked + 1) % RING));
      if s.attempts < MAX_RETRANSMITS then ArmTimer(s) else GiveUp(s)
  }

  /** The last retry abandons the FIN wait if there is one, and the transfer otherwise. */
  function GiveUp(st: State): State {
    StopTimer(st).(attempts := 0, finPending := false, transfer := if st.finPending then st.transfer else Idle)
  }

  /** ackTimerFunc. */
  function Fire(st: State): State {
    if st.closed || st.mode == NoWait || st.expectSeq != st.timerSeq then st
    else HandleTimeout(st.(mode := NoWait))
  }

  // ----- Receiving -----

  function ResetSession(st: State): State {
    ResetSendState(st).(txSeq := 0, acked := 0xFFF, rxExpected := 0, transfer := Idle,
      hist := st.hist.(sent := [], unacked := 0, job := Job([], [], 0, 0), epochs := st.hist.epochs + [[]]))
  }

  datatype Verdict = InOrder | Repeat | PeerReset | OutOfOrder

  function Classify(expected: Seq12, nr: Seq12): Verdict {
    if nr == expected then InOrder
    else if nr == (expected - 1) % RING then Repeat
    else if nr == 0 then PeerReset
    else OutOfOrder
  }

  function Deliver(st: State, seqNr: Seq12, payload: seq<byte>): State
    requires st.hist.epochs != []
  {
    var last := |st.hist.epochs| - 1;
    st.(rxExpected := (seqNr + 1) % RING,
        hist := st.hist.(epochs := st.hist.epochs[last := st.hist.epochs[last] + [Delivery(seqNr, payload)]]))
  }

  function AckIf(st: State, isAck: bool, nr: Seq12): (r: State)
    requires WellFormed(st.transfer)
    ensures WellFormed(r.transfer)
  {
    if isAck then OnPeerAck(st, nr) else st
  }

  /** ProcessDataPacket, after the bytes have been read as `m`. */
  function Process(st: State, m: Inbound): (r: State)
    requires WellFormed(st.transfer) && st.hist.epochs != []
    ensures WellFormed(r.transfer)
  {
    match m
    case Malformed => st
    case Control(isAck, nr) => if isAck then OnPeerAck(st, nr) else OnPeerNack(st, nr)
    case Data(seqNr, isAck, nr, _, payload) =>
      match Classify(st.rxExpected, seqNr)
      case InOrder => AckIf(SendControl(Deliver(st, seqNr, payload), true), isAck, nr)
      case PeerReset => AckIf(SendControl(Deliver(ResetSession(st), seqNr, payload), true), isAck, nr)
      case OutOfOrder => AckIf(SendControl(st, false), isAck, nr)
      case Repeat =>
        var s := AckIf(SendControl(st, true), isAck, nr);
        if st.transfer.Sending? then OnPeerNack(s, (st.acked + 1) % RING) else s
  }

  /** What ProcessDataPacket hands to the layer above. */
  datatype Reply = Rejected | Nothing | Delivered(bytes: seq<byte>)

  function ReplyTo(st: State, m: Inbound): Reply {
    match m
    case Malformed => Rejected
    case Control(_, _) => Nothing
    case Data(seqNr, _, _, _, payload) =>
      var v := Classify(st.rxExpected, seqNr);
      if v == InOrder || v == PeerReset then Delivered(payload) else Nothing
  }

  // ----- Runs -----

  datatype Event =
    | SendData(payload: seq<byte>)
    | SendRaw(header: seq<byte>, data: seq<byte>)
    | SendAck(ack: bool)
    | Receive(datagram: seq<byte>)
    | TimerFires
    | CloseSession

  /** What the program asks of its callers: no packet may exceed its slot. */
  predicate Legal(ev: Event) {
    match ev
    case SendData(payload) => FitsSlots(Plan([], payload, |payload|))
    case SendRaw(header, data) => FitsSlots(Plan(header, data, MAX_DATA_PAYLOAD))
    case _ => true
  }

  function Close(st: State): State {
    if st.closed then st else StopTimer(st.(closed := true))
  }

  function Apply(st: State, ev: Event): (r: State)
    requires WellFormed(st.transfer) && st.hist.epochs != []
    ensures WellFormed(r.transfer)
  {
    match ev
    case SendData(payload) => StartTransfer(st, [], payload, |payload|)
    case SendRaw(header, data) => StartTransfer(st, header, data, MAX_DATA_PAYLOAD)
    case SendAck(ack) => SendControl(st, ack)
    case Receive(datagram) => Process(st, Decode(datagram))
    case TimerFires => Fire(st)
    case CloseSession => Close(st)
  }
}
