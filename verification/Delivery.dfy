/**
 A session sending one transfer after another to an in-order peer across a network that loses,
 duplicates and reorders datagrams, but delivers none after 4088 newer packets have been built.
 Datagrams of earlier transfers stay on the network and may still arrive during later ones.

 The peer accepts only the number it expects, acknowledges the last number it accepted, and
 asks again for the number it expects when anything else arrives. At any time it may send a request,
 a DATA packet of its own that carries an ACK as well.
 */
module Delivery {
  import opened Basics
  import opened Wire
  import opened Transfers
  import opened SessionSpec
  import opened SessionInv
  import opened SessionTheorems
  import opened SessionLimits
  import opened SessionEffects

  /** How many packets may be built while a datagram is under way: one more, and an old packet passes for a new one. */
  const LATE := RING - SEND_WINDOW - 1

  /** A datagram on the network, with the number of packets the sender had built when it was written. */
  datatype Datagram = Datagram(bytes: seq<byte>, stamp: nat)

  datatype Peer = Peer(txSeq: Seq12, expected: Seq12, got: seq<seq<byte>>)

  /**
   The two ends and everything ever written in either direction: `data` by the sender, `back` by the peer.
   A datagram may be delivered any number of times, in any order, or never. `origin` is how many packets
   the sender had built when the two ends first met. An orderly sender starts a transfer only when
   everything before it has been acknowledged.
   */
  datatype Sys = Sys(tx: State, peer: Peer, data: seq<Datagram>, back: seq<Datagram>, origin: nat, orderly: bool)

  datatype Action =
    | DeliverData(k: nat)
    | DeliverBack(k: nat)
    | Timeout
    | NextTransfer(header: seq<byte>, data: seq<byte>, maxChunk: nat)
    | Request(payload: seq<byte>)

  predicate InTime(sys: Sys, d: Datagram) {
    |sys.tx.hist.sent| <= d.stamp + LATE
  }

  /** A late packet 0 of the peer would reset the sender, and is kept out of these runs. */
  predicate Enabled(sys: Sys, a: Action) {
    match a
    case DeliverData(k) => k < |sys.data| && InTime(sys, sys.data[k])
    case DeliverBack(k) =>
      k < |sys.back| && InTime(sys, sys.back[k]) && !Resets(sys.tx, Decode(sys.back[k].bytes))
    case Timeout => true
    case NextTransfer(header, data, maxChunk) =>
      Sendable(header, data, maxChunk) && (sys.orderly ==> sys.tx.hist.unacked == 0)
    case Request(payload) => Describable([], payload)
  }

  /** Packets of the transfer fit their slots and their data headers. */
  predicate Sendable(header: seq<byte>, data: seq<byte>, maxChunk: nat) {
    && (data == [] || maxChunk >= 1)
    && FitsSlots(Plan(header, data, maxChunk))
    && Describables(Plan(header, data, maxChunk))
  }

  function Stamp(bytes: seq<seq<byte>>, stamp: nat): (ds: seq<Datagram>)
    ensures |ds| == |bytes|
    ensures forall k :: 0 <= k < |ds| ==> ds[k] == Datagram(bytes[k], stamp)
  {
    seq(|bytes|, k requires 0 <= k < |bytes| => Datagram(bytes[k], stamp))
  }

  /** What a step of the sender put on the network. */
  function Fresh(before: State, after: State): seq<seq<byte>> {
    if |before.hist.wire| <= |after.hist.wire| then after.hist.wire[|before.hist.wire|..] else []
  }

  function SenderMoves(sys: Sys, tx: State): Sys {
    sys.(tx := tx, data := sys.data + Stamp(Fresh(sys.tx, tx), |tx.hist.sent|))
  }

  /** The receive rule of an in-order peer. */
  function PeerAccepts(peer: Peer, m: Inbound): Peer {
    if m.Data? && m.seqNr == peer.expected
    then peer.(expected := (m.seqNr + 1) % RING, got := peer.got + [m.payload])
    else peer
  }

  function PeerAnswers(peer: Peer, m: Inbound): seq<seq<byte>> {
    if !m.Data? then []
    else
      var next := PeerAccepts(peer, m).expected;
      match Classify(peer.expected, m.seqNr)
      case InOrder => [EncodeControl(peer.txSeq, (next - 1) % RING, true)]
      case Repeat => [EncodeControl(peer.txSeq, (next - 1) % RING, true)]
      case _ => [EncodeControl(peer.txSeq, next, false)]
  }

  function RequestBytes(peer: Peer, payload: seq<byte>): seq<byte> {
    EncodeData(peer.txSeq, (peer.expected - 1) % RING, [], payload, true)
  }

  function Step(sys: Sys, a: Action): Sys
    requires Enabled(sys, a) && WellFormed(sys.tx.transfer) && sys.tx.hist.epochs != []
  {
    match a
    case DeliverData(k) =>
      var m := Decode(sys.data[k].bytes);
      sys.(peer := PeerAccepts(sys.peer, m),
           back := sys.back + Stamp(PeerAnswers(sys.peer, m), |sys.tx.hist.sent|))
    case DeliverBack(k) => SenderMoves(sys, Process(sys.tx, Decode(sys.back[k].bytes)))
    case Timeout => SenderMoves(sys, Fire(sys.tx))
    case NextTransfer(header, data, maxChunk) => SenderMoves(sys, StartTransfer(sys.tx, header, data, maxChunk))
    case Request(payload) =>
      sys.(peer := sys.peer.(txSeq := (sys.peer.txSeq + 1) % RING),
           back := sys.back + [Datagram(RequestBytes(sys.peer, payload), |sys.tx.hist.sent|)])
  }

  /** Both ends in step and nothing unacknowledged. */
  predicate InStep(st: State, peer: Peer) {
    Inv(st) && !st.closed && st.hist.unacked == 0 && !st.finPending && peer.expected == st.txSeq && peer.got == []
  }

  /** The two ends meet, with nothing on the network yet. */
  function World(st: State, peer: Peer): Sys {
    Sys(st, peer, [], [], |st.hist.sent|, true)
  }

  // ----- The invariant -----

  /** Index of the oldest packet the sender still holds. */
  function Oldest(st: State): int {
    |st.hist.sent| - |st.ring|
  }

  /** Index of the packet the peer waits for. */
  function Wanted(sys: Sys): nat {
    sys.origin + |sys.peer.got|
  }

  function ItemPayload(it: Item): seq<byte> {
    Payload(it.header, it.chunk)
  }

  function Payloads(items: seq<Item>): (ps: seq<seq<byte>>)
    ensures |ps| == |items|
  {
    seq(|items|, i requires 0 <= i < |items| => ItemPayload(items[i]))
  }

  /** The sender's ring is exactly the unacknowledged packets, and a pending FIN is among them. */
  predicate InSync(st: State) {
    Inv(st) && !st.closed && st.hist.unacked == |st.ring| && (st.finPending ==> st.ring != [])
  }

  predicate IsCopy(st: State, origin: nat, d: Datagram, i: nat) {
    && origin <= i < |st.hist.sent|
    && i < d.stamp <= i + SEND_WINDOW && d.stamp <= |st.hist.sent|
    && d.bytes == Slot(st.hist.sent[i]).data
  }

  /** What an ACK, a NACK or a request says when it comes from a peer that waits for packet u. */
  predicate Tells(m: Inbound, u: nat) {
    match m
    case Malformed => false
    case Control(isAck, nr) => nr == if isAck then (u - 1) % RING else u % RING
    case Data(_, isAck, nr, _, _) => isAck && nr == (u - 1) % RING
  }

  /** A datagram the peer wrote when it waited for packet u. */
  predicate IsAnswer(sys: Sys, d: Datagram, u: nat) {
    && u <= Wanted(sys)
    && u <= d.stamp <= u + SEND_WINDOW && d.stamp <= |sys.tx.hist.sent|
    && Tells(Decode(d.bytes), u)
  }

  /** An ACK or NACK of the sender for a request: of no interest to the peer's receiving side. */
  predicate Notice(bytes: seq<byte>) {
    Decode(bytes).Control?
  }

  /** The packets built since the two ends met. */
  function Since(st: State, origin: nat): seq<Item>
    requires origin <= |st.hist.sent|
  {
    ItemsOf(st.hist.sent[origin..])
  }

  /**
   The peer is never ahead of the sender nor behind its ring, and has accepted exactly the packets before the
   wanted one.
   */
  predicate Linked(sys: Sys) {
    && sys.origin <= Oldest(sys.tx) <= Wanted(sys) <= |sys.tx.hist.sent|
    && sys.peer.expected == Wanted(sys) % RING
    && sys.peer.got == Payloads(Since(sys.tx, sys.origin)[..|sys.peer.got|])
    && Describables(Since(sys.tx, sys.origin))
    && (sys.tx.transfer.Sending? ==> sys.tx.hist.job.WellFormed() && Describables(sys.tx.hist.job.Items()))
  }

  ghost predicate SysInv(sys: Sys) {
    sys.orderly && InSync(sys.tx) && Linked(sys) && AllCopies(sys.tx, sys.origin, sys.data) && AllAnswers(sys, sys.back)
  }

  ghost predicate AllCopies(st: State, origin: nat, ds: seq<Datagram>) {
    forall d :: d in ds ==> Notice(d.bytes) || HasCopy(st, origin, d)
  }

  ghost predicate AllAnswers(sys: Sys, ds: seq<Datagram>) {
    forall d :: d in ds ==> HasAnswer(sys, d)
  }

  ghost predicate HasCopy(st: State, origin: nat, d: Datagram) {
    exists i: nat :: IsCopy(st, origin, d, i)
  }

  ghost predicate HasAnswer(sys: Sys, d: Datagram) {
    exists u: nat :: IsAnswer(sys, d, u)
  }

  // ----- Steps of the sender that is in sync -----

  lemma SyncGap(st: State)
    requires InSync(st)
    ensures Gap(st) == |st.ring| <= SEND_WINDOW
    ensures st.hist.job.start <= Oldest(st) && st.txSeq == |st.hist.sent| % RING
  {
    hide Slot, Emitted, Plan;
    ModSmall(|st.ring|);
  }

  /** What an ACK given for packet u does: it discards the packets before u, or nothing if they are gone already. */
  lemma AckInSync(st: State, u: nat)
    requires InSync(st) && st.ring != []
    requires u <= |st.hist.sent| <= u + LATE + SEND_WINDOW
    ensures AckAccepted(st, (u - 1) % RING) <==> Oldest(st) <= u
    ensures Oldest(st) <= u ==> TakeAck(st, (u - 1) % RING).ring == st.ring[u - Oldest(st)..]
    ensures Oldest(st) <= u ==> Gap(TakeAck(st, (u - 1) % RING)) == |st.hist.sent| - u
  {
    hide Prune, SeqBetween, Numbered, Bounded, OnPlan, Waits, Armed, Written, InEpochs;
    var nr: Seq12 := (u - 1) % RING;
    var n := |st.hist.sent|;
    SyncGap(st);
    AckIndex(st.txSeq, n, |st.ring|, st.acked, u);
    if Oldest(st) <= u {
      TakeAckRing(st, nr);
    }
  }

  /** The window test and the gap, for a sender that has built n packets of which c are unacknowledged. */
  lemma AckIndex(txSeq: Seq12, n: nat, c: nat, acked: Seq12, u: nat)
    requires txSeq == n % RING && (txSeq - acked - 1) % RING == c <= SEND_WINDOW
    requires c <= n && u <= n <= u + LATE + SEND_WINDOW
    ensures SeqBetween(acked, (u - 1) % RING, (txSeq - 1) % RING) <==> n - c <= u
    ensures n - c <= u ==> (txSeq - (u - 1) % RING - 1) % RING == n - u
  {
    hide SeqBetween;
    AckMovesForward(txSeq, acked, (u - 1) % RING);
    AckDistance(n, c, acked, u);
  }

  /** Distances on the ring for a mark that lags n by c and an ACK for u. */
  lemma AckDistance(n: nat, c: nat, acked: Seq12, u: nat)
    requires (n % RING - acked - 1) % RING == c <= SEND_WINDOW
    requires c <= n && u <= n <= u + LATE + SEND_WINDOW
    ensures ((u - 1) % RING - acked) % RING <= c <==> n - c <= u
    ensures n - c <= u ==> ((u - 1) % RING - acked) % RING == u - (n - c)
    ensures n - c <= u ==> (n % RING - (u - 1) % RING - 1) % RING == n - u
  {
    ModSub(u - 1, acked);
    ModSub(n, acked + 1);
    // acked is n - c - 1, so u - 1 - acked is u - (n - c)
    ModSub(n - acked - 1, n - u);
    assert (u - 1 - acked) % RING == (c - (n - u)) % RING;
    ModSmall(c - (n - u));
    GapIndex(n, u);
  }

  lemma GapIndex(n: nat, u: nat)
    requires u <= n < u + RING
    ensures (n % RING - (u - 1) % RING - 1) % RING == n - u
  {
    ModSub(n, (u - 1) % RING + 1);
    ModSubRight(n - 1, u - 1);
    ModSmall(n - u);
  }

  /** What the send loop does to a sender in sync. */
  lemma {:induction false} PumpInSync(st: State)
    requires Core(st) && st.hist.unacked == |st.ring|
    ensures var r := Pump(st);
            && r.hist.unacked == |r.ring| && st.hist.sent <= r.hist.sent
            && |r.ring| - |st.ring| == |r.hist.sent| - |st.hist.sent|
            && (r.finPending ==> r.ring != [] || st.finPending)
            && (st.attempts == 0 ==> r.attempts == 0)
            && (r.transfer.Sending? || |r.hist.sent| > |st.hist.sent| ==> st.transfer.Sending?)
            && (st.transfer.Sending? && InFlight(st) < SEND_WINDOW && Remaining(st.transfer) != [] ==>
                  |r.hist.sent| > |st.hist.sent| && (r.transfer.Sending? || r.finPending))
    decreases Left(st.transfer)
  {
    hide Slot, Plan, Chunks, Gap;
    if st.transfer.Idle? || InFlight(st) >= SEND_WINDOW || Remaining(st.transfer) == [] {
    } else {
      AdvanceLaws(st.transfer);
      PumpOneKeeps(st);
      PumpStep(st);
      PumpInSync(PumpOne(st));
    }
  }

  /** A step of the sender: it stays in sync and puts only notices and packets it still holds on the network. */
  ghost predicate Moves(st: State, r: State) {
    && InSync(r) && st.hist.sent <= r.hist.sent && r.hist.job == st.hist.job
    && st.hist.wire <= r.hist.wire
    && (r.transfer.Sending? || |r.hist.sent| > |st.hist.sent| ==> st.transfer.Sending?)
    && forall d :: d in Fresh(st, r) ==> Notice(d) || Holds(r, d)
  }

  ghost predicate Holds(st: State, bytes: seq<byte>) {
    exists i: nat :: Oldest(st) <= i < |st.hist.sent| && bytes == Slot(st.hist.sent[i]).data
  }

  lemma OnAckInSync(st: State, u: nat)
    requires InSync(st) && u <= |st.hist.sent| <= u + LATE + SEND_WINDOW
    ensures var r := OnAck(st, (u - 1) % RING);
            && Core(r) && TimerCurrent(r) && r.transfer == st.transfer && r.closed == st.closed
            && r.hist == st.hist.(unacked := |r.ring|)
            && Oldest(r) == (if Oldest(st) <= u then u else Oldest(st))
            && (r.finPending ==> r.ring != [] && st.finPending)
            && (st.ring != [] && Oldest(st) <= u ==> r.attempts == 0)
  {
    hide Slot, Prune, Emitted, Plan, AckAccepted, Gap, Numbered, Bounded, SeqBetween;
    var nr: Seq12 := (u - 1) % RING;
    SyncGap(st);
    OnAckKeeps(st, nr);
    if st.ring != [] {
      AckInSync(st, u);
      if Oldest(st) <= u {
        OnAckTaken(st, nr);
        TakenLimits(st, nr);
      }
    } else {
      OnAckSkips(st, nr);
    }
  }

  lemma OldestIsIndex(st: State)
    requires Core(st)
    ensures 0 <= Oldest(st) <= |st.hist.sent|
  {
  }

  /** handleTransfer in a sender that is in sync: the new packets, and only those, go out. */
  lemma HandleTransferMoves(st: State)
    requires Core(st) && TimerCurrent(st) && InEpochs(st) && Written(st)
    requires !st.closed && st.hist.unacked == |st.ring| && (st.finPending ==> st.ring != [])
    ensures var r := HandleTransfer(st);
            && Moves(st, r) && Oldest(r) == Oldest(st)
            && (st.attempts == 0 ==> r.attempts == 0)
            && (st.transfer.Sending? && InFlight(st) < SEND_WINDOW && Remaining(st.transfer) != [] ==>
                  |r.hist.sent| > |st.hist.sent| && (r.transfer.Sending? || r.finPending))
  {
    hide Pump, Slot, Gap, Remaining, Waits, Armed, Written, InEpochs, Numbered, Bounded, Emitted, Plan, FitsSlots;
    HandleTransferKeeps(st);
    PumpInSync(st);
    PumpKeeps(st);
    PumpGrows(st);
    var p, r, n := Pump(st), HandleTransfer(st), |st.hist.sent|;
    OldestIsIndex(st);
    assert r.hist == p.hist.(wire := st.hist.wire + Built(st, p));
    assert Fresh(st, r) == Built(st, p);
    assert InSync(r);
    forall d | d in Fresh(st, r)
      ensures Holds(r, d)
    {
      var j :| 0 <= j < |Built(st, p)| && d == Built(st, p)[j];
      assert d == Slot(r.hist.sent[n + j]).data;
    }
  }

  lemma PeerAckMoves(st: State, u: nat)
    requires InSync(st) && u <= |st.hist.sent| <= u + LATE + SEND_WINDOW
    ensures var r := OnPeerAck(st, (u - 1) % RING);
            && Moves(st, r)
            && Oldest(r) == (if Oldest(st) <= u then u else Oldest(st))
            && (u == |st.hist.sent| && st.ring != [] ==>
                  if st.transfer.Idle? then r.ring == [] && r.hist.sent == st.hist.sent
                  else |r.hist.sent| > |st.hist.sent| && r.attempts == 0 && (r.transfer.Sending? || r.finPending))
  {
    hide OnAck, HandleTransfer, Slot, Gap, Remaining, Waits, Armed, Written, InEpochs, Numbered, Bounded, Emitted,
         Plan, FitsSlots;
    var nr: Seq12 := (u - 1) % RING;
    OnAckInSync(st, u);
    OnAckKeeps(st, nr);
    OnPeerAckKeeps(st, nr);
    if st.transfer.Sending? {
      HandleTransferMoves(OnAck(st, nr));
    }
  }

  lemma ResendHeld(st: State, from: Seq12)
    requires Numbered(st) && Bounded(st)
    ensures forall d :: d in Resend(st.ring, from) ==> Holds(st, d)
  {
    hide Resend, EncodeData;
    ResendClosed(st.ring, |st.hist.sent|, from);
    forall d | d in Resend(st.ring, from)
      ensures Holds(st, d)
    {
      var j :| 0 <= j < |Resend(st.ring, from)| && d == Resend(st.ring, from)[j];
      assert d == Slot(st.hist.sent[Oldest(st) + j]).data;
    }
  }

  lemma NackMoves(st: State, nr: Seq12)
    requires InSync(st)
    ensures var r := OnPeerNack(st, nr);
            Moves(st, r) && Oldest(r) == Oldest(st) && r.ring == st.ring && r.hist.sent == st.hist.sent
  {
    hide Resend, Slot, Gap, Remaining, Waits, Armed, Written, InEpochs, Numbered, Bounded, Emitted, Plan, FitsSlots;
    var r := OnPeerNack(st, nr);
    OnPeerNackKeeps(st, nr);
    ResendHeld(st, nr);
    assert Fresh(st, r) == Resend(st.ring, nr);
    HoldsFrame(st, r);
  }

  lemma FireMoves(st: State)
    requires InSync(st)
    ensures Moves(st, Fire(st)) && Oldest(Fire(st)) == Oldest(st)
  {
    hide Resend, Slot, Gap, Remaining, Waits, Armed, Written, InEpochs, Numbered, Bounded, Emitted, Plan, FitsSlots;
    var r, from: Seq12 := Fire(st), (st.acked + 1) % RING;
    FireKeeps(st);
    ResendHeld(st, from);
    assert Fresh(st, r) == [] || Fresh(st, r) == Resend(st.ring, from);
    HoldsFrame(st, r);
  }

  lemma HoldsFrame(st: State, r: State)
    requires r.ring == st.ring && r.hist.sent == st.hist.sent
    ensures forall d :: Holds(st, d) ==> Holds(r, d)
  {
  }

  /** Steps one after the other, if what the first one wrote is still held after the second. */
  lemma MovesThen(a: State, b: State, c: State)
    requires Moves(a, b) && Moves(b, c)
    requires forall d :: d in Fresh(a, b) ==> Notice(d) || Holds(c, d)
    ensures Moves(a, c)
  {
    hide InSync, Notice, Holds;
    assert Fresh(a, c) == Fresh(a, b) + Fresh(b, c);
  }

  /** Sorting and answering a request: one notice goes out. */
  lemma ReceivedMoves(st: State, m: Inbound)
    requires InSync(st) && m.Data? && !Resets(st, m)
    ensures var s := Received(st, m);
            && Moves(st, s) && s.ring == st.ring && s.transfer == st.transfer && s.acked == st.acked
            && s.finPending == st.finPending && s.hist.sent == st.hist.sent
            && forall d :: d in Fresh(st, s) ==> Notice(d)
  {
    hide Inv, Received, Decode;
    InvShape(st);
    ReceivedKeeps(st, m);
    ReceivedFrame(st, m);
    ReceivedWrites(st, m);
  }

  lemma ReceivedWrites(st: State, m: Inbound)
    requires st.hist.epochs != [] && m.Data?
    ensures var s := Received(st, m);
            && st.hist.wire <= s.hist.wire
            && forall d :: d in Fresh(st, s) ==> Notice(d)
  {
    hide SendControl, Notice;
    var v := Classify(st.rxExpected, m.seqNr);
    var d := if v == InOrder then Deliver(st, m.seqNr, m.payload)
             else if v == PeerReset then Deliver(ResetSession(st), m.seqNr, m.payload)
             else st;
    ControlWrites(d, v != OutOfOrder);
  }

  lemma ControlWrites(st: State, ack: bool)
    ensures var s := SendControl(st, ack);
            |s.hist.wire| == |st.hist.wire| + 1 && st.hist.wire <= s.hist.wire && Notice(s.hist.wire[|st.hist.wire|])
  {
    hide EncodeControl, Decode;
    DecodeEncodeControl(st.txSeq, (st.rxExpected - 1) % RING, true);
    DecodeEncodeControl(st.txSeq, st.rxExpected, false);
  }

  /** A datagram of a peer that waited for packet u: the sender discards what precedes u, if anything, and moves on. */
  lemma ProcessMoves(st: State, m: Inbound, u: nat)
    requires InSync(st) && Tells(m, u) && !Resets(st, m)
    requires u <= |st.hist.sent| <= u + LATE + SEND_WINDOW
    ensures st.hist.epochs != [] && WellFormed(st.transfer)
    ensures var r := Process(st, m);
            && Moves(st, r)
            && Oldest(r) == (if CarriesAck(m) && Oldest(st) <= u then u else Oldest(st))
  {
    hide Inv, Process, OnPeerAck, OnPeerNack, Moves, Received, Notice;
    InvShape(st);
    if m.Data? {
      ProcessIs(st, m);
      ReceivedMoves(st, m);
      var s := Received(st, m);
      SyncAfter(st, s);
      PeerAckMoves(s, u);
      var a := OnPeerAck(s, m.nr);
      NoticesThen(st, s, a);
      SyncAfter(s, a);
      NackMoves(a, (st.acked + 1) % RING);
      RepeatThen(st, a, OnPeerNack(a, (st.acked + 1) % RING));
    } else {
      ProcessControl(st, m);
      PeerAckMoves(st, u);
      NackMoves(st, m.nr);
    }
  }

  lemma SyncAfter(st: State, r: State)
    requires Moves(st, r)
    ensures InSync(r)
  {
  }

  lemma NoticesThen(st: State, s: State, a: State)
    requires Moves(st, s) && Moves(s, a) && forall d :: d in Fresh(st, s) ==> Notice(d)
    ensures Moves(st, a)
  {
    hide Moves, Notice;
    MovesThen(st, s, a);
  }

  lemma RepeatThen(st: State, a: State, r: State)
    requires Moves(st, a) && Moves(a, r) && r.ring == a.ring && r.hist.sent == a.hist.sent
    ensures Moves(st, r)
  {
    hide InSync, Notice, Holds;
    HoldsFrame(a, r);
    MovesThen(st, a, r);
  }

  // ----- Every step keeps the invariant -----

  /** A step of the sender keeps the link: new packets are packets of the plan under way. */
  lemma LinkStands(sys: Sys, r: State)
    requires Linked(sys) && Moves(sys.tx, r) && sys.origin <= Oldest(r) <= Wanted(sys)
    requires sys.tx.hist.job.start <= |sys.tx.hist.sent|
    ensures Linked(SenderMoves(sys, r))
  {
    hide Numbered, Bounded, Waits, Armed, Written, InEpochs, Plan, FitsSlots, Slot, Remaining, Describable;
    var old', new', job := Since(sys.tx, sys.origin), Since(r, sys.origin), r.hist.job;
    var n, k := |sys.tx.hist.sent|, |sys.peer.got|;
    assert old'[..k] == new'[..k];
    forall i | 0 <= i < |new'|
      ensures Describable(new'[i].header, new'[i].chunk)
    {
      if sys.origin + i < n {
        assert new'[i] == old'[i];
      } else {
        assert new'[i] == Emitted(r)[sys.origin + i - job.start] == job.Items()[sys.origin + i - job.start];
      }
    }
  }

  lemma SenderMovesKeeps(sys: Sys, r: State)
    requires sys.orderly && Linked(sys) && AllCopies(sys.tx, sys.origin, sys.data) && AllAnswers(sys, sys.back)
    requires Moves(sys.tx, r) && sys.origin <= Oldest(r) <= Wanted(sys)
    requires sys.tx.hist.job.start <= |sys.tx.hist.sent|
    ensures SysInv(SenderMoves(sys, r))
  {
    hide Inv, Linked, AllCopies, AllAnswers;
    LinkStands(sys, r);
    CopiesStand(sys, r);
    AnswersStand(sys, SenderMoves(sys, r), sys.back);
  }

  lemma CopiesStand(sys: Sys, r: State)
    requires AllCopies(sys.tx, sys.origin, sys.data) && Moves(sys.tx, r) && sys.origin <= Oldest(r)
    ensures AllCopies(r, sys.origin, SenderMoves(sys, r).data)
  {
    hide Inv, Slot;
    var ds := SenderMoves(sys, r).data;
    SyncGap(r);
    forall d | d in ds && !Notice(d.bytes)
      ensures HasCopy(r, sys.origin, d)
    {
      if d in sys.data {
        assert HasCopy(sys.tx, sys.origin, d);
        var i: nat :| IsCopy(sys.tx, sys.origin, d, i);
        assert IsCopy(r, sys.origin, d, i);
      } else {
        assert d in Stamp(Fresh(sys.tx, r), |r.hist.sent|);
        assert Holds(r, d.bytes);
        var i: nat :| Oldest(r) <= i < |r.hist.sent| && d.bytes == Slot(r.hist.sent[i]).data;
        assert IsCopy(r, sys.origin, d, i);
      }
    }
  }

  /** An answer once given stays a true report of what the peer had. */
  lemma AnswersStand(sys: Sys, sys': Sys, ds: seq<Datagram>)
    requires AllAnswers(sys, ds)
    requires sys'.origin == sys.origin && |sys'.tx.hist.sent| >= |sys.tx.hist.sent|
    requires |sys'.peer.got| >= |sys.peer.got|
    ensures AllAnswers(sys', ds)
  {
    forall d | d in ds
      ensures HasAnswer(sys', d)
    {
      assert HasAnswer(sys, d);
      var u: nat :| IsAnswer(sys, d, u);
      assert IsAnswer(sys', d, u);
    }
  }

  /** Packet i looks like the wanted one on the ring only if it is the wanted one. */
  lemma SameNumber(i: nat, e: nat)
    requires -RING < i - e < RING
    ensures i % RING == e % RING <==> i == e
    ensures i % RING == (e % RING - 1) % RING <==> i == e - 1 || i == e - 1 + RING || i == e - 1 - RING
  {
  }

  /** A datagram read by the peer: the next packet is accepted and acknowledged, anything else only answered. */
  lemma DeliverDataStep(sys: Sys, k: nat, i: nat)
    requires SysInv(sys) && Enabled(sys, DeliverData(k)) && IsCopy(sys.tx, sys.origin, sys.data[k], i)
    ensures i < |sys.tx.hist.sent|
    ensures var m := Decode(sys.data[k].bytes);
            var e := Wanted(sys);
            && PeerAccepts(sys.peer, m) ==
               (if i == e then sys.peer.(expected := (e + 1) % RING,
                                         got := sys.peer.got + [ItemPayload(sys.tx.hist.sent[i].item)])
                else sys.peer)
            && PeerAnswers(sys.peer, m) ==
               (if i == e then [EncodeControl(sys.peer.txSeq, ((e + 1) - 1) % RING, true)]
                else if i + 1 == e then [EncodeControl(sys.peer.txSeq, (e - 1) % RING, true)]
                else [EncodeControl(sys.peer.txSeq, e % RING, false)])
  {
    hide Decode, EncodeControl, SysInv, IsCopy, PeerAccepts, PeerAnswers;
    CopyReads(sys, k, i);
    CopyRange(sys, k, i);
    PeerReads(sys.peer, Decode(sys.data[k].bytes), i, Wanted(sys));
  }

  lemma CopyReads(sys: Sys, k: nat, i: nat)
    requires SysInv(sys) && k < |sys.data| && IsCopy(sys.tx, sys.origin, sys.data[k], i)
    ensures i < |sys.tx.hist.sent|
    ensures var m := Decode(sys.data[k].bytes);
            m.Data? && m.seqNr == i % RING && m.payload == ItemPayload(sys.tx.hist.sent[i].item)
  {
    hide Decode, Inv, Slot, ItemPayload, Payloads, Describable;
    assert sys.tx.hist.sent[i].item == Since(sys.tx, sys.origin)[i - sys.origin];
    CopyDecodes(sys.tx, i);
  }

  /** A copy delivered in time is less than one turn of the ring older than the wanted packet. */
  lemma CopyRange(sys: Sys, k: nat, i: nat)
    requires SysInv(sys) && Enabled(sys, DeliverData(k)) && IsCopy(sys.tx, sys.origin, sys.data[k], i)
    ensures sys.peer.expected == Wanted(sys) % RING
    ensures -LATE - SEND_WINDOW <= i - Wanted(sys) <= SEND_WINDOW
  {
    hide Inv, Slot, Payloads, Describables, Since;
    SyncGap(sys.tx);
  }

  /** The receive rule of the peer in terms of packet indices: e is wanted, i arrives. */
  lemma PeerReads(peer: Peer, m: Inbound, i: nat, e: nat)
    requires m.Data? && m.seqNr == i % RING && peer.expected == e % RING && -LATE - SEND_WINDOW <= i - e <= SEND_WINDOW
    ensures PeerAccepts(peer, m) ==
            if i == e then peer.(expected := (e + 1) % RING, got := peer.got + [m.payload]) else peer
    ensures PeerAnswers(peer, m) ==
            if i == e then [EncodeControl(peer.txSeq, ((e + 1) - 1) % RING, true)]
            else if i + 1 == e then [EncodeControl(peer.txSeq, (e - 1) % RING, true)]
            else [EncodeControl(peer.txSeq, e % RING, false)]
  {
    hide EncodeControl;
    SameNumber(i, e);
    ModSub(e, 1);
    ModSub(e, -1);
    ModSub(e + 1, 1);
  }

  lemma CopyDecodes(st: State, i: nat)
    requires Inv(st) && i < |st.hist.sent| && Describable(st.hist.sent[i].item.header, st.hist.sent[i].item.chunk)
    ensures var em := st.hist.sent[i];
            Decode(Slot(em).data) == Data(i % RING, true, em.ackNr, em.item.fin, ItemPayload(em.item))
  {
    hide Decode, EncodeData, Waits, Armed, Written, InEpochs, Bounded, OnPlan;
    var em := st.hist.sent[i];
    DecodeEncodeData(em.seqNr, em.ackNr, em.item.header, em.item.chunk, em.item.fin);
  }

  lemma DeliverDataKeeps(sys: Sys, k: nat)
    requires SysInv(sys) && Enabled(sys, DeliverData(k))
    ensures SysInv(Step(sys, DeliverData(k)))
  {
    hide Decode, PackHeader, PackDataHeader, Waits, Armed, Written, Numbered, Bounded, FitsSlots, Plan, AllAnswers;
    if Notice(sys.data[k].bytes) {
      assert Step(sys, DeliverData(k)) == sys;
      return;
    }
    assert HasCopy(sys.tx, sys.origin, sys.data[k]);
    var i: nat :| IsCopy(sys.tx, sys.origin, sys.data[k], i);
    var e, sys' := Wanted(sys), Step(sys, DeliverData(k));
    DeliverDataStep(sys, k, i);
    SyncGap(sys.tx);
    if i == e {
      AcceptNext(sys);
    }
    AnswersStand(sys, sys', sys.back);
    var ans := Stamp(PeerAnswers(sys.peer, Decode(sys.data[k].bytes)), |sys.tx.hist.sent|);
    DecodeEncodeControl(sys.peer.txSeq, ((e + 1) - 1) % RING, true);
    DecodeEncodeControl(sys.peer.txSeq, (e - 1) % RING, true);
    DecodeEncodeControl(sys.peer.txSeq, e % RING, false);
    NewAnswer(sys', ans, if i == e then e + 1 else e);
    AnswersAppend(sys', sys.back, ans);
  }

  lemma NewAnswer(sys: Sys, ans: seq<Datagram>, u: nat)
    requires |ans| == 1 && IsAnswer(sys, ans[0], u)
    ensures AllAnswers(sys, ans)
  {
  }

  lemma AnswersAppend(sys: Sys, ds: seq<Datagram>, ds': seq<Datagram>)
    requires AllAnswers(sys, ds) && AllAnswers(sys, ds')
    ensures AllAnswers(sys, ds + ds')
  {
  }

  /** Accepting the wanted packet extends what the peer has by one packet. */
  lemma AcceptNext(sys: Sys)
    requires Linked(sys) && Wanted(sys) < |sys.tx.hist.sent|
    ensures var items, got := Since(sys.tx, sys.origin), sys.peer.got;
            got + [ItemPayload(sys.tx.hist.sent[Wanted(sys)].item)] == Payloads(items[..|got| + 1])
  {
    var items, got := Since(sys.tx, sys.origin), sys.peer.got;
    assert items[..|got| + 1] == items[..|got|] + [items[|got|]];
  }

  /** What a step of the sender on a datagram of the peer does. */
  lemma BackMoves(sys: Sys, k: nat)
    requires SysInv(sys) && Enabled(sys, DeliverBack(k))
    ensures sys.tx.hist.epochs != [] && WellFormed(sys.tx.transfer)
    ensures var r := Process(sys.tx, Decode(sys.back[k].bytes));
            Moves(sys.tx, r) && Oldest(sys.tx) <= Oldest(r) <= Wanted(sys)
  {
    hide Decode, Process, InSync, Moves, Since, Payloads, AllCopies;
    assert HasAnswer(sys, sys.back[k]);
    var u: nat :| IsAnswer(sys, sys.back[k], u);
    ProcessMoves(sys.tx, Decode(sys.back[k].bytes), u);
  }

  lemma DeliverBackKeeps(sys: Sys, k: nat)
    requires SysInv(sys) && Enabled(sys, DeliverBack(k))
    ensures SysInv(Step(sys, DeliverBack(k)))
  {
    hide Decode, Process, Moves, Waits, Armed, Written, Numbered, Bounded, FitsSlots, Plan, AllCopies, AllAnswers;
    BackMoves(sys, k);
    SenderMovesKeeps(sys, Process(sys.tx, Decode(sys.back[k].bytes)));
  }

  lemma RequestKeeps(sys: Sys, payload: seq<byte>)
    requires SysInv(sys) && Enabled(sys, Request(payload))
    ensures SysInv(Step(sys, Request(payload)))
  {
    hide Decode, EncodeData, Inv, FitsSlots, Plan, AllAnswers, AllCopies, Payload;
    InvShape(sys.tx);
    var u, r := Wanted(sys), Step(sys, Request(payload));
    SyncGap(sys.tx);
    ModSub(u, 1);
    DecodeEncodeData(sys.peer.txSeq, (sys.peer.expected - 1) % RING, [], payload, true);
    AnswersStand(sys, r, sys.back);
    var ans := [Datagram(RequestBytes(sys.peer, payload), |sys.tx.hist.sent|)];
    NewAnswer(r, ans, u);
    AnswersAppend(r, sys.back, ans);
  }

  /** The sender of the next transfer, about to cut its first packet, is still linked to the peer. */
  lemma NextTransferLinked(sys: Sys, header: seq<byte>, data: seq<byte>, maxChunk: nat)
    requires SysInv(sys) && Enabled(sys, NextTransfer(header, data, maxChunk))
    ensures var b := Begin(sys.tx, header, data, maxChunk);
            && Core(b) && TimerCurrent(b) && InEpochs(b) && Written(b) && !b.closed && b.hist.unacked == |b.ring|
            && !b.finPending
            && Linked(sys.(tx := b)) && Oldest(b) == |sys.tx.hist.sent| == Wanted(sys)
  {
    hide Plan, FitsSlots, Describable, AllCopies, AllAnswers, Slot;
    BeginCore(sys.tx, header, data, maxChunk);
  }

  lemma NextTransferKeeps(sys: Sys, header: seq<byte>, data: seq<byte>, maxChunk: nat)
    requires SysInv(sys) && Enabled(sys, NextTransfer(header, data, maxChunk))
    ensures var r := Step(sys, NextTransfer(header, data, maxChunk));
            && SysInv(r) && r.peer == sys.peer && r.origin == sys.origin
            && r.tx.hist.job == Job(header, data, maxChunk, |sys.tx.hist.sent|)
            && sys.origin + |sys.peer.got| == |sys.tx.hist.sent|
            && (header != [] || data != [] ==> StillTrying(r.tx))
  {
    hide HandleTransfer, Core, Linked, InSync, Written, InEpochs, Plan, FitsSlots, Describables, AllCopies, AllAnswers,
         Slot;
    var b := Begin(sys.tx, header, data, maxChunk);
    NextTransferLinked(sys, header, data, maxChunk);
    HandleTransferMoves(b);
    PlanLaws(header, data, maxChunk);
    var s := sys.(tx := b);
    AnswersStand(sys, s, sys.back);
    CopiesFrame(sys.tx, b, sys.origin, sys.data);
    SenderMovesKeeps(s, HandleTransfer(b));
  }

  lemma CopiesFrame(st: State, r: State, origin: nat, ds: seq<Datagram>)
    requires AllCopies(st, origin, ds) && r.hist.sent == st.hist.sent
    ensures AllCopies(r, origin, ds)
  {
    forall d | d in ds && !Notice(d.bytes)
      ensures HasCopy(r, origin, d)
    {
      assert HasCopy(st, origin, d);
      var i: nat :| IsCopy(st, origin, d, i);
      assert IsCopy(r, origin, d, i);
    }
  }

  lemma StepKeeps(sys: Sys, a: Action)
    requires SysInv(sys) && Enabled(sys, a)
    ensures SysInv(Step(sys, a))
  {
    hide SenderMoves, Fire, Waits, Armed, Written, Numbered, Bounded, FitsSlots, Plan, AllCopies, AllAnswers, Moves,
         StartTransfer;
    match a
    case DeliverData(k) => DeliverDataKeeps(sys, k);
    case DeliverBack(k) => DeliverBackKeeps(sys, k);
    case Timeout =>
      FireMoves(sys.tx);
      SenderMovesKeeps(sys, Fire(sys.tx));
    case NextTransfer(header, data, maxChunk) => NextTransferKeeps(sys, header, data, maxChunk);
    case Request(payload) => RequestKeeps(sys, payload);
  }

  lemma WorldHolds(st: State, peer: Peer)
    requires InStep(st, peer)
    ensures SysInv(World(st, peer))
  {
    hide Armed, Written, InEpochs, FitsSlots, Plan, Slot, Emitted;
    assert st.ring == [] && st.transfer.Idle?;
    assert Since(st, |st.hist.sent|) == [];
  }

  // ----- Whole runs -----

  /** Every action of the run is possible when its turn comes. */
  predicate Runs(sys: Sys, acts: seq<Action>)
    decreases |acts|
  {
    acts == [] ||
    (&& Enabled(sys, acts[0]) && WellFormed(sys.tx.transfer) && sys.tx.hist.epochs != []
     && Runs(Step(sys, acts[0]), acts[1..]))
  }

  function Exec(sys: Sys, acts: seq<Action>): Sys
    requires Runs(sys, acts)
    decreases |acts|
  {
    if acts == [] then sys else Exec(Step(sys, acts[0]), acts[1..])
  }

  lemma {:induction false} ExecKeeps(sys: Sys, acts: seq<Action>)
    requires SysInv(sys) && Runs(sys, acts)
    ensures SysInv(Exec(sys, acts)) && Exec(sys, acts).origin == sys.origin && sys.peer.got <= Exec(sys, acts).peer.got
    ensures sys.data <= Exec(sys, acts).data && sys.tx.hist.sent <= Exec(sys, acts).tx.hist.sent
    ensures NoNewTransfer(acts) ==> Exec(sys, acts).tx.hist.job == sys.tx.hist.job
    decreases |acts|
  {
    hide SysInv, Step;
    if acts == [] {
    } else {
      StepKeeps(sys, acts[0]);
      StepFrame(sys, acts[0]);
      ExecKeeps(Step(sys, acts[0]), acts[1..]);
    }
  }

  predicate NoNewTransfer(acts: seq<Action>) {
    forall act :: act in acts ==> !act.NextTransfer?
  }

  lemma StepFrame(sys: Sys, a: Action)
    requires SysInv(sys) && Enabled(sys, a)
    ensures Step(sys, a).origin == sys.origin && sys.peer.got <= Step(sys, a).peer.got
    ensures sys.data <= Step(sys, a).data && sys.tx.hist.sent <= Step(sys, a).tx.hist.sent
    ensures !a.NextTransfer? ==> Step(sys, a).tx.hist.job == sys.tx.hist.job
  {
    hide Decode, Process, Fire, StartTransfer, Waits, Armed, Written, Numbered, Bounded, Linked, AllCopies, AllAnswers;
    match a
    case DeliverData(k) =>
    case NextTransfer(header, data, maxChunk) => StartTransferAcks(sys.tx, header, data, maxChunk);
    case Request(_) =>
    case Timeout => FireMoves(sys.tx);
    case DeliverBack(k) => BackMoves(sys, k);
  }

  lemma {:induction false} ExecSplit(sys: Sys, acts: seq<Action>, more: seq<Action>)
    requires Runs(sys, acts + more)
    ensures Runs(sys, acts) && Runs(Exec(sys, acts), more) && Exec(sys, acts + more) == Exec(Exec(sys, acts), more)
    decreases |acts|
  {
    hide Step, Runs, Exec, Enabled;
    if acts == [] {
      ExecNone(sys);
      assert acts + more == more;
    } else {
      var a, rest := acts[0], acts[1..];
      assert acts == [a] + rest && acts + more == [a] + (rest + more);
      RunsFirst(sys, a, rest + more);
      ExecSplit(Step(sys, a), rest, more);
      RunsCons(sys, a, rest);
    }
  }

  /** The sender has built its FIN packet and holds nothing unacknowledged. */
  predicate FinAcked(st: State) {
    && st.ring == [] && st.hist.job.start < |st.hist.sent|
    && st.hist.sent[|st.hist.sent| - 1].item.fin
  }

  /** What the peer has accepted of the transfer under way. */
  function Current(sys: Sys): seq<seq<byte>>
    requires sys.origin <= sys.tx.hist.job.start <= Wanted(sys)
  {
    sys.peer.got[sys.tx.hist.job.start - sys.origin..]
  }

  /** It is a prefix of that transfer's packets, and all of them once the FIN is acknowledged. */
  lemma CurrentIsPrefix(sys: Sys)
    requires SysInv(sys) && sys.origin <= sys.tx.hist.job.start
    ensures sys.tx.hist.job.WellFormed() && sys.tx.hist.job.start <= Wanted(sys)
    ensures var want := Payloads(sys.tx.hist.job.Items());
            Current(sys) <= want && (FinAcked(sys.tx) ==> Current(sys) == want)
  {
    hide Plan, Waits, Armed, Written, InEpochs, Numbered, Bounded, AllCopies, AllAnswers, FitsSlots, Describable;
    var st, job, items := sys.tx, sys.tx.hist.job, sys.tx.hist.job.Items();
    var mine, e := Current(sys), Emitted(sys.tx);
    forall i | 0 <= i < |mine|
      ensures i < |items| && mine[i] == ItemPayload(items[i])
    {
      assert mine[i] == ItemPayload(st.hist.sent[job.start + i].item);
      assert e[i] == st.hist.sent[job.start + i].item == items[i];
    }
    if FinAcked(st) {
      PlanLaws(job.header, job.data, job.maxChunk);
      assert e[|e| - 1].fin && e[|e| - 1] == items[|e| - 1];
    }
  }

  /**
   Whatever the network does, with whatever earlier transfers have left on it, what the peer has
   accepted since the transfer began is a prefix of the transfer's packets; and once the sender sees
   its FIN acknowledged, the peer has all of them.
   */
  lemma PeerGetsTransfer(st: State, peer: Peer, before: seq<Action>, next: Action, after: seq<Action>)
    requires InStep(st, peer) && next.NextTransfer? && NoNewTransfer(after)
    requires Runs(World(st, peer), before + ([next] + after))
    ensures Runs(World(st, peer), before)
    ensures Sendable(next.header, next.data, next.maxChunk)
    ensures var mid, end := Exec(World(st, peer), before), Exec(World(st, peer), before + ([next] + after));
            var want := Payloads(Plan(next.header, next.data, next.maxChunk));
            && mid.peer.got <= end.peer.got
            && end.peer.got[|mid.peer.got|..] <= want
            && (FinAcked(end.tx) ==> end.peer.got[|mid.peer.got|..] == want)
  {
    hide World, SysInv, Step, Exec, InStep, FinAcked, Sendable, Plan;
    var world := World(st, peer);
    WorldHolds(st, peer);
    ExecSplit(world, before, [next] + after);
    var mid := Exec(world, before);
    ExecKeeps(world, before);
    RunsFirst(mid, next, after);
    NextTransferKeeps(mid, next.header, next.data, next.maxChunk);
    var s := Step(mid, next);
    ExecKeeps(s, after);
    CurrentIsPrefix(Exec(s, after));
  }

  lemma RunsFirst(sys: Sys, a: Action, more: seq<Action>)
    requires Runs(sys, [a] + more)
    ensures Enabled(sys, a) && WellFormed(sys.tx.transfer) && sys.tx.hist.epochs != []
    ensures Runs(Step(sys, a), more) && Exec(sys, [a] + more) == Exec(Step(sys, a), more)
  {
    hide Step;
    assert ([a] + more)[1..] == more;
  }

  function Concat(ps: seq<seq<byte>>): seq<byte> {
    if ps == [] then [] else ps[0] + Concat(ps[1..])
  }

  lemma {:induction false} ConcatPayloads(items: seq<Item>)
    ensures Concat(Payloads(items)) == PayloadBytes(items)
  {
    if items == [] {
    } else {
      ConcatPayloads(items[1..]);
      assert Payloads(items)[1..] == Payloads(items[1..]);
    }
  }

  /** For the replies of this server, all of it means: header, data, and up to three zero bytes. */
  lemma PeerHoldsReply(st: State, peer: Peer, before: seq<Action>, header: seq<byte>, data: seq<byte>,
                       after: seq<Action>)
    requires InStep(st, peer) && WordHeader(header) && header != [] && NoNewTransfer(after)
    requires Runs(World(st, peer), before + ([NextTransfer(header, data, MAX_DATA_PAYLOAD)] + after))
    requires FinAcked(Exec(World(st, peer), before + ([NextTransfer(header, data, MAX_DATA_PAYLOAD)] + after)).tx)
    ensures Runs(World(st, peer), before)
    ensures var mid := Exec(World(st, peer), before);
            var end := Exec(World(st, peer), before + ([NextTransfer(header, data, MAX_DATA_PAYLOAD)] + after));
            && mid.peer.got <= end.peer.got
            && Concat(end.peer.got[|mid.peer.got|..]) == header + data + Zeros(Pad4(|data|) - |data|)
  {
    hide World, Runs, Exec, Plan, InStep, FinAcked;
    PeerGetsTransfer(st, peer, before, NextTransfer(header, data, MAX_DATA_PAYLOAD), after);
    ReplyBytes(header, data);
  }

  lemma ReplyBytes(header: seq<byte>, data: seq<byte>)
    requires WordHeader(header) && header != []
    ensures Concat(Payloads(Plan(header, data, MAX_DATA_PAYLOAD))) == header + data + Zeros(Pad4(|data|) - |data|)
  {
    hide Plan, Pad4, Zeros;
    var items := Plan(header, data, MAX_DATA_PAYLOAD);
    ConcatPayloads(items);
    ReplyLaws(header, data);
    PlanLaws(header, data, MAX_DATA_PAYLOAD);
    PayloadBytesOfPlan(items);
  }

  /** Every reply with a word-sized header can be sent this way, however long its data. */
  lemma ReplySendable(header: seq<byte>, data: seq<byte>)
    requires WordHeader(header)
    ensures Sendable(header, data, MAX_DATA_PAYLOAD)
  {
    ReplyLaws(header, data);
  }

  /** A datagram that ends the FIN wait means the FIN, and with it every packet, has been acknowledged. */
  lemma FinWaitEnds(sys: Sys, k: nat)
    requires SysInv(sys) && Enabled(sys, DeliverBack(k)) && sys.tx.finPending
    requires !Step(sys, DeliverBack(k)).tx.finPending
    ensures FinAcked(Step(sys, DeliverBack(k)).tx)
  {
    hide Decode, Process, Waits, Armed, Written, Numbered, Bounded, FitsSlots, Plan, AllCopies;
    assert HasAnswer(sys, sys.back[k]);
    var u: nat :| IsAnswer(sys, sys.back[k], u);
    ProcessEndsFin(sys.tx, Decode(sys.back[k].bytes), u);
    LastIsFin(sys.tx);
  }

  lemma ProcessEndsFin(st: State, m: Inbound, u: nat)
    requires InSync(st) && st.finPending && Tells(m, u) && !Resets(st, m)
    requires u <= |st.hist.sent| <= u + LATE + SEND_WINDOW
    ensures st.hist.epochs != [] && WellFormed(st.transfer) && st.ring != []
    ensures var r := Process(st, m);
            r.hist.sent == st.hist.sent && r.hist.job == st.hist.job && (!r.finPending ==> r.ring == [])
  {
    hide Numbered, Bounded, Emitted, Waits, Armed, Written, InEpochs, Process, OnAck, OnPeerNack, Moves, Received,
         Notice;
    InvShape(st);
    if m.Data? {
      ProcessIs(st, m);
      ReceivedMoves(st, m);
      var s := Received(st, m);
      SyncAfter(st, s);
      OnAckEndsFin(s, u);
      SameJob(st, s);
    } else {
      ProcessControl(st, m);
      OnAckEndsFin(st, u);
      OnPeerNackFrame(st, m.nr);
    }
  }

  lemma SameJob(st: State, r: State)
    requires Moves(st, r)
    ensures r.hist.job == st.hist.job
  {
  }

  lemma OnAckEndsFin(st: State, u: nat)
    requires InSync(st) && st.finPending && u <= |st.hist.sent| <= u + LATE + SEND_WINDOW
    ensures var r := OnAck(st, (u - 1) % RING);
            && r.transfer == st.transfer && r.hist == st.hist.(unacked := |r.ring|) && (!r.finPending ==> r.ring == [])
  {
    hide Slot, Prune, Emitted, Plan, AckAccepted, Gap, SeqBetween;
    var nr: Seq12 := (u - 1) % RING;
    OnAckInSync(st, u);
    AckInSync(st, u);
    if Oldest(st) <= u {
      OnAckTaken(st, nr);
      TakenLimits(st, nr);
    }
  }

  lemma LastIsFin(st: State)
    requires Core(st) && st.ring != [] && Emitted(st) == st.hist.job.Items()
    ensures st.hist.job.start < |st.hist.sent| && st.hist.sent[|st.hist.sent| - 1].item.fin
  {
    hide Numbered, Bounded, FitsSlots, Plan;
    var job, e := st.hist.job, Emitted(st);
    PlanLaws(job.header, job.data, job.maxChunk);
    assert e[|e| - 1] == st.hist.sent[|st.hist.sent| - 1].item;
  }

  // ----- Packets that go out again -----

  /** A NACK of the oldest packet the sender holds puts a copy of every unacknowledged packet on the network. */
  lemma NackRefills(sys: Sys, k: nat)
    requires SysInv(sys) && Enabled(sys, DeliverBack(k)) && sys.tx.ring != []
    requires Decode(sys.back[k].bytes) == Control(false, sys.tx.ring[0].nr)
    ensures var r := Step(sys, DeliverBack(k));
            && r.peer == sys.peer && r.tx.ring == sys.tx.ring && r.tx.hist.sent == sys.tx.hist.sent
            && r.data == sys.data + Stamp(Datagrams(sys.tx.ring), |sys.tx.hist.sent|)
  {
    hide Decode, Process, Inv, Linked, AllCopies, AllAnswers, Datagrams;
    var st, nr := sys.tx, sys.tx.ring[0].nr;
    InvShape(st);
    NackPutsOut(st, nr);
    ProcessControl(st, Control(false, nr));
    OnPeerNackFrame(st, nr);
    assert Fresh(st, Process(st, Control(false, nr))) == Datagrams(st.ring);
  }

  /** A peer that waits for the oldest packet the sender holds names that packet in its NACKs. */
  lemma NackNamesOldest(sys: Sys)
    requires SysInv(sys) && sys.tx.ring != [] && Wanted(sys) == Oldest(sys.tx)
    ensures sys.tx.ring[0].nr == sys.peer.expected
  {
    hide Waits, Armed, Written, InEpochs, OnPlan, AllCopies, AllAnswers, Payloads, Slot;
    var st := sys.tx;
    RingConsecutive(st);
  }

  /** A request that arrives again during a transfer puts a copy of every packet then unacknowledged on the network. */
  lemma RepeatRefills(sys: Sys, k: nat)
    requires SysInv(sys) && Enabled(sys, DeliverBack(k)) && sys.tx.transfer.Sending?
    requires sys.tx.hist.epochs != []
    requires Decode(sys.back[k].bytes).Data? && Decode(sys.back[k].bytes).seqNr == LastDelivered(sys.tx)
    ensures WellFormed(sys.tx.transfer)
    ensures var r := Step(sys, DeliverBack(k));
            && |sys.data| + |r.tx.ring| <= |r.data|
            && r.data[|r.data| - |r.tx.ring|..] == Stamp(Datagrams(r.tx.ring), |r.tx.hist.sent|)
  {
    hide Decode, Process, Inv, Linked, AllCopies, Datagrams, Again, LastDelivered, AckIf, EncodeControl, Tells;
    InvShape(sys.tx);
    assert HasAnswer(sys, sys.back[k]);
    var u: nat :| IsAnswer(sys, sys.back[k], u);
    AnswerBounds(sys, k, u);
    var m := Decode(sys.back[k].bytes);
    RepeatPutsOut(sys.tx, m);
    RepeatSendsAll(sys.tx, m, u);
    var s, r := AckIf(SendControl(sys.tx, true), m.isAck, m.nr), Process(sys.tx, m);
    DatagramsCount(s.ring);
    StampTail(sys, r, s);
  }

  lemma DatagramsCount(ring: seq<TxPacket>)
    ensures |Datagrams(ring)| == |ring|
  {
  }

  lemma AnswerBounds(sys: Sys, k: nat, u: nat)
    requires Linked(sys) && k < |sys.back| && InTime(sys, sys.back[k]) && IsAnswer(sys, sys.back[k], u)
    ensures u <= |sys.tx.hist.sent| <= u + LATE + SEND_WINDOW && Tells(Decode(sys.back[k].bytes), u)
  {
    hide Decode;
  }

  /** What a step wrote last is what the network got last. */
  lemma StampTail(sys: Sys, r: State, s: State)
    requires sys.tx.hist.wire <= s.hist.wire && r.hist.wire == s.hist.wire + Datagrams(s.ring)
    requires |Datagrams(s.ring)| == |s.ring| && r.ring == s.ring
    ensures var sys' := SenderMoves(sys, r);
            && |sys.data| + |r.ring| <= |sys'.data|
            && sys'.data[|sys'.data| - |r.ring|..] == Stamp(Datagrams(r.ring), |r.hist.sent|)
  {
    hide Datagrams, Stamp;
    var old', tail := s.hist.wire[|sys.tx.hist.wire|..], Datagrams(s.ring);
    assert Fresh(sys.tx, r) == old' + tail;
    StampAppend(old', tail, |r.hist.sent|);
    var a, b := sys.data + Stamp(old', |r.hist.sent|), Stamp(tail, |r.hist.sent|);
    Associate(sys.data, Stamp(old', |r.hist.sent|), b);
    assert SenderMoves(sys, r).data == a + b;
  }

  lemma StampAppend(a: seq<seq<byte>>, b: seq<seq<byte>>, stamp: nat)
    ensures Stamp(a + b, stamp) == Stamp(a, stamp) + Stamp(b, stamp)
  {
  }

  /** In a sender in sync, the retransmission a repeat asks for covers the whole ring. */
  lemma RepeatSendsAll(st: State, m: Inbound, u: nat)
    requires InSync(st) && m.Data? && Tells(m, u) && !Resets(st, m)
    requires st.hist.epochs != [] && m.seqNr == LastDelivered(st) && WellFormed(st.transfer)
    requires u <= |st.hist.sent| <= u + LATE + SEND_WINDOW
    ensures var s := AckIf(SendControl(st, true), m.isAck, m.nr);
            && |s.ring| <= |s.hist.sent| && st.hist.wire <= s.hist.wire
            && Again(s, (st.acked + 1) % RING) == Datagrams(s.ring)
  {
    hide Inv, OnPeerAck, SendControl, Moves, Again, Received, LastDelivered;
    LastDeliveredNow(st);
    RepeatIs(st, m);
    ReceivedMoves(st, m);
    var c := Received(st, m);
    SyncAfter(st, c);
    PeerAckMoves(c, u);
    var s := OnPeerAck(c, m.nr);
    SyncAfter(c, s);
    MovesWrites(st, c);
    MovesWrites(c, s);
    SyncGap(st);
    SyncGap(s);
    AgainAll(st, s, u);
  }

  lemma LastDeliveredNow(st: State)
    requires Inv(st)
    ensures st.hist.epochs != [] && LastDelivered(st) == (st.rxExpected - 1) % RING
  {
    hide LastDelivered, InEpochs;
    InvShape(st);
    LastDeliveredIs(st);
  }

  lemma MovesWrites(st: State, r: State)
    requires Moves(st, r)
    ensures st.hist.wire <= r.hist.wire
  {
  }

  lemma AgainAll(st: State, s: State, u: nat)
    requires st.txSeq == |st.hist.sent| % RING && Gap(st) == |st.ring| <= SEND_WINDOW && |st.ring| <= |st.hist.sent|
    requires Oldest(s) == (if Oldest(st) <= u then u else Oldest(st)) && u <= |st.hist.sent|
    requires |s.ring| <= SEND_WINDOW && |s.ring| <= |s.hist.sent|
    ensures Again(s, (st.acked + 1) % RING) == Datagrams(s.ring)
  {
    var n, c := |st.hist.sent|, |st.ring|;
    ModSubRight(Oldest(s), st.acked + 1);
    ModSub(n, st.acked + 1);
    // the mark is the packet before the oldest one
    ModSub(n - st.acked - 1, n - Oldest(s));
    assert (Oldest(s) - (st.acked + 1)) % RING == (c - (n - Oldest(s))) % RING;
    ModSmall(c - (n - Oldest(s)));
    assert s.ring[..|s.ring|] == s.ring;
  }

  // ----- Recovery from any loss -----

  /** The sender is still trying, and not on its last try to open the window. */
  predicate StillTrying(st: State) {
    st.finPending || (st.transfer.Sending? && st.attempts < MAX_RETRANSMITS - 1)
  }

  /** A timeout puts a copy of every unacknowledged packet on the network. */
  lemma TimeoutRefills(sys: Sys)
    requires SysInv(sys) && StillTrying(sys.tx)
    ensures var r := Step(sys, Timeout);
            && r.peer == sys.peer && r.back == sys.back && r.tx.ring == sys.tx.ring
            && r.tx.hist.sent == sys.tx.hist.sent
            && r.tx.ring != [] && (r.tx.transfer.Sending? || Emitted(sys.tx) == sys.tx.hist.job.Items())
            && r.data == sys.data + Stamp(Datagrams(sys.tx.ring), |sys.tx.hist.sent|)
  {
    hide Resend, Slot, Written, InEpochs, Numbered, FitsSlots, Plan, Emitted, AllCopies, AllAnswers;
    SyncGap(sys.tx);
    TimeoutResendsAllIff(sys.tx);
    var st := sys.tx;
    assert Fresh(st, Fire(st)) == Datagrams(st.ring);
  }

  /** The run uses none of the first d data datagrams and a answers: all of those may have been lost. */
  predicate WithoutOld(acts: seq<Action>, d: nat, a: nat) {
    NoNewTransfer(acts) &&
    forall act :: act in acts ==> (act.DeliverData? ==> act.k >= d) && (act.DeliverBack? ==> act.k >= a)
  }

  lemma {:induction false} ExecAppend(sys: Sys, acts: seq<Action>, more: seq<Action>)
    requires Runs(sys, acts) && Runs(Exec(sys, acts), more)
    ensures Runs(sys, acts + more) && Exec(sys, acts + more) == Exec(Exec(sys, acts), more)
    decreases |acts|
  {
    hide Step, Runs, Exec, Enabled;
    if acts == [] {
      ExecNone(sys);
      assert acts + more == more;
    } else {
      var a, rest := acts[0], acts[1..];
      assert acts == [a] + rest && acts + more == [a] + (rest + more);
      RunsFirst(sys, a, rest);
      ExecAppend(Step(sys, a), rest, more);
      RunsCons(sys, a, rest + more);
    }
  }

  lemma ExecNone(sys: Sys)
    ensures Runs(sys, []) && Exec(sys, []) == sys
  {
  }

  lemma RunsCons(sys: Sys, a: Action, more: seq<Action>)
    requires Enabled(sys, a) && WellFormed(sys.tx.transfer) && sys.tx.hist.epochs != [] && Runs(Step(sys, a), more)
    ensures Runs(sys, [a] + more) && Exec(sys, [a] + more) == Exec(Step(sys, a), more)
  {
    hide Step, Enabled;
    assert ([a] + more)[1..] == more;
  }

  lemma ExecOne(sys: Sys, a: Action)
    requires SysInv(sys) && Enabled(sys, a)
    ensures Runs(sys, [a]) && Exec(sys, [a]) == Step(sys, a)
  {
    hide Step, Waits, Armed, Written, Numbered, Bounded, FitsSlots, Plan, AllCopies, AllAnswers;
    assert [a][1..] == [];
  }

  /** The unacknowledged packets stand on the network, oldest first, from position base. */
  predicate Refilled(sys: Sys, base: nat) {
    && base + |sys.tx.ring| <= |sys.data|
    && forall i :: 0 <= i < |sys.tx.ring| ==> sys.data[base + i] == Datagram(sys.tx.ring[i].data, |sys.tx.hist.sent|)
  }

  /** The peer has everything the sender built, and its last answer says so. */
  predicate Answered(sys: Sys) {
    var n := |sys.tx.hist.sent|;
    && Wanted(sys) == n && sys.back != []
    && sys.back[|sys.back| - 1] == Datagram(EncodeControl(sys.peer.txSeq, (n - 1) % RING, true), n)
  }

  lemma RefilledIsCopy(sys: Sys, base: nat, j: nat)
    requires InSync(sys.tx) && sys.origin <= Oldest(sys.tx) && Refilled(sys, base) && j < |sys.tx.ring|
    ensures IsCopy(sys.tx, sys.origin, sys.data[base + j], Oldest(sys.tx) + j)
  {
    hide Slot, Waits, Armed, Written, InEpochs, FitsSlots, Plan;
    var st := sys.tx;
    SyncGap(st);
    assert st.ring[j] == Slot(st.hist.sent[|st.hist.sent| - |st.ring| + j]);
    assert sys.data[base + j] == Datagram(st.ring[j].data, |st.hist.sent|);
  }

  /** One of the refilled packets arrives. */
  lemma OneArrives(sys: Sys, base: nat, j: nat)
    requires SysInv(sys) && Refilled(sys, base) && j < |sys.tx.ring| && Oldest(sys.tx) + j <= Wanted(sys)
    ensures Enabled(sys, DeliverData(base + j))
    ensures var r := Step(sys, DeliverData(base + j));
            && SysInv(r) && r.tx == sys.tx && r.data == sys.data && |r.back| > |sys.back|
            && Oldest(sys.tx) + j + 1 <= Wanted(r)
            && (j + 1 == |sys.tx.ring| ==> Answered(r))
  {
    hide Decode, PackHeader, PackDataHeader, Waits, Armed, Written, FitsSlots, Plan, AllCopies, AllAnswers;
    var k, i, e := base + j, Oldest(sys.tx) + j, Wanted(sys);
    SyncGap(sys.tx);
    RefilledIsCopy(sys, base, j);
    DeliverDataKeeps(sys, k);
    DeliverDataStep(sys, k, i);
  }

  lemma {:induction false} AllArrive(sys: Sys, base: nat, j: nat) returns (acts: seq<Action>)
    requires SysInv(sys) && Refilled(sys, base) && j < |sys.tx.ring| && Oldest(sys.tx) + j <= Wanted(sys)
    ensures Runs(sys, acts) && WithoutOld(acts, base, 0) && (forall act :: act in acts ==> act.DeliverData?)
    ensures var r := Exec(sys, acts);
            SysInv(r) && r.tx == sys.tx && r.data == sys.data && |r.back| > |sys.back| && Answered(r)
    decreases |sys.tx.ring| - j
  {
    hide Step, SysInv, Runs, Exec, Enabled, Answered;
    OneArrives(sys, base, j);
    var act := DeliverData(base + j);
    ExecOne(sys, act);
    acts := [act];
    if j + 1 < |sys.tx.ring| {
      var rest := AllArrive(Exec(sys, acts), base, j + 1);
      ExecAppend(sys, acts, rest);
      acts := acts + rest;
    }
  }

  /** The final answer arrives: the sender goes on with the next packets, or is done. */
  lemma AnswerArrives(sys: Sys)
    requires SysInv(sys) && Answered(sys) && sys.tx.ring != []
    requires sys.tx.transfer.Sending? || Emitted(sys.tx) == sys.tx.hist.job.Items()
    ensures Enabled(sys, DeliverBack(|sys.back| - 1))
    ensures var r := Step(sys, DeliverBack(|sys.back| - 1));
            && SysInv(r) && r.tx.hist.job == sys.tx.hist.job && |r.data| >= |sys.data| && |r.back| >= |sys.back|
            && (FinAcked(r.tx) || (StillTrying(r.tx) && |r.tx.hist.sent| > |sys.tx.hist.sent|))
  {
    hide Decode, EncodeControl, OnPeerAck, Waits, Armed, Written, Numbered, Bounded, FitsSlots, Plan, AllCopies,
         AllAnswers;
    var n := |sys.tx.hist.sent|;
    DecodeEncodeControl(sys.peer.txSeq, (n - 1) % RING, true);
    DeliverBackKeeps(sys, |sys.back| - 1);
    PeerAckMoves(sys.tx, n);
    if sys.tx.transfer.Idle? {
      LastIsFin(sys.tx);
    }
  }

  /** One round: a timeout, its packets, and the answer to the last of them. */
  lemma OneRound(sys: Sys) returns (acts: seq<Action>)
    requires SysInv(sys) && StillTrying(sys.tx)
    ensures Runs(sys, acts) && WithoutOld(acts, |sys.data|, |sys.back|)
    ensures var r := Exec(sys, acts);
            && SysInv(r) && r.tx.hist.job == sys.tx.hist.job && |r.data| >= |sys.data| && |r.back| >= |sys.back|
            && (FinAcked(r.tx) || (StillTrying(r.tx) && |r.tx.hist.sent| > |sys.tx.hist.sent|))
  {
    hide Step, Runs, Exec, Inv, Answered, StillTrying, FinAcked, Payloads, AllCopies, AllAnswers;
    StepKeeps(sys, Timeout);
    StepFrame(sys, Timeout);
    TimeoutRefills(sys);
    ExecOne(sys, Timeout);
    var s1 := Exec(sys, [Timeout]);
    var burst := AllArrive(s1, |sys.data|, 0);
    var s2 := Exec(s1, burst);
    AnswerArrives(s2);
    var last := DeliverBack(|s2.back| - 1);
    ExecOne(s2, last);
    ExecAppend(s1, burst, [last]);
    ExecAppend(sys, [Timeout], burst + [last]);
    acts := [Timeout] + (burst + [last]);
  }

  /**
   Recovery: from every state of every run in which the sender is still trying, even if everything
   on the network is lost from here on, the remaining timeouts can still bring the whole transfer across.
   */
  lemma {:induction false} CanFinish(sys: Sys) returns (acts: seq<Action>)
    requires SysInv(sys) && StillTrying(sys.tx)
    ensures Runs(sys, acts) && WithoutOld(acts, |sys.data|, |sys.back|)
    ensures SysInv(Exec(sys, acts)) && FinAcked(Exec(sys, acts).tx)
    decreases ToSend(sys.tx)
  {
    hide Step, Runs, Exec, SysInv, StillTrying, FinAcked;
    acts := OneRound(sys);
    var r := Exec(sys, acts);
    if !FinAcked(r.tx) {
      ToSendShrinks(sys, r);
      var more := CanFinish(r);
      ExecAppend(sys, acts, more);
      acts := acts + more;
    }
  }

  /** Packets of the plan not yet built. */
  function ToSend(st: State): int {
    var job := st.hist.job;
    if job.WellFormed() && job.start <= |st.hist.sent| then |job.Items()| - (|st.hist.sent| - job.start) else 0
  }

  lemma ToSendShrinks(sys: Sys, r: Sys)
    requires SysInv(sys) && SysInv(r) && r.tx.hist.job == sys.tx.hist.job && |r.tx.hist.sent| > |sys.tx.hist.sent|
    ensures 0 <= ToSend(r.tx) < ToSend(sys.tx)
  {
    hide Numbered, Bounded, Waits, Armed, Written, InEpochs, FitsSlots, Plan, AllCopies, AllAnswers;
  }

  /**
   End to end: in every run, whenever nothing is unacknowledged, the next reply can be brought across
   completely, using nothing that is on the network when it starts.
   */
  lemma ReplyCanArrive(sys: Sys, header: seq<byte>, data: seq<byte>) returns (acts: seq<Action>)
    requires SysInv(sys) && sys.tx.hist.unacked == 0 && WordHeader(header) && header != []
    ensures Runs(sys, [NextTransfer(header, data, MAX_DATA_PAYLOAD)] + acts)
    ensures WithoutOld(acts, |sys.data|, |sys.back|)
    ensures var end := Exec(sys, [NextTransfer(header, data, MAX_DATA_PAYLOAD)] + acts);
            && FinAcked(end.tx) && sys.peer.got <= end.peer.got
            && Concat(end.peer.got[|sys.peer.got|..]) == header + data + Zeros(Pad4(|data|) - |data|)
  {
    hide Step, Runs, Exec, SysInv, Sendable, StillTrying, FinAcked, Plan;
    var next := NextTransfer(header, data, MAX_DATA_PAYLOAD);
    ReplySendable(header, data);
    NextTransferKeeps(sys, header, data, MAX_DATA_PAYLOAD);
    NextTransferGrows(sys, header, data, MAX_DATA_PAYLOAD);
    ExecOne(sys, next);
    var s := Exec(sys, [next]);
    acts := CanFinish(s);
    ExecAppend(sys, [next], acts);
    ExecKeeps(s, acts);
    CurrentIsPrefix(Exec(s, acts));
    ReplyBytes(header, data);
  }

  lemma NextTransferGrows(sys: Sys, header: seq<byte>, data: seq<byte>, maxChunk: nat)
    requires SysInv(sys) && Enabled(sys, NextTransfer(header, data, maxChunk))
    ensures var r := Step(sys, NextTransfer(header, data, maxChunk));
            |r.data| >= |sys.data| && r.back == sys.back
  {
    hide StartTransfer, Inv, Linked, AllCopies, AllAnswers, Sendable;
  }

  /** A fresh session and a fresh peer are in step. */
  lemma FreshIsInStep(txSeq: Seq12)
    ensures InStep(INIT, Peer(txSeq, 0, []))
  {
    InitHolds();
  }

  // ----- The bound on late datagrams is exact -----

  const FRESH_PEER := Peer(0, 0, [])

  /** The first burst of a transfer stands on the network, stamped with its own length. */
  lemma FirstBurstWritten(header: seq<byte>, data: seq<byte>)
    requires WordHeader(header) && header != []
    ensures Enabled(World(INIT, FRESH_PEER), NextTransfer(header, data, MAX_DATA_PAYLOAD))
    ensures var n := |Plan(header, data, MAX_DATA_PAYLOAD)|;
            var s := Step(World(INIT, FRESH_PEER), NextTransfer(header, data, MAX_DATA_PAYLOAD));
            && |s.tx.hist.sent| == FirstBurst(0, n) > 0
            && s.data != [] && s.data[0] == Datagram(Slot(s.tx.hist.sent[0]).data, FirstBurst(0, n))
  {
    hide Plan, Pump, Slot, HandleTransfer, FitsSlots, Describables, Core;
    ReplySendable(header, data);
    PlanLaws(header, data, MAX_DATA_PAYLOAD);
    InitHolds();
    BeginInit(header, data);
    var b := Begin(INIT, header, data, MAX_DATA_PAYLOAD);
    PumpFromEmpty(b);
    HandleTransferFrame(b);
    var r := HandleTransfer(b);
    assert Built(b, Pump(b))[0] == Slot(r.hist.sent[0]).data;
  }

  lemma BeginInit(header: seq<byte>, data: seq<byte>)
    requires Sendable(header, data, MAX_DATA_PAYLOAD)
    ensures Core(Begin(INIT, header, data, MAX_DATA_PAYLOAD))
  {
    hide Plan, FitsSlots, Describables;
    InitHolds();
    BeginCore(INIT, header, data, MAX_DATA_PAYLOAD);
  }

  /**
   A reply of 4096 packets comes across in full; then a copy from its first burst, late by one packet more
   than the runs above allow, is accepted by the peer a second time.
   */
  lemma LateCopyAccepted() returns (acts: seq<Action>)
    ensures Runs(World(INIT, FRESH_PEER), acts)
    ensures var sys := Exec(World(INIT, FRESH_PEER), acts);
            && SysInv(sys) && sys.data != [] && sys.peer.got != []
            && |sys.tx.hist.sent| == sys.data[0].stamp + LATE + 1
            && PeerAccepts(sys.peer, Decode(sys.data[0].bytes)).got == sys.peer.got + [sys.peer.got[0]]
  {
    hide Step, Runs, Exec, SysInv, Sendable, StillTrying, FinAcked, Plan, World, Enabled, Slot, Decode;
    var header, data := REPLY_HEADER, Zeros(1400 + 4095 * 1408);
    var world, next := World(INIT, FRESH_PEER), NextTransfer(header, data, MAX_DATA_PAYLOAD);
    ReplyOfRing(header, data);
    FreshIsInStep(0);
    WorldHolds(INIT, FRESH_PEER);
    FirstBurstWritten(header, data);
    NextTransferKeeps(world, header, data, MAX_DATA_PAYLOAD);
    ExecOne(world, next);
    var s := Exec(world, [next]);
    var more := CanFinish(s);
    ExecAppend(world, [next], more);
    acts := [next] + more;
    ExecKeeps(s, more);
    var end := Exec(world, acts);
    WorldOrigin(INIT, FRESH_PEER);
    CurrentIsPrefix(end);
    assert end.tx.hist.job == Job(header, data, MAX_DATA_PAYLOAD, 0);
    assert Current(end) == end.peer.got[0..] == end.peer.got;
    AllThere(end);
    assert IsCopy(end.tx, 0, end.data[0], 0);
    FirstAgain(end);
  }

  lemma ReplyOfRing(header: seq<byte>, data: seq<byte>)
    requires |header| == 8 && |data| == 1400 + 4095 * 1408
    ensures |Plan(header, data, MAX_DATA_PAYLOAD)| == RING && FirstBurst(0, RING) == SEND_WINDOW
  {
    FewestPackets(header, data, MAX_DATA_PAYLOAD);
    DivIs(4095 * 1408 + 1407, 1408, 4095);
  }

  lemma WorldOrigin(st: State, peer: Peer)
    ensures World(st, peer).origin == |st.hist.sent| && World(st, peer).tx == st
  {
  }

  /** Once the FIN is acknowledged the peer has every packet built. */
  lemma AllThere(sys: Sys)
    requires SysInv(sys) && FinAcked(sys.tx)
    ensures Wanted(sys) == |sys.tx.hist.sent|
  {
    hide InSync, Since, Payloads, Describables, AllCopies, AllAnswers;
  }

  /** One turn of the ring after it was accepted, the first packet would be accepted again. */
  lemma FirstAgain(sys: Sys)
    requires SysInv(sys) && sys.origin == 0 && |sys.peer.got| == RING
    requires sys.data != [] && IsCopy(sys.tx, 0, sys.data[0], 0)
    ensures PeerAccepts(sys.peer, Decode(sys.data[0].bytes)).got == sys.peer.got + [sys.peer.got[0]]
  {
    hide Decode, InSync, Slot, ItemPayload, Describables, AllCopies, AllAnswers;
    CopyReads(sys, 0, 0);
    assert sys.tx.hist.sent[0].item == Since(sys.tx, 0)[..RING][0];
  }
}
