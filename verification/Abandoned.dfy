/**
 What becomes of a sender that does not wait: a transfer is started while the peer still wants a packet of
 an earlier one. Starting it empties the ring, so that packet is never sent again.
 */
module Abandoned {
  import opened Basics
  import opened Wire
  import opened Transfers
  import opened SessionSpec
  import opened SessionInv
  import opened SessionTheorems
  import opened SessionLimits
  import opened Delivery

  // ----- What a sender puts on the network, in step with its peer or not -----

  /** A copy of packet `first` or of a later one. */
  ghost predicate Later(st: State, first: nat, bytes: seq<byte>) {
    exists i: nat :: first <= i < |st.hist.sent| && bytes == Slot(st.hist.sent[i]).data
  }

  /** A step of a sender whose transfer begins at packet `first` or later: nothing older goes out. */
  ghost predicate Sends(st: State, r: State, first: nat) {
    && Inv(r) && first <= r.hist.job.start
    && st.hist.sent <= r.hist.sent && st.hist.wire <= r.hist.wire
    && forall d :: d in Fresh(st, r) ==> Notice(d) || Later(r, first, d)
  }

  lemma SendsThen(a: State, b: State, c: State, first: nat)
    requires Sends(a, b, first) && Sends(b, c, first)
    ensures Sends(a, c, first)
  {
    hide Inv, Notice, Slot;
    assert Fresh(a, c) == Fresh(a, b) + Fresh(b, c);
    LaterGrows(b, c, first);
  }

  lemma LaterGrows(st: State, r: State, first: nat)
    requires st.hist.sent <= r.hist.sent
    ensures forall d :: Later(st, first, d) ==> Later(r, first, d)
  {
    hide Slot;
    forall d | Later(st, first, d)
      ensures Later(r, first, d)
    {
      var i: nat :| first <= i < |st.hist.sent| && d == Slot(st.hist.sent[i]).data;
      assert r.hist.sent[i] == st.hist.sent[i];
    }
  }

  lemma ResendLater(st: State, from: Seq12, first: nat)
    requires Inv(st) && first <= st.hist.job.start
    ensures forall d :: d in Resend(st.ring, from) ==> Later(st, first, d)
  {
    hide Resend, Slot, Numbered, Bounded, Emitted, Waits, Armed, Written, InEpochs;
    ResendHeld(st, from);
    forall d | d in Resend(st.ring, from)
      ensures Later(st, first, d)
    {
      assert Holds(st, d);
    }
  }

  lemma BuiltLater(st: State, first: nat)
    requires WellFormed(st.transfer) && first <= |st.hist.sent| <= |Pump(st).hist.sent|
    ensures forall d :: d in Built(st, Pump(st)) ==> Later(Pump(st), first, d)
  {
    hide Pump, Slot;
    var p := Pump(st);
    forall d | d in Built(st, p)
      ensures Later(p, first, d)
    {
      var j :| 0 <= j < |Built(st, p)| && d == Built(st, p)[j];
      assert d == Slot(p.hist.sent[|st.hist.sent| + j]).data;
    }
  }

  lemma HandleTransferSends(st: State, first: nat)
    requires Core(st) && TimerCurrent(st) && InEpochs(st) && Written(st)
    requires first <= st.hist.job.start <= |st.hist.sent|
    ensures Sends(st, HandleTransfer(st), first)
  {
    hide Pump, HandleTransfer, Slot, Built, Numbered, Bounded, Emitted, Waits, Armed, Written, InEpochs, Notice;
    var r := HandleTransfer(st);
    HandleTransferKeeps(st);
    HandleTransferFrame(st);
    BuiltLater(st, first);
    LaterGrows(Pump(st), r, first);
    assert Fresh(st, r) == Built(st, Pump(st));
  }

  lemma StartSends(st: State, header: seq<byte>, data: seq<byte>, maxChunk: nat, first: nat)
    requires Inv(st) && Sendable(header, data, maxChunk) && first <= |st.hist.sent|
    ensures Sends(st, StartTransfer(st, header, data, maxChunk), first)
  {
    hide Slot, HandleTransfer, OnPlan, Numbered, Bounded, Plan, FitsSlots, Describables, Waits, Armed;
    var b := Begin(st, header, data, maxChunk);
    BeginCore(st, header, data, maxChunk);
    HandleTransferSends(b, first);
  }

  lemma AckSends(st: State, nr: Seq12, first: nat)
    requires Inv(st) && first <= st.hist.job.start
    ensures Sends(st, OnPeerAck(st, nr), first)
  {
    hide OnAck, HandleTransfer, Slot, Numbered, Bounded, Emitted, Waits, Armed, Written, InEpochs, Notice;
    OnAckKeeps(st, nr);
    OnAckFrame(st, nr);
    OnPeerAckKeeps(st, nr);
    if st.transfer.Sending? {
      HandleTransferSends(OnAck(st, nr), first);
    }
  }

  lemma NackSends(st: State, nr: Seq12, first: nat)
    requires Inv(st) && first <= st.hist.job.start
    ensures Sends(st, OnPeerNack(st, nr), first)
  {
    hide Resend, Inv, Slot, Notice, UpdateTimer;
    var r := OnPeerNack(st, nr);
    OnPeerNackKeeps(st, nr);
    UpdateTimerFrame(Write(st.(attempts := 0), Resend(st.ring, nr)));
    ResendLater(st, nr, first);
    LaterGrows(st, r, first);
    assert Fresh(st, r) == Resend(st.ring, nr);
  }

  lemma FireSends(st: State, first: nat)
    requires Inv(st) && first <= st.hist.job.start
    ensures Sends(st, Fire(st), first)
  {
    hide Resend, Inv, Slot, Notice, InFlight;
    var r, from: Seq12 := Fire(st), (st.acked + 1) % RING;
    FireKeeps(st);
    ResendLater(st, from, first);
    LaterGrows(st, r, first);
    assert Fresh(st, r) == [] || Fresh(st, r) == Resend(st.ring, from);
  }

  lemma ReceivedSends(st: State, m: Inbound, first: nat)
    requires Inv(st) && m.Data? && !Resets(st, m) && first <= st.hist.job.start
    ensures st.hist.epochs != [] && Sends(st, Received(st, m), first)
  {
    hide Inv, Received, Notice, Later;
    InvShape(st);
    ReceivedKeeps(st, m);
    ReceivedFrame(st, m);
    ReceivedWrites(st, m);
  }

  lemma ProcessSends(st: State, m: Inbound, first: nat)
    requires Inv(st) && !Resets(st, m) && first <= st.hist.job.start
    ensures st.hist.epochs != [] && WellFormed(st.transfer) && Sends(st, Process(st, m), first)
  {
    hide Inv, Process, OnPeerAck, OnPeerNack, Received, Sends, Resets;
    InvShape(st);
    if m.Data? {
      ProcessIs(st, m);
      ReceivedSends(st, m, first);
      var s := Received(st, m);
      StillSince(st, s, first);
      AckSends(s, m.nr, first);
      SendsThen(st, s, OnPeerAck(s, m.nr), first);
      var a := AckIf(s, m.isAck, m.nr);
      StillSince(st, a, first);
      NackSends(a, (st.acked + 1) % RING, first);
      SendsThen(st, a, OnPeerNack(a, (st.acked + 1) % RING), first);
    } else if m.Control? {
      ProcessControl(st, m);
      AckSends(st, m.nr, first);
      NackSends(st, m.nr, first);
    } else {
      ProcessControl(st, m);
      SendsNothing(st, first);
    }
  }

  lemma StillSince(st: State, r: State, first: nat)
    requires Sends(st, r, first)
    ensures Inv(r) && first <= r.hist.job.start
  {
  }

  lemma SendsNothing(st: State, first: nat)
    requires Inv(st) && first <= st.hist.job.start
    ensures Sends(st, st, first)
  {
  }

  // ----- The peer waits in vain -----

  /** The transfer under way begins at packet `first` or later, and so does everything written from position base on. */
  ghost predicate Cut(sys: Sys, first: nat, base: nat) {
    && Inv(sys.tx) && first <= sys.tx.hist.job.start && AllLater(sys, first, base)
  }

  ghost predicate AllLater(sys: Sys, first: nat, base: nat) {
    && base <= |sys.data|
    && forall k :: base <= k < |sys.data| ==> Notice(sys.data[k].bytes) || Later(sys.tx, first, sys.data[k].bytes)
  }

  lemma CutMoves(sys: Sys, r: State, first: nat, base: nat)
    requires AllLater(sys, first, base) && Sends(sys.tx, r, first)
    ensures Cut(SenderMoves(sys, r), first, base) && |sys.tx.hist.sent| <= |r.hist.sent|
  {
    hide Inv, Notice, Later;
    LaterGrows(sys.tx, r, first);
    var s, added := SenderMoves(sys, r), Fresh(sys.tx, r);
    forall k | base <= k < |s.data|
      ensures Notice(s.data[k].bytes) || Later(r, first, s.data[k].bytes)
    {
      if k >= |sys.data| {
        assert s.data[k].bytes == added[k - |sys.data|];
      }
    }
  }

  lemma CutStep(sys: Sys, a: Action, first: nat, base: nat)
    requires Cut(sys, first, base) && Enabled(sys, a)
    ensures sys.tx.hist.epochs != [] && WellFormed(sys.tx.transfer)
    ensures var r := Step(sys, a);
            Cut(r, first, base) && |sys.tx.hist.sent| <= |r.tx.hist.sent|
  {
    hide Inv, Decode, Process, Fire, StartTransfer, Plan, FitsSlots, Describables, Later, Sends, Resets, EncodeData,
         Notice;
    InvShape(sys.tx);
    match a
    case DeliverData(k) =>
    case Request(_) =>
    case DeliverBack(k) =>
      ProcessSends(sys.tx, Decode(sys.back[k].bytes), first);
      CutMoves(sys, Process(sys.tx, Decode(sys.back[k].bytes)), first, base);
    case Timeout =>
      FireSends(sys.tx, first);
      CutMoves(sys, Fire(sys.tx), first, base);
    case NextTransfer(header, data, maxChunk) =>
      JobInSent(sys.tx);
      StartSends(sys.tx, header, data, maxChunk, first);
      CutMoves(sys, StartTransfer(sys.tx, header, data, maxChunk), first, base);
  }

  lemma JobInSent(st: State)
    requires Inv(st)
    ensures st.hist.job.start <= |st.hist.sent|
  {
  }

  /** A later packet, less than a turn of the ring away, is not taken for packet w. */
  lemma NotAccepted(st: State, peer: Peer, bytes: seq<byte>, w: nat, first: nat)
    requires Inv(st) && w < first && peer.expected == w % RING && |st.hist.sent| <= w + RING
    requires Notice(bytes) || Later(st, first, bytes)
    ensures PeerAccepts(peer, Decode(bytes)) == peer
  {
    hide Decode, EncodeData, Bounded, OnPlan, Waits, Armed, Written, InEpochs;
    if !Notice(bytes) {
      var i: nat :| first <= i < |st.hist.sent| && bytes == Slot(st.hist.sent[i]).data;
      var e := st.hist.sent[i];
      DecodeKeepsNumber(e.seqNr, e.ackNr, e.item.header, e.item.chunk, e.item.fin);
      SameNumber(i, w);
    }
  }

  /** The run delivers none of the first `base` datagrams of the sender: all of those have been lost. */
  predicate OldOnesLost(acts: seq<Action>, base: nat) {
    forall act :: act in acts ==> act.DeliverData? ==> act.k >= base
  }

  /** What the peer has, and what it wants, is the same after the step. */
  lemma PeerStays(sys: Sys, a: Action, w: nat, first: nat, base: nat)
    requires Cut(sys, first, base) && Enabled(sys, a) && (a.DeliverData? ==> a.k >= base)
    requires w < first && sys.peer.expected == w % RING && |sys.tx.hist.sent| <= w + RING
    ensures sys.tx.hist.epochs != [] && WellFormed(sys.tx.transfer)
    ensures Step(sys, a).peer.got == sys.peer.got && Step(sys, a).peer.expected == sys.peer.expected
  {
    hide Inv, Decode, Process, Fire, StartTransfer, Sendable, Later, Resets, EncodeData, Notice;
    InvShape(sys.tx);
    if a.DeliverData? {
      NotAccepted(sys.tx, sys.peer, sys.data[a.k].bytes, w, first);
    }
  }

  lemma {:induction false} CutRun(sys: Sys, acts: seq<Action>, w: nat, first: nat, base: nat)
    requires Cut(sys, first, base) && Runs(sys, acts)
    ensures var end := Exec(sys, acts);
            && |sys.tx.hist.sent| <= |end.tx.hist.sent|
            && (OldOnesLost(acts, base) && w < first && sys.peer.expected == w % RING &&
                |end.tx.hist.sent| <= w + RING ==>
                  end.peer.got == sys.peer.got && end.peer.expected == sys.peer.expected)
    decreases |acts|
  {
    hide Cut, Step, Enabled;
    if acts == [] {
    } else {
      var a, rest := acts[0], acts[1..];
      CutStep(sys, a, first, base);
      CutRun(Step(sys, a), rest, w, first, base);
      var end := Exec(sys, acts);
      if OldOnesLost(acts, base) && w < first && sys.peer.expected == w % RING && |end.tx.hist.sent| <= w + RING {
        PeerStays(sys, a, w, first, base);
      }
    }
  }

  /**
   If a transfer starts while the peer still wants packet w of an earlier one, and the copies of that time
   are lost, the peer accepts nothing more, whatever is sent, resent, acknowledged or begun after it, until
   the sender has gone once round the ring of numbers from w.
   */
  lemma PeerWaitsInVain(sys: Sys, w: nat, next: Action, acts: seq<Action>)
    requires Inv(sys.tx) && w < |sys.tx.hist.sent| && sys.peer.expected == w % RING
    requires next.NextTransfer? && Runs(sys, [next] + acts) && OldOnesLost(acts, |sys.data|)
    requires |Exec(sys, [next] + acts).tx.hist.sent| <= w + RING
    ensures var end := Exec(sys, [next] + acts);
            end.peer.got == sys.peer.got && end.peer.expected == sys.peer.expected
  {
    hide Inv, Runs, Exec, StartTransfer, Sends, Cut;
    RunsFirst(sys, next, acts);
    var n := |sys.tx.hist.sent|;
    StartSends(sys.tx, next.header, next.data, next.maxChunk, n);
    CutMoves(sys, StartTransfer(sys.tx, next.header, next.data, next.maxChunk), n, |sys.data|);
    CutRun(Step(sys, next), acts, w, n, |sys.data|);
  }

  // ----- Runs -----

  const ONE_BYTE := NextTransfer([], [0], 1)

  /** Two fresh ends with a sender that does not wait. */
  const HASTY := Sys(INIT, FRESH_PEER, [], [], 0, false)

  /** The message sent last stands on the network last. */
  predicate LastWritten(sys: Sys) {
    var sent, data := sys.tx.hist.sent, sys.data;
    && sent != [] && data != [] && data[|data| - 1] == Datagram(Slot(sent[|sent| - 1]).data, |sent|)
    && sent[|sent| - 1].item == Item([], [0], true)
  }

  lemma OneMore(sys: Sys)
    requires Inv(sys.tx) && !sys.orderly
    ensures Enabled(sys, ONE_BYTE) && WellFormed(sys.tx.transfer) && sys.tx.hist.epochs != []
    ensures var r := Step(sys, ONE_BYTE);
            && Inv(r.tx) && !r.orderly && r.peer == sys.peer && r.back == sys.back
            && |r.tx.hist.sent| == |sys.tx.hist.sent| + 1 && LastWritten(r)
  {
    hide Slot, Plan, Pump, HandleTransfer, Core, Waits, Armed, Written, InEpochs;
    InvShape(sys.tx);
    MessageLaws([0]);
    OneShot(sys.tx, [0]);
    StartKeeps(sys.tx);
    var b := Begin(sys.tx, [], [0], 1);
    HandleTransferFrame(b);
    var r := HandleTransfer(b);
    assert Built(b, Pump(b)) == [Slot(r.hist.sent[|sys.tx.hist.sent|]).data];
    assert Fresh(sys.tx, r) == Built(b, Pump(b));
  }

  lemma StartKeeps(st: State)
    requires Inv(st)
    ensures Inv(StartTransfer(st, [], [0], 1))
  {
    MessageLaws([0]);
    StartTransferKeeps(st, [], [0], 1);
  }

  lemma {:induction false} ManyMessages(n: nat) returns (acts: seq<Action>)
    ensures |acts| == n && Runs(HASTY, acts)
    ensures var s := Exec(HASTY, acts);
            && Inv(s.tx) && !s.orderly && s.peer == FRESH_PEER && s.back == []
            && |s.tx.hist.sent| == n && (n > 0 ==> LastWritten(s))
  {
    hide Step, Runs, Exec, Enabled, Inv, LastWritten;
    if n == 0 {
      acts := [];
      InitHolds();
      ExecNone(HASTY);
    } else {
      var before := ManyMessages(n - 1);
      var s := Exec(HASTY, before);
      OneMore(s);
      ExecNone(Step(s, ONE_BYTE));
      RunsCons(s, ONE_BYTE, []);
      assert [ONE_BYTE] + [] == [ONE_BYTE];
      ExecAppend(HASTY, before, [ONE_BYTE]);
      acts := before + [ONE_BYTE];
    }
  }

  /**
   n messages in haste, of which only the last arrives: the peer accepts it if and only if it is a whole
   number of turns of the ring away from packet 0, which the peer wants; otherwise it has nothing, and asks for
   packet 0 again or, at the last number before it, repeats its ACK.
   */
  lemma OnlyLastArrives(n: nat) returns (acts: seq<Action>)
    requires n >= 1
    ensures |acts| == n + 1 && Runs(HASTY, acts)
    ensures var end := Exec(HASTY, acts);
            && |end.tx.hist.sent| == n
            && (end.peer.got == [[0, 0, 0, 0]] <==> (n - 1) % RING == 0)
            && (end.peer.got == [] <==> (n - 1) % RING != 0)
            && |end.back| == 1 && (0 < (n - 1) % RING < RING - 1 ==> Decode(end.back[0].bytes) == Control(false, 0))
  {
    hide Runs, Exec, Inv, LastWritten, Decode, EncodeControl, Slot;
    var before := ManyMessages(n);
    var s := Exec(HASTY, before);
    InvShape(s.tx);
    LastReads(s);
    var last := DeliverData(|s.data| - 1);
    ExecNone(Step(s, last));
    RunsCons(s, last, []);
    assert [last] + [] == [last];
    ExecAppend(HASTY, before, [last]);
    acts := before + [last];
    DecodeEncodeControl(0, 0, false);
  }

  lemma LastReads(sys: Sys)
    requires Inv(sys.tx) && LastWritten(sys)
    ensures sys.data != [] && InTime(sys, sys.data[|sys.data| - 1])
    ensures var m := Decode(sys.data[|sys.data| - 1].bytes);
            m.Data? && m.seqNr == (|sys.tx.hist.sent| - 1) % RING && m.payload == [0, 0, 0, 0]
  {
    hide Decode, EncodeData, Bounded, OnPlan, Waits, Armed, Written, InEpochs;
    var e := sys.tx.hist.sent[|sys.tx.hist.sent| - 1];
    DecodeEncodeData(e.seqNr, e.ackNr, [], [0], true);
    assert Payload([], [0]) == [0, 0, 0, 0];
  }
}
