/**
 The UDPRDMA session as the program keeps it: one mutable object with a fixed ring of
 retransmit slots, two indices into it, a view of the caller's transfer buffer, and the
 timer fields. Every method takes exactly the step of SessionSpec with the same name.
 */
module Session {
  import opened Basics
  import opened Wire
  import opened Transfers
  import Spec = SessionSpec
  import opened SessionSpec
  import opened SessionInv

  const SLOTS := 2048

  type Index = i: nat | i < SLOTS

  /** The single outstanding transfer; `data` is the caller's own buffer, of which len bytes are to be sent. */
  datatype View = NoTransfer | View(header: seq<byte>, data: array<byte>, len: nat, offset: nat, maxChunk: nat)

  /** The slots from read index r up to write index w, going round the end. */
  function Window(buf: seq<TxPacket>, r: nat, w: nat): (live: seq<TxPacket>)
    requires |buf| == SLOTS && r < SLOTS && w < SLOTS
    ensures |live| == (w - r) % SLOTS
  {
    seq((w - r) % SLOTS, i requires 0 <= i < (w - r) % SLOTS => buf[(r + i) % SLOTS])
  }

  lemma WindowPush(buf: seq<TxPacket>, r: nat, w: nat, p: TxPacket)
    requires |buf| == SLOTS && r < SLOTS && w < SLOTS && (w - r) % SLOTS < SLOTS - 1
    ensures (w + 1) % SLOTS != r
    ensures Window(buf[w := p], r, (w + 1) % SLOTS) == Window(buf, r, w) + [p]
  {
  }

  lemma WindowPop(buf: seq<TxPacket>, r: nat, w: nat)
    requires |buf| == SLOTS && r < SLOTS && w < SLOTS && r != w
    ensures Window(buf, r, w) == [buf[r]] + Window(buf, (r + 1) % SLOTS, w)
  {
    var next: nat := NextIndex(r);
    Shorter(r, w);
    var a, b := Window(buf, r, w), [buf[r]] + Window(buf, next, w);
    forall i | 0 <= i < |a|
      ensures a[i] == b[i]
    {
      if i > 0 {
        Shift(r, i);
      }
    }
  }

  function NextIndex(r: nat): nat {
    (r + 1) % SLOTS
  }

  lemma Shorter(r: nat, w: nat)
    requires r < SLOTS && w < SLOTS && r != w
    ensures (w - NextIndex(r)) % SLOTS == (w - r) % SLOTS - 1
  {
    assert NextIndex(r) == if r == SLOTS - 1 then 0 else r + 1;
  }

  lemma Shift(r: nat, i: nat)
    requires r < SLOTS && 1 <= i < SLOTS
    ensures (NextIndex(r) + (i - 1)) % SLOTS == (r + i) % SLOTS
  {
    assert NextIndex(r) == if r == SLOTS - 1 then 0 else r + 1;
  }

  lemma WindowEmpty(buf: seq<TxPacket>, r: nat, w: nat)
    requires |buf| == SLOTS && r < SLOTS && w < SLOTS
    ensures Window(buf, r, w) == [] <==> r == w
  {
  }

  predicate ViewOk(v: View) {
    v.View? ==> v.len <= v.data.Length && v.offset <= v.len && (v.len == 0 || v.maxChunk >= 1)
  }

  /** The packet the send loop will cut next, if the transfer has any left. */
  ghost function NextItem(st: State): Option<Item>
    requires WellFormed(st.transfer)
  {
    if Remaining(st.transfer) == [] then None else Some(Remaining(st.transfer)[0])
  }

  /** What one turn must do, and that there is room in the ring and in the slot for its packet. */
  lemma TurnIs(st: State, item: Item)
    requires Core(st) && st.transfer.Sending? && NextItem(st) == Some(item)
    ensures |item.header| + Pad4(|item.chunk|) + 6 <= SLOT_SIZE && |st.ring| <= SEND_WINDOW + 1
    ensures var t := if item.fin then Idle else st.transfer.(offset := st.transfer.offset + |item.chunk|);
            PumpOne(st) == Push(st.(transfer := t), item) == Push(st, item).(transfer := t)
  {
    hide EncodeData, Plan, Chunks, Numbered;
    var job := st.hist.job;
    assert job.Items()[|Emitted(st)|] == Remaining(st.transfer)[0];
  }

  lemma FirstTurn(st: State, chunkSize: nat, fin: bool)
    requires Core(st) && st.transfer.Sending? && st.transfer.offset == 0 && st.transfer.header != []
    requires chunkSize == FirstChunk(st.transfer.header, st.transfer.data, st.transfer.maxChunk)
    requires fin == (chunkSize >= |st.transfer.data|)
    ensures var item := Item(st.transfer.header, st.transfer.data[..chunkSize], fin);
            var t := if fin then Idle else st.transfer.(offset := chunkSize);
            && NextItem(st) == Some(item)
            && |item.header| + Pad4(|item.chunk|) + 6 <= SLOT_SIZE && |st.ring| <= SEND_WINDOW + 1
            && PumpOne(st) == Push(st, item).(transfer := t)
  {
    hide Chunks, Core, Push, Pad4, PumpOne;
    TurnIs(st, Item(st.transfer.header, st.transfer.data[..chunkSize], fin));
  }

  lemma NextTurn(st: State, chunkSize: nat, fin: bool)
    requires Core(st) && st.transfer.Sending? && WellFormed(st.transfer)
    requires (st.transfer.offset > 0 || st.transfer.header == []) && st.transfer.offset < |st.transfer.data|
    requires chunkSize == Min(st.transfer.maxChunk, |st.transfer.data| - st.transfer.offset)
    requires fin == (st.transfer.offset + chunkSize >= |st.transfer.data|)
    ensures var item := Item([], st.transfer.data[st.transfer.offset..st.transfer.offset + chunkSize], fin);
            var t := if fin then Idle else st.transfer.(offset := st.transfer.offset + chunkSize);
            && NextItem(st) == Some(item)
            && |item.header| + Pad4(|item.chunk|) + 6 <= SLOT_SIZE && |st.ring| <= SEND_WINDOW + 1
            && PumpOne(st) == Push(st.(transfer := t), item)
  {
    hide Core, Push, Pad4, PumpOne;
    TurnIs(st, Item([], st.transfer.data[st.transfer.offset..st.transfer.offset + chunkSize], fin));
  }

  /** One turn of the loop keeps the core, what the loop will have done in the end, and the batch. */
  lemma TurnDone(start: State, st: State, r: State)
    requires Core(st) && st.transfer.Sending? && Spec.InFlight(st) < SEND_WINDOW && NextItem(st).Some?
    requires r == PumpOne(st) && start.hist.sent <= st.hist.sent
    ensures Core(r) && Pump(r) == Pump(st) && Left(r.transfer) < Left(st.transfer)
    ensures start.hist.sent <= r.hist.sent
    ensures Built(start, r) == Built(start, st) + [Slot(r.hist.sent[|st.hist.sent|]).data]
  {
    hide EncodeData, Plan, Chunks, Numbered, Bounded;
    AdvanceLaws(st.transfer);
    PumpOneKeeps(st);
  }

  lemma SliceOfPrefix(a: array<byte>, len: nat, i: nat, j: nat)
    requires i <= j <= len <= a.Length
    ensures a[..len][i..j] == a[i..j] && a[..len][..j] == a[..j]
  {
  }

  lemma ResendStep(ring: seq<TxPacket>, p: TxPacket, rest: seq<TxPacket>, from: Seq12)
    requires ring == [p] + rest
    ensures Resend(ring, from) ==
            if (p.nr - from) % RING >= HALF_RING then []
            else (if p.nr != (from - 1) % RING then [p.data] else []) + Resend(rest, from)
  {
    assert ring[1..] == rest;
  }

  /** One turn of the retransmission loop: what is in the batch and what is still to come make the whole. */
  lemma ResendTurn(batch: seq<seq<byte>>, ring: seq<TxPacket>, p: TxPacket, rest: seq<TxPacket>, from: Seq12)
    requires ring == [p] + rest
    ensures (p.nr - from) % RING >= HALF_RING ==> Resend(ring, from) == []
    ensures (p.nr - from) % RING < HALF_RING ==>
              (if p.nr != (from - 1) % RING then batch + [p.data] else batch) + Resend(rest, from)
              == batch + Resend(ring, from)
  {
    hide Resend;
    ResendStep(ring, p, rest, from);
    Associate(batch, [p.data], Resend(rest, from));
  }

  lemma ResendNothing(from: Seq12)
    ensures Resend([], from) == []
  {
  }

  lemma BuiltNothing(st: State)
    ensures Built(st, st) == []
  {
  }

  lemma PumpStops(st: State)
    requires WellFormed(st.transfer) && (st.transfer.Idle? || Spec.InFlight(st) >= SEND_WINDOW)
    ensures Pump(st) == st
  {
  }

  /** The loop's way out for a transfer that has nothing to send. */
  lemma PumpNothing(start: State, st: State)
    requires start.hist.sent <= st.hist.sent
    requires WellFormed(st.transfer) && st.transfer.Sending? && Spec.InFlight(st) < SEND_WINDOW
    requires (st.transfer.offset > 0 || st.transfer.header == []) && st.transfer.offset >= |st.transfer.data|
    ensures Pump(st) == st.(transfer := Idle)
    ensures Built(start, st.(transfer := Idle)) == Built(start, st)
  {
  }

  class Session {
    // live slots are those from the read index up to the write index
    const txBuffer: array<TxPacket>
    var txWriteIndex: Index
    var txReadIndex: Index

    var transfer: View

    var txSeqNr: Seq12
    var txSeqNrAcked: Seq12
    var rxSeqExpected: Seq12

    // the timer is armed for one generation at a time
    var ackTimerExpectSeq: uint16
    var ackTimerSeq: uint16
    var ackWaitMode: WaitMode
    var retransmitAttempts: nat
    var finPending: bool
    var closed: bool

    ghost var hist: History

    /** The ring has its size and the transfer view is well formed; nothing about what the buffers hold. */
    ghost predicate Sound()
      reads this
    {
      txBuffer.Length == SLOTS && ViewOk(transfer)
    }

    ghost function Live(): (live: seq<TxPacket>)
      requires Sound()
      reads this, txBuffer
    {
      Window(txBuffer[..], txReadIndex, txWriteIndex)
    }

    /** The buffer an outstanding transfer still reads from. */
    ghost function Buffers(): set<object>
      reads this
    {
      if transfer.View? then {transfer.data} else {}
    }

    ghost function TransferNow(): Transfer
      requires Sound()
      reads this, Buffers()
    {
      if transfer.NoTransfer? then Idle
      else Sending(transfer.header, transfer.data[..transfer.len], transfer.offset, transfer.maxChunk)
    }

    /** The state of the machine this object is in. */
    ghost function Abs(): (st: State)
      requires Sound()
      ensures WellFormed(st.transfer)
      reads this, txBuffer, Buffers()
    {
      State(Live(), TransferNow(), txSeqNr, txSeqNrAcked, rxSeqExpected, ackWaitMode, ackTimerSeq, ackTimerExpectSeq,
            retransmitAttempts, finPending, closed, hist)
    }

    ghost predicate Valid()
      reads this, txBuffer, Buffers()
    {
      Sound() && Inv(Abs())
    }

    /** What a new send needs: everything but the bytes of the transfer it will abandon. */
    ghost predicate Ready()
      reads this, txBuffer, Buffers()
    {
      Sound() && Numbered(Abs()) && Bounded(Abs()) && InEpochs(Abs()) && Written(Abs())
    }

    constructor ()
      ensures Valid() && Abs() == INIT && fresh(txBuffer)
    {
      txBuffer := new TxPacket[SLOTS](_ => TxPacket([], 0));
      txWriteIndex, txReadIndex := 0, 0;
      transfer := NoTransfer;
      txSeqNr, txSeqNrAcked, rxSeqExpected := 0, 0xFFF, 0;
      ackTimerExpectSeq, ackTimerSeq, ackWaitMode, retransmitAttempts := 0, 0, NoWait, 0;
      finPending, closed := false, false;
      hist := INIT.hist;
      new;
      assert Live() == [];
      InitHolds();
    }

    // ----- ACK timer -----

    method StopAckTimer()
      requires Sound()
      modifies this`ackTimerSeq, this`ackWaitMode
      ensures ackTimerSeq == (old(ackTimerSeq) + 1) % 0x1_0000 && ackWaitMode == NoWait
    {
      ackTimerSeq := (ackTimerSeq + 1) % 0x1_0000;
      ackWaitMode := NoWait;
    }

    method ArmAckTimer()
      requires Sound()
      modifies this`ackTimerSeq, this`ackWaitMode, this`ackTimerExpectSeq
      ensures Sound() && Abs() == ArmTimer(old(Abs()))
    {
      var mode := WindowWait;
      if finPending {
        mode := FinWait;
      }
      if ackWaitMode == mode {
        return;
      }
      ackTimerSeq := (ackTimerSeq + 1) % 0x1_0000;
      ackTimerExpectSeq := ackTimerSeq;
      ackWaitMode := mode;
    }

    function InFlight(): (n: Seq12)
      requires Sound()
      ensures n == Spec.InFlight(Abs())
      reads this, txBuffer, Buffers()
    {
      WindowEmpty(txBuffer[..], txReadIndex, txWriteIndex);
      if txReadIndex == txWriteIndex then 0 else (txSeqNr - txSeqNrAcked - 1) % RING
    }

    method UpdateAckTimer()
      requires Sound()
      modifies this`ackTimerSeq, this`ackWaitMode, this`ackTimerExpectSeq
      ensures Sound() && Abs() == UpdateTimer(old(Abs()))
    {
      hide Window;
      if InFlight() == 0 {
        StopAckTimer();
        return;
      }
      if finPending || (transfer.View? && InFlight() >= SEND_WINDOW) {
        ArmAckTimer();
        return;
      }
      StopAckTimer();
    }

    // ----- Sending -----

    method ClearTransfer()
      requires Sound()
      modifies this`transfer
      ensures Sound() && TransferNow().Idle?
    {
      transfer := NoTransfer;
    }

    /** packDataPacket: the "ring buffer is full" panic is the dead branch. */
    method PackDataPacket(header: seq<byte>, chunk: seq<byte>, fin: bool) returns (pkt: seq<byte>)
      requires Sound() && |Live()| < SLOTS - 1
      requires |header| + Pad4(|chunk|) + 6 <= SLOT_SIZE
      modifies this`txWriteIndex, this`txSeqNr, this`finPending, this`retransmitAttempts, this`hist, txBuffer
      ensures Sound() && Abs() == Push(old(Abs()), Item(header, chunk, fin))
      ensures pkt == Slot(Abs().hist.sent[|old(hist.sent)|]).data
    {
      hide Window, EncodeData;
      ghost var e := Emission(txSeqNr, (rxSeqExpected - 1) % RING, Item(header, chunk, fin));
      pkt := EncodeData(txSeqNr, (rxSeqExpected - 1) % RING, header, chunk, fin);
      WindowPush(txBuffer[..], txReadIndex, txWriteIndex, TxPacket(pkt, txSeqNr));

      ghost var before := txBuffer[..];
      txBuffer[txWriteIndex] := TxPacket(pkt, txSeqNr);
      assert txBuffer[..] == before[txWriteIndex := TxPacket(pkt, txSeqNr)];
      txWriteIndex := (txWriteIndex + 1) % SLOTS;
      if txWriteIndex == txReadIndex {
        assert false;
      }

      txSeqNr := (txSeqNr + 1) % RING;
      hist := hist.(sent := hist.sent + [e], unacked := hist.unacked + 1);
      if fin {
        finPending := true;
        retransmitAttempts := 0;
      }
    }

    /** The first turn of a transfer with a header: the header travels with the first chunk. */
    method CutFirst() returns (pkt: seq<byte>)
      requires Sound() && Core(Abs()) && Spec.InFlight(Abs()) < SEND_WINDOW
      requires transfer.View? && transfer.offset == 0 && |transfer.header| > 0
      modifies this, txBuffer
      ensures Sound() && old(NextItem(Abs())).Some? && Abs() == old(PumpOne(Abs()))
      ensures Buffers() <= old(Buffers())
      ensures pkt == Slot(hist.sent[|old(hist.sent)|]).data
    {
      hide Window, Slot, Core, Push, Spec.InFlight, NextItem, PumpOne;
      ghost var st := Abs();
      var firstDataMax := transfer.maxChunk;
      if |transfer.header| < MAX_DATA_PAYLOAD {
        if MAX_DATA_PAYLOAD - |transfer.header| < firstDataMax {
          firstDataMax := MAX_DATA_PAYLOAD - |transfer.header|;
        }
      }
      var chunkSize := firstDataMax;
      if chunkSize > transfer.len {
        chunkSize := transfer.len;
      }
      var fin := chunkSize >= transfer.len;
      SliceOfPrefix(transfer.data, transfer.len, 0, chunkSize);
      FirstTurn(st, chunkSize, fin);
      pkt := PackDataPacket(transfer.header, transfer.data[..chunkSize], fin);
      transfer := transfer.(offset := chunkSize);
      if fin {
        ClearTransfer();
      }
    }

    /** Every other turn: the next maxChunk bytes, or what is left. */
    method CutNext() returns (pkt: seq<byte>)
      requires Sound() && Core(Abs()) && Spec.InFlight(Abs()) < SEND_WINDOW
      requires transfer.View? && (transfer.offset > 0 || transfer.header == []) && transfer.offset < transfer.len
      modifies this, txBuffer
      ensures Sound() && old(NextItem(Abs())).Some? && Abs() == old(PumpOne(Abs()))
      ensures Buffers() <= old(Buffers())
      ensures pkt == Slot(hist.sent[|old(hist.sent)|]).data
    {
      hide Window, Slot, Core, Push, Spec.InFlight, NextItem, PumpOne;
      ghost var st := Abs();
      var chunkSize := transfer.maxChunk;
      if transfer.offset + chunkSize > transfer.len {
        chunkSize := transfer.len - transfer.offset;
      }
      var fin := transfer.offset + chunkSize >= transfer.len;
      var chunk := transfer.data[transfer.offset..transfer.offset + chunkSize];
      SliceOfPrefix(transfer.data, transfer.len, transfer.offset, transfer.offset + chunkSize);
      NextTurn(st, chunkSize, fin);
      transfer := transfer.(offset := transfer.offset + chunkSize);
      if fin {
        ClearTransfer();
      }
      pkt := PackDataPacket([], chunk, fin);
    }

    /** The send loop. */
    method SendChunks() returns (batch: seq<seq<byte>>)
      requires Sound() && Core(Abs())
      modifies this, txBuffer
      ensures Sound() && Abs() == Pump(old(Abs()))
      ensures old(hist.sent) <= hist.sent && batch == Built(old(Abs()), Abs())
      ensures Buffers() <= old(Buffers())
    {
      hide Window, Slot, Core, Push, Advance, Pump, Remaining, Built;
      ghost var start := Abs();
      batch := [];
      BuiltNothing(start);
      while transfer.View? && InFlight() < SEND_WINDOW
        invariant Sound() && Core(Abs())
        invariant Buffers() <= old(Buffers())
        invariant Pump(Abs()) == Pump(start)
        invariant start.hist.sent <= hist.sent && batch == Built(start, Abs())
        decreases Left(TransferNow())
      {
        ghost var st := Abs();
        var pkt;
        if transfer.offset == 0 && |transfer.header| > 0 {
          pkt := CutFirst();
        } else if transfer.offset >= transfer.len {
          PumpNothing(start, st);
          ClearTransfer();
          break;
        } else {
          pkt := CutNext();
        }
        batch := batch + [pkt];
        TurnDone(start, st, Abs());
      }
      PumpStops(Abs());
    }

    /** handleTransfer: send what the window allows as one batch, then set the timer. */
    method HandleTransfer()
      requires Sound() && Core(Abs())
      modifies this, txBuffer
      ensures Sound() && Abs() == Spec.HandleTransfer(old(Abs()))
      ensures Buffers() <= old(Buffers())
    {
      hide Window, EncodeData, Core, Pump, UpdateTimer;
      var batch := SendChunks();
      assert hist.wire + [] == hist.wire;
      if |batch| > 0 {
        hist := hist.(wire := hist.wire + batch);
      }
      UpdateAckTimer();
    }

    method ResetSendState()
      requires Sound()
      modifies this`txReadIndex, this`txWriteIndex, this`ackTimerSeq, this`ackWaitMode
      modifies this`retransmitAttempts, this`finPending
      ensures Sound() && Abs() == Spec.ResetSendState(old(Abs()))
    {
      txReadIndex := 0;
      txWriteIndex := 0;
      StopAckTimer();
      retransmitAttempts := 0;
      finPending := false;
      WindowEmpty(txBuffer[..], 0, 0);
    }

    /** Abandon whatever was outstanding and point the transfer at the caller's buffer. */
    method Begin(header: seq<byte>, data: array<byte>, n: nat, maxChunk: nat)
      requires Sound() && n <= data.Length && (n == 0 || maxChunk >= 1)
      modifies this
      ensures Sound() && Abs() == Spec.Begin(old(Abs()), header, data[..n], maxChunk)
      ensures Buffers() == {data}
    {
      hide Window;
      ResetSendState();
      transfer := View(header, data, n, 0, maxChunk);
      hist := hist.(job := Job(header, data[..n], maxChunk, |hist.sent|));
    }

    /** SendData: one message with FIN. */
    method SendData(payload: array<byte>)
      requires Ready() && FitsSlots(Plan([], payload[..], payload.Length))
      modifies this, txBuffer
      ensures Valid() && Abs() == StartTransfer(old(Abs()), [], payload[..], payload.Length)
      ensures Buffers() <= {payload}
    {
      hide Window, Spec.Begin, Spec.HandleTransfer, Core, Inv, Numbered, Bounded, InEpochs, Written;
      assert payload[..payload.Length] == payload[..];
      BeginCore(Abs(), [], payload[..], payload.Length);
      StartTransferKeeps(Abs(), [], payload[..], payload.Length);
      Begin([], payload, payload.Length, payload.Length);
      HandleTransfer();
    }

    /** SendRawDataWithHeader: a reply of header plus the first n bytes of the caller's buffer. */
    method SendRawDataWithHeader(header: seq<byte>, data: array<byte>, n: nat)
      requires Ready() && n <= data.Length && FitsSlots(Plan(header, data[..n], MAX_DATA_PAYLOAD))
      modifies this, txBuffer
      ensures Valid() && Abs() == StartTransfer(old(Abs()), header, data[..n], MAX_DATA_PAYLOAD)
      ensures Buffers() <= {data}
    {
      hide Window, Spec.Begin, Spec.HandleTransfer, Core, Inv, Numbered, Bounded, InEpochs, Written;
      BeginCore(Abs(), header, data[..n], MAX_DATA_PAYLOAD);
      StartTransferKeeps(Abs(), header, data[..n], MAX_DATA_PAYLOAD);
      var maxChunk := OptimalChunkSize(n);
      Begin(header, data, n, maxChunk);
      HandleTransfer();
    }

    /** sendACK and SendACK. */
    method SendACK(ack: bool)
      requires Sound()
      modifies this`hist
      ensures Sound() && Abs() == SendControl(old(Abs()), ack)
    {
      hide EncodeControl;
      var seqAck := (rxSeqExpected - 1) % RING;
      if !ack {
        seqAck := rxSeqExpected;
      }
      var pkt := EncodeControl(txSeqNr, seqAck, ack);
      hist := hist.(wire := hist.wire + [pkt]);
    }

    // ----- Acknowledgements -----

    method PruneAcked(seqNrAck: Seq12)
      requires Sound()
      modifies this`txReadIndex
      ensures Sound() && Live() == Prune(old(Live()), seqNrAck)
    {
      hide Window;
      WindowEmpty(txBuffer[..], txReadIndex, txWriteIndex);
      while txReadIndex != txWriteIndex
        invariant Sound()
        invariant Prune(Live(), seqNrAck) == Prune(old(Live()), seqNrAck)
        invariant Live() == [] <==> txReadIndex == txWriteIndex
        decreases |Live()|
      {
        WindowPop(txBuffer[..], txReadIndex, txWriteIndex);
        var p := txBuffer[txReadIndex];
        if (p.nr - seqNrAck - 1) % RING < HALF_RING {
          break;
        }
        ghost var live := Live();
        txReadIndex := (txReadIndex + 1) % SLOTS;
        assert live[1..] == Live();
        WindowEmpty(txBuffer[..], txReadIndex, txWriteIndex);
      }
    }

    method RetransmitFrom(fromSeq: Seq12) returns (sent: nat)
      requires Sound()
      modifies this`hist
      ensures Sound() && Abs() == Write(old(Abs()), Resend(Live(), fromSeq))
      ensures sent == |Resend(Live(), fromSeq)|
    {
      hide Window, Resend;
      var batch: seq<seq<byte>> := [];
      var i: Index := txReadIndex;
      ghost var live, rest := Live(), Live();
      WindowEmpty(txBuffer[..], i, txWriteIndex);
      while i != txWriteIndex
        invariant hist == old(hist) && live == Live()
        invariant rest == Window(txBuffer[..], i, txWriteIndex)
        invariant batch + Resend(rest, fromSeq) == Resend(live, fromSeq)
        invariant rest == [] <==> i == txWriteIndex
        decreases |rest|
      {
        WindowPop(txBuffer[..], i, txWriteIndex);
        var p := txBuffer[i];
        var next: Index := (i + 1) % SLOTS;
        ghost var tail := Window(txBuffer[..], next, txWriteIndex);
        ResendTurn(batch, rest, p, tail, fromSeq);
        var diff := (p.nr - fromSeq) % RING;
        if diff >= HALF_RING {
          break;
        }
        if p.nr != (fromSeq - 1) % RING {
          batch := batch + [p.data];
        }
        i, rest := next, tail;
        WindowEmpty(txBuffer[..], i, txWriteIndex);
      }
      ResendNothing(fromSeq);
      assert batch == Resend(live, fromSeq);
      if |batch| > 0 {
        hist := hist.(wire := hist.wire + batch);
      } else {
        assert hist.wire == hist.wire + batch;
      }
      sent := |batch|;
    }

    method TakeAck(seqNrAck: Seq12)
      requires Sound()
      modifies this`txSeqNrAcked, this`txReadIndex, this`retransmitAttempts, this`hist
      ensures Sound() && Abs() == Spec.TakeAck(old(Abs()), seqNrAck)
    {
      hide Window, Prune;
      txSeqNrAcked := seqNrAck;
      PruneAcked(seqNrAck);
      retransmitAttempts := 0;
      hist := hist.(unacked := (txSeqNr - seqNrAck - 1) % RING);
    }

    method OnAck(seqNrAck: Seq12)
      requires Sound()
      modifies this
      ensures Sound() && Abs() == Spec.OnAck(old(Abs()), seqNrAck)
      ensures Buffers() == old(Buffers())
    {
      hide Window, Spec.TakeAck, UpdateTimer, Gap;
      WindowEmpty(txBuffer[..], txReadIndex, txWriteIndex);
      if txReadIndex == txWriteIndex {
        return;
      }
      var lastSent := (txSeqNr - 1) % RING;
      if !SeqBetween(txSeqNrAcked, seqNrAck, lastSent) {
        return;
      }
      TakeAck(seqNrAck);
      if seqNrAck == lastSent {
        StopAckTimer();
        finPending := false;
        return;
      }
      UpdateAckTimer();
    }

    method OnPeerAck(seqNr: Seq12)
      requires Valid()
      modifies this, txBuffer
      ensures Valid() && Abs() == Spec.OnPeerAck(old(Abs()), seqNr)
      ensures Buffers() <= old(Buffers())
    {
      hide Window, Spec.OnAck, Spec.HandleTransfer, Core, Waits, Armed, Written, InEpochs;
      OnAckKeeps(Abs(), seqNr);
      OnPeerAckKeeps(Abs(), seqNr);
      OnAck(seqNr);
      if transfer.View? {
        HandleTransfer();
      }
    }

    method OnPeerNack(seqNr: Seq12)
      requires Valid()
      modifies this
      ensures Valid() && Abs() == Spec.OnPeerNack(old(Abs()), seqNr)
      ensures Buffers() == old(Buffers())
    {
      hide Window, Resend, UpdateTimer, Inv;
      OnPeerNackKeeps(Abs(), seqNr);
      retransmitAttempts := 0;
      var sent := RetransmitFrom(seqNr);
      UpdateAckTimer();
    }

    // ----- Timeouts -----

    method HandleAckTimeout()
      requires Sound()
      modifies this
      ensures Sound() && Abs() == HandleTimeout(old(Abs()))
      ensures Buffers() <= old(Buffers())
    {
      hide Window, Resend, Gap, Spec.GiveUp, ArmTimer;
      var waitingFin := finPending;
      var waitingWindow := !finPending && transfer.View? && InFlight() >= SEND_WINDOW;
      if !waitingFin && !waitingWindow {
        StopAckTimer();
        return;
      }
      retransmitAttempts := retransmitAttempts + 1;
      var from := (txSeqNrAcked + 1) % RING;
      var sent := RetransmitFrom(from);
      if retransmitAttempts < MAX_RETRANSMITS {
        ArmAckTimer();
        return;
      }
      GiveUp(waitingFin);
    }

    method GiveUp(waitingFin: bool)
      requires Sound() && waitingFin == finPending
      modifies this
      ensures Sound() && Abs() == Spec.GiveUp(old(Abs()))
      ensures Buffers() <= old(Buffers())
    {
      hide Window;
      if waitingFin {
        finPending := false;
      } else {
        ClearTransfer();
      }
      StopAckTimer();
      retransmitAttempts := 0;
    }

    /** The timer runs on its own: it may fire while the caller is overwriting the buffer of the transfer. */
    method AckTimerFunc()
      requires Ready()
      modifies this
      ensures Ready() && Abs() == Fire(old(Abs())) && (old(Valid()) ==> Valid())
      ensures hist.sent == old(hist.sent) && hist.job == old(hist.job)
      ensures Buffers() <= old(Buffers())
    {
      hide Window, HandleTimeout, Inv, Numbered, Bounded, InEpochs, Written;
      FireKeepsReady(Abs());
      if Inv(Abs()) {
        FireKeeps(Abs());
      }
      if closed || ackWaitMode == NoWait || ackTimerExpectSeq != ackTimerSeq {
        return;
      }
      ackWaitMode := NoWait;
      HandleAckTimeout();
    }

    // ----- Receiving -----

    method ResetSession()
      requires Sound()
      modifies this
      ensures Sound() && Abs() == Spec.ResetSession(old(Abs()))
      ensures Buffers() == {}
    {
      hide Window;
      ResetSendState();
      txSeqNr := 0;
      txSeqNrAcked := 0xFFF;
      rxSeqExpected := 0;
      ClearTransfer();
      hist := hist.(sent := [], unacked := 0, job := Job([], [], 0, 0), epochs := hist.epochs + [[]]);
    }

    /** The tail shared by all numbered packets: answer, then use the piggybacked ACK. */
    method Answer(ack: bool, isAck: bool, nr: Seq12)
      requires Valid()
      modifies this, txBuffer
      ensures Valid() && Abs() == AckIf(SendControl(old(Abs()), ack), isAck, nr)
      ensures Buffers() <= old(Buffers())
    {
      hide Window, Spec.OnPeerAck, Inv;
      SendControlKeeps(Abs(), ack);
      SendACK(ack);
      if isAck {
        OnPeerAck(nr);
      }
    }

    /** ProcessDataPacket. The listener drops datagrams that cannot hold both headers. */
    method ProcessDataPacket(data: seq<byte>) returns (reply: Reply)
      requires Valid() && HoldsHeaders(data)
      modifies this, txBuffer
      ensures Valid() && Abs() == Process(old(Abs()), Decode(data))
      ensures reply == ReplyTo(old(Abs()), Decode(data))
      ensures Buffers() <= old(Buffers())
    {
      hide Window, Decode, Spec.OnPeerAck, Spec.OnPeerNack, SendControl, Core, Waits, Armed, Written;
      var m := Decode(data);
      match m {
        case Malformed =>
          return Rejected;
        case Control(isAck, nr) =>
          if isAck {
            OnPeerAck(nr);
          } else {
            OnPeerNack(nr);
          }
          return Nothing;
        case Data(seqNr, isAck, nr, _, payload) =>
          DeliverKeeps(Abs(), seqNr, payload);
          if seqNr != rxSeqExpected {
            var prevSeq := (rxSeqExpected - 1) % RING;
            if seqNr == prevSeq {
              var retransmit := transfer.View?;
              var retransmitFrom := (txSeqNrAcked + 1) % RING;
              Answer(true, isAck, nr);
              if retransmit {
                OnPeerNack(retransmitFrom);
              }
              return Nothing;
            }
            if seqNr == 0 {
              ResetSession();
            } else {
              Answer(false, isAck, nr);
              return Nothing;
            }
          }
          RecordDelivery(seqNr, payload);
          Answer(true, isAck, nr);
          return Delivered(payload);
      }
    }

    method RecordDelivery(seqNr: Seq12, payload: seq<byte>)
      requires Sound() && hist.epochs != []
      modifies this`rxSeqExpected, this`hist
      ensures Sound() && Abs() == Deliver(old(Abs()), seqNr, payload)
    {
      rxSeqExpected := (seqNr + 1) % RING;
      ghost var last := |hist.epochs| - 1;
      hist := hist.(epochs := hist.epochs[last := hist.epochs[last] + [Delivery(seqNr, payload)]]);
    }

    method Close()
      requires Valid()
      modifies this
      ensures Valid() && Abs() == Spec.Close(old(Abs()))
      ensures Buffers() == old(Buffers())
    {
      hide Window, Inv;
      ApplyKeeps(Abs(), CloseSession);
      if closed {
        return;
      }
      closed := true;
      StopAckTimer();
    }
  }
}
