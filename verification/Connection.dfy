/**
 A UDPFS connection over one session (udpfs/connection.go, the read handlers of
 udpfs/handlers.go). All reads share one buffer, and a long reply is cut from that buffer
 piece by piece as acknowledgements arrive: what keeps a reply intact is that nobody writes to
 the buffer without restarting the transfer before the next piece is cut.
 */
module Connection {
  import opened Basics
  import opened Wire
  import opened Transfers
  import opened SessionSpec
  import opened SessionInv
  import opened SessionTheorems
  import S = Session

  const BUFFER_SIZE := 128 * 1024
  const MSG_RESULT_REPLY: byte := 0x26

  /** What a request handler does, once the file system has answered. */
  datatype Outcome =
    | ReadOk(bytes: seq<byte>)                          // READ and BREAD: the bytes read
    | ReadFailed(errno: int, scribble: seq<byte>)       // an error, after which the buffer may hold anything
    | Message(reply: seq<byte>)                         // every reply sent as one message
    | AckOnly

  /** What the caller and the file system interface guarantee about an outcome. */
  predicate Possible(o: Outcome) {
    match o
    case ReadOk(bytes) => |bytes| <= BUFFER_SIZE
    case ReadFailed(errno, scribble) => 1 <= errno < 256 && |scribble| <= BUFFER_SIZE
    case Message(reply) => Pad4(|reply|) + 6 <= SLOT_SIZE
    case AckOnly => true
  }

  /** Four bytes as a client reads them: little-endian, two's complement. */
  function Signed32(b: seq<byte>): int
    requires |b| == 4
  {
    var b0: int, b1: int, b2: int, b3: int := b[0], b[1], b[2], b[3];
    var v := b0 + 0x100 * b1 + 0x1_0000 * b2 + 0x100_0000 * b3;
    if b3 < 0x80 then v else v - 0x1_0000_0000
  }

  /** A header that tells the client this result: message type 0x26, three zero bytes, a 32-bit integer. */
  predicate TellsResult(header: seq<byte>, result: int) {
    |header| == 8 && header[..4] == [0x26, 0, 0, 0] && Signed32(header[4..]) == result
  }

  function PackResultReply(result: int): (h: seq<byte>)
    requires -0x8000_0000 <= result < 0x8000_0000
    ensures TellsResult(h, result)
  {
    StoredSigned(result);
    [MSG_RESULT_REPLY, 0, 0, 0] + Put32(result % 0x1_0000_0000)
  }

  lemma StoredSigned(result: int)
    requires -0x8000_0000 <= result < 0x8000_0000
    ensures Signed32(Put32(result % 0x1_0000_0000)) == result
  {
    hide Put32;
    var v := result % 0x1_0000_0000;
    LittleEndian(v);
    var p := v / 0x100;
    var q := p / 0x100;
    assert p / 0x100 == v / 0x1_0000 && q / 0x100 == v / 0x100_0000;
    assert v == v % 0x100 + 0x100 * (p % 0x100) + 0x1_0000 * (q % 0x100) + 0x100_0000 * (q / 0x100);
  }

  class Connection {
    const sess: S.Session
    const dataBuffer: array<byte>

    ghost predicate Valid()
      reads this, sess, sess.txBuffer, sess.Buffers()
    {
      sess.Valid() && dataBuffer.Length == BUFFER_SIZE
    }

    constructor (sess: S.Session)
      requires sess.Valid()
      ensures Valid() && this.sess == sess && fresh(dataBuffer)
    {
      this.sess := sess;
      dataBuffer := new byte[BUFFER_SIZE];
    }

    /** The ACK timer fires any number of times, wherever the handler happens to be. */
    method Interrupt()
      requires sess.Ready()
      modifies sess
      ensures sess.Ready() && (old(sess.Valid()) ==> sess.Valid()) && sess.Buffers() <= old(sess.Buffers())
      ensures sess.hist.sent == old(sess.hist.sent) && sess.hist.job == old(sess.hist.job)
    {
      hide S.Window, Inv, Fire, Numbered, Bounded, InEpochs, Written;
      var fires: nat :| fires >= 0;
      for i := 0 to fires
        invariant sess.Ready() && (old(sess.Valid()) ==> sess.Valid()) && sess.Buffers() <= old(sess.Buffers())
        invariant sess.hist.sent == old(sess.hist.sent) && sess.hist.job == old(sess.hist.job)
      {
        sess.AckTimerFunc();
      }
    }

    /**
     The file system writes into the shared buffer, one byte after the other, with the timer free to
     fire in between. The session is no longer valid, but ready for a new send.
     */
    method Fill(bytes: seq<byte>)
      requires sess.Ready() && dataBuffer.Length == BUFFER_SIZE && |bytes| <= BUFFER_SIZE
      modifies sess, dataBuffer
      ensures sess.Ready() && dataBuffer[..|bytes|] == bytes
      ensures sess.hist.sent == old(sess.hist.sent) && sess.Buffers() <= old(sess.Buffers())
    {
      hide S.Window, Slot;
      for i := 0 to |bytes|
        invariant forall j :: 0 <= j < i ==> dataBuffer[j] == bytes[j]
        invariant sess.Ready() && sess.Buffers() <= old(sess.Buffers()) && sess.hist.sent == old(sess.hist.sent)
      {
        StoreByte(i, bytes[i]);
        Interrupt();
      }
      assert dataBuffer[..|bytes|] == bytes;
    }

    method StoreByte(i: nat, b: byte)
      requires sess.Ready() && i < dataBuffer.Length
      modifies dataBuffer
      ensures sess.Ready() && dataBuffer[i] == b
      ensures forall j :: 0 <= j < dataBuffer.Length && j != i ==> dataBuffer[j] == old(dataBuffer[j])
    {
      hide S.Window, Slot;
      ghost var st := sess.Abs();
      dataBuffer[i] := b;
      assert sess.Abs() == st.(transfer := sess.TransferNow());
    }

    /** handleRead and handleBread, with SendReadResult; the timer may fire all along. */
    method HandleRead(o: Outcome)
      requires Valid() && Possible(o) && (o.ReadOk? || o.ReadFailed?)
      modifies sess, sess.txBuffer, dataBuffer
      ensures Valid() && sess.Buffers() <= {dataBuffer}
      ensures var bytes := if o.ReadOk? then o.bytes else [];
              var header := PackResultReply(if o.ReadOk? then |o.bytes| else -o.errno);
              && sess.hist.job == Job(header, bytes, MAX_DATA_PAYLOAD, |old(sess.hist.sent)|)
              && old(sess.hist.sent) <= sess.hist.sent
      ensures TellsResult(sess.hist.job.header, if o.ReadOk? then |o.bytes| else -o.errno)
    {
      hide S.Window, Numbered, Bounded, InEpochs, Written, Inv, StartTransfer, Plan, PackResultReply;
      ValidIsReady();
      var header, n;
      match o {
        case ReadOk(bytes) =>
          Fill(bytes);
          header, n := PackResultReply(|bytes|), |bytes|;
        case ReadFailed(errno, scribble) =>
          Fill(scribble);
          header, n := PackResultReply(-errno), 0;
      }
      Interrupt();
      ghost var data := dataBuffer[..n];
      ReplyLaws(header, data);
      StartTransferJob(sess.Abs(), header, data, MAX_DATA_PAYLOAD);
      sess.SendRawDataWithHeader(header, dataBuffer, n);
    }

    /** A handler finishes: it restarts the transfer, sends a message, or only acknowledges. */
    method HandlePayload(o: Outcome)
      requires Valid() && Possible(o)
      modifies sess, sess.txBuffer, dataBuffer
      ensures Valid()
      ensures o.ReadOk? ==> sess.hist.job.data == o.bytes && TellsResult(sess.hist.job.header, |o.bytes|)
      ensures o.ReadFailed? ==> sess.hist.job.data == [] && TellsResult(sess.hist.job.header, -o.errno)
      ensures o.Message? ==> sess.hist.job == Job([], o.reply, |o.reply|, |old(sess.hist.sent)|)
      ensures o.AckOnly? ==> sess.hist.job == old(sess.hist.job)
    {
      hide S.Window, Inv, StartTransfer, Plan, SendControl, Numbered, Bounded, InEpochs, Written;
      match o {
        case ReadOk(_) => HandleRead(o);
        case ReadFailed(_, _) => HandleRead(o);
        case Message(reply) =>
          var payload := new byte[|reply|](i requires 0 <= i < |reply| => reply[i]);
          assert payload[..] == reply;
          MessageLaws(reply);
          ValidIsReady();
          StartTransferJob(sess.Abs(), [], reply, |reply|);
          sess.SendData(payload);
        case AckOnly =>
          SendControlKeeps(sess.Abs(), true);
          SendControlJob(sess.Abs(), true);
          sess.SendACK(true);
      }
    }

    lemma ValidIsReady()
      requires Valid()
      ensures sess.Ready()
    {
    }

    /** One datagram of the listener: the session step, and a handler if a payload came out of it. */
    method HandleData(data: seq<byte>, o: Outcome)
      requires Valid() && Possible(o) && HoldsHeaders(data)
      modifies sess, sess.txBuffer, dataBuffer
      ensures Valid()
      ensures ReplyTo(old(sess.Abs()), Decode(data)).Delivered? && o.ReadOk? ==>
                sess.hist.job.data == o.bytes && TellsResult(sess.hist.job.header, |o.bytes|)
      ensures ReplyTo(old(sess.Abs()), Decode(data)).Delivered? && o.ReadFailed? ==>
                sess.hist.job.data == [] && TellsResult(sess.hist.job.header, -o.errno)
      ensures !ReplyTo(old(sess.Abs()), Decode(data)).Delivered? ==> sess.hist.job == old(sess.hist.job)
    {
      hide S.Window, Inv, Process, Decode, ReplyTo;
      ProcessJob(sess.Abs(), Decode(data));
      var reply := sess.ProcessDataPacket(data);
      if reply.Delivered? {
        HandlePayload(o);
      }
    }
  }

  lemma SendControlJob(st: State, ack: bool)
    ensures SendControl(st, ack).hist.job == st.hist.job
  {
  }

  /** Without a delivery there is no peer reset, and the transfer in progress stays the same transfer. */
  lemma ProcessJob(st: State, m: Inbound)
    requires Inv(st)
    ensures !ReplyTo(st, m).Delivered? ==> Process(st, m).hist.job == st.hist.job
  {
    hide OnPeerAck, SendControl, Resend;
    if m.Control? {
      OnPeerAckFrame(st, m.nr);
    } else if m.Data? && !ReplyTo(st, m).Delivered? {
      var ack := Classify(st.rxExpected, m.seqNr) == Repeat;
      SendControlKeeps(st, ack);
      SendControlJob(st, ack);
      OnPeerAckFrame(SendControl(st, ack), m.nr);
    }
  }

  lemma StartTransferJob(st: State, header: seq<byte>, data: seq<byte>, maxChunk: nat)
    requires Numbered(st) && Bounded(st)
    requires (data == [] || maxChunk >= 1) && FitsSlots(Plan(header, data, maxChunk))
    ensures var r := StartTransfer(st, header, data, maxChunk);
            r.hist.job == Job(header, data, maxChunk, |st.hist.sent|) && st.hist.sent <= r.hist.sent
  {
    hide Numbered, Bounded, Pump, Plan, Slot;
    BeginCore(st, header, data, maxChunk);
    var b := Begin(st, header, data, maxChunk);
    PumpKeeps(b);
    PumpGrows(b);
  }
}
