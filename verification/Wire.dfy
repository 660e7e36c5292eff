/**
 The UDPRDMA wire format (udprdma/protocol.go): the two little-endian headers, the DATA
 and control packets a session builds, and the reading of an inbound packet.
 */
module Wire {
  import opened Basics

  /** A 12-bit sequence number. */
  type Seq12 = x: int | 0 <= x < RING

  const RING := 4096
  const HALF_RING := 2048
  const SEND_WINDOW := 8
  const MAX_DATA_PAYLOAD := 1408
  const MAX_RETRANSMITS := 4
  const SLOT_SIZE := 1500

  const PACKET_DATA: byte := 2
  const FLAG_ACK: byte := 1
  const FLAG_FIN: byte := 2

  datatype Header = Header(packetType: byte, seqNr: uint16)

  datatype DataHeader = DataHeader(seqNrAck: uint16, flags: byte, hdrWordCount: byte, dataByteCount: uint16)

  /** Little-endian 16- and 32-bit stores and loads. */
  function Put16(val: int): (b: seq<byte>)
    requires 0 <= val < 0x1_0000
    ensures |b| == 2
  {
    [val % 0x100, val / 0x100]
  }

  function Get16(b: seq<byte>): (val: int)
    requires |b| == 2
    ensures 0 <= val < 0x1_0000
  {
    var hi: int := b[1];
    b[0] + hi * 0x100
  }

  function Put32(val: int): (b: seq<byte>)
    requires 0 <= val < 0x1_0000_0000
    ensures |b| == 4
  {
    Put16(val % 0x1_0000) + Put16(val / 0x1_0000)
  }

  function Get32(b: seq<byte>): (val: int)
    requires |b| == 4
    ensures 0 <= val < 0x1_0000_0000
  {
    Get16(b[..2]) + Get16(b[2..]) * 0x1_0000
  }

  lemma Load16(val: int)
    requires 0 <= val < 0x1_0000
    ensures Get16(Put16(val)) == val
  {
  }

  lemma Load32(val: int)
    requires 0 <= val < 0x1_0000_0000
    ensures Get32(Put32(val)) == val
  {
    var lo, hi := val % 0x1_0000, val / 0x1_0000;
    Load16(lo);
    Load16(hi);
    assert Put32(val)[..2] == Put16(lo) && Put32(val)[2..] == Put16(hi);
  }

  lemma Store16(b: seq<byte>)
    requires |b| == 2
    ensures Put16(Get16(b)) == b
  {
    var lo, hi: int := b[0], b[1];
    assert (lo + hi * 0x100) % 0x100 == lo && (lo + hi * 0x100) / 0x100 == hi;
  }

  lemma Store32(b: seq<byte>)
    requires |b| == 4
    ensures Put32(Get32(b)) == b
  {
    var lo, hi := Get16(b[..2]), Get16(b[2..]);
    Store16(b[..2]);
    Store16(b[2..]);
    assert (lo + hi * 0x1_0000) % 0x1_0000 == lo && (lo + hi * 0x1_0000) / 0x1_0000 == hi;
  }

  /** Stores put the low byte first. */
  lemma LittleEndian(val: int)
    ensures 0 <= val < 0x1_0000 ==> Put16(val) == [val % 0x100, val / 0x100]
    ensures 0 <= val < 0x1_0000_0000 ==>
              Put32(val) == [val % 0x100, val / 0x100 % 0x100, val / 0x1_0000 % 0x100, val / 0x100_0000]
  {
    if 0 <= val < 0x1_0000_0000 {
      FourBytes(val);
    }
  }

  /** The bytes of the low and the high half of a 32-bit value are its bytes. */
  lemma FourBytes(val: nat)
    ensures var lo, hi := val % 0x1_0000, val / 0x1_0000;
            lo % 0x100 == val % 0x100 && lo / 0x100 == val / 0x100 % 0x100 && hi / 0x100 == val / 0x100_0000
  {
    var lo, hi := val % 0x1_0000, val / 0x1_0000;
    var l0, l1, h0, h1 := lo % 0x100, lo / 0x100, hi % 0x100, hi / 0x100;
    assert val == l0 + (l1 + hi * 0x100) * 0x100;
    LowField(l0, l1 + hi * 0x100, 0x100);
    LowField(l1, hi, 0x100);
    assert val == (lo + h0 * 0x1_0000) + h1 * 0x100_0000;
    LowField(lo + h0 * 0x1_0000, h1, 0x100_0000);
  }

  /** The fields of the two headers, laid out in one integer. */
  function HeaderBits(h: Header): (val: int)
    ensures 0 <= val < 0x1_0000
  {
    h.packetType % 16 + h.seqNr % 4096 * 16
  }

  function HeaderFields(val: int): (h: Header)
    requires 0 <= val < 0x1_0000
  {
    Header(val % 16, val / 16 % 4096)
  }

  function DataHeaderBits(d: DataHeader): (val: int)
    ensures 0 <= val < 0x1_0000_0000
  {
    d.seqNrAck % 4096 + d.flags % 4 * 0x1000 + d.hdrWordCount % 16 * 0x4000 + d.dataByteCount % 16384 * 0x4_0000
  }

  function DataHeaderFields(val: int): (d: DataHeader)
    requires 0 <= val < 0x1_0000_0000
  {
    DataHeader(val % 4096, val / 0x1000 % 4, val / 0x4000 % 16, val / 0x4_0000 % 16384)
  }

  function PackHeader(h: Header): (b: seq<byte>)
    ensures |b| == 2
  {
    Put16(HeaderBits(h))
  }

  function UnpackHeader(b: seq<byte>): Option<Header> {
    if |b| < 2 then None else Some(HeaderFields(Get16(b[..2])))
  }

  function PackDataHeader(d: DataHeader): (b: seq<byte>)
    ensures |b| == 4
  {
    Put32(DataHeaderBits(d))
  }

  function UnpackDataHeader(b: seq<byte>): Option<DataHeader> {
    if |b| < 4 then None else Some(DataHeaderFields(Get32(b[..4])))
  }

  /** Packing keeps the low bits of each field, and nothing leaks into a neighbour. */
  lemma HeaderRoundTrip(h: Header)
    ensures UnpackHeader(PackHeader(h)) == Some(Header(h.packetType % 16, h.seqNr % 4096))
    ensures h.packetType < 16 && h.seqNr < 4096 ==> UnpackHeader(PackHeader(h)) == Some(h)
  {
    hide HeaderBits, HeaderFields, Put16, Get16;
    HeaderBitsFields(h);
    assert PackHeader(h)[..2] == PackHeader(h);
    Load16(HeaderBits(h));
  }

  lemma HeaderBitsFields(h: Header)
    ensures HeaderFields(HeaderBits(h)) == Header(h.packetType % 16, h.seqNr % 4096)
  {
    var t, n := h.packetType % 16, h.seqNr % 4096;
    assert (t + n * 16) % 16 == t && (t + n * 16) / 16 == n;
  }

  lemma HeaderRoundTripBack(b: seq<byte>)
    requires 2 <= |b|
    ensures PackHeader(UnpackHeader(b).value) == b[..2]
  {
    var val := Get16(b[..2]);
    assert HeaderBits(HeaderFields(val)) == val;
    Store16(b[..2]);
  }

  lemma DataHeaderRoundTrip(d: DataHeader)
    ensures UnpackDataHeader(PackDataHeader(d)) ==
            Some(DataHeader(d.seqNrAck % 4096, d.flags % 4, d.hdrWordCount % 16, d.dataByteCount % 16384))
  {
    Load32(DataHeaderBits(d));
    DataHeaderBitsFields(d);
    assert PackDataHeader(d)[..4] == PackDataHeader(d);
  }

  lemma DataHeaderExact(d: DataHeader)
    requires d.seqNrAck < 4096 && d.flags < 4 && d.hdrWordCount < 16 && d.dataByteCount < 16384
    ensures UnpackDataHeader(PackDataHeader(d)) == Some(d)
  {
    hide *;
    DataHeaderRoundTrip(d);
  }

  lemma DataHeaderRoundTripBack(b: seq<byte>)
    requires 4 <= |b|
    ensures PackDataHeader(UnpackDataHeader(b).value) == b[..4]
  {
    DataHeaderFieldsBits(Get32(b[..4]));
    Store32(b[..4]);
  }

  lemma DataHeaderBitsFields(d: DataHeader)
    ensures DataHeaderFields(DataHeaderBits(d)) ==
            DataHeader(d.seqNrAck % 4096, d.flags % 4, d.hdrWordCount % 16, d.dataByteCount % 16384)
  {
    var a, f, w, n := d.seqNrAck % 4096, d.flags % 4, d.hdrWordCount % 16, d.dataByteCount % 16384;
    LowField(a, f + w * 4 + n * 64, 0x1000);
    LowField(a + f * 0x1000, w + n * 16, 0x4000);
    LowField(a + f * 0x1000 + w * 0x4000, n, 0x4_0000);
    LowField(f, w + n * 16, 4);
    LowField(w, n, 16);
    ModId(n, 16384);
    assert DataHeaderBits(d) == a + (f + w * 4 + n * 64) * 0x1000;
    assert DataHeaderBits(d) == (a + f * 0x1000) + (w + n * 16) * 0x4000;
    assert DataHeaderBits(d) == (a + f * 0x1000 + w * 0x4000) + n * 0x4_0000;
  }

  /** A low field below a multiple of m is the remainder, and the rest the quotient. */
  lemma LowField(lo: nat, hi: nat, m: nat)
    requires lo < m
    ensures (lo + hi * m) / m == hi && (lo + hi * m) % m == lo
  {
    DivIs(lo + hi * m, m, hi);
  }

  lemma ModId(x: nat, m: nat)
    requires x < m
    ensures x % m == x
  {
  }

  lemma DataHeaderFieldsBits(val: int)
    requires 0 <= val < 0x1_0000_0000
    ensures DataHeaderBits(DataHeaderFields(val)) == val
  {
    var p := val / 0x1000;
    var q := p / 4;
    var r := q / 16;
    var a, f, w := val % 0x1000, p % 4, q % 16;
    assert val == a + p * 0x1000 && p == f + q * 4 && q == w + r * 16;
    LowField(a + f * 0x1000, q, 0x4000);
    LowField(a + f * 0x1000 + w * 0x4000, r, 0x4_0000);
    ModId(a, 4096);
    ModId(f, 4);
    ModId(w, 16);
    ModId(r, 16384);
  }

  /**
   Where the fields of the header lie: the packet type in the low half of the first byte, the number in the
   twelve bits above it.
   */
  lemma HeaderLayout(h: Header)
    ensures PackHeader(h) == [h.packetType % 16 + h.seqNr % 16 * 16, h.seqNr / 16 % 256]
  {
    hide HeaderBits, Put16;
    HeaderSum(h);
    LowField(h.packetType % 16 + h.seqNr % 16 * 16, h.seqNr / 16 % 256, 0x100);
    LittleEndian(HeaderBits(h));
  }

  lemma HeaderSum(h: Header)
    ensures HeaderBits(h) == (h.packetType % 16 + h.seqNr % 16 * 16) + h.seqNr / 16 % 256 * 0x100
  {
    var n, k := h.seqNr % 4096, h.seqNr / 4096;
    var a, b := n % 16, n / 16;
    assert h.seqNr == a + (b + k * 256) * 16;
    LowField(a, b + k * 256, 16);
    LowField(b, k, 256);
  }

  /**
   Where the fields of the data header lie, from the low end: twelve bits for the acknowledged number, two for
   the flags, four for the header words, fourteen for the data bytes.
   */
  lemma DataHeaderLayout(d: DataHeader)
    ensures var a, f, w, n := d.seqNrAck % 4096, d.flags % 4, d.hdrWordCount % 16, d.dataByteCount % 16384;
            PackDataHeader(d) == [a % 256, a / 256 + f * 16 + w % 4 * 64, w / 4 + n % 64 * 4, n / 64]
  {
    var a, f, w, n := d.seqNrAck % 4096, d.flags % 4, d.hdrWordCount % 16, d.dataByteCount % 16384;
    var b0, b1, b2, b3 := a % 256, a / 256 + f * 16 + w % 4 * 64, w / 4 + n % 64 * 4, n / 64;
    assert DataHeaderBits(d) == (b0 + b1 * 0x100) + (b2 + b3 * 0x100) * 0x1_0000;
    LowField(b0 + b1 * 0x100, b2 + b3 * 0x100, 0x1_0000);
    LowField(b0, b1, 0x100);
    LowField(b2, b3, 0x100);
  }

  /** (n + 3) & ^3 : round up to a multiple of four. */
  function Pad4(n: nat): (r: nat)
    ensures r % 4 == 0 && n <= r < n + 4
  {
    (n + 3) / 4 * 4
  }

  function Zeros(n: nat): (z: seq<byte>) {
    seq(n, i => 0)
  }

  /** The payload bytes of a DATA packet: application header, chunk, zero padding. */
  function Payload(header: seq<byte>, chunk: seq<byte>): (p: seq<byte>)
    ensures |p| == |header| + Pad4(|chunk|)
  {
    header + chunk + Zeros(Pad4(|chunk|) - |chunk|)
  }

  /** The bytes of a DATA packet, as packDataPacket lays them out in a ring slot. */
  function EncodeData(seqNr: Seq12, ackNr: Seq12, header: seq<byte>, chunk: seq<byte>, fin: bool): (b: seq<byte>)
    ensures |b| == 6 + |header| + Pad4(|chunk|)
  {
    PackHeader(Header(PACKET_DATA, seqNr)) +
    PackDataHeader(DataHeader(ackNr, if fin then FLAG_ACK + FLAG_FIN else FLAG_ACK,
                              |header| / 4 % 0x100, Pad4(|chunk|) % 0x1_0000)) +
    Payload(header, chunk)
  }

  /** The bytes of an ACK or NACK, as sendACK builds them. */
  function EncodeControl(seqNr: Seq12, nr: Seq12, ack: bool): (b: seq<byte>)
    ensures |b| == 6
  {
    PackHeader(Header(PACKET_DATA, seqNr)) +
    PackDataHeader(DataHeader(nr, if ack then FLAG_ACK else 0, 0, 0))
  }

  /** How a session reads a datagram; a payload-free packet is pure control. */
  datatype Inbound =
    | Malformed
    | Control(isAck: bool, nr: Seq12)
    | Data(seqNr: Seq12, isAck: bool, nr: Seq12, fin: bool, payload: seq<byte>)

  function Interpret(h: Header, d: DataHeader, rest: seq<byte>): (r: Inbound)
    requires h.seqNr < 4096 && d.seqNrAck < 4096
    ensures r.Data? ==> r.payload != []
  {
    if h.packetType != PACKET_DATA then Malformed
    else
      var declared: int := (d.hdrWordCount as int) * 4 + d.dataByteCount;
      var payloadSize := if declared > |rest| then |rest| else declared;
      if payloadSize == 0 then Control(d.flags % 2 == 1, d.seqNrAck)
      else Data(h.seqNr, d.flags % 2 == 1, d.seqNrAck, d.flags / 2 % 2 == 1, rest[..payloadSize])
  }

  function Decode(data: seq<byte>): (r: Inbound)
    ensures r.Data? ==> r.payload != []
  {
    if |data| < 6 then Malformed
    else Interpret(UnpackHeader(data).value, UnpackDataHeader(data[2..6]).value, data[6..])
  }

  /** A DATA packet must hold both headers; anything else is refused by its type or its length. */
  predicate HoldsHeaders(data: seq<byte>) {
    |data| < 2 || |data| >= 6 || UnpackHeader(data).value.packetType != PACKET_DATA
  }

  /** What the four-bit word count and the fourteen-bit byte count can describe. */
  predicate Describable(header: seq<byte>, chunk: seq<byte>) {
    |header| % 4 == 0 && |header| < 64 && Pad4(|chunk|) < 16384 && |header| + |chunk| > 0
  }

  /** Reading a built DATA packet gives back its number, flags and payload exactly. */
  lemma DecodeEncodeData(seqNr: Seq12, ackNr: Seq12, header: seq<byte>, chunk: seq<byte>, fin: bool)
    requires Describable(header, chunk)
    ensures Decode(EncodeData(seqNr, ackNr, header, chunk, fin)) ==
            Data(seqNr, true, ackNr, fin, Payload(header, chunk))
  {
    hide PackHeader, PackDataHeader, Decode, Interpret, Payload;
    var h := Header(PACKET_DATA, seqNr);
    var d := DataHeader(ackNr, if fin then FLAG_ACK + FLAG_FIN else FLAG_ACK,
                        |header| / 4 % 0x100, Pad4(|chunk|) % 0x1_0000);
    DecodePacked(h, d, Payload(header, chunk));
    InterpretWhole(h, d, Payload(header, chunk));
  }

  lemma InterpretWhole(h: Header, d: DataHeader, payload: seq<byte>)
    requires h.packetType == PACKET_DATA && h.seqNr < 4096 && d.seqNrAck < 4096
    requires (d.hdrWordCount as int) * 4 + d.dataByteCount == |payload| > 0
    ensures Interpret(h, d, payload) == Data(h.seqNr, d.flags % 2 == 1, d.seqNrAck, d.flags / 2 % 2 == 1, payload)
  {
    assert payload[..|payload|] == payload;
  }

  /** The two headers of a built DATA packet, field by field, and its bytes behind them. */
  lemma DataPacketLayout(seqNr: Seq12, ackNr: Seq12, header: seq<byte>, chunk: seq<byte>, fin: bool)
    requires Describable(header, chunk)
    ensures var b := EncodeData(seqNr, ackNr, header, chunk, fin);
            && UnpackHeader(b) == Some(Header(2, seqNr))
            && UnpackDataHeader(b[2..6]) == Some(DataHeader(ackNr, if fin then 3 else 1, |header| / 4, Pad4(|chunk|)))
            && b[6..] == header + chunk + Zeros(Pad4(|chunk|) - |chunk|)
  {
    hide PackHeader, PackDataHeader, Payload, UnpackDataHeader;
    var h := Header(PACKET_DATA, seqNr);
    var d := DataHeader(ackNr, if fin then FLAG_ACK + FLAG_FIN else FLAG_ACK,
                        |header| / 4 % 0x100, Pad4(|chunk|) % 0x1_0000);
    var b := EncodeData(seqNr, ackNr, header, chunk, fin);
    HeaderRoundTrip(h);
    DataHeaderExact(d);
    assert b[..2] == PackHeader(h) == PackHeader(h)[..2];
    assert b[2..6] == PackDataHeader(d) && b[6..] == Payload(header, chunk);
    PayloadIs(header, chunk);
  }

  lemma PayloadIs(header: seq<byte>, chunk: seq<byte>)
    ensures Payload(header, chunk) == header + chunk + Zeros(Pad4(|chunk|) - |chunk|)
  {
  }

  /** The header of a control packet, field by field. */
  lemma ControlLayout(seqNr: Seq12, nr: Seq12, ack: bool)
    ensures var b := EncodeControl(seqNr, nr, ack);
            && UnpackHeader(b) == Some(Header(2, seqNr))
            && UnpackDataHeader(b[2..]) == Some(DataHeader(nr, if ack then 1 else 0, 0, 0))
  {
    hide PackHeader, PackDataHeader, UnpackDataHeader;
    var h, d := Header(PACKET_DATA, seqNr), DataHeader(nr, if ack then FLAG_ACK else 0, 0, 0);
    var b := EncodeControl(seqNr, nr, ack);
    HeaderRoundTrip(h);
    DataHeaderExact(d);
    assert b[..2] == PackHeader(h) == PackHeader(h)[..2];
    assert b[2..] == PackDataHeader(d);
  }

  /**
   Any two headers in front of any bytes: the payload is cut to what the two counts announce and to what is
   there, and without any the packet is pure control.
   */
  lemma DecodeCuts(seqNr: Seq12, d: DataHeader, rest: seq<byte>)
    requires d.seqNrAck < 4096 && d.flags < 4 && d.hdrWordCount < 16 && d.dataByteCount < 16384
    ensures var n := Min((d.hdrWordCount as int) * 4 + d.dataByteCount, |rest|);
            Decode(PackHeader(Header(2, seqNr)) + PackDataHeader(d) + rest) ==
            if n == 0 then Control(d.flags % 2 == 1, d.seqNrAck)
            else Data(seqNr, d.flags % 2 == 1, d.seqNrAck, d.flags >= 2, rest[..n])
  {
    hide PackHeader, PackDataHeader, Decode;
    DecodePacked(Header(PACKET_DATA, seqNr), d, rest);
  }

  /** Whatever its fields can describe, a built DATA packet is not read under another number. */
  lemma DecodeKeepsNumber(seqNr: Seq12, ackNr: Seq12, header: seq<byte>, chunk: seq<byte>, fin: bool)
    ensures var m := Decode(EncodeData(seqNr, ackNr, header, chunk, fin));
            m.Data? ==> m.seqNr == seqNr
  {
    hide PackHeader, PackDataHeader, UnpackHeader, UnpackDataHeader, Decode, Payload;
    var h := Header(PACKET_DATA, seqNr);
    var d := DataHeader(ackNr, if fin then FLAG_ACK + FLAG_FIN else FLAG_ACK,
                        |header| / 4 % 0x100, Pad4(|chunk|) % 0x1_0000);
    HeaderRoundTrip(h);
    DecodeParts(PackHeader(h), PackDataHeader(d), Payload(header, chunk));
  }

  lemma DecodeEncodeControl(seqNr: Seq12, nr: Seq12, ack: bool)
    ensures Decode(EncodeControl(seqNr, nr, ack)) == Control(ack, nr)
  {
    var h, d := Header(PACKET_DATA, seqNr), DataHeader(nr, if ack then FLAG_ACK else 0, 0, 0);
    DecodePacked(h, d, []);
    assert PackHeader(h) + PackDataHeader(d) == PackHeader(h) + PackDataHeader(d) + [];
  }

  /** Two packed headers in front of a payload read back as themselves. */
  lemma DecodePacked(h: Header, d: DataHeader, payload: seq<byte>)
    requires h.packetType == PACKET_DATA && h.seqNr < 4096
    requires d.seqNrAck < 4096 && d.flags < 4 && d.hdrWordCount < 16 && d.dataByteCount < 16384
    ensures Decode(PackHeader(h) + PackDataHeader(d) + payload) == Interpret(h, d, payload)
  {
    HeaderRoundTrip(h);
    DataHeaderExact(d);
    DecodeParts(PackHeader(h), PackDataHeader(d), payload);
  }

  lemma DecodeParts(hb: seq<byte>, db: seq<byte>, payload: seq<byte>)
    requires |hb| == 2 && |db| == 4
    ensures Decode(hb + db + payload) == Interpret(UnpackHeader(hb).value, UnpackDataHeader(db).value, payload)
  {
    var b := hb + db + payload;
    assert b[..2] == hb == hb[..2];
    assert b[2..6] == db;
    assert b[6..] == payload;
  }
}
