/**
 How one transfer is cut into packets (the chunking rules of udprdma/session_tx.go),
 written down once as a list, with the laws that list obeys.
 */
module Transfers {
  import opened Basics
  import opened Wire

  /** What one packet of a transfer carries. */
  datatype Item = Item(header: seq<byte>, chunk: seq<byte>, fin: bool)

  /** The single outstanding transfer of a session. */
  datatype Transfer =
    | Idle
    | Sending(header: seq<byte>, data: seq<byte>, offset: nat, maxChunk: nat)

  /** The send loop makes progress exactly on transfers of this shape. */
  predicate WellFormed(t: Transfer) {
    t.Sending? ==> t.offset <= |t.data| && (t.data == [] || t.maxChunk >= 1)
  }

  /** Size of the chunk that travels with the application header. */
  function FirstChunk(header: seq<byte>, data: seq<byte>, maxChunk: nat): (n: nat)
    ensures n <= |data|
    ensures data != [] && maxChunk >= 1 ==> n >= 1
  {
    var firstDataMax := if |header| < MAX_DATA_PAYLOAD then Min(MAX_DATA_PAYLOAD - |header|, maxChunk) else maxChunk;
    Min(firstDataMax, |data|)
  }

  /** The packets cut from data[offset..] once the header has gone out. */
  function Chunks(data: seq<byte>, offset: nat, maxChunk: nat): (items: seq<Item>)
    requires offset >= |data| || maxChunk >= 1
    decreases |data| - offset
  {
    if offset >= |data| then []
    else
      var n := Min(maxChunk, |data| - offset);
      [Item([], data[offset..offset + n], offset + n >= |data|)] + Chunks(data, offset + n, maxChunk)
  }

  /** All the packets of a transfer that has not started yet. */
  function Plan(header: seq<byte>, data: seq<byte>, maxChunk: nat): (items: seq<Item>)
    requires data == [] || maxChunk >= 1
  {
    if header == [] then Chunks(data, 0, maxChunk)
    else
      var n := FirstChunk(header, data, maxChunk);
      [Item(header, data[..n], n >= |data|)] + Chunks(data, n, maxChunk)
  }

  /** The packets a transfer still has to send. */
  function Remaining(t: Transfer): (items: seq<Item>)
    requires WellFormed(t)
  {
    match t
    case Idle => []
    case Sending(header, data, offset, maxChunk) =>
      if offset == 0 then Plan(header, data, maxChunk) else Chunks(data, offset, maxChunk)
  }

  function ChunkBytes(items: seq<Item>): (b: seq<byte>) {
    if items == [] then [] else items[0].chunk + ChunkBytes(items[1..])
  }

  /** What an in-order receiver holds after accepting these packets. */
  function PayloadBytes(items: seq<Item>): (b: seq<byte>) {
    if items == [] then [] else Payload(items[0].header, items[0].chunk) + PayloadBytes(items[1..])
  }

  /** FIN is on the last packet and on no other. */
  predicate FinLast(items: seq<Item>) {
    forall i :: 0 <= i < |items| ==> (items[i].fin <==> i == |items| - 1)
  }

  lemma {:induction false} ChunksLaws(data: seq<byte>, offset: nat, maxChunk: nat)
    requires offset <= |data| && (offset == |data| || maxChunk >= 1)
    ensures var items := Chunks(data, offset, maxChunk);
            && ChunkBytes(items) == data[offset..]
            && FinLast(items)
            && (offset < |data| ==> items != [])
            && (forall i :: 0 <= i < |items| ==> items[i].header == [] && 1 <= |items[i].chunk| <= maxChunk)
            && (forall i :: 0 <= i < |items| - 1 ==> |items[i].chunk| == maxChunk)
    decreases |data| - offset
  {
    if offset == |data| {
    } else {
      var n := Min(maxChunk, |data| - offset);
      ChunksLaws(data, offset + n, maxChunk);
      assert data[offset..] == data[offset..offset + n] + data[offset + n..];
      var items := Chunks(data, offset, maxChunk);
      assert items[1..] == Chunks(data, offset + n, maxChunk);
    }
  }

  /**
   A transfer's packets carry its data exactly once and in order, the header only in front,
   and FIN only at the end.
   */
  lemma PlanLaws(header: seq<byte>, data: seq<byte>, maxChunk: nat)
    requires data == [] || maxChunk >= 1
    ensures var items := Plan(header, data, maxChunk);
            && ChunkBytes(items) == data
            && FinLast(items)
            && (items == [] <==> header == [] && data == [])
            && (items != [] ==> items[0].header == header)
            && (forall i :: 1 <= i < |items| ==> items[i].header == [])
  {
    var items := Plan(header, data, maxChunk);
    if header == [] {
      ChunksLaws(data, 0, maxChunk);
      assert data[0..] == data;
    } else {
      var n := FirstChunk(header, data, maxChunk);
      ChunksLaws(data, n, maxChunk);
      assert data == data[..n] + data[n..];
      assert items[1..] == Chunks(data, n, maxChunk);
    }
  }

  /** Every packet of the list fits a 1500-byte ring slot. */
  predicate FitsSlots(items: seq<Item>) {
    forall i :: 0 <= i < |items| ==> |items[i].header| + Pad4(|items[i].chunk|) + 6 <= SLOT_SIZE
  }

  /** Every packet of the list can be described by its data header. */
  predicate Describables(items: seq<Item>) {
    forall i :: 0 <= i < |items| ==> Describable(items[i].header, items[i].chunk)
  }

  /** Only the last packet of the list may carry padding. */
  predicate PadsLast(items: seq<Item>) {
    forall i :: 0 <= i < |items| - 1 ==> |items[i].chunk| % 4 == 0
  }

  /** The headers this server sends: whole words, and few enough for the four-bit word count. */
  predicate WordHeader(header: seq<byte>) {
    |header| % 4 == 0 && |header| < 64
  }

  /**
   A reply with a word-sized header pads only its FIN packet, never exceeds 1408 payload bytes,
   and can be described by the data header of every packet.
   */
  lemma ReplyLaws(header: seq<byte>, data: seq<byte>)
    requires WordHeader(header)
    ensures var items := Plan(header, data, MAX_DATA_PAYLOAD);
            && PadsLast(items) && FitsSlots(items)
            && (forall i :: 0 <= i < |items| ==>
                  && |Payload(items[i].header, items[i].chunk)| <= MAX_DATA_PAYLOAD
                  && Describable(items[i].header, items[i].chunk))
  {
    hide Payload;
    var items := Plan(header, data, MAX_DATA_PAYLOAD);
    ReplySizes(header, data);
    forall i | 0 <= i < |items|
      ensures |items[i].header| + Pad4(|items[i].chunk|) <= MAX_DATA_PAYLOAD
      ensures Describable(items[i].header, items[i].chunk)
    {
      Pad4Monotone(|items[i].chunk|, MAX_DATA_PAYLOAD - |items[i].header|);
    }
  }

  lemma ReplySizes(header: seq<byte>, data: seq<byte>)
    requires WordHeader(header)
    ensures var items := Plan(header, data, MAX_DATA_PAYLOAD);
            && PadsLast(items)
            && (forall i :: 0 <= i < |items| ==>
                  WordHeader(items[i].header) && 1 <= |items[i].header| + |items[i].chunk| <= MAX_DATA_PAYLOAD)
  {
    if header == [] {
      ChunksLaws(data, 0, MAX_DATA_PAYLOAD);
    } else {
      ChunksLaws(data, FirstChunk(header, data, MAX_DATA_PAYLOAD), MAX_DATA_PAYLOAD);
    }
  }

  lemma Pad4Monotone(a: nat, b: nat)
    requires a <= b && b % 4 == 0
    ensures Pad4(a) <= b
  {
  }

  /** A message sent in one packet: the list is that packet (or nothing, for an empty message). */
  lemma MessageLaws(data: seq<byte>)
    requires Pad4(|data|) + 6 <= SLOT_SIZE
    ensures var items := Plan([], data, |data|);
            && items == (if data == [] then [] else [Item([], data, true)])
            && PadsLast(items) && FitsSlots(items)
  {
    if data != [] {
      assert data[0..|data|] == data;
      assert Chunks(data, |data|, |data|) == [];
    }
  }

  /** Concatenating the accepted payloads gives header, data and the zero padding of the last packet. */
  lemma {:induction false} PayloadBytesOfPlan(items: seq<Item>)
    requires items != [] && PadsLast(items)
    requires forall i :: 1 <= i < |items| ==> items[i].header == []
    ensures PayloadBytes(items) ==
            items[0].header + ChunkBytes(items) + Zeros(Pad4(|ChunkBytes(items)|) - |ChunkBytes(items)|)
  {
    var it, rest := items[0], items[1..];
    if rest == [] {
      assert it.chunk + [] == it.chunk;
      assert Payload(it.header, it.chunk) + [] == Payload(it.header, it.chunk);
    } else {
      PayloadBytesOfPlan(rest);
      Pad4Shift(|it.chunk|, |ChunkBytes(rest)|);
      var z := Zeros(Pad4(|ChunkBytes(rest)|) - |ChunkBytes(rest)|);
      assert Payload(it.header, it.chunk) == it.header + it.chunk;
      Regroup(it.header, it.chunk, ChunkBytes(rest), z);
    }
  }

  lemma Regroup(a: seq<byte>, b: seq<byte>, c: seq<byte>, d: seq<byte>)
    ensures (a + b) + ([] + c + d) == a + (b + c) + d
  {
  }

  lemma Pad4Shift(a: nat, b: nat)
    requires a % 4 == 0
    ensures Pad4(a) == a && Pad4(a + b) == a + Pad4(b)
  {
  }

  // ----- How many packets -----

  lemma {:induction false} ChunksCount(data: seq<byte>, offset: nat, maxChunk: nat)
    requires offset <= |data| && maxChunk >= 1
    ensures |Chunks(data, offset, maxChunk)| == CeilDiv(|data| - offset, maxChunk)
    decreases |data| - offset
  {
    var left := |data| - offset;
    if left == 0 {
      DivIs(maxChunk - 1, maxChunk, 0);
    } else if left <= maxChunk {
      assert Chunks(data, offset + left, maxChunk) == [];
      DivIs(left + maxChunk - 1, maxChunk, 1);
    } else {
      ChunksCount(data, offset + maxChunk, maxChunk);
      var q := CeilDiv(left - maxChunk, maxChunk);
      DivBounds(left - 1, maxChunk);
      assert (q + 1) * maxChunk == q * maxChunk + maxChunk;
      DivIs(left + maxChunk - 1, maxChunk, q + 1);
    }
  }

  /**
   With an 8-byte header, a 1408-byte chunk size never needs more packets than a smaller one,
   and the number of packets is the closed form the reply sizes suggest.
   */
  lemma FewestPackets(header: seq<byte>, data: seq<byte>, maxChunk: nat)
    requires |header| == 8 && 1 <= maxChunk <= MAX_DATA_PAYLOAD
    ensures |Plan(header, data, MAX_DATA_PAYLOAD)| <= |Plan(header, data, maxChunk)|
    ensures |Plan(header, data, MAX_DATA_PAYLOAD)| ==
            if |data| <= 1400 then 1 else 1 + CeilDiv(|data| - 1400, MAX_DATA_PAYLOAD)
  {
    var n, m := FirstChunk(header, data, MAX_DATA_PAYLOAD), FirstChunk(header, data, maxChunk);
    ChunksCount(data, n, MAX_DATA_PAYLOAD);
    ChunksCount(data, m, maxChunk);
    CeilDivAntitone(|data| - m, maxChunk, MAX_DATA_PAYLOAD);
    CeilDivMonotone(|data| - n, |data| - m, MAX_DATA_PAYLOAD);
    assert CeilDiv(0, MAX_DATA_PAYLOAD) == 0;
  }

  /**
   optimalChunkSize: the loop over the candidate sizes. Whatever the length, the size it settles on
   gives the fewest packets of all candidates.
   */
  method OptimalChunkSize(totalBytes: nat) returns (bestChunk: nat)
    ensures bestChunk in [1024, 1280, 1408]
    ensures forall c :: c in [1024, 1280, 1408] ==> CeilDiv(totalBytes, bestChunk) <= CeilDiv(totalBytes, c)
    ensures bestChunk == MAX_DATA_PAYLOAD
  {
    bestChunk := 1408;
    var bestPackets := CeilDiv(totalBytes, 1408);
    var candidates := [1024, 1280, 1408];
    for i := 0 to |candidates|
      invariant bestChunk in candidates && bestPackets == CeilDiv(totalBytes, bestChunk)
      invariant bestChunk == 1408 || bestPackets < CeilDiv(totalBytes, 1408)
      invariant forall j :: 0 <= j < i ==> bestPackets <= CeilDiv(totalBytes, candidates[j])
    {
      var packets := CeilDiv(totalBytes, candidates[i]);
      if packets < bestPackets {
        bestPackets := packets;
        bestChunk := candidates[i];
      }
    }
    CeilDivAntitone(totalBytes, bestChunk, 1408);
  }
}
