/**
 Multi-packet writes: the per-file assembly buffer (internal/fs/fileops.go) driven by the
 request handlers of one connection (udpfs/handlers.go, udpfs/connection.go).

 The steps are functions on values, with the class at the end taking exactly those steps.
 */
module Writes {
  import opened Basics
  import opened Wire

  const NO_HANDLE := -1
  const EIO := 5
  const EACCES := 13
  const FILE_SECTOR_SIZE := 512

  /** The write being assembled for one open file. */
  datatype WriteState = WriteState(
    buffer: seq<byte>,
    sectorNumber: nat,
    sectorCount: nat,
    totalChunks: uint16,
    receivedChunks: uint16,
    blockWrite: bool)

  datatype File = File(content: seq<byte>, pos: nat, readOnly: bool, wr: WriteState)

  /** One connection and the files it can reach. */
  datatype Server = Server(files: map<int, File>, active: int, sectorSize: nat)

  /** Ack: only an acknowledgement is sent. Done: a WRITE_DONE with this result. */
  datatype Answer = Ack | Done(result: int)

  /** What a handler did: the new state, the reply, and whether a write was begun or carried out. */
  datatype Outcome = Outcome(srv: Server, answer: Answer, started: bool, written: bool)

  // ----- Files -----

  /** Writing d at position pos; a gap behind the end of the file is filled with zeros. */
  function Overwrite(content: seq<byte>, pos: nat, d: seq<byte>): seq<byte> {
    if d == [] then content
    else
      (if pos <= |content| then content[..pos] else content + Zeros(pos - |content|)) +
      d +
      (if pos + |d| < |content| then content[pos + |d|..] else [])
  }

  /**
   The bytes d have been written at position pos and nothing else has changed: the file is just long enough,
   holds d there, and holds its old bytes, or zeros behind its old end, everywhere else.
   */
  ghost predicate Landed(before: seq<byte>, after: seq<byte>, pos: nat, d: seq<byte>) {
    if d == [] then after == before
    else
      && |after| == Max(|before|, pos + |d|)
      && after[pos..pos + |d|] == d
      && forall i :: 0 <= i < |after| && !(pos <= i < pos + |d|) ==> after[i] == if i < |before| then before[i] else 0
  }

  lemma OverwriteLands(before: seq<byte>, after: seq<byte>, pos: nat, d: seq<byte>)
    ensures Landed(before, after, pos, d) <==> after == Overwrite(before, pos, d)
  {
    var c := Overwrite(before, pos, d);
    if d != [] {
      assert c[pos..pos + |d|] == d;
      if Landed(before, after, pos, d) {
        forall i | 0 <= i < |c|
          ensures after[i] == c[i]
        {
          if pos <= i < pos + |d| {
            assert after[pos..pos + |d|][i - pos] == c[pos..pos + |d|][i - pos];
          }
        }
      }
    }
  }

  /** WriteChunk: only the next chunk in line is taken; the count is a 16-bit one. */
  function TakeChunk(f: File, nr: uint16, total: uint16, chunk: seq<byte>): File {
    if nr != f.wr.receivedChunks then f
    else f.(wr := f.wr.(buffer := f.wr.buffer + chunk, totalChunks := total,
                        receivedChunks := (f.wr.receivedChunks + 1) % 0x1_0000))
  }

  predicate ChunkCompletes(f: File, nr: uint16, total: uint16) {
    nr == f.wr.receivedChunks && (f.wr.receivedChunks + 1) % 0x1_0000 >= total
  }

  /** So many sectors of this size, in bytes. */
  function InBytes(sectors: nat, size: nat): nat {
    sectors * size
  }

  /** Where the sectors of a block write begin, how many bytes they hold, and whether position i lies outside them. */
  function FirstByte(wr: WriteState, sectorSize: nat): nat {
    wr.sectorNumber * sectorSize
  }

  function Room(wr: WriteState, sectorSize: nat): nat {
    wr.sectorCount * sectorSize
  }

  predicate Outside(wr: WriteState, sectorSize: nat, i: nat) {
    i < wr.sectorNumber * sectorSize || (wr.sectorNumber + wr.sectorCount) * sectorSize <= i
  }

  /** CompleteWrite. */
  function Complete(f: File, sectorSize: nat): File {
    if f.wr.blockWrite then
      var d := if |f.wr.buffer| > Room(f.wr, sectorSize) then f.wr.buffer[..Room(f.wr, sectorSize)] else f.wr.buffer;
      var at := FirstByte(f.wr, sectorSize);
      f.(content := Overwrite(f.content, at, d), pos := at + |d|)
    else
      f.(content := Overwrite(f.content, f.pos, f.wr.buffer), pos := f.pos + |f.wr.buffer|)
  }

  /** What a completed write leaves: the buffer at the position, or cut to its sectors at the first of them. */
  lemma CompleteLands(f: File, sectorSize: nat)
    ensures var g, d := Complete(f, sectorSize), f.wr.buffer;
            && g.readOnly == f.readOnly && g.wr == f.wr
            && (!f.wr.blockWrite ==> Landed(f.content, g.content, f.pos, d) && g.pos == f.pos + |d|)
            && (f.wr.blockWrite ==>
                  var at := InBytes(f.wr.sectorNumber, sectorSize);
                  var cut := d[..Min(|d|, InBytes(f.wr.sectorCount, sectorSize))];
                  Landed(f.content, g.content, at, cut) && g.pos == at + |cut|)
  {
    hide Overwrite, Landed;
    var g, d := Complete(f, sectorSize), f.wr.buffer;
    OverwriteLands(f.content, g.content, f.pos, d);
    if f.wr.blockWrite {
      assert d[..|d|] == d;
      OverwriteLands(f.content, g.content, InBytes(f.wr.sectorNumber, sectorSize),
                     d[..Min(|d|, InBytes(f.wr.sectorCount, sectorSize))]);
    }
  }

  /** A block write changes nothing outside its own sectors, except to zero-fill up to their start. */
  lemma BlockWriteStaysInside(f: File, sectorSize: nat, i: nat)
    requires f.wr.blockWrite && Outside(f.wr, sectorSize, i)
    ensures var g := Complete(f, sectorSize);
            && |f.content| <= |g.content|
            && (i < |f.content| ==> g.content[i] == f.content[i])
            && (|f.content| <= i < |g.content| ==> g.content[i] == 0 && i < FirstByte(f.wr, sectorSize))
  {
    hide Overwrite, Room, FirstByte, Outside;
    OutsideMeans(f.wr, sectorSize, i);
    var d := if |f.wr.buffer| > Room(f.wr, sectorSize) then f.wr.buffer[..Room(f.wr, sectorSize)] else f.wr.buffer;
    OverwriteInside(f.content, FirstByte(f.wr, sectorSize), d, i);
  }

  lemma OutsideMeans(wr: WriteState, sectorSize: nat, i: nat)
    ensures Outside(wr, sectorSize, i) <==>
            i < FirstByte(wr, sectorSize) || FirstByte(wr, sectorSize) + Room(wr, sectorSize) <= i
  {
    assert (wr.sectorNumber + wr.sectorCount) * sectorSize
        == wr.sectorNumber * sectorSize + wr.sectorCount * sectorSize;
  }

  lemma OverwriteInside(content: seq<byte>, pos: nat, d: seq<byte>, i: nat)
    requires i < pos || pos + |d| <= i
    ensures var c := Overwrite(content, pos, d);
            && |content| <= |c|
            && (i < |content| ==> c[i] == content[i])
            && (|content| <= i < |c| ==> c[i] == 0 && i < pos)
  {
  }

  // ----- Handlers -----

  function SectorSizeOf(s: Server, h: int): nat {
    if h == BLOCK_DEVICE_HANDLE then s.sectorSize else FILE_SECTOR_SIZE
  }

  /** getFile: negative numbers and unused slots name no file. */
  predicate Known(s: Server, h: int) {
    h >= 0 && h in s.files
  }

  function Reply(s: Server, result: int): Outcome {
    Outcome(s.(active := NO_HANDLE), Done(result), false, false)
  }

  function JustAck(s: Server): Outcome {
    Outcome(s, Ack, false, false)
  }

  /** WriteStart and BwriteStart: a new, empty assembly buffer. */
  function StartError(s: Server, h: int): int {
    if !Known(s, h) then EIO else if s.files[h].readOnly then EACCES else 0
  }

  function Started(s: Server, h: int, wr: WriteState): Server
    requires h in s.files
  {
    s.(files := s.files[h := s.files[h].(wr := wr)], active := h)
  }

  /** The chunk part of a request: feed the chunk, and carry the write out when it was the last one. */
  function Feed(s: Server, h: int, cp: seq<byte>): Outcome
    requires |cp| >= 8
  {
    if !Known(s, h) then Reply(s, -EIO)
    else
      var nr, size, total := Get16(cp[2..4]), Get16(cp[4..6]), Get16(cp[6..8]);
      var chunk := if size < |cp| - 8 then cp[8..8 + size] else cp[8..];
      var f := TakeChunk(s.files[h], nr, total, chunk);
      var s' := s.(files := s.files[h := f]);
      if !ChunkCompletes(s.files[h], nr, total) then JustAck(s')
      else
        var n := if f.wr.blockWrite then 0 else |f.wr.buffer|;
        Reply(s'.(files := s'.files[h := Complete(f, SectorSizeOf(s, h))]), n).(written := true)
  }

  /** A request header may be followed by the first chunk. */
  function AfterStart(s: Server, h: int, payload: seq<byte>, headerSize: nat): Outcome
    requires headerSize <= |payload|
  {
    if |payload| < headerSize + 8 then JustAck(s).(started := true)
    else Feed(s, h, payload[headerSize..]).(started := true)
  }

  function HandleOf(payload: seq<byte>): int
    requires |payload| >= 8
  {
    var v := Get32(payload[4..8]);
    if v < 0x8000_0000 then v else v - 0x1_0000_0000
  }

  /** The write states the two requests begin with. */
  function PlainStart(f: File): WriteState {
    f.wr.(buffer := [], totalChunks := 0, receivedChunks := 0, blockWrite := false)
  }

  function SectorOf(payload: seq<byte>): nat
    requires |payload| >= 16
  {
    Get32(payload[8..12]) + Get32(payload[12..16]) * 0x1_0000_0000
  }

  function BlockStart(payload: seq<byte>): WriteState
    requires |payload| >= 16
  {
    WriteState([], SectorOf(payload), Get16(payload[2..4]), 0, 0, true)
  }

  function WriteReq(s: Server, payload: seq<byte>): Outcome {
    if |payload| < 12 then JustAck(s)
    else
      var h := HandleOf(payload);
      if StartError(s, h) != 0 then Reply(s, -StartError(s, h))
      else AfterStart(Started(s, h, PlainStart(s.files[h])), h, payload, 12)
  }

  function BwriteReq(s: Server, payload: seq<byte>): Outcome {
    if |payload| < 16 then JustAck(s)
    else
      var h := HandleOf(payload);
      if StartError(s, h) != 0 then Reply(s, -StartError(s, h))
      else AfterStart(Started(s, h, BlockStart(payload)), h, payload, 16)
  }

  function WriteData(s: Server, payload: seq<byte>): Outcome {
    if |payload| < 8 || s.active == NO_HANDLE then JustAck(s) else Feed(s, s.active, payload)
  }

  /** Closing a file forgets the write in progress on it; the block device is never closed. */
  function CloseHandle(s: Server, h: int): Outcome {
    if h == BLOCK_DEVICE_HANDLE then JustAck(s)
    else JustAck(s.(files := s.files - {h}, active := if s.active == h then NO_HANDLE else s.active))
  }

  function NewFile(content: seq<byte>, readOnly: bool): File {
    File(content, 0, readOnly, WriteState([], 0, 0, 0, 0, false))
  }

  /** A file opened at the number the handle table gives it; the file evicted there, if any, is gone. */
  function OpenHandle(s: Server, h: int, content: seq<byte>, readOnly: bool): Outcome {
    JustAck(s.(files := s.files[h := NewFile(content, readOnly)]))
  }

  // ----- Every accepted request is carried out at most once -----

  datatype Event =
    | WriteReqEv(payload: seq<byte>)
    | BwriteReqEv(payload: seq<byte>)
    | WriteDataEv(payload: seq<byte>)
    | CloseEv(handle: int)
    | OpenEv(slot: int, content: seq<byte>, readOnly: bool)

  function Handle(s: Server, ev: Event): Outcome {
    match ev
    case WriteReqEv(p) => WriteReq(s, p)
    case BwriteReqEv(p) => BwriteReq(s, p)
    case WriteDataEv(p) => WriteData(s, p)
    case CloseEv(h) => CloseHandle(s, h)
    case OpenEv(h, content, readOnly) => OpenHandle(s, h, content, readOnly)
  }

  function RunAll(s: Server, evs: seq<Event>): Server
    decreases |evs|
  {
    if evs == [] then s else RunAll(Handle(s, evs[0]).srv, evs[1..])
  }

  function StartedCount(s: Server, evs: seq<Event>): nat
    decreases |evs|
  {
    if evs == [] then 0
    else (if Handle(s, evs[0]).started then 1 else 0) + StartedCount(Handle(s, evs[0]).srv, evs[1..])
  }

  function WrittenCount(s: Server, evs: seq<Event>): nat
    decreases |evs|
  {
    if evs == [] then 0
    else (if Handle(s, evs[0]).written then 1 else 0) + WrittenCount(Handle(s, evs[0]).srv, evs[1..])
  }

  /** Writes begun and not yet carried out: a connection has at most one. */
  function Pending(s: Server): nat {
    if s.active == NO_HANDLE then 0 else 1
  }

  /** Writes carried out, plus the one still pending, never exceed the requests accepted. */
  lemma {:induction false} AtMostOncePerRequest(s: Server, evs: seq<Event>)
    ensures WrittenCount(s, evs) + Pending(RunAll(s, evs)) <= StartedCount(s, evs) + Pending(s)
    decreases |evs|
  {
    hide Feed, TakeChunk, Complete, HandleOf, Get16, Get32;
    if evs == [] {
    } else {
      HandleOnce(s, evs[0]);
      AtMostOncePerRequest(Handle(s, evs[0]).srv, evs[1..]);
    }
  }

  lemma HandleOnce(s: Server, ev: Event)
    ensures var o := Handle(s, ev);
            (if o.written then 1 else 0) + Pending(o.srv) <= (if o.started then 1 else 0) + Pending(s)
  {
    hide TakeChunk, Complete, HandleOf, Get16, Get32;
  }

  // ----- Chunks of one write, in any order and with any repetition -----

  /** A WRITE_DATA payload that carries one chunk of a write. */
  function ChunkPayload(nr: uint16, chunk: seq<byte>, total: uint16): (p: seq<byte>)
    requires |chunk| < 0x1_0000
    ensures |p| == 8 + |chunk|
  {
    ChunkHeader(nr, |chunk|, total) + chunk
  }

  function ChunkHeader(nr: uint16, size: uint16, total: uint16): (p: seq<byte>)
    ensures |p| == 8
  {
    [0x17, 0] + Put16(nr) + Put16(size) + Put16(total)
  }

  function Flatten(chunks: seq<seq<byte>>): seq<byte> {
    if chunks == [] then [] else Flatten(chunks[..|chunks| - 1]) + chunks[|chunks| - 1]
  }

  /** The chunks of a write: at least one, all small enough for their size field, and countable in 16 bits. */
  predicate Countable(chunks: seq<seq<byte>>) {
    1 <= |chunks| < 0x1_0000 && forall i :: 0 <= i < |chunks| ==> |chunks[i]| < 0x1_0000
  }

  function Arrivals(chunks: seq<seq<byte>>, ns: seq<nat>): (evs: seq<Event>)
    requires Countable(chunks) && forall i :: 0 <= i < |ns| ==> ns[i] < |chunks|
    ensures |evs| == |ns|
  {
    seq(|ns|, i requires 0 <= i < |ns| => WriteDataEv(ChunkPayload(ns[i], chunks[ns[i]], |chunks|)))
  }

  /** How far a sequence of arrivals gets, taking only the next chunk in line and stopping at the total. */
  function Progress(ns: seq<nat>, done: nat, total: nat): (k: nat)
    requires done <= total
    ensures done <= k <= total
  {
    if ns == [] || done == total then done
    else Progress(ns[1..], if ns[0] == done then done + 1 else done, total)
  }

  /** Chunks done..k-1 arrive in this order, possibly with others in between. */
  predicate InOrder(ns: seq<nat>, done: nat, k: nat) {
    k <= done || (ns != [] && (InOrder(ns[1..], done, k) || (ns[0] == done && InOrder(ns[1..], done + 1, k))))
  }

  /** Progress is the most that arrives in order. */
  lemma {:induction false} ProgressIsMost(ns: seq<nat>, done: nat, total: nat, k: nat)
    requires done <= total && k <= total
    ensures InOrder(ns, done, k) <==> k <= Progress(ns, done, total)
    decreases |ns|
  {
    if ns == [] || done == total {
    } else {
      ProgressIsMost(ns[1..], done, total, k);
      if ns[0] == done {
        ProgressIsMost(ns[1..], done + 1, total, k);
        if InOrder(ns[1..], done, k) {
          InOrderEarlier(ns[1..], done, k);
        }
      }
    }
  }

  lemma {:induction false} InOrderEarlier(ns: seq<nat>, done: nat, k: nat)
    requires InOrder(ns, done, k)
    ensures InOrder(ns, done + 1, k)
    decreases |ns|
  {
    if k > done + 1 {
      if InOrder(ns[1..], done, k) {
        InOrderEarlier(ns[1..], done, k);
      }
    }
  }

  /** A write to file f0 of which the first k chunks have been taken, with the connection waiting on it. */
  predicate Assembling(s: Server, h: int, f0: File, chunks: seq<seq<byte>>, k: nat)
    requires k <= |chunks|
  {
    && k < |chunks| < 0x1_0000 && s.active == h && Known(s, h)
    && s.files[h].(wr := f0.wr) == f0
    && s.files[h].wr.(totalChunks := f0.wr.totalChunks)
       == f0.wr.(buffer := Flatten(chunks[..k]), receivedChunks := k)
  }

  /** All chunks taken: the write was carried out with their concatenation, and nothing is waiting any more. */
  predicate Assembled(s: Server, h: int, f0: File, chunks: seq<seq<byte>>) {
    && s.active == NO_HANDLE && Known(s, h)
    && var g := Complete(f0.(wr := f0.wr.(buffer := Flatten(chunks))), SectorSizeOf(s, h));
       s.files[h].content == g.content && s.files[h].pos == g.pos
  }

  predicate Reached(s: Server, h: int, f0: File, chunks: seq<seq<byte>>, k: nat)
    requires k <= |chunks|
  {
    if k < |chunks| then Assembling(s, h, f0, chunks, k) else Assembled(s, h, f0, chunks)
  }

  /**
   Any chunk header in front of any bytes: the bytes are cut to the size announced. The chunk is taken if and
   only if its number is the next, and the write is carried out if and only if, besides, the total announced
   is reached; then the reply gives the length of the write, or 0 for a block write.
   */
  lemma FeedCut(s: Server, h: int, nr: uint16, size: uint16, total: uint16, rest: seq<byte>)
    requires Known(s, h)
    ensures var f, o := s.files[h], Feed(s, h, ChunkHeader(nr, size, total) + rest);
            var taken := f.wr.(buffer := f.wr.buffer + rest[..Min(size, |rest|)], totalChunks := total,
                               receivedChunks := if nr == 0xFFFF then 0 else nr + 1);
            if nr != f.wr.receivedChunks then o.answer == Ack && !o.written && o.srv == s
            else if taken.receivedChunks < total then
              o.answer == Ack && !o.written && o.srv == s.(files := s.files[h := f.(wr := taken)])
            else
              && o.answer == Done(if f.wr.blockWrite then 0 else |taken.buffer|) && o.written
              && o.srv == s.(files := s.files[h := Complete(f.(wr := taken), SectorSizeOf(s, h))], active := NO_HANDLE)
  {
    hide Put16, Get16, Complete, SectorSizeOf;
    var p := ChunkHeader(nr, size, total) + rest;
    assert p[2..4] == Put16(nr) && p[4..6] == Put16(size) && p[6..8] == Put16(total) && p[8..] == rest;
    Load16(nr);
    Load16(size);
    Load16(total);
    assert size < |rest| ==> p[8..8 + size] == rest[..size];
    assert rest[..|rest|] == rest;
    assert s.files[h := s.files[h]] == s.files;
    StoreTwice(s, h);
  }

  /** Reading a chunk payload gives back its number, total and bytes. */
  lemma FeedChunk(s: Server, h: int, nr: uint16, chunk: seq<byte>, total: uint16)
    requires |chunk| < 0x1_0000 && Known(s, h)
    ensures var f := TakeChunk(s.files[h], nr, total, chunk);
            var o := Feed(s, h, ChunkPayload(nr, chunk, total));
            && (!ChunkCompletes(s.files[h], nr, total) ==> o == JustAck(s.(files := s.files[h := f])))
            && (ChunkCompletes(s.files[h], nr, total) ==>
                  && o.srv == s.(files := s.files[h := Complete(f, SectorSizeOf(s, h))], active := NO_HANDLE)
                  && o.answer == Done(if f.wr.blockWrite then 0 else |f.wr.buffer|) && o.written)
  {
    hide Put16, Get16, TakeChunk, ChunkCompletes, Complete;
    var p := ChunkPayload(nr, chunk, total);
    assert p[2..4] == Put16(nr) && p[4..6] == Put16(|chunk|) && p[6..8] == Put16(total) && p[8..] == chunk;
    Load16(nr);
    Load16(|chunk|);
    Load16(total);
  }

  /** One arrival moves the assembly by at most one chunk, and carries the write out exactly at the last. */
  lemma OneArrival(s: Server, h: int, f0: File, chunks: seq<seq<byte>>, k: nat, n: nat)
    requires Countable(chunks) && k < |chunks| && n < |chunks| && Assembling(s, h, f0, chunks, k)
    ensures var o := WriteData(s, ChunkPayload(n, chunks[n], |chunks|));
            var k' := if n == k then k + 1 else k;
            && Reached(o.srv, h, f0, chunks, k') && o.srv.sectorSize == s.sectorSize
            && o.answer == (if k' < |chunks| then Ack else Done(if f0.wr.blockWrite then 0 else |Flatten(chunks)|))
            && (o.written <==> k' == |chunks|)
  {
    hide Feed, ChunkPayload, Overwrite, Flatten;
    FeedChunk(s, h, n, chunks[n], |chunks|);
    if n == k {
      FlattenNext(chunks, k);
    }
  }

  lemma FlattenNext(chunks: seq<seq<byte>>, k: nat)
    requires k < |chunks|
    ensures Flatten(chunks[..k + 1]) == Flatten(chunks[..k]) + chunks[k]
    ensures k + 1 == |chunks| ==> chunks[..k + 1] == chunks
  {
    assert chunks[..k + 1][..k] == chunks[..k];
  }

  lemma NothingWaiting(s: Server, p: seq<byte>)
    requires s.active == NO_HANDLE
    ensures WriteData(s, p) == JustAck(s)
  {
  }

  /**
   Whatever the order and repetition in which the chunks of one write arrive, the assembly buffer is
   always the concatenation of the chunks taken in line, the write happens once the last is in, with
   exactly the concatenation of all chunks, and it happens once.
   */
  lemma {:induction false} AnyOrderAssembles(s: Server, h: int, f0: File, chunks: seq<seq<byte>>, k: nat, ns: seq<nat>)
    requires Countable(chunks) && k <= |chunks| && Reached(s, h, f0, chunks, k)
    requires forall i :: 0 <= i < |ns| ==> ns[i] < |chunks|
    ensures var total := Progress(ns, k, |chunks|);
            && Reached(RunAll(s, Arrivals(chunks, ns)), h, f0, chunks, total)
            && RunAll(s, Arrivals(chunks, ns)).sectorSize == s.sectorSize
            && WrittenCount(s, Arrivals(chunks, ns)) == (if k < |chunks| && total == |chunks| then 1 else 0)
    decreases |ns|
  {
    hide Feed, ChunkPayload, Assembling, Flatten, WriteData;
    if ns == [] {
    } else {
      var evs := Arrivals(chunks, ns);
      assert evs[1..] == Arrivals(chunks, ns[1..]);
      var p := ChunkPayload(ns[0], chunks[ns[0]], |chunks|);
      assert evs[0] == WriteDataEv(p);
      if k < |chunks| {
        OneArrival(s, h, f0, chunks, k, ns[0]);
        AnyOrderAssembles(WriteData(s, p).srv, h, f0, chunks, if ns[0] == k then k + 1 else k, ns[1..]);
      } else {
        NothingWaiting(s, p);
        AnyOrderAssembles(s, h, f0, chunks, k, ns[1..]);
      }
    }
  }

  /** The request carries no chunk, or chunk `first` of this write. */
  predicate Carries(payload: seq<byte>, headerSize: nat, chunks: seq<seq<byte>>, first: nat)
    requires Countable(chunks)
  {
    headerSize <= |payload| &&
    (|payload| < headerSize + 8 ||
     (first < |chunks| && payload[headerSize..] == ChunkPayload(first, chunks[first], |chunks|)))
  }

  /** How many chunks of the write are in after its request. */
  function FromRequest(payload: seq<byte>, headerSize: nat, first: nat): nat {
    if |payload| >= headerSize + 8 && first == 0 then 1 else 0
  }

  /** A started write begins its assembly; the chunk that came with the request is the first arrival. */
  lemma AssemblyBegins(s: Server, h: int, wr: WriteState, payload: seq<byte>, headerSize: nat, chunks: seq<seq<byte>>,
                       first: nat)
    requires Countable(chunks) && Known(s, h) && wr.buffer == [] && wr.receivedChunks == 0
    requires Carries(payload, headerSize, chunks, first)
    ensures var o := AfterStart(Started(s, h, wr), h, payload, headerSize);
            && o.started && o.srv.sectorSize == s.sectorSize
            && Reached(o.srv, h, s.files[h].(wr := wr), chunks, FromRequest(payload, headerSize, first))
  {
    hide Feed, ChunkPayload, Overwrite;
    var s0, f0 := Started(s, h, wr), s.files[h].(wr := wr);
    assert Flatten(chunks[..0]) == [];
    assert Assembling(s0, h, f0, chunks, 0);
    if |payload| >= headerSize + 8 {
      OneArrival(s0, h, f0, chunks, 0, first);
    }
  }

  /**
   A write of any kind, from its request to its last chunk: after an accepted WRITE_REQ and any arrivals
   of its chunks, the file is as it was, or holds all chunks in line from the old position on.
   */
  lemma WriteAnyOrder(s: Server, payload: seq<byte>, chunks: seq<seq<byte>>, first: nat, ns: seq<nat>)
    requires Countable(chunks) && |payload| >= 12 && Carries(payload, 12, chunks, first)
    requires StartError(s, HandleOf(payload)) == 0 && forall i :: 0 <= i < |ns| ==> ns[i] < |chunks|
    ensures var h := HandleOf(payload);
            var f, g := s.files[h], RunAll(WriteReq(s, payload).srv, Arrivals(chunks, ns)).files;
            var k := Progress(ns, FromRequest(payload, 12, first), |chunks|);
            && h in g
            && (k < |chunks| ==> g[h].content == f.content)
            && (k == |chunks| ==> Landed(f.content, g[h].content, f.pos, Flatten(chunks)))
            && g[h].pos == (if k < |chunks| then f.pos else f.pos + |Flatten(chunks)|)
  {
    hide Feed, ChunkPayload, HandleOf, Overwrite, Flatten, AfterStart, RunAll, Landed;
    var h := HandleOf(payload);
    var wr := PlainStart(s.files[h]);
    AssemblyBegins(s, h, wr, payload, 12, chunks, first);
    AnyOrderAssembles(WriteReq(s, payload).srv, h, s.files[h].(wr := wr), chunks, FromRequest(payload, 12, first), ns);
    OverwriteLands(s.files[h].content, Overwrite(s.files[h].content, s.files[h].pos, Flatten(chunks)),
                   s.files[h].pos, Flatten(chunks));
  }

  /**
   The same for a block write: after an accepted BWRITE_REQ and any arrivals of its chunks, every byte
   outside the sectors the request names is as it was; and once all chunks are in, those sectors start
   with them, cut to the room the request gives.
   */
  lemma BlockWriteAnyOrder(s: Server, payload: seq<byte>, chunks: seq<seq<byte>>, first: nat, ns: seq<nat>, i: nat)
    requires Countable(chunks) && |payload| >= 16 && Carries(payload, 16, chunks, first)
    requires StartError(s, HandleOf(payload)) == 0 && forall i :: 0 <= i < |ns| ==> ns[i] < |chunks|
    ensures var h, size, wr := HandleOf(payload), SectorSizeOf(s, HandleOf(payload)), BlockStart(payload);
            var f, g := s.files[h], RunAll(BwriteReq(s, payload).srv, Arrivals(chunks, ns)).files;
            var k := Progress(ns, FromRequest(payload, 16, first), |chunks|);
            && h in g && |f.content| <= |g[h].content|
            && (Outside(wr, size, i) ==>
                  && (i < |f.content| ==> g[h].content[i] == f.content[i])
                  && (|f.content| <= i < |g[h].content| ==> g[h].content[i] == 0))
            && (k < |chunks| ==> g[h].content == f.content)
            && (k == |chunks| ==>
                  var d := Flatten(chunks);
                  Landed(f.content, g[h].content, FirstByte(wr, size), d[..Min(|d|, Room(wr, size))]))
  {
    hide Feed, ChunkPayload, HandleOf, BlockStart, Overwrite, Flatten, AfterStart, RunAll, Outside, FirstByte, Room,
         SectorSizeOf, Landed;
    var h := HandleOf(payload);
    var f0 := s.files[h].(wr := BlockStart(payload));
    BlockStartIsNew(payload);
    AssemblyBegins(s, h, f0.wr, payload, 16, chunks, first);
    BwriteReqStarts(s, payload);
    var o := BwriteReq(s, payload).srv;
    AnyOrderAssembles(o, h, f0, chunks, FromRequest(payload, 16, first), ns);
    SectorSizeSame(s, RunAll(o, Arrivals(chunks, ns)), h);
    BlockWriteLands(f0.(wr := f0.wr.(buffer := Flatten(chunks))), SectorSizeOf(s, h), i);
    WithBuffer(f0.wr, Flatten(chunks), SectorSizeOf(s, h), i);
  }

  lemma BlockStartIsNew(payload: seq<byte>)
    requires |payload| >= 16
    ensures var wr := BlockStart(payload);
            wr.buffer == [] && wr.receivedChunks == 0 && wr.blockWrite
  {
  }

  /** Filling the buffer does not move the sectors. */
  lemma WithBuffer(wr: WriteState, buffer: seq<byte>, size: nat, i: nat)
    ensures var w := wr.(buffer := buffer);
            && FirstByte(w, size) == FirstByte(wr, size) && Room(w, size) == Room(wr, size)
            && Outside(w, size, i) == Outside(wr, size, i)
  {
  }

  lemma BwriteReqStarts(s: Server, payload: seq<byte>)
    requires |payload| >= 16 && StartError(s, HandleOf(payload)) == 0
    ensures BwriteReq(s, payload) ==
            AfterStart(Started(s, HandleOf(payload), BlockStart(payload)), HandleOf(payload), payload, 16)
  {
    hide HandleOf, Get16, Get32, AfterStart;
  }

  lemma BlockWriteLands(f: File, sectorSize: nat, i: nat)
    requires f.wr.blockWrite
    ensures var g, d := Complete(f, sectorSize), f.wr.buffer[..Min(|f.wr.buffer|, Room(f.wr, sectorSize))];
            && |f.content| <= |g.content|
            && Landed(f.content, g.content, FirstByte(f.wr, sectorSize), d)
            && (Outside(f.wr, sectorSize, i) ==>
                  && (i < |f.content| ==> g.content[i] == f.content[i])
                  && (|f.content| <= i < |g.content| ==> g.content[i] == 0))
  {
    hide Overwrite, Room, FirstByte, Outside, Landed;
    assert f.wr.buffer[..|f.wr.buffer|] == f.wr.buffer;
    var d := f.wr.buffer[..Min(|f.wr.buffer|, Room(f.wr, sectorSize))];
    OverwriteGrows(f.content, FirstByte(f.wr, sectorSize), d);
    OverwriteLands(f.content, Complete(f, sectorSize).content, FirstByte(f.wr, sectorSize), d);
    if Outside(f.wr, sectorSize, i) {
      BlockWriteStaysInside(f, sectorSize, i);
    }
  }

  lemma OverwriteGrows(content: seq<byte>, pos: nat, d: seq<byte>)
    ensures |content| <= |Overwrite(content, pos, d)|
  {
  }

  // ----- Requests as a client builds them -----

  function Word(handle: int): seq<byte>
    requires -0x8000_0000 <= handle < 0x8000_0000
  {
    Put32(handle % 0x1_0000_0000)
  }

  /** WRITE_REQ: the type, three unused bytes, the handle, the length announced; a chunk may follow. */
  function WriteRequest(handle: int, length: int, rest: seq<byte>): (p: seq<byte>)
    requires -0x8000_0000 <= handle < 0x8000_0000 && 0 <= length < 0x1_0000_0000
    ensures |p| == 12 + |rest|
  {
    [0x16, 0, 0, 0] + Word(handle) + Put32(length) + rest
  }

  /** BWRITE_REQ: the type, the sector count, the handle, the 64-bit sector number; a chunk may follow. */
  function BlockRequest(handle: int, sector: int, count: uint16, rest: seq<byte>): (p: seq<byte>)
    requires -0x8000_0000 <= handle < 0x8000_0000 && 0 <= sector < 0x8000_0000_0000_0000
    ensures |p| == 16 + |rest|
  {
    [0x2A, 0] + Put16(count) + Word(handle) +
    Put32(sector % 0x1_0000_0000) + Put32(sector / 0x1_0000_0000) + rest
  }

  lemma HandleReads(payload: seq<byte>, handle: int)
    requires -0x8000_0000 <= handle < 0x8000_0000 && |payload| >= 8 && payload[4..8] == Word(handle)
    ensures HandleOf(payload) == handle
  {
    hide Put32, Get32;
    Load32(handle % 0x1_0000_0000);
  }

  lemma WriteRequestReads(handle: int, length: int, rest: seq<byte>)
    requires -0x8000_0000 <= handle < 0x8000_0000 && 0 <= length < 0x1_0000_0000
    ensures HandleOf(WriteRequest(handle, length, rest)) == handle && WriteRequest(handle, length, rest)[12..] == rest
  {
    hide Put32, HandleOf;
    HandleReads(WriteRequest(handle, length, rest), handle);
  }

  lemma BlockRequestReads(handle: int, sector: int, count: uint16, rest: seq<byte>)
    requires -0x8000_0000 <= handle < 0x8000_0000 && 0 <= sector < 0x8000_0000_0000_0000
    ensures var p := BlockRequest(handle, sector, count, rest);
            HandleOf(p) == handle && BlockStart(p) == WriteState([], sector, count, 0, 0, true) && p[16..] == rest
  {
    hide Put32, Get32, Put16, Get16, HandleOf;
    var p := BlockRequest(handle, sector, count, rest);
    HandleReads(p, handle);
    assert p[2..4] == Put16(count);
    assert p[8..12] == Put32(sector % 0x1_0000_0000) && p[12..16] == Put32(sector / 0x1_0000_0000);
    Load16(count);
    Load32(sector % 0x1_0000_0000);
    Load32(sector / 0x1_0000_0000);
  }

  /** What may follow a request: nothing, or the first chunk. */
  predicate FirstOrNone(rest: seq<byte>, chunks: seq<seq<byte>>)
    requires Countable(chunks)
  {
    rest == [] || rest == ChunkPayload(0, chunks[0], |chunks|)
  }

  /** A file that can be written to. */
  predicate Writable(s: Server, h: int) {
    h >= 0 && h in s.files && !s.files[h].readOnly
  }

  /**
   A whole write, bytes in and bytes out: the client asks to write to a writable file and its chunks arrive in
   any order and number. If all of them arrive in line, their concatenation has landed at the old position;
   otherwise the file is as it was.
   */
  lemma WriteLands(s: Server, h: int, length: int, rest: seq<byte>, chunks: seq<seq<byte>>, ns: seq<nat>)
    requires Countable(chunks) && FirstOrNone(rest, chunks) && Writable(s, h) && h < 0x8000_0000
    requires 0 <= length < 0x1_0000_0000 && forall i :: 0 <= i < |ns| ==> ns[i] < |chunks|
    ensures var f := s.files[h];
            var g := RunAll(WriteReq(s, WriteRequest(h, length, rest)).srv, Arrivals(chunks, ns)).files;
            && h in g
            && if InOrder(ns, if rest == [] then 0 else 1, |chunks|)
               then Landed(f.content, g[h].content, f.pos, Flatten(chunks)) && g[h].pos == f.pos + |Flatten(chunks)|
               else g[h].content == f.content && g[h].pos == f.pos
  {
    hide WriteReq, RunAll, Arrivals, Flatten, Landed, HandleOf, InOrder, Progress, ChunkPayload, WriteRequest;
    var payload := WriteRequest(h, length, rest);
    WriteRequestReads(h, length, rest);
    WriteAnyOrder(s, payload, chunks, 0, ns);
    ProgressIsMost(ns, if rest == [] then 0 else 1, |chunks|, |chunks|);
  }

  /**
   The same for a block write of `count` sectors at `sector`: what does not fit them is cut off. Sectors of the
   block device have its sector size, those of a file 512 bytes.
   */
  lemma BlockWriteLandsAt(s: Server, h: int, sector: int, count: uint16, rest: seq<byte>, chunks: seq<seq<byte>>,
                          ns: seq<nat>)
    requires Countable(chunks) && FirstOrNone(rest, chunks) && Writable(s, h) && h < 0x8000_0000
    requires 0 <= sector < 0x8000_0000_0000_0000 && forall i :: 0 <= i < |ns| ==> ns[i] < |chunks|
    ensures var f, size, d := s.files[h], if h == 0 then s.sectorSize else 512, Flatten(chunks);
            var g := RunAll(BwriteReq(s, BlockRequest(h, sector, count, rest)).srv, Arrivals(chunks, ns)).files;
            && h in g
            && if InOrder(ns, if rest == [] then 0 else 1, |chunks|)
               then Landed(f.content, g[h].content, InBytes(sector, size), d[..Min(|d|, InBytes(count, size))])
               else g[h].content == f.content
  {
    hide BwriteReq, RunAll, Arrivals, Flatten, Landed, HandleOf, InOrder, Progress, ChunkPayload, BlockRequest,
         BlockStart, FirstByte, Room, Outside, SectorSizeOf, InBytes;
    var payload := BlockRequest(h, sector, count, rest);
    BlockRequestReads(h, sector, count, rest);
    BlockPlace(s, h, WriteState([], sector, count, 0, 0, true));
    BlockWriteAnyOrder(s, payload, chunks, 0, ns, 0);
    ProgressIsMost(ns, if rest == [] then 0 else 1, |chunks|, |chunks|);
  }

  lemma BlockPlace(s: Server, h: int, wr: WriteState)
    ensures var size := if h == 0 then s.sectorSize else 512;
            && SectorSizeOf(s, h) == size
            && FirstByte(wr, size) == InBytes(wr.sectorNumber, size) && Room(wr, size) == InBytes(wr.sectorCount, size)
  {
  }

  /** A file just opened for writing is written from its start. */
  lemma OpenedWriteLands(s: Server, h: int, content: seq<byte>, rest: seq<byte>, chunks: seq<seq<byte>>, ns: seq<nat>)
    requires Countable(chunks) && FirstOrNone(rest, chunks) && 1 <= h < 0x8000_0000
    requires forall i :: 0 <= i < |ns| ==> ns[i] < |chunks|
    requires InOrder(ns, if rest == [] then 0 else 1, |chunks|)
    ensures var o := Handle(s, OpenEv(h, content, false)).srv;
            var g := RunAll(WriteReq(o, WriteRequest(h, 0, rest)).srv, Arrivals(chunks, ns)).files;
            h in g && Landed(content, g[h].content, 0, Flatten(chunks))
  {
    hide WriteReq, RunAll, Arrivals, Flatten, Landed, InOrder, ChunkPayload, WriteRequest;
    WriteLands(Handle(s, OpenEv(h, content, false)).srv, h, 0, rest, chunks, ns);
  }

  /** The concatenation holds every chunk at the place its predecessors leave. */
  lemma {:induction false} FlattenHolds(chunks: seq<seq<byte>>, j: nat)
    requires j < |chunks|
    ensures var d, at := Flatten(chunks), |Flatten(chunks[..j])|;
            at + |chunks[j]| <= |d| && d[at..at + |chunks[j]|] == chunks[j]
  {
    var n := |chunks| - 1;
    if j == n {
    } else {
      FlattenHolds(chunks[..n], j);
      assert chunks[..n][..j] == chunks[..j];
      var d, e, at := Flatten(chunks), Flatten(chunks[..n]), |Flatten(chunks[..j])|;
      assert d[at..at + |chunks[j]|] == e[at..at + |chunks[j]|];
    }
  }

  // ----- What is refused, and what is forgotten -----

  /**
   A request for a number without a file is answered with EIO, one for a read-only file with EACCES; no file
   changes.
   */
  lemma Refused(s: Server, h: int, length: int, sector: int, count: uint16, rest: seq<byte>)
    requires -0x8000_0000 <= h < 0x8000_0000 && !Writable(s, h)
    requires 0 <= length < 0x1_0000_0000 && 0 <= sector < 0x8000_0000_0000_0000
    ensures var err := if h >= 0 && h in s.files then 13 else 5;
            var o := Outcome(s.(active := NO_HANDLE), Done(-err), false, false);
            WriteReq(s, WriteRequest(h, length, rest)) == o && BwriteReq(s, BlockRequest(h, sector, count, rest)) == o
  {
    hide HandleOf, WriteRequest, BlockRequest, AfterStart, BlockStart;
    WriteRequestReads(h, length, rest);
    BlockRequestReads(h, sector, count, rest);
  }

  /**
   A read-only file with no write in progress on it is never changed, whatever is asked, until it is closed or
   replaced.
   */
  lemma {:induction false} ReadOnlyKept(s: Server, h: int, evs: seq<Event>)
    requires h >= 0 && h in s.files && s.files[h].readOnly && s.active != h
    requires forall i :: 0 <= i < |evs| ==> evs[i] != CloseEv(h) && !(evs[i].OpenEv? && evs[i].slot == h)
    ensures var r := RunAll(s, evs);
            h in r.files && r.files[h] == s.files[h] && r.active != h
    decreases |evs|
  {
    hide Handle;
    if evs == [] {
    } else {
      ReadOnlyStep(s, h, evs[0]);
      ReadOnlyKept(Handle(s, evs[0]).srv, h, evs[1..]);
    }
  }

  lemma ReadOnlyStep(s: Server, h: int, ev: Event)
    requires h >= 0 && h in s.files && s.files[h].readOnly && s.active != h
    requires ev != CloseEv(h) && !(ev.OpenEv? && ev.slot == h)
    ensures var r := Handle(s, ev).srv;
            h in r.files && r.files[h] == s.files[h] && r.active != h
  {
    hide TakeChunk, ChunkCompletes, Complete, HandleOf, Get16, Get32, BlockStart;
  }

  /** Closing a file ends the write in progress on it: chunks that still arrive change nothing. */
  lemma CloseForgets(s: Server, h: int, payload: seq<byte>)
    requires h >= 1
    ensures var r := Handle(s, CloseEv(h)).srv;
            && h !in r.files && r.active != h
            && (forall k :: k in s.files && k != h ==> k in r.files && r.files[k] == s.files[k])
            && (s.active == h ==> WriteData(r, payload).srv == r)
  {
    hide Feed;
  }

  // ----- The connection and the backend as the program keeps them -----

  /** An open file; its write state is changed in place. */
  class FileHandle {
    const readOnly: bool
    var content: seq<byte>
    var pos: nat
    var dataBuffer: seq<byte>
    var sectorNumber: nat
    var sectorCount: nat
    var totalChunks: uint16
    var receivedChunks: uint16
    var blockWrite: bool

    ghost function Now(): File
      reads this
    {
      File(content, pos, readOnly,
           WriteState(dataBuffer, sectorNumber, sectorCount, totalChunks, receivedChunks, blockWrite))
    }

    constructor (content: seq<byte>, readOnly: bool)
      ensures Now() == NewFile(content, readOnly)
    {
      this.content, this.readOnly, pos := content, readOnly, 0;
      dataBuffer, sectorNumber, sectorCount, totalChunks, receivedChunks, blockWrite := [], 0, 0, 0, 0, false;
    }

    /** The part of CompleteWrite that runs under the lock of the file. */
    method Flush(size: nat) returns (n: nat)
      modifies this
      ensures Now() == Complete(old(Now()), size) && n == if old(blockWrite) then 0 else |old(dataBuffer)|
      ensures !old(blockWrite) ==> Landed(old(content), content, old(pos), old(dataBuffer))
      ensures old(blockWrite) ==>
                var d := old(dataBuffer);
                Landed(old(content), content, InBytes(sectorNumber, size), d[..Min(|d|, InBytes(sectorCount, size))])
    {
      hide Overwrite, Landed;
      CompleteLands(Now(), size);
      var data := dataBuffer;
      if blockWrite {
        var expectedSize := sectorCount * size;
        if |data| > expectedSize {
          data := data[..expectedSize];
        }
        pos := sectorNumber * size;
      }
      n := if blockWrite then 0 else |data|;
      content := Overwrite(content, pos, data);
      pos := pos + |data|;
    }
  }

  /** The handle table of the backend and the active write handle of one connection. */
  class WriteServer {
    const handles: array<FileHandle?>
    const bdHandle: FileHandle?
    const sectorSize: nat
    var activeWriteHandle: int

    /** The object behind a handle number: the block device, a slot of the table, or nothing. */
    function At(h: int): FileHandle?
      requires handles.Length == MAX_HANDLES
      reads handles
    {
      if h == BLOCK_DEVICE_HANDLE then bdHandle else if 1 <= h <= MAX_HANDLES then handles[h - 1] else null
    }

    ghost function Objects(): set<FileHandle>
      requires handles.Length == MAX_HANDLES
      reads handles
    {
      set h | 0 <= h <= MAX_HANDLES && At(h) != null :: At(h)
    }

    /** No two handle numbers share an object, and the active handle is one of the table. */
    ghost predicate Valid()
      reads this, handles
    {
      && handles.Length == MAX_HANDLES && NO_HANDLE <= activeWriteHandle <= MAX_HANDLES
      && forall h, h' :: 0 <= h < h' <= MAX_HANDLES && At(h) != null ==> At(h) != At(h')
    }

    ghost function Abs(): Server
      requires Valid()
      reads this, handles, Objects()
    {
      Server(map h | 0 <= h <= MAX_HANDLES && At(h) != null :: At(h).Now(), activeWriteHandle, sectorSize)
    }

    constructor (bdHandle: FileHandle?, sectorSize: nat)
      ensures Valid() && fresh(handles) && activeWriteHandle == NO_HANDLE
      ensures Abs() == Server(if bdHandle == null then map[] else map[BLOCK_DEVICE_HANDLE := bdHandle.Now()],
                              NO_HANDLE, sectorSize)
    {
      handles := new FileHandle?[MAX_HANDLES](_ => null);
      this.bdHandle, this.sectorSize, activeWriteHandle := bdHandle, sectorSize, NO_HANDLE;
    }

    /** WriteStart: the write state of the file is emptied in place. */
    method WriteStart(handle: int) returns (errno: int)
      requires Valid() && handle <= MAX_HANDLES
      modifies Objects()
      ensures Valid() && errno == StartError(old(Abs()), handle)
      ensures Abs() == if errno != 0 then old(Abs())
                       else Reopened(old(Abs()), handle, PlainStart(old(Abs()).files[handle]))
    {
      var f := At(handle);
      if f == null {
        return EIO;
      }
      if f.readOnly {
        return EACCES;
      }
      f.blockWrite := false;
      f.dataBuffer := [];
      f.totalChunks := 0;
      f.receivedChunks := 0;
      OnlyOneChanged(handle);
      return 0;
    }

    /** BwriteStart. */
    method BwriteStart(handle: int, sectorNr: nat, sectors: uint16) returns (errno: int)
      requires Valid() && handle <= MAX_HANDLES
      modifies Objects()
      ensures Valid() && errno == StartError(old(Abs()), handle)
      ensures Abs() == if errno != 0 then old(Abs())
                       else Reopened(old(Abs()), handle, WriteState([], sectorNr, sectors, 0, 0, true))
    {
      var f := At(handle);
      if f == null {
        return EIO;
      }
      if f.readOnly {
        return EACCES;
      }
      f.blockWrite := true;
      f.sectorNumber := sectorNr;
      f.sectorCount := sectors;
      f.dataBuffer := [];
      f.totalChunks := 0;
      f.receivedChunks := 0;
      OnlyOneChanged(handle);
      return 0;
    }

    method WriteChunk(handle: int, chunkNr: uint16, totalChunks: uint16, chunk: seq<byte>)
      returns (done: bool, errno: int)
      requires Valid() && handle <= MAX_HANDLES
      modifies Objects()
      ensures Valid() && (errno == EIO <==> !Known(old(Abs()), handle)) && (errno == 0 || errno == EIO)
      ensures errno != 0 ==> !done && Abs() == old(Abs())
      ensures errno == 0 ==>
                && done == ChunkCompletes(old(Abs()).files[handle], chunkNr, totalChunks)
                && Abs() == WithFile(old(Abs()), handle,
                                     TakeChunk(old(Abs()).files[handle], chunkNr, totalChunks, chunk))
    {
      var f := At(handle);
      if f == null {
        return false, EIO;
      }
      if chunkNr != f.receivedChunks {
        OnlyOneChanged(handle);
        return false, 0;
      }
      f.dataBuffer := f.dataBuffer + chunk;
      f.totalChunks := totalChunks;
      f.receivedChunks := (f.receivedChunks + 1) % 0x1_0000;
      OnlyOneChanged(handle);
      return f.receivedChunks >= f.totalChunks, 0;
    }

    method CompleteWrite(handle: int) returns (n: nat, errno: int)
      requires Valid() && handle <= MAX_HANDLES
      modifies Objects()
      ensures Valid() && (errno == EIO <==> !Known(old(Abs()), handle)) && (errno == 0 || errno == EIO)
      ensures errno != 0 ==> n == 0 && Abs() == old(Abs())
      ensures errno == 0 ==>
                var f := old(Abs()).files[handle];
                && n == (if f.wr.blockWrite then 0 else |f.wr.buffer|)
                && Abs() == WithFile(old(Abs()), handle, Complete(f, SectorSizeOf(old(Abs()), handle)))
                && (!f.wr.blockWrite ==> Landed(f.content, Abs().files[handle].content, f.pos, f.wr.buffer))
    {
      hide Complete, Landed;
      var f := At(handle);
      if f == null {
        return 0, EIO;
      }
      var size := sectorSize;
      if handle != BLOCK_DEVICE_HANDLE {
        size := FILE_SECTOR_SIZE;
      }
      CompleteLands(f.Now(), size);
      n := f.Flush(size);
      errno := 0;
      OnlyOneChanged(handle);
    }

    /** If only the object of one handle has changed, only the file of that handle has. */
    twostate lemma OnlyOneChanged(h: int)
      requires old(Valid()) && Valid() && 0 <= h <= MAX_HANDLES && At(h) != null
      requires activeWriteHandle == old(activeWriteHandle)
      requires forall k :: 0 <= k <= MAX_HANDLES ==> At(k) == old(At(k))
      requires forall k :: 0 <= k <= MAX_HANDLES && k != h && At(k) != null ==> At(k).Now() == old(At(k).Now())
      ensures Abs() == WithFile(old(Abs()), h, At(h).Now())
    {
      assert Abs().files == old(Abs()).files[h := At(h).Now()];
    }

    method SendWriteDone(result: int) returns (a: Answer)
      requires Valid()
      modifies this`activeWriteHandle
      ensures Valid() && Abs() == old(Abs()).(active := NO_HANDLE) && a == Done(result)
    {
      activeWriteHandle := NO_HANDLE;
      return Done(result);
    }

    /** The chunk part shared by the three write handlers. */
    method FeedChunkPayload(handle: int, cp: seq<byte>) returns (a: Answer)
      requires Valid() && handle <= MAX_HANDLES && |cp| >= 8
      modifies this, Objects()
      ensures Valid() && Abs() == Feed(old(Abs()), handle, cp).srv && a == Feed(old(Abs()), handle, cp).answer
    {
      hide TakeChunk, ChunkCompletes, Complete, Get16, SectorSizeOf;
      var chunkNr, chunkSize, totalChunks := Get16(cp[2..4]), Get16(cp[4..6]), Get16(cp[6..8]);
      var chunkData := cp[8..];
      if chunkSize < |chunkData| {
        chunkData := chunkData[..chunkSize];
        assert chunkData == cp[8..8 + chunkSize];
      }
      var done, errno := WriteChunk(handle, chunkNr, totalChunks, chunkData);
      if errno != 0 {
        a := SendWriteDone(-errno);
        return;
      }
      if done {
        ghost var mid := Abs();
        var n, _ := CompleteWrite(handle);
        SectorSizeSame(old(Abs()), mid, handle);
        StoreTwice(old(Abs()), handle);
        a := SendWriteDone(n);
        return;
      }
      return Ack;
    }

    method HandleWriteReq(payload: seq<byte>) returns (a: Answer)
      requires Valid() && (|payload| >= 12 ==> HandleOf(payload) <= MAX_HANDLES)
      modifies this, Objects()
      ensures Valid() && Abs() == WriteReq(old(Abs()), payload).srv && a == WriteReq(old(Abs()), payload).answer
    {
      hide Feed, HandleOf;
      if |payload| < 12 {
        return Ack;
      }
      var handle := HandleOf(payload);
      var errno := WriteStart(handle);
      if errno != 0 {
        a := SendWriteDone(-errno);
        return;
      }
      activeWriteHandle := handle;
      assert Abs() == Started(old(Abs()), handle, PlainStart(old(Abs()).files[handle]));
      if |payload| <= 12 || |payload[12..]| < 8 {
        return Ack;
      }
      a := FeedChunkPayload(handle, payload[12..]);
    }

    method HandleBwriteReq(payload: seq<byte>) returns (a: Answer)
      requires Valid() && (|payload| >= 16 ==> HandleOf(payload) <= MAX_HANDLES)
      modifies this, Objects()
      ensures Valid() && Abs() == BwriteReq(old(Abs()), payload).srv && a == BwriteReq(old(Abs()), payload).answer
    {
      hide Feed, HandleOf, Get32, Get16;
      if |payload| < 16 {
        return Ack;
      }
      var sectorCount, handle := Get16(payload[2..4]), HandleOf(payload);
      var sectorNr := Get32(payload[8..12]) + Get32(payload[12..16]) * 0x1_0000_0000;
      var errno := BwriteStart(handle, sectorNr, sectorCount);
      if errno != 0 {
        a := SendWriteDone(-errno);
        return;
      }
      activeWriteHandle := handle;
      assert Abs() == Started(old(Abs()), handle, BlockStart(payload));
      if |payload| <= 16 || |payload[16..]| < 8 {
        return Ack;
      }
      a := FeedChunkPayload(handle, payload[16..]);
    }

    method HandleWriteData(payload: seq<byte>) returns (a: Answer)
      requires Valid()
      modifies this, Objects()
      ensures Valid() && Abs() == WriteData(old(Abs()), payload).srv && a == WriteData(old(Abs()), payload).answer
    {
      hide Feed;
      if |payload| < 8 {
        return Ack;
      }
      var handle := activeWriteHandle;
      if handle == NO_HANDLE {
        return Ack;
      }
      a := FeedChunkPayload(handle, payload);
    }

    /** freeHandle and removeHandle for a file of the table. */
    method CloseFile(handle: int)
      requires Valid() && 0 <= handle <= MAX_HANDLES
      modifies this, handles
      ensures Valid() && Objects() <= old(Objects()) && Abs() == CloseHandle(old(Abs()), handle).srv
    {
      if handle == BLOCK_DEVICE_HANDLE {
        return;
      }
      ghost var before := Abs();
      handles[handle - 1] := null;
      if activeWriteHandle == handle {
        activeWriteHandle := NO_HANDLE;
      }
      assert forall h :: 0 <= h <= MAX_HANDLES ==> At(h) == if h == handle then null else old(At(h));
      assert Abs().files == before.files - {handle};
    }

    /** newFileHandle, stored at the number the handle table has chosen. */
    method OpenFile(handle: int, content: seq<byte>, readOnly: bool)
      requires Valid() && 1 <= handle <= MAX_HANDLES
      modifies handles
      ensures Valid() && fresh(Objects() - old(Objects()))
      ensures Abs() == OpenHandle(old(Abs()), handle, content, readOnly).srv
    {
      ghost var before := Abs();
      var f := new FileHandle(content, readOnly);
      handles[handle - 1] := f;
      assert forall h :: 0 <= h <= MAX_HANDLES ==> At(h) == if h == handle then f else old(At(h));
      assert Abs().files == before.files[handle := NewFile(content, readOnly)];
    }
  }

  function WithFile(s: Server, h: int, f: File): Server {
    s.(files := s.files[h := f])
  }

  function Reopened(s: Server, h: int, wr: WriteState): Server
    requires h in s.files
  {
    WithFile(s, h, s.files[h].(wr := wr))
  }

  /** Storing a file twice keeps the second. */
  lemma StoreTwice(s: Server, h: int)
    ensures forall f: File, g: File :: WithFile(WithFile(s, h, f), h, g) == WithFile(s, h, g)
  {
    forall f: File, g: File
      ensures WithFile(WithFile(s, h, f), h, g) == WithFile(s, h, g)
    {
      assert s.files[h := f][h := g] == s.files[h := g];
    }
  }

  lemma SectorSizeSame(s: Server, s': Server, h: int)
    requires s.sectorSize == s'.sectorSize
    ensures SectorSizeOf(s, h) == SectorSizeOf(s', h)
  {
  }

  /** Handle numbers the program can look up. */
  predicate InTable(ev: Event) {
    match ev
    case WriteReqEv(p) => |p| >= 12 ==> HandleOf(p) <= MAX_HANDLES
    case BwriteReqEv(p) => |p| >= 16 ==> HandleOf(p) <= MAX_HANDLES
    case WriteDataEv(_) => true
    case CloseEv(h) => 0 <= h <= MAX_HANDLES
    case OpenEv(h, _, _) => 1 <= h <= MAX_HANDLES
  }

  /** The objects go through any sequence of requests as the values do, so all of the above holds of them. */
  method Serve(srv: WriteServer, evs: seq<Event>)
    requires srv.Valid() && forall i :: 0 <= i < |evs| ==> InTable(evs[i])
    modifies srv, srv.handles, srv.Objects()
    ensures srv.Valid() && fresh(srv.Objects() - old(srv.Objects()))
    ensures srv.Abs() == RunAll(old(srv.Abs()), evs)
  {
    hide WriteReq, BwriteReq, WriteData, CloseHandle;
    ghost var s := srv.Abs();
    for i := 0 to |evs|
      invariant srv.Valid() && fresh(srv.Objects() - old(srv.Objects()))
      invariant RunAll(srv.Abs(), evs[i..]) == RunAll(s, evs)
    {
      assert evs[i..][0] == evs[i] && evs[i..][1..] == evs[i + 1..];
      ghost var before := srv.Abs();
      match evs[i] {
        case WriteReqEv(p) => var a := srv.HandleWriteReq(p);
        case BwriteReqEv(p) => var a := srv.HandleBwriteReq(p);
        case WriteDataEv(p) => var a := srv.HandleWriteData(p);
        case CloseEv(h) => srv.CloseFile(h);
        case OpenEv(h, content, readOnly) => srv.OpenFile(h, content, readOnly);
      }
      assert srv.Abs() == Handle(before, evs[i]).srv;
    }
  }
}
