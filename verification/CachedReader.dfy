/**
 The seekable reader over a compressed image (internal/fs/compression/reader.go): whatever
 the cache holds, it reads like one flat file.
 */
module CachedReader {
  import opened Basics
  import Cache = BlockCache

  /** A block decoder: the flat image it stands for, and what ReadBlock returns for each index (None is an error). */
  datatype Source = Source(image: seq<byte>, blockSize: nat, blocks: int -> Option<seq<byte>>)

  /** Which block a position falls into, where in that block, and where a block starts. */
  function BlockIndex(pos: nat, bs: nat): nat
    requires bs >= 1
  {
    pos / bs
  }

  function BlockOffset(pos: nat, bs: nat): nat
    requires bs >= 1
  {
    pos % bs
  }

  function BlockStart(i: nat, bs: nat): nat {
    i * bs
  }

  lemma Position(pos: nat, bs: nat)
    requires bs >= 1
    ensures BlockStart(BlockIndex(pos, bs), bs) + BlockOffset(pos, bs) == pos && BlockOffset(pos, bs) < bs
  {
  }

  /** How many bytes of a file of this size block i covers. */
  function BlockLength(i: nat, bs: nat, size: nat): int {
    Min(bs, size - BlockStart(i, bs))
  }

  /** Block i, when it can be read, starts with the bytes of the image it covers. */
  predicate BlockHolds(src: Source, i: nat) {
    var from, n := BlockStart(i, src.blockSize), BlockLength(i, src.blockSize, |src.image|);
    from < |src.image| && src.blocks(i).Some? ==>
      |src.blocks(i).value| >= n && src.blocks(i).value[..n] == src.image[from..from + n]
  }

  ghost predicate Faithful(src: Source) {
    src.blockSize >= 1 && forall i: nat :: BlockHolds(src, i)
  }

  /** How many of `want` bytes from `pos` lie before the first block that cannot be read. No cache is involved. */
  function Readable(src: Source, pos: nat, want: nat): (n: nat)
    requires src.blockSize >= 1
    ensures n <= want
    decreases want
  {
    if want == 0 || src.blocks(BlockIndex(pos, src.blockSize)).None? then 0
    else
      Position(pos, src.blockSize);
      var step := Min(want, src.blockSize - BlockOffset(pos, src.blockSize));
      step + Readable(src, pos + step, want - step)
  }

  /** The blocks such a read goes through, whether they come from the cache or from the decoder. */
  function Touched(src: Source, pos: nat, want: nat): (blocks: seq<int>)
    requires src.blockSize >= 1
    decreases want
  {
    if want == 0 || src.blocks(BlockIndex(pos, src.blockSize)).None? then []
    else
      Position(pos, src.blockSize);
      var step := Min(want, src.blockSize - BlockOffset(pos, src.blockSize));
      [BlockIndex(pos, src.blockSize)] + Touched(src, pos + step, want - step)
  }

  /** With every block readable, nothing is cut short. */
  lemma {:induction false} AllReadable(src: Source, pos: nat, want: nat)
    requires src.blockSize >= 1 && forall i: nat :: src.blocks(i).Some?
    ensures Readable(src, pos, want) == want
    decreases want
  {
    hide BlockIndex, BlockOffset;
    if want == 0 {
    } else {
      Position(pos, src.blockSize);
      var step := Min(want, src.blockSize - BlockOffset(pos, src.blockSize));
      assert src.blocks(BlockIndex(pos, src.blockSize)).Some?;
      AllReadable(src, pos + step, want - step);
    }
  }

  /** The block size the loop computes is what the block covers, and the position lies inside it. */
  lemma LastBlockSize(pos: nat, size: nat, bs: nat)
    requires bs >= 1 && pos < size
    ensures var i := BlockIndex(pos, bs);
            var last := if i == CeilDiv(size, bs) - 1 && BlockOffset(size, bs) != 0 then BlockOffset(size, bs) else bs;
            last == BlockLength(i, bs, size) > BlockOffset(pos, bs)
  {
    hide BlockIndex, BlockOffset, BlockStart, CeilDiv;
    var i, k := BlockIndex(pos, bs), BlockIndex(size, bs);
    Position(pos, bs);
    Position(size, bs);
    CeilOf(size, bs);
    StartMonotone(i, k, bs);
    StartMonotone(k, i, bs);
  }

  lemma StartMonotone(i: nat, k: nat, bs: nat)
    ensures i < k ==> BlockStart(i, bs) + bs <= BlockStart(k, bs)
  {
    MulMonotone(i + 1, k, bs);
  }

  lemma CeilOf(size: nat, bs: nat)
    requires bs >= 1
    ensures CeilDiv(size, bs) == BlockIndex(size, bs) + (if BlockOffset(size, bs) == 0 then 0 else 1)
  {
    var k, r := BlockIndex(size, bs), BlockOffset(size, bs);
    Position(size, bs);
    assert (k + 1) * bs == k * bs + bs;
    DivIs(size + bs - 1, bs, if r == 0 then k else k + 1);
  }

  datatype Whence = SeekStart | SeekCurrent | SeekEnd | BadWhence

  datatype ReadError = NoError | EndOfFile | BlockError

  /** The position Seek moves to, kept inside the file. */
  function SeekTarget(pos: int, size: nat, offset: int, whence: Whence): (r: int)
    requires 0 <= pos <= size
    ensures 0 <= r <= size
  {
    var raw := match whence
               case SeekStart => offset
               case SeekCurrent => pos + offset
               case SeekEnd => size + offset
               case BadWhence => pos;
    if raw < 0 then 0 else if raw > size then size else raw
  }

  class CachedReader {
    const br: Source
    const cache: Cache.BlockCache
    const blockSize: nat
    const numBlocks: nat
    const size: nat
    var pos: nat

    /** Cached blocks are what the decoder returns, and the position is inside the file. */
    ghost predicate Valid()
      reads this, cache
    {
      Shape() && size == |br.image| && br.blockSize >= 1 && Cached() && pos <= size
    }

    /** What the constructor fixed. */
    ghost predicate Shape() {
      Faithful(br) && blockSize == br.blockSize && numBlocks == CeilDiv(size, blockSize)
    }

    ghost predicate Cached()
      reads cache
    {
      cache.Valid() && forall k :: k in cache.data ==> br.blocks(k) == Some(cache.data[k])
    }

    constructor (br: Source, cacheSize: int)
      requires Faithful(br)
      ensures Valid() && pos == 0 && this.br == br && fresh(cache)
      ensures cache.max == if cacheSize <= 0 then 32 else cacheSize
    {
      this.br := br;
      blockSize, numBlocks, size, pos := br.blockSize, CeilDiv(|br.image|, br.blockSize), |br.image|, 0;
      cache := new Cache.BlockCache(if cacheSize <= 0 then 32 else cacheSize);
    }

    method Seek(offset: int, whence: Whence) returns (newPos: nat, ok: bool)
      requires Valid()
      modifies this
      ensures Valid() && ok == !whence.BadWhence?
      ensures newPos == pos == SeekTarget(old(pos), size, offset, whence)
      ensures whence == SeekStart && 0 <= offset <= size ==> newPos == offset
      ensures whence == SeekCurrent && 0 <= old(pos) + offset <= size ==> newPos - old(pos) == offset
      ensures whence == SeekEnd && 0 <= size + offset <= size ==> size - newPos == -offset
      ensures var from := if whence == SeekStart then 0 else if whence == SeekCurrent then old(pos) else size;
              && (ok && offset < -from ==> newPos == 0)
              && (ok && offset > size - from ==> newPos == size)
              && (!ok ==> newPos == old(pos))
    {
      var p: int := pos;
      match whence {
        case SeekStart => p := offset;
        case SeekCurrent => p := p + offset;
        case SeekEnd => p := size + offset;
        case BadWhence => return pos, false;
      }
      if p < 0 {
        p := 0;
      }
      if p > size {
        p := size;
      }
      pos := p;
      return pos, true;
    }

    /** A hit or a decoded block; either way the decoder's answer. A failed block leaves no trace in the cache. */
    method GetBlock(blockIdx: int) returns (block: Option<seq<byte>>)
      requires Valid()
      modifies cache
      ensures Valid() && block == br.blocks(blockIdx)
      ensures cache.history == old(cache.history) + (if block.Some? then [blockIdx] else [])
    {
      block := cache.Get(blockIdx);
      if block.Some? {
        return;
      }
      block := br.blocks(blockIdx);
      if block.None? {
        return;
      }
      cache.Put(blockIdx, block.value);
    }

    /**
     Read: exactly the bytes of the image from the position on, as far as the buffer, the file and the decoder
     allow.
     */
    method Read(p: array<byte>) returns (n: nat, err: ReadError)
      requires Valid()
      modifies this`pos, cache, p
      ensures Valid()
      ensures var want := Min(p.Length, size - old(pos));
              && n == Readable(br, old(pos), want) && pos == old(pos) + n
              && p[..n] == br.image[old(pos)..old(pos) + n]
              && p[n..] == old(p[n..])
              && cache.history == old(cache.history) + Touched(br, old(pos), want)
              && err == (if old(pos) == size then EndOfFile else if n < want then BlockError else NoError)
    {
      hide Readable, Touched, Shape, Cached;
      TouchedNothing(br, pos);
      assert cache.history + [] == cache.history;
      if pos >= size {
        return 0, EndOfFile;
      }
      var limit := p.Length;
      var remaining := size - pos;
      if limit > remaining {
        limit := remaining;
      }
      n, err := ReadLoop(p, limit);
    }

    /** The read loop: block after block until the limit or the first block that cannot be read. */
    method ReadLoop(p: array<byte>, limit: nat) returns (n: nat, err: ReadError)
      requires Valid() && limit <= p.Length && pos + limit <= size
      modifies this`pos, cache, p
      ensures Valid() && n == Readable(br, old(pos), limit) && pos == old(pos) + n
      ensures p[..n] == br.image[old(pos)..old(pos) + n] && p[n..] == old(p[n..])
      ensures cache.history == old(cache.history) + Touched(br, old(pos), limit)
      ensures err == if n < limit then BlockError else NoError
    {
      hide Readable, Touched, Shape, Cached, BlockIndex;
      ghost var start, before := pos, p[..];
      n := 0;
      while n < limit && pos < size
        invariant Valid() && n <= limit && pos == start + n
        invariant n + Readable(br, pos, limit - n) == Readable(br, start, limit)
        invariant cache.history + Touched(br, pos, limit - n) == old(cache.history) + Touched(br, start, limit)
        invariant p[..n] == br.image[start..start + n] && p[n..] == before[n..]
        decreases limit - n
      {
        ghost var h, b := cache.history, BlockIndex(pos, br.blockSize);
        var toRead := ReadStep(p, n, limit);
        if toRead.None? {
          return n, BlockError;
        }
        Associate(h, [b], Touched(br, pos, limit - n - toRead.value));
        Extend(br.image, start, n, toRead.value);
        n := n + toRead.value;
        assert p[n..] == before[n..];
      }
      TouchedNothing(br, pos);
      return n, NoError;
    }

    /** One turn of the read loop: the rest of the current block, or less. The avail <= 0 break is dead. */
    method ReadStep(p: array<byte>, n: nat, limit: nat) returns (step: Option<nat>)
      requires Valid() && n < limit <= p.Length && pos + (limit - n) <= size
      modifies this`pos, cache, p
      ensures Valid() && (step.Some? ==> 0 < step.value <= limit - n)
      ensures Readable(br, old(pos), limit - n) ==
              if step.None? then 0 else step.value + Readable(br, pos, limit - n - step.value)
      ensures Touched(br, old(pos), limit - n) ==
              if step.None? then [] else [BlockIndex(old(pos), br.blockSize)] + Touched(br, pos, limit - n - step.value)
      ensures cache.history == old(cache.history) + (if step.None? then [] else [BlockIndex(old(pos), br.blockSize)])
      ensures step.None? ==> pos == old(pos) && p[..] == old(p[..])
      ensures step.Some? ==>
                && pos == old(pos) + step.value
                && p[..n + step.value] == old(p[..n]) + br.image[old(pos)..pos]
                && p[n + step.value..] == old(p[n + step.value..])
    {
      hide Readable, Touched, Cached, Faithful, CeilDiv, BlockIndex, BlockOffset, BlockLength;
      LastBlockSize(pos, size, blockSize);
      var blockIdx := BlockIndex(pos, blockSize);
      var offsetInBlock := BlockOffset(pos, blockSize);
      var lastBlockSize := blockSize;
      if blockIdx == numBlocks - 1 && BlockOffset(size, blockSize) != 0 {
        lastBlockSize := BlockOffset(size, blockSize);
      }
      var avail := lastBlockSize - offsetInBlock;
      if avail <= 0 {
        assert false;
      }
      var toRead := limit - n;
      if toRead > avail {
        toRead := avail;
      }
      StepSize(br, pos, limit - n, toRead);
      var chunk := Fetch(blockIdx, offsetInBlock, toRead);
      if chunk.None? {
        return None;
      }
      CopyIn(p, n, chunk.value);
      pos := pos + toRead;
      return Some(toRead);
    }

    /** The part of a block the loop copies: the image at the current position. */
    method Fetch(blockIdx: nat, offsetInBlock: nat, toRead: nat) returns (chunk: Option<seq<byte>>)
      requires Valid() && pos < size
      requires blockIdx == BlockIndex(pos, blockSize) && offsetInBlock == BlockOffset(pos, blockSize)
      requires offsetInBlock + toRead <= BlockLength(blockIdx, blockSize, size)
      modifies cache
      ensures Valid() && (chunk.None? <==> br.blocks(blockIdx).None?)
      ensures cache.history == old(cache.history) + (if chunk.None? then [] else [blockIdx])
      ensures chunk.Some? ==>
                pos + toRead <= size && |chunk.value| == toRead && chunk.value == br.image[pos..pos + toRead]
    {
      hide CeilDiv, BlockHolds, BlockIndex, BlockOffset, BlockLength;
      var block := GetBlock(blockIdx);
      if block.None? {
        return None;
      }
      BlockSlice(br, pos, offsetInBlock, block.value, toRead);
      return Some(block.value[offsetInBlock..offsetInBlock + toRead]);
    }
  }

  /** copy: overwrite p from position n on. */
  method CopyIn(p: array<byte>, n: nat, chunk: seq<byte>)
    requires n + |chunk| <= p.Length
    modifies p
    ensures p[..] == old(p[..n]) + chunk + old(p[n + |chunk|..])
    ensures p[..n + |chunk|] == old(p[..n]) + chunk && p[n + |chunk|..] == old(p[n + |chunk|..])
  {
    forall i | 0 <= i < |chunk| {
      p[n + i] := chunk[i];
    }
  }

  /** The loop's step is the one Readable takes: inside the file, the last block's size never cuts it shorter. */
  lemma StepSize(src: Source, pos: nat, want: nat, toRead: nat)
    requires src.blockSize >= 1 && 0 < want && pos + want <= |src.image|
    requires var bs := src.blockSize;
             toRead == Min(want, BlockLength(BlockIndex(pos, bs), bs, |src.image|) - BlockOffset(pos, bs))
    ensures Readable(src, pos, want) ==
            if src.blocks(BlockIndex(pos, src.blockSize)).None? then 0
            else toRead + Readable(src, pos + toRead, want - toRead)
    ensures Touched(src, pos, want) ==
            if src.blocks(BlockIndex(pos, src.blockSize)).None? then []
            else [BlockIndex(pos, src.blockSize)] + Touched(src, pos + toRead, want - toRead)
  {
    hide BlockIndex, BlockOffset, BlockStart;
    Position(pos, src.blockSize);
  }

  /** The slice cut from a block is the slice of the image at the position. */
  lemma BlockSlice(src: Source, pos: nat, off: nat, b: seq<byte>, toRead: nat)
    requires Faithful(src) && pos < |src.image| && src.blocks(BlockIndex(pos, src.blockSize)) == Some(b)
    requires off == BlockOffset(pos, src.blockSize)
    requires off + toRead <= BlockLength(BlockIndex(pos, src.blockSize), src.blockSize, |src.image|)
    ensures off + toRead <= |b| && pos + toRead <= |src.image| && b[off..off + toRead] == src.image[pos..pos + toRead]
  {
    hide BlockIndex, BlockOffset, BlockStart;
    var i := BlockIndex(pos, src.blockSize);
    Position(pos, src.blockSize);
    assert BlockHolds(src, i);
    var n := BlockLength(i, src.blockSize, |src.image|);
    SliceOfSlice(b, 0, n, off, toRead);
    SliceOfSlice(src.image, BlockStart(i, src.blockSize), n, off, toRead);
  }

  lemma TouchedNothing(src: Source, pos: nat)
    requires src.blockSize >= 1
    ensures Touched(src, pos, 0) == []
  {
  }

  lemma Extend(s: seq<byte>, start: nat, n: nat, more: nat)
    requires start + n + more <= |s|
    ensures s[start..start + n + more] == s[start..start + n] + s[start + n..start + n + more]
  {
  }

  lemma SliceOfSlice(s: seq<byte>, from: nat, n: nat, off: nat, len: nat)
    requires from + n <= |s| && off + len <= n
    ensures s[from..from + n][off..off + len] == s[from + off..from + off + len]
  {
    var t := s[from..from + n];
    var a, b := t[off..off + len], s[from + off..from + off + len];
    forall k | 0 <= k < len
      ensures a[k] == b[k]
    {
      assert t[off + k] == s[from + off + k];
    }
  }

  // ----- Whole sequences of operations -----

  datatype Op = ReadOp(len: nat) | SeekOp(offset: int, whence: Whence)

  datatype Answer = Bytes(bytes: seq<byte>, err: ReadError) | At(pos: int, ok: bool)

  /** What a flat file answers, where it stands afterwards, and which blocks it goes through. */
  function FlatAnswer(src: Source, pos: nat, op: Op): Answer
    requires src.blockSize >= 1 && pos <= |src.image|
  {
    match op
    case ReadOp(len) =>
      var want := Min(len, |src.image| - pos);
      var n := Readable(src, pos, want);
      Bytes(src.image[pos..pos + n], if pos == |src.image| then EndOfFile else if n < want then BlockError else NoError)
    case SeekOp(offset, whence) => At(SeekTarget(pos, |src.image|, offset, whence), !whence.BadWhence?)
  }

  function FlatNext(src: Source, pos: nat, op: Op): (next: nat)
    requires src.blockSize >= 1 && pos <= |src.image|
    ensures next <= |src.image|
  {
    match op
    case ReadOp(len) => pos + Readable(src, pos, Min(len, |src.image| - pos))
    case SeekOp(offset, whence) => SeekTarget(pos, |src.image|, offset, whence)
  }

  function FlatTouched(src: Source, pos: nat, op: Op): seq<int>
    requires src.blockSize >= 1 && pos <= |src.image|
  {
    if op.ReadOp? then Touched(src, pos, Min(op.len, |src.image| - pos)) else []
  }

  /** The answers of a flat file, which has no blocks in memory and nothing to remember but its position. */
  function FlatFile(src: Source, pos: nat, ops: seq<Op>): (out: seq<Answer>)
    requires src.blockSize >= 1 && pos <= |src.image|
    decreases |ops|
  {
    if ops == [] then [] else [FlatAnswer(src, pos, ops[0])] + FlatFile(src, FlatNext(src, pos, ops[0]), ops[1..])
  }

  /** The blocks a sequence of operations goes through. */
  function FlatHistory(src: Source, pos: nat, ops: seq<Op>): (blocks: seq<int>)
    requires src.blockSize >= 1 && pos <= |src.image|
    decreases |ops|
  {
    if ops == [] then [] else FlatTouched(src, pos, ops[0]) + FlatHistory(src, FlatNext(src, pos, ops[0]), ops[1..])
  }

  /** One operation is answered like the flat file answers it. */
  method Perform(r: CachedReader, op: Op) returns (answer: Answer)
    requires r.Valid()
    modifies r, r.cache
    ensures r.Valid() && answer == FlatAnswer(r.br, old(r.pos), op) && r.pos == FlatNext(r.br, old(r.pos), op)
    ensures r.cache.history == old(r.cache.history) + FlatTouched(r.br, old(r.pos), op)
  {
    hide Readable, Touched, r.Shape, r.Cached;
    match op {
      case ReadOp(len) =>
        var p := new byte[len];
        var n, err := r.Read(p);
        answer := Bytes(p[..n], err);
      case SeekOp(offset, whence) =>
        assert r.cache.history + [] == r.cache.history;
        var pos, ok := r.Seek(offset, whence);
        answer := At(pos, ok);
    }
  }

  /** Any sequence of reads and seeks is answered like the flat file answers it, whatever the cache size or content. */
  method Replay(r: CachedReader, ops: seq<Op>) returns (out: seq<Answer>)
    requires r.Valid()
    modifies r, r.cache
    ensures r.Valid() && out == FlatFile(r.br, old(r.pos), ops)
    ensures r.cache.history == old(r.cache.history) + FlatHistory(r.br, old(r.pos), ops)
  {
    hide FlatAnswer, FlatNext, FlatTouched, FlatFile, FlatHistory, r.Shape, r.Cached;
    out := [];
    ghost var start, past := r.pos, r.cache.history;
    for i := 0 to |ops|
      invariant r.Valid()
      invariant out + FlatFile(r.br, r.pos, ops[i..]) == FlatFile(r.br, start, ops)
      invariant r.cache.history + FlatHistory(r.br, r.pos, ops[i..]) == past + FlatHistory(r.br, start, ops)
    {
      assert ops[i..][0] == ops[i] && ops[i..][1..] == ops[i + 1..];
      FlatTurn(r.br, r.pos, ops[i..], out, r.cache.history);
      var answer := Perform(r, ops[i]);
      out := out + [answer];
    }
    FlatEnd(r.br, r.pos, ops[|ops|..]);
  }

  /** Taking the first operation off a sequence moves its answer and its blocks to what has gone before. */
  lemma FlatTurn(src: Source, pos: nat, ops: seq<Op>, out: seq<Answer>, h: seq<int>)
    requires src.blockSize >= 1 && pos <= |src.image| && ops != []
    ensures var next, rest := FlatNext(src, pos, ops[0]), ops[1..];
            && out + FlatFile(src, pos, ops) == (out + [FlatAnswer(src, pos, ops[0])]) + FlatFile(src, next, rest)
            && h + FlatHistory(src, pos, ops) == (h + FlatTouched(src, pos, ops[0])) + FlatHistory(src, next, rest)
  {
    hide FlatAnswer, FlatNext, FlatTouched, Readable, Touched;
    var next, rest := FlatNext(src, pos, ops[0]), ops[1..];
    Associate(out, [FlatAnswer(src, pos, ops[0])], FlatFile(src, next, rest));
    Associate(h, FlatTouched(src, pos, ops[0]), FlatHistory(src, next, rest));
  }

  lemma FlatEnd(src: Source, pos: nat, ops: seq<Op>)
    requires src.blockSize >= 1 && pos <= |src.image| && ops == []
    ensures FlatFile(src, pos, ops) == [] && FlatHistory(src, pos, ops) == []
  {
  }

  lemma FlatTwo(src: Source, pos: nat, a: Op, b: Op)
    requires src.blockSize >= 1 && pos <= |src.image|
    ensures FlatFile(src, pos, [a, b]) == [FlatAnswer(src, pos, a), FlatAnswer(src, FlatNext(src, pos, a), b)]
  {
    hide FlatAnswer, FlatNext;
    var next := FlatNext(src, pos, a);
    assert [a, b][1..] == [b] && [b][1..] == [];
    FlatEnd(src, FlatNext(src, next, b), []);
    assert FlatFile(src, next, [b]) == [FlatAnswer(src, next, b)] + FlatFile(src, FlatNext(src, next, b), [b][1..]);
  }

  /** A flat file's last k bytes: seek back from the end, then read. */
  lemma FlatTail(src: Source, pos: nat, k: nat)
    requires src.blockSize >= 1 && pos <= |src.image| && k <= |src.image| && forall i: nat :: src.blocks(i).Some?
    ensures var start := |src.image| - k;
            FlatFile(src, pos, [SeekOp(0 - k, SeekEnd), ReadOp(k)]) ==
            [At(start, true), Bytes(src.image[start..], if k == 0 then EndOfFile else NoError)]
  {
    hide Readable;
    var start := |src.image| - k;
    AllReadable(src, start, k);
    FlatTwo(src, pos, SeekOp(0 - k, SeekEnd), ReadOp(k));
    assert src.image[start..start + k] == src.image[start..];
  }

  /** Going anywhere and reading is reading there: a seek from the start, then the bytes of the image. */
  lemma FlatSlice(src: Source, pos: nat, start: nat, n: nat)
    requires src.blockSize >= 1 && pos <= |src.image| && start + n <= |src.image| && n > 0
    requires forall i: nat :: src.blocks(i).Some?
    ensures FlatFile(src, pos, [SeekOp(start, SeekStart), ReadOp(n)]) ==
            [At(start, true), Bytes(src.image[start..start + n], NoError)]
  {
    hide Readable;
    AllReadable(src, start, n);
    FlatTwo(src, pos, SeekOp(start, SeekStart), ReadOp(n));
  }

  /** The cached reader's last k bytes, from wherever it stands and whatever is cached. */
  method ReadTail(r: CachedReader, k: nat) returns (bytes: seq<byte>)
    requires r.Valid() && k <= r.size && forall i: nat :: r.br.blocks(i).Some?
    modifies r, r.cache
    ensures r.Valid() && r.pos == r.size && bytes == r.br.image[r.size - k..]
  {
    hide Readable, Touched, r.Shape, r.Cached;
    var _, _ := r.Seek(0 - k, SeekEnd);
    AllReadable(r.br, r.size - k, k);
    var p := new byte[k];
    var n, _ := r.Read(p);
    bytes := p[..];
    assert p[..n] == p[..];
  }

  /** A read stops at the first block that cannot be read, and nowhere else. */
  lemma {:induction false} ReadableStops(src: Source, pos: nat, want: nat, i: nat)
    requires src.blockSize >= 1
    ensures var n := Readable(src, pos, want);
            && (n < want ==> src.blocks(BlockIndex(pos + n, src.blockSize)).None?)
            && (pos <= i < pos + n ==> src.blocks(BlockIndex(i, src.blockSize)).Some?)
    decreases want
  {
    hide BlockIndex, BlockOffset;
    if want == 0 || src.blocks(BlockIndex(pos, src.blockSize)).None? {
    } else {
      Position(pos, src.blockSize);
      var step := Min(want, src.blockSize - BlockOffset(pos, src.blockSize));
      ReadableStops(src, pos + step, want - step, i);
      if pos <= i < pos + step {
        SameBlock(pos, i, src.blockSize);
      }
    }
  }

  /** Positions up to the end of a block lie in that block. */
  lemma SameBlock(pos: nat, i: nat, bs: nat)
    requires bs >= 1 && pos <= i < pos + bs - BlockOffset(pos, bs)
    ensures BlockIndex(i, bs) == BlockIndex(pos, bs)
  {
    Position(pos, bs);
    DivIs(i, bs, BlockIndex(pos, bs));
  }

  /** Two readers of one image, in the same position and with the same past, after the same operations. */
  method ReplayBoth(small: CachedReader, large: CachedReader, ops: seq<Op>)
    returns (out: seq<Answer>, out': seq<Answer>)
    requires small.Valid() && large.Valid() && small != large && small.cache != large.cache
    requires small.br == large.br && small.pos == large.pos && small.cache.history == large.cache.history
    requires small.cache.max <= large.cache.max
    modifies small, small.cache, large, large.cache
    ensures out == out' && small.cache.data.Keys <= large.cache.data.Keys
  {
    hide FlatFile, FlatHistory;
    out := Replay(small, ops);
    out' := Replay(large, ops);
    Cache.CachesIncluded(small.cache, large.cache);
  }
}
