/**
 The block cache of compressed images (internal/fs/compression/cache.go): a map and an order
 list, kept in step, that hold exactly the most recently used blocks.
 */
module BlockCache {
  import opened Basics

  // ----- Recency, from the access history alone -----

  function Remove(s: seq<int>, x: int): (r: seq<int>) {
    if s == [] then [] else (if s[0] == x then [] else [s[0]]) + Remove(s[1..], x)
  }

  /** The distinct blocks of a history, least recently used first. */
  function Recency(h: seq<int>): (r: seq<int>) {
    if h == [] then [] else Remove(Recency(h[..|h| - 1]), h[|h| - 1]) + [h[|h| - 1]]
  }

  /** The last `max` elements, or all if there are fewer. */
  function Latest(s: seq<int>, max: nat): (r: seq<int>) {
    if |s| <= max then s else s[|s| - max..]
  }

  predicate NoDuplicates(s: seq<int>) {
    forall i, j :: 0 <= i < j < |s| ==> s[i] != s[j]
  }

  lemma {:induction false} RemoveLaws(s: seq<int>, x: int)
    ensures forall y :: y in Remove(s, x) <==> y in s && y != x
    ensures NoDuplicates(s) ==> NoDuplicates(Remove(s, x))
    ensures x !in s ==> Remove(s, x) == s
    ensures |Remove(s, x)| <= |s|
  {
    if s == [] {
    } else {
      RemoveLaws(s[1..], x);
      DistinctCons(s[0], s[1..]);
      DistinctCons(s[0], Remove(s[1..], x));
      assert s == [s[0]] + s[1..];
    }
  }

  lemma DistinctCons(x: int, t: seq<int>)
    ensures NoDuplicates([x] + t) <==> x !in t && NoDuplicates(t)
  {
    var s := [x] + t;
    if NoDuplicates(s) {
      forall i | 0 <= i < |t|
        ensures t[i] != x
      {
        assert s[0] != s[i + 1];
      }
      forall i, j | 0 <= i < j < |t|
        ensures t[i] != t[j]
      {
        assert s[i + 1] != s[j + 1];
      }
    }
  }

  lemma {:induction false} RemoveAppend(a: seq<int>, b: seq<int>, x: int)
    ensures Remove(a + b, x) == Remove(a, x) + Remove(b, x)
  {
    hide Remove;
    if a == [] {
      RemoveEmpty(x);
      assert a + b == b;
    } else {
      RemoveAppend(a[1..], b, x);
      RemoveCons(a, x);
      RemoveCons(a + b, x);
      assert (a + b)[1..] == a[1..] + b;
      Associate(if a[0] == x then [] else [a[0]], Remove(a[1..], x), Remove(b, x));
    }
  }

  lemma RemoveCons(a: seq<int>, x: int)
    requires a != []
    ensures Remove(a, x) == (if a[0] == x then [] else [a[0]]) + Remove(a[1..], x)
  {
  }

  lemma {:induction false} RecencyDistinct(h: seq<int>)
    ensures NoDuplicates(Recency(h)) && forall y :: y in Recency(h) <==> y in h
  {
    if h == [] {
    } else {
      var front, x := h[..|h| - 1], h[|h| - 1];
      RecencyDistinct(front);
      RemoveLaws(Recency(front), x);
      assert h == front + [x];
    }
  }

  /** Position of the last use of a block. */
  function LastUse(h: seq<int>, x: int): (i: int)
    requires x in h
    ensures 0 <= i < |h| && h[i] == x && forall j :: i < j < |h| ==> h[j] != x
  {
    if h[|h| - 1] == x then |h| - 1 else
      assert h == h[..|h| - 1] + [h[|h| - 1]];
      LastUse(h[..|h| - 1], x)
  }

  /** Recency really orders the distinct blocks by their last use. */
  lemma {:induction false} RecencyByLastUse(h: seq<int>, i: nat, j: nat)
    requires i < j < |Recency(h)|
    ensures Recency(h)[i] in h && Recency(h)[j] in h
    ensures LastUse(h, Recency(h)[i]) < LastUse(h, Recency(h)[j])
  {
    hide Remove, LastUse;
    RecencyDistinct(h);
    var front, x := h[..|h| - 1], h[|h| - 1];
    var before, r := Recency(front), Recency(h);
    assert r[i] in r && r[j] in r;
    RecencyDistinct(front);
    RemoveLaws(before, x);
    assert r[i] != x && r[i] in before by {
      assert r[i] == Remove(before, x)[i];
      assert Remove(before, x)[i] in Remove(before, x);
    }
    LastUseBefore(h, r[i]);
    if j < |r| - 1 {
      assert r[j] == Remove(before, x)[j];
      assert Remove(before, x)[j] in Remove(before, x);
      LastUseBefore(h, r[j]);
      var i', j' := RemoveOrder(before, x, i, j);
      RecencyByLastUse(front, i', j');
    }
  }

  /** The last use of a block other than the newest is its last use before. */
  lemma LastUseBefore(h: seq<int>, y: int)
    requires h != [] && y in h[..|h| - 1] && y != h[|h| - 1]
    ensures y in h && LastUse(h, y) == LastUse(h[..|h| - 1], y) < |h| - 1
    ensures h[|h| - 1] in h && LastUse(h, h[|h| - 1]) == |h| - 1
  {
  }

  /** Removing an element keeps the order of the others. */
  lemma {:induction false} RemoveOrder(s: seq<int>, x: int, i: nat, j: nat) returns (i': nat, j': nat)
    requires i < j < |Remove(s, x)|
    ensures i' < j' < |s| && s[i'] == Remove(s, x)[i] && s[j'] == Remove(s, x)[j]
  {
    if s[0] == x {
      i', j' := RemoveOrder(s[1..], x, i, j);
      i', j' := i' + 1, j' + 1;
    } else if i > 0 {
      i', j' := RemoveOrder(s[1..], x, i - 1, j - 1);
      i', j' := i' + 1, j' + 1;
    } else {
      j' := RemoveAt(s[1..], x, j - 1);
      i', j' := 0, j' + 1;
    }
  }

  lemma {:induction false} RemoveAt(s: seq<int>, x: int, j: nat) returns (j': nat)
    requires j < |Remove(s, x)|
    ensures j' < |s| && s[j'] == Remove(s, x)[j]
  {
    RemoveLaws(s, x);
    assert Remove(s, x)[j] in Remove(s, x);
    j' :| 0 <= j' < |s| && s[j'] == Remove(s, x)[j];
  }

  // ----- What a hit and a miss do to the latest blocks -----

  lemma HitKeepsLatest(h: seq<int>, x: int, max: nat)
    requires x in Latest(Recency(h), max)
    ensures Latest(Recency(h + [x]), max) == Remove(Latest(Recency(h), max), x) + [x]
  {
    hide Remove, Recency, Latest;
    var r := Recency(h);
    RecencyDistinct(h);
    RecencySnoc(h, x);
    var a := Older(r, max);
    HitSplit(a, Latest(r, max), x, max);
  }

  lemma MissShiftsLatest(h: seq<int>, x: int, max: nat)
    requires max >= 1 && x !in Latest(Recency(h), max)
    ensures var l := Latest(Recency(h), max);
            Latest(Recency(h + [x]), max) == (if |l| >= max then l[1..] else l) + [x]
  {
    hide Remove, Recency, Latest;
    var r := Recency(h);
    RecencySnoc(h, x);
    var a := Older(r, max);
    MissSplit(a, Latest(r, max), x, max);
  }

  /** The elements before the latest max. */
  lemma Older(r: seq<int>, max: nat) returns (a: seq<int>)
    ensures r == a + Latest(r, max) && |Latest(r, max)| <= max && (a == [] || |Latest(r, max)| == max)
  {
    a := if |r| <= max then [] else r[..|r| - max];
  }

  lemma LatestOf(a: seq<int>, b: seq<int>, max: nat)
    requires |b| == max || (a == [] && |b| <= max)
    ensures Latest(a + b, max) == b
  {
    assert (a + b)[|a|..] == b;
  }

  /** Moving an element of the latest part to the end leaves the older part out of it. */
  lemma HitSplit(a: seq<int>, b: seq<int>, x: int, max: nat)
    requires NoDuplicates(a + b) && x in b && (|b| == max || (a == [] && |b| <= max))
    ensures Latest(Remove(a + b, x) + [x], max) == Remove(b, x) + [x]
  {
    hide Remove, Latest;
    RemoveAppend(a, b, x);
    PartsDistinct(a, b, x);
    RemoveLaws(a, x);
    RemoveCount(b, x);
    Associate(a, Remove(b, x), [x]);
    LatestOf(a, Remove(b, x) + [x], max);
  }

  /** A new element at the end pushes out the oldest of the latest part, if that is full. */
  lemma MissSplit(a: seq<int>, b: seq<int>, x: int, max: nat)
    requires max >= 1 && x !in b && (|b| == max || (a == [] && |b| <= max))
    ensures Latest(Remove(a + b, x) + [x], max) == (if |b| >= max then b[1..] else b) + [x]
  {
    hide Remove, Latest;
    RemoveAppend(a, b, x);
    RemoveLaws(b, x);
    var a' := Remove(a, x);
    if |b| == max {
      assert b == [b[0]] + b[1..];
      Associate(a' + [b[0]], b[1..], [x]);
      Associate(a', [b[0]], b[1..]);
      LatestOf(a' + [b[0]], b[1..] + [x], max);
    } else {
      RemoveEmpty(x);
      assert a' + b == b;
      LatestOf([], b + [x], max);
      assert [] + (b + [x]) == b + [x];
    }
  }

  lemma RemoveEmpty(x: int)
    ensures Remove([], x) == []
  {
  }

  lemma PartsDistinct(a: seq<int>, b: seq<int>, x: int)
    requires NoDuplicates(a + b) && x in b
    ensures x !in a && NoDuplicates(b)
  {
    var s := a + b;
    var j :| 0 <= j < |b| && b[j] == x;
    assert s[|a| + j] == x;
    forall i | 0 <= i < |a|
      ensures a[i] != x
    {
      assert s[i] == a[i];
    }
    forall i, k | 0 <= i < k < |b|
      ensures b[i] != b[k]
    {
      assert s[|a| + i] == b[i] && s[|a| + k] == b[k];
    }
  }

  lemma RecencySnoc(h: seq<int>, x: int)
    ensures Recency(h + [x]) == Remove(Recency(h), x) + [x]
  {
    assert (h + [x])[..|h|] == h;
  }

  lemma {:induction false} RemoveCount(s: seq<int>, x: int)
    requires NoDuplicates(s) && x in s
    ensures |Remove(s, x)| == |s| - 1
  {
    RemoveLaws(s[1..], x);
    if s[0] != x {
      RemoveCount(s[1..], x);
    }
  }

  lemma {:induction false} RemoveSplit(s: seq<int>, x: int, i: nat)
    requires NoDuplicates(s) && i < |s| && s[i] == x
    ensures Remove(s, x) == s[..i] + s[i + 1..]
  {
    if i == 0 {
      RemoveLaws(s[1..], x);
    } else {
      RemoveSplit(s[1..], x, i - 1);
      assert s[..i] + s[i + 1..] == [s[0]] + (s[1..][..i - 1] + s[1..][i..]);
    }
  }

  /** On the same history, a smaller cache holds a subset of what a larger one holds. */
  lemma SmallerIsIncluded(h: seq<int>, small: nat, large: nat)
    requires small <= large
    ensures forall x :: x in Latest(Recency(h), small) ==> x in Latest(Recency(h), large)
  {
    var r := Recency(h);
    if small < |r| {
      forall x | x in Latest(r, small)
        ensures x in Latest(r, large)
      {
        var i :| 0 <= i < small && r[|r| - small..][i] == x;
        if large < |r| {
          assert r[|r| - large..][i + large - small] == x;
        }
      }
    }
  }

  // ----- The cache -----

  class BlockCache {
    var data: map<int, seq<byte>>
    var order: seq<int>
    const max: nat

    /** Every block handed out so far, hit or miss. */
    ghost var history: seq<int>

    /** The order list names each cached block once, and they are the latest `max` of the history. */
    ghost predicate Valid()
      reads this
    {
      max >= 1 && Matched(order, data) && order == Latest(Recency(history), max)
    }

    constructor (maxBlocks: nat)
      requires maxBlocks >= 1
      ensures Valid() && max == maxBlocks && history == [] && data == map[]
    {
      data, order, max, history := map[], [], maxBlocks, [];
    }

    method Get(idx: int) returns (block: Option<seq<byte>>)
      requires Valid()
      modifies this
      ensures Valid() && data == old(data)
      ensures block == if idx in data then Some(data[idx]) else None
      ensures history == if idx in data then old(history) + [idx] else old(history)
    {
      if idx !in data {
        return None;
      }
      HitKeepsLatest(history, idx, max);
      MoveToEnd(idx);
      history := history + [idx];
      return Some(data[idx]);
    }

    method MoveToEnd(idx: int)
      requires Matched(order, data) && idx in order
      modifies this`order
      ensures Matched(order, data) && order == Remove(old(order), idx) + [idx]
    {
      var i := 0;
      while i < |order| && order[i] != idx
        invariant 0 <= i <= |order| && idx !in order[..i]
      {
        i := i + 1;
      }
      assert i < |order| by {
        assert order[..|order|] == order;
      }
      RemoveSplit(order, idx, i);
      RemoveLaws(order, idx);
      ghost var rest := Remove(order, idx);
      order := order[..i] + order[i + 1..] + [idx];
      DistinctSnoc(rest, idx);
    }

    method EvictOldest()
      requires Matched(order, data) && order != []
      modifies this`data, this`order
      ensures Matched(order, data) && order == old(order)[1..]
      ensures forall k :: k in data ==> k in old(data) && data[k] == old(data)[k]
    {
      DistinctCons(order[0], order[1..]);
      assert order == [order[0]] + order[1..];
      var evict := order[0];
      order := order[1..];
      data := data - {evict};
    }

    /** Called after a miss. */
    method Put(idx: int, block: seq<byte>)
      requires Valid() && idx !in data
      modifies this
      ensures Valid() && history == old(history) + [idx]
      ensures idx in data && data[idx] == block
      ensures forall k :: k in data && k != idx ==> k in old(data) && data[k] == old(data)[k]
    {
      hide Recency;
      MissShiftsLatest(history, idx, max);
      MatchedCount(order, data);
      while |data| >= max && |order| > 0
        invariant Matched(order, data) && |data| == |order| <= max
        invariant order == old(order) || (|old(order)| >= max && order == old(order)[1..])
        invariant forall k :: k in data ==> k in old(data) && data[k] == old(data)[k]
        invariant history == old(history)
        decreases |order|
      {
        EvictOldest();
        MatchedCount(order, data);
      }
      data := data[idx := block];
      order := order + [idx];
      history := history + [idx];
      LatestDistinct(history, max);
    }
  }

  /** Two caches with the same past: the smaller one's blocks are all in the larger one. */
  lemma CachesIncluded(small: BlockCache, large: BlockCache)
    requires small.Valid() && large.Valid() && small.history == large.history && small.max <= large.max
    ensures small.data.Keys <= large.data.Keys
  {
    SmallerIsIncluded(small.history, small.max, large.max);
  }

  lemma DistinctSnoc(t: seq<int>, x: int)
    requires NoDuplicates(t) && x !in t
    ensures NoDuplicates(t + [x])
  {
  }

  /** The order list names each cached block exactly once. */
  predicate Matched(order: seq<int>, data: map<int, seq<byte>>) {
    NoDuplicates(order) && data.Keys == set k | k in order
  }

  lemma MatchedCount(order: seq<int>, data: map<int, seq<byte>>)
    requires Matched(order, data)
    ensures |data| == |order|
  {
    DistinctCount(order);
  }

  lemma LatestDistinct(h: seq<int>, max: nat)
    ensures NoDuplicates(Latest(Recency(h), max))
  {
    RecencyDistinct(h);
  }

  lemma {:induction false} DistinctCount(s: seq<int>)
    requires NoDuplicates(s)
    ensures |set k | k in s| == |s|
  {
    if s == [] {
    } else {
      assert s == [s[0]] + s[1..];
      DistinctCons(s[0], s[1..]);
      DistinctCount(s[1..]);
      assert (set k | k in s) == {s[0]} + (set k | k in s[1..]);
    }
  }
}
