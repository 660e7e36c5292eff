/**
 Types and arithmetic that every other module uses.
 */
module Basics {

  type byte = x: int | 0 <= x < 0x100
  type uint16 = x: int | 0 <= x < 0x10000

  datatype Option<+T> = None | Some(value: T)

  /** The handle number that stands for the block device; file handles start at 1. */
  const BLOCK_DEVICE_HANDLE := 0

  const MAX_HANDLES := 64

  function Min(a: int, b: int): int {
    if a < b then a else b
  }

  function Max(a: int, b: int): int {
    if a < b then b else a
  }

  lemma Associate<T>(a: seq<T>, b: seq<T>, c: seq<T>)
    ensures (a + b) + c == a + (b + c)
  {
  }

  /** Division rounding up. */
  function CeilDiv(a: nat, b: nat): nat
    requires b >= 1
  {
    (a + b - 1) / b
  }

  lemma DivBounds(a: nat, b: nat)
    requires b >= 1
    ensures a / b * b <= a < a / b * b + b
  {
  }

  lemma MulMonotone(x: nat, y: nat, b: nat)
    ensures x <= y ==> x * b <= y * b
  {
  }

  lemma DivIs(a: nat, b: nat, q: nat)
    requires b >= 1 && q * b <= a < q * b + b
    ensures a / b == q
  {
    var p := a / b;
    DivBounds(a, b);
    MulMonotone(p + 1, q, b);
    MulMonotone(q + 1, p, b);
  }

  lemma CeilDivAntitone(a: nat, b: nat, c: nat)
    requires 1 <= b <= c
    ensures CeilDiv(a, c) <= CeilDiv(a, b)
  {
    var p, q := CeilDiv(a, b), CeilDiv(a, c);
    DivBounds(a + c - 1, c);
    DivBounds(a + b - 1, b);
    MulMonotone(p + 1, q, c);
    MulMonotone(b, c, p);
  }

  lemma CeilDivMonotone(a: nat, a': nat, b: nat)
    requires a <= a' && b >= 1
    ensures CeilDiv(a, b) <= CeilDiv(a', b)
  {
    var p, q := CeilDiv(a, b), CeilDiv(a', b);
    DivBounds(a + b - 1, b);
    DivBounds(a' + b - 1, b);
    MulMonotone(q + 1, p, b);
  }
}
