/** Fixed-width integers, bytes, and the few facts about remainders the buffers need. */
module Arith {
  const TWO32: nat := 0x1_0000_0000

  /** A Go uint32. */
  type U32 = x: int | 0 <= x < TWO32

  /** A Go byte. */
  type Byte = b: int | 0 <= b < 256

  /** uint32 addition and subtraction, which wrap. */
  function Add(a: U32, b: U32): U32 {
    if a + b < TWO32 then a + b else a + b - TWO32
  }

  function Sub(a: U32, b: U32): U32 {
    if a >= b then a - b else a - b + TWO32
  }

  lemma AddSubMod(a: U32, b: U32)
    ensures Add(a, b) == (a + b) % 0x1_0000_0000 && Sub(a, b) == (a - b) % 0x1_0000_0000
  {
  }

  function Min(a: int, b: int): int { if a <= b then a else b }

  function Max(a: int, b: int): int { if a <= b then b else a }

  /** Always true: `forall k: int :: Fold(k) ==> P` is `P`, kept closed to the solver until it meets a
      `Fold` term. */
  predicate Fold(k: int) { true }

  datatype Option<+T> = None | Some(value: T)

  function Pow2(n: nat): (r: nat)
    ensures r > 0
  {
    if n == 0 then 1 else 2 * Pow2(n - 1)
  }

  lemma DivModUnique(a: int, q: int, r: int, m: nat)
    requires 0 <= r < m && a == q * m + r
    ensures a / m == q && a % m == r
  {
    MultipleBelow(q - a / m, a % m - r, m);
  }

  lemma MultipleBelow(k: int, d: int, m: int)
    requires -m < d < m && k * m == d
    ensures k == 0
  {
    assert k >= 1 ==> k * m >= m;
    assert k <= -1 ==> k * m <= -m;
  }

  /** The remainder by repeated subtraction: `x % m` in a form that keeps products out of proofs. */
  function Slot(x: nat, m: nat): (r: nat)
    requires 0 < m
    ensures r < m
  {
    if x < m then x else Slot(x - m, m)
  }

  lemma {:induction false} SlotIsMod(x: nat, m: nat)
    requires 0 < m
    ensures Slot(x, m) == x % m
  {
    if x < m {
      DivModUnique(x, 0, x, m);
    } else {
      SlotIsMod(x - m, m);
      ModMultiple(x - m, 1, m);
    }
  }

  /** The cell `i` places after cell `head` of a ring of `m` cells. */
  function Cell(head: nat, i: nat, m: nat): nat {
    if head + i < m then head + i else head + i - m
  }

  lemma {:induction false} SlotForward(x: nat, n: nat, m: nat)
    requires 0 < m && n <= m
    ensures Slot(x + n, m) == Cell(Slot(x, m), n, m)
  {
    if x >= m {
      SlotForward(x - m, n, m);
    }
  }

  lemma {:induction false} SlotMultiple(x: nat, k: nat, m: nat)
    requires 0 < m
    ensures Slot(x + k * m, m) == Slot(x, m)
  {
    SlotIsMod(x, m);
    SlotIsMod(x + k * m, m);
    ModMultiple(x, k, m);
  }

  lemma ModMultiple(x: int, k: int, m: nat)
    requires 0 < m
    ensures (x + k * m) % m == x % m
  {
    assert x + k * m == (x / m + k) * m + x % m;
    DivModUnique(x + k * m, x / m + k, x % m, m);
  }
}
