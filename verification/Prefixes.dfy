/** What prefix lengths mean, bit by bit: for `Contains`, for masked prefixes, and for the masks on the wire. */
module Prefixes {
  import opened Arith
  import opened RipTable
  import opened RipWire
  import opened Lookup

  /** Bit number `i` of an address, 0 the most significant. */
  function Bit(x: U32, i: nat): (b: nat)
    requires i < 32
    ensures b < 2
  {
    x / Pow2(31 - i) % 2
  }

  /** The first `n` bits of the two are the same. */
  ghost predicate Agree(x: U32, y: U32, n: nat)
    requires n <= 32
  {
    forall i: nat :: i < n ==> Bit(x, i) == Bit(y, i)
  }

  lemma Twice(a: int, b: int)
    ensures (2 * a) * b == 2 * (a * b) == a * (2 * b)
  {
  }

  lemma HalfOf(x: nat, m: nat)
    requires 0 < m
    ensures x / (2 * m) == x / m / 2
    ensures x % (2 * m) == 0 <==> x / m % 2 == 0 && x % m == 0
  {
    var h, r := x / m / 2, x % m;
    Twice(h, m);
    assert x == x / m * m + r;
    if x / m % 2 == 0 {
      assert x / m == 2 * h;
      DivModUnique(x, h, r, 2 * m);
    } else {
      assert x / m == 2 * h + 1;
      DivModUnique(x, h, m + r, 2 * m);
    }
  }

  lemma Pow2Of32()
    ensures Pow2(32) == TWO32
  {
    Pow2Of31();
  }

  /** The leading `n` bits decide the quotient, and are decided by it. */
  lemma {:induction false} QuotientBits(x: U32, y: U32, n: nat)
    requires n <= 32
    ensures x / Pow2(32 - n) == y / Pow2(32 - n) <==> Agree(x, y, n)
  {
    if n == 0 {
      Pow2Of32();
    } else {
      QuotientBits(x, y, n - 1);
      HalfOf(x, Pow2(32 - n));
      HalfOf(y, Pow2(32 - n));
      assert Pow2(32 - (n - 1)) == 2 * Pow2(32 - n);
      var p, q := x / Pow2(32 - n), y / Pow2(32 - n);
      assert Bit(x, n - 1) == p % 2 && Bit(y, n - 1) == q % 2;
      assert p == q <==> p / 2 == q / 2 && p % 2 == q % 2;
      assert Agree(x, y, n) <==> Agree(x, y, n - 1) && Bit(x, n - 1) == Bit(y, n - 1);
    }
  }

  /** A prefix contains the addresses that agree with its own in as many leading bits as its length says. */
  lemma ContainsIffAgree(p: Prefix, ip: Addr)
    ensures Contains(p, ip) <==> 0 <= p.bits && Agree(ip, p.addr, p.bits)
  {
    if 0 <= p.bits {
      QuotientBits(ip, p.addr, p.bits);
    }
  }

  lemma InBlockIff(x: nat, a: nat, m: nat)
    requires 0 < m && a % m == 0
    ensures x / m == a / m <==> a <= x < a + m
  {
    var k := a / m;
    assert a == k * m && x == x / m * m + x % m;
    if a <= x < a + m {
      DivModUnique(x, k, x - a, m);
    }
  }

  /** With the bits beyond its length 0, as a masked prefix has them, it contains the block from its address on. */
  lemma ContainsIffInBlock(p: Prefix, ip: Addr)
    requires Masked(p)
    ensures Contains(p, ip) <==> p.addr <= ip < p.addr + Pow2(32 - p.bits)
  {
    InBlockIff(ip, p.addr, Pow2(32 - p.bits));
  }

  /** So a full-length prefix contains its address alone, and one of length 0 everything. */
  lemma ContainsExtremes(a: Addr, ip: Addr)
    ensures Contains(Prefix(a, 32), ip) <==> ip == a
    ensures Contains(Prefix(a, 0), ip) && !Contains(Prefix(a, -1), ip)
  {
    Pow2Of32();
  }

  ghost predicate Zeros(x: U32, from: nat) {
    forall i: nat :: from <= i < 32 ==> Bit(x, i) == 0
  }

  /** A number is a multiple of `2^n` exactly if its last `n` bits are 0. */
  lemma {:induction false} LowBits(x: U32, n: nat)
    requires n <= 32
    ensures x % Pow2(n) == 0 <==> Zeros(x, 32 - n)
  {
    if n > 0 {
      LowBits(x, n - 1);
      HalfOf(x, Pow2(n - 1));
      assert Bit(x, 32 - n) == x / Pow2(n - 1) % 2;
      assert Zeros(x, 32 - n) <==> Bit(x, 32 - n) == 0 && Zeros(x, 32 - (n - 1));
    }
  }

  // Masks.

  /** What the mask for a length leaves is a block of that size: 255.255.255.0 and 256 addresses for 24. */
  lemma MaskLeavesBlock(bits: Bits)
    requires 0 <= bits
    ensures PrefixLenToMask(bits) + Pow2(32 - bits) == TWO32
  {
    Pow2Of32();
    if bits > 0 {
      Pow2Within(32 - bits);
    }
  }

  lemma {:induction false} Pow2Adds(a: nat, b: nat)
    ensures Pow2(a) * Pow2(b) == Pow2(a + b)
  {
    if a > 0 {
      Pow2Adds(a - 1, b);
      Twice(Pow2(a - 1), Pow2(b));
    }
  }

  lemma Less(a: int, b: int, m: int)
    ensures (a - b) * m == a * m - b * m
  {
  }

  lemma DivBelow(x: nat, k: nat, m: nat)
    requires 0 < m && x < k * m
    ensures (k * m - 1 - x) / m == k - 1 - x / m
  {
    var q, r := x / m, x % m;
    assert x == q * m + r;
    Less(k, 1 + q, m);
    Less(-1, q, m);
    assert k * m - 1 - x == (k - 1 - q) * m + (m - 1 - r);
    DivModUnique(k * m - 1 - x, k - 1 - q, m - 1 - r, m);
  }

  lemma Complement(x: U32, i: nat)
    requires i < 32
    ensures Bit(TWO32 - 1 - x, i) == 1 - Bit(x, i)
  {
    Pow2Of32();
    Pow2Adds(i + 1, 31 - i);
    DivBelow(x, Pow2(i + 1), Pow2(31 - i));
    assert Pow2(i + 1) == 2 * Pow2(i);
  }

  /** Its bits: as many ones as the length says, and zeros. */
  lemma MaskBits(bits: Bits, i: nat)
    requires 0 <= bits && i < 32
    ensures Bit(PrefixLenToMask(bits), i) == if i < bits then 1 else 0
  {
    MaskLeavesBlock(bits);
    var m, rest := Pow2(31 - i), Pow2(32 - bits) - 1;
    if i < bits {
      if 32 - bits < 31 - i {
        Pow2Grows(32 - bits, 31 - i);
      }
      DivModUnique(rest, 0, rest, m);
    } else {
      Pow2Of32();
      Pow2Adds(bits, 32 - bits);
      Multiple(Pow2(bits) - 1, Pow2(32 - bits), PrefixLenToMask(bits));
      LowBits(PrefixLenToMask(bits), 32 - bits);
      return;
    }
    Complement(rest, i);
    assert PrefixLenToMask(bits) == TWO32 - 1 - rest;
  }

  lemma Multiple(k: nat, m: nat, x: nat)
    requires 0 < m && x + m == (k + 1) * m
    ensures x % m == 0
  {
    DivModUnique(x, k, 0, m);
  }

  /** So a prefix contains the addresses that agree with its own in every bit its mask sets, and a masked one has
      no other bits. */
  lemma ContainsIffMaskAgrees(p: Prefix, ip: Addr)
    requires 0 <= p.bits
    ensures Contains(p, ip) <==> forall i: nat :: i < 32 && Bit(PrefixLenToMask(p.bits), i) == 1 ==> Bit(ip, i) == Bit(p.addr, i)
    ensures Masked(p) <==> forall i: nat :: i < 32 && Bit(PrefixLenToMask(p.bits), i) == 0 ==> Bit(p.addr, i) == 0
  {
    ContainsIffAgree(p, ip);
    LowBits(p.addr, 32 - p.bits);
    forall i: nat | i < 32 ensures Bit(PrefixLenToMask(p.bits), i) == if i < p.bits then 1 else 0 {
      MaskBits(p.bits, i);
    }
    assert Masked(p) <==> Zeros(p.addr, p.bits);
  }

  /** Any mask that comes in, a run of ones or not: the length read from it leaves the largest block that is no
      larger than what the mask leaves; one of 0 has no length. */
  lemma MaskReads(mask: U32)
    ensures mask == 0 <==> MaskToPrefixLen(mask) == -1
    ensures mask > 0 ==> var len := MaskToPrefixLen(mask);
                         1 <= len <= 32 && Pow2(32 - len) <= TWO32 - mask < 2 * Pow2(32 - len)
  {
    if mask > 0 {
      LogWithin(TWO32 - mask);
    }
  }
}
