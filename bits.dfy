/**
 * Unsigned machine words as bounded naturals.
 *
 * The driver works on `unsigned char` bytes and `uint32_t` CRC registers.
 * Here both are naturals below 2^8 and 2^32, and the C bit operators are
 * written out arithmetically: `x >> k` is `x / 2^k`, `x & (2^k - 1)` is
 * `x % 2^k`, `~x` on 32 bits is `0xFFFFFFFF - x`, and exclusive or is the
 * recursive `Xor` below.
 */
module Bits {

  type Byte = b: int | 0 <= b < 256

  const Word32: nat := 0x1_0000_0000

  function Pow2(k: nat): (r: nat)
    ensures r >= 1
  {
    if k == 0 then 1 else 2 * Pow2(k - 1)
  }

  lemma {:induction false} Pow2Add(a: nat, b: nat)
    ensures Pow2(a + b) == Pow2(a) * Pow2(b)
    decreases b
  {
    if b > 0 {
      Pow2Add(a, b - 1);
    }
  }

  lemma Pow2Byte()
    ensures Pow2(8) == 256
  {
    Pow2Add(2, 2);
    Pow2Add(4, 4);
  }

  lemma Pow2Word()
    ensures Pow2(32) == Word32
  {
    Pow2Byte();
    Pow2Add(8, 8);
    Pow2Add(16, 16);
  }

  /** Bit `k` of `x` is set (bit 0 is the least significant): the test
      `(x & (1 << k)) != 0`. */
  predicate BitSet(x: nat, k: nat) {
    if k == 0 then x % 2 == 1 else BitSet(x / 2, k - 1)
  }

  /** The natural whose bits, least significant first, are `bits`. */
  function PackBits(bits: seq<bool>): nat
    decreases |bits|
  {
    if |bits| == 0 then 0 else (if bits[0] then 1 else 0) + 2 * PackBits(bits[1..])
  }

  lemma {:induction false} PackBitsBound(bits: seq<bool>)
    ensures PackBits(bits) < Pow2(|bits|)
    decreases |bits|
  {
    if |bits| > 0 {
      PackBitsBound(bits[1..]);
    }
  }

  /** Testing bit `k` of packed bits gives back bit `k`; bits beyond the
      packed ones are clear. */
  lemma {:induction false} BitSetPackBits(bits: seq<bool>, k: nat)
    ensures BitSet(PackBits(bits), k) == (k < |bits| && bits[k])
    decreases |bits|
  {
    if |bits| == 0 {
      ZeroHasNoBits(k);
    } else {
      var low := if bits[0] then 1 else 0;
      DivMod2(PackBits(bits[1..]), low);
      if k > 0 {
        BitSetPackBits(bits[1..], k - 1);
      }
    }
  }

  lemma {:induction false} ZeroHasNoBits(k: nat)
    ensures !BitSet(0, k)
    decreases k
  {
    if k > 0 {
      ZeroHasNoBits(k - 1);
    }
  }

  /** Bitwise exclusive or: the low bit is set when the operands' low bits
      differ, and the rest is the exclusive or of the halves. */
  function Xor(a: nat, b: nat): nat
    decreases a + b
  {
    if a == 0 && b == 0 then 0
    else 2 * Xor(a / 2, b / 2) + (if a % 2 == b % 2 then 0 else 1)
  }

  lemma DivMod2(q: int, r: int)
    requires 0 <= r < 2
    ensures (2 * q + r) / 2 == q && (2 * q + r) % 2 == r
  {
  }

  lemma DivMod16(q: int, r: int)
    requires 0 <= r < 16
    ensures (16 * q + r) / 16 == q && (16 * q + r) % 16 == r
  {
  }

  lemma DivMod32(q: int, r: int)
    requires 0 <= r < 32
    ensures (32 * q + r) / 32 == q && (32 * q + r) % 32 == r
  {
  }

  lemma DivMod256(q: int, r: int)
    requires 0 <= r < 256
    ensures (256 * q + r) / 256 == q && (256 * q + r) % 256 == r
  {
  }

  lemma XorHalves(a: nat, b: nat)
    ensures Xor(a, b) % 2 == if a % 2 == b % 2 then 0 else 1
    ensures Xor(a, b) / 2 == Xor(a / 2, b / 2)
  {
    if a != 0 || b != 0 {
      var low := if a % 2 == b % 2 then 0 else 1;
      assert Xor(a, b) == 2 * Xor(a / 2, b / 2) + low;
      DivMod2(Xor(a / 2, b / 2), low);
    }
  }

  /** Two naturals with the same low bit and the same upper half are equal. */
  lemma SameHalves(x: nat, y: nat)
    requires x % 2 == y % 2 && x / 2 == y / 2
    ensures x == y
  {
  }

  lemma {:induction false} XorZero(a: nat)
    ensures Xor(a, 0) == a
    ensures Xor(0, a) == a
    decreases a
  {
    if a != 0 {
      XorZero(a / 2);
    }
  }

  lemma {:induction false} XorSelf(a: nat)
    ensures Xor(a, a) == 0
    decreases a
  {
    if a != 0 {
      XorSelf(a / 2);
    }
  }

  lemma {:induction false} XorComm(a: nat, b: nat)
    ensures Xor(a, b) == Xor(b, a)
    decreases a + b
  {
    if a != 0 || b != 0 {
      XorComm(a / 2, b / 2);
    }
  }

  lemma {:induction false} XorAssoc(a: nat, b: nat, c: nat)
    ensures Xor(Xor(a, b), c) == Xor(a, Xor(b, c))
    decreases a + b + c
  {
    if a != 0 || b != 0 || c != 0 {
      XorHalves(a, b);
      XorHalves(b, c);
      XorHalves(Xor(a, b), c);
      XorHalves(a, Xor(b, c));
      XorAssoc(a / 2, b / 2, c / 2);
      SameHalves(Xor(Xor(a, b), c), Xor(a, Xor(b, c)));
    }
  }

  /** Xor distributes over selecting a mask by the low bit. */
  lemma MaskLinear(a: nat, b: nat, p: nat)
    ensures (if Xor(a, b) % 2 == 1 then p else 0)
         == Xor(if a % 2 == 1 then p else 0, if b % 2 == 1 then p else 0)
  {
    XorHalves(a, b);
    if a % 2 == 1 && b % 2 == 1 {
      XorSelf(p);
    } else {
      XorZero(p);
      XorZero(0);
    }
  }

  /** Regrouping four operands, the shape linearity proofs need. */
  lemma XorSwap(a: nat, b: nat, c: nat, d: nat)
    ensures Xor(Xor(a, b), Xor(c, d)) == Xor(Xor(a, c), Xor(b, d))
  {
    calc {
      Xor(Xor(a, b), Xor(c, d));
      { XorAssoc(a, b, Xor(c, d)); }
      Xor(a, Xor(b, Xor(c, d)));
      { XorAssoc(b, c, d); XorComm(b, c); XorAssoc(c, b, d); }
      Xor(a, Xor(c, Xor(b, d)));
      { XorAssoc(a, c, Xor(b, d)); }
      Xor(Xor(a, c), Xor(b, d));
    }
  }

  /** Exclusive or of two `k`-bit values is a `k`-bit value. */
  lemma {:induction false} XorBound(a: nat, b: nat, k: nat)
    requires a < Pow2(k) && b < Pow2(k)
    ensures Xor(a, b) < Pow2(k)
    decreases k
  {
    if k > 0 && (a != 0 || b != 0) {
      XorBound(a / 2, b / 2, k - 1);
    }
  }

  /** `h` shifted left by `k` bits. */
  function Shl(h: nat, k: nat): nat {
    if k == 0 then h else 2 * Shl(h, k - 1)
  }

  lemma {:induction false} ShlIsScaling(h: nat, k: nat)
    ensures Shl(h, k) == h * Pow2(k)
    decreases k
  {
    if k > 0 {
      ShlIsScaling(h, k - 1);
    }
  }

  /** Placing `h` above an `n`-bit field `l`: the bits below `n` are those of
      `l`, the bits from `n` upwards those of `h`. */
  lemma {:induction false} BitSetConcat(h: nat, l: nat, n: nat, k: nat)
    requires l < Pow2(n)
    ensures BitSet(Shl(h, n) + l, k) == if k < n then BitSet(l, k) else BitSet(h, k - n)
    decreases n
  {
    if n > 0 {
      HalveHighLow(h, l, n);
      if k > 0 {
        BitSetConcat(h, l / 2, n - 1, k - 1);
      }
    }
  }

  /** Halving `Shl(h, k) + l` with `l` below 2^k halves both terms. */
  lemma HalveHighLow(h: nat, l: nat, k: nat)
    requires k > 0 && l < Pow2(k)
    ensures (Shl(h, k) + l) / 2 == Shl(h, k - 1) + l / 2
    ensures (Shl(h, k) + l) % 2 == l % 2
    ensures l / 2 < Pow2(k - 1)
  {
    DivMod2(Shl(h, k - 1) + l / 2, l % 2);
  }

  lemma XorLowBitsUpper(h: nat, l1: nat, l2: nat, k: nat)
    requires k > 0 && l1 < Pow2(k) && l2 < Pow2(k)
    requires Xor(Shl(h, k - 1) + l1 / 2, l2 / 2) == Shl(h, k - 1) + Xor(l1 / 2, l2 / 2)
    ensures Xor(Shl(h, k) + l1, l2) / 2 == Shl(h, k - 1) + Xor(l1 / 2, l2 / 2)
  {
    HalveHighLow(h, l1, k);
    XorHalves(Shl(h, k) + l1, l2);
  }

  lemma XorLowBitsUpper2(h: nat, l1: nat, l2: nat, k: nat)
    requires k > 0 && l1 < Pow2(k) && l2 < Pow2(k)
    ensures (Shl(h, k) + Xor(l1, l2)) / 2 == Shl(h, k - 1) + Xor(l1 / 2, l2 / 2)
    ensures (Shl(h, k) + Xor(l1, l2)) % 2 == Xor(l1, l2) % 2
  {
    XorBound(l1, l2, k);
    HalveHighLow(h, Xor(l1, l2), k);
    XorHalves(l1, l2);
  }

  lemma XorLowBitsParity(h: nat, l1: nat, l2: nat, k: nat)
    requires k > 0 && l1 < Pow2(k)
    ensures Xor(Shl(h, k) + l1, l2) % 2 == Xor(l1, l2) % 2
  {
    HalveHighLow(h, l1, k);
    XorHalves(Shl(h, k) + l1, l2);
    XorHalves(l1, l2);
  }

  /** The inductive step of `XorLowBits`: if the claim holds for the upper
      halves, it holds one bit wider. */
  lemma XorLowBitsStep(h: nat, l1: nat, l2: nat, k: nat)
    requires k > 0 && l1 < Pow2(k) && l2 < Pow2(k)
    requires Xor(Shl(h, k - 1) + l1 / 2, l2 / 2) == Shl(h, k - 1) + Xor(l1 / 2, l2 / 2)
    ensures Xor(Shl(h, k) + l1, l2) == Shl(h, k) + Xor(l1, l2)
  {
    XorLowBitsUpper(h, l1, l2, k);
    XorLowBitsUpper2(h, l1, l2, k);
    XorLowBitsParity(h, l1, l2, k);
    SameHalves(Xor(Shl(h, k) + l1, l2), Shl(h, k) + Xor(l1, l2));
  }

  /** Exclusive or with a value below 2^k leaves the bits from k upwards
      alone. */
  lemma {:induction false} XorLowBits(h: nat, l1: nat, l2: nat, k: nat)
    requires l1 < Pow2(k) && l2 < Pow2(k)
    ensures Xor(Shl(h, k) + l1, l2) == Shl(h, k) + Xor(l1, l2)
    decreases k
  {
    if k == 0 {
      XorZero(h);
    } else {
      HalveHighLow(h, l1, k);
      HalveHighLow(h, l2, k);
      XorLowBits(h, l1 / 2, l2 / 2, k - 1);
      XorLowBitsStep(h, l1, l2, k);
    }
  }
}
