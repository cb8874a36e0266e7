/**
 * The CRC-32 used to authenticate Bluetooth output reports: the reflected
 * polynomial 0xEDB88320, register initialised to 0xFFFFFFFF and complemented
 * at the end (the CRC of IEEE 802.3 clause 3.2.9, as in zlib and PNG).
 *
 * The register is a natural below 2^32 (see module Bits). The bit-at-a-time
 * definition (`Register`, `Crc32Of`) is the reference; the table built by
 * `GenerateCrc32Table` and the table-driven method `Crc32` are proved to
 * compute it.
 */
module Crc32 {
  import opened Bits

  const Polynomial: nat := 0xEDB88320
  const InitialRegister: nat := 0xFFFFFFFF

  /** The mask `Polynomial & -(c & 1)`: all of the polynomial when the low bit
      of `c` is set, nothing otherwise. */
  function Feedback(c: nat): nat {
    if c % 2 == 1 then Polynomial else 0
  }

  /** One shift of the reflected register, `(c >> 1) ^ (Polynomial & -(c & 1))`. */
  function BitStep(c: nat): (r: nat)
    ensures c % 2 == 0 ==> r == c / 2
  {
    XorZero(c / 2);
    Xor(c / 2, Feedback(c))
  }

  /** `n` successive bit steps. */
  function BitSteps(c: nat, n: nat): nat
    decreases n
  {
    if n == 0 then c else BitStep(BitSteps(c, n - 1))
  }

  /** Feeding one message byte bit by bit: xor it into the low byte of the
      register, then shift eight times. */
  function BitwiseByte(reg: nat, b: Byte): nat {
    BitSteps(Xor(reg, b), 8)
  }

  lemma BitStepBound(c: nat)
    requires c < Word32
    ensures BitStep(c) < Word32
  {
    Pow2Word();
    XorBound(c / 2, Feedback(c), 32);
  }

  lemma {:induction false} BitStepsBound(c: nat, n: nat)
    requires c < Word32
    ensures BitSteps(c, n) < Word32
    decreases n
  {
    if n > 0 {
      BitStepsBound(c, n - 1);
      BitStepBound(BitSteps(c, n - 1));
    }
  }

  lemma BitwiseByteBound(reg: nat, b: Byte)
    requires reg < Word32
    ensures BitwiseByte(reg, b) < Word32
  {
    Pow2Word();
    XorBound(reg, b, 32);
    BitStepsBound(Xor(reg, b), 8);
  }

  /** The register after feeding all of `data`, one bit at a time; it stays a
      32-bit value. */
  function Register(data: seq<Byte>): (r: nat)
    ensures r < Word32
    decreases |data|
  {
    if |data| == 0 then InitialRegister
    else
      var prev := Register(data[..|data| - 1]);
      BitwiseByteBound(prev, data[|data| - 1]);
      BitwiseByte(prev, data[|data| - 1])
  }

  /** The CRC-32 of `data`: the complemented final register (`~crc` on 32
      bits). */
  function Crc32Of(data: seq<Byte>): (crc: nat)
    ensures crc < Word32
  {
    InitialRegister - Register(data)
  }

  /** Entry `i` of the lookup table: the byte value `i` shifted through eight
      bit steps. */
  function TableEntry(i: int): nat
    requires 0 <= i < 256
  {
    BitSteps(i, 8)
  }

  ghost predicate IsCrcTable(table: array<nat>)
    reads table
  {
    table.Length == 256 && forall i :: 0 <= i < 256 ==> table[i] == TableEntry(i)
  }

  /** One step of the table-driven algorithm, `(reg >> 8) ^ table[(reg & 0xFF) ^ b]`. */
  function TableByte(reg: nat, b: Byte): (r: nat)
    ensures reg < Word32 ==> r < Word32
  {
    Pow2Byte();
    XorBound(reg % 256, b, 8);
    var i := Xor(reg % 256, b);
    if reg < Word32 then
      Pow2Word();
      BitStepsBound(i, 8);
      XorBound(reg / 256, TableEntry(i), 32);
      Xor(reg / 256, TableEntry(i))
    else
      Xor(reg / 256, TableEntry(i))
  }

  /** Fills the 256-entry lookup table in place. */
  method GenerateCrc32Table(table: array<nat>)
    requires table.Length == 256
    modifies table
    ensures IsCrcTable(table)
  {
    for i := 0 to 256
      invariant forall k :: 0 <= k < i ==> table[k] == TableEntry(k)
    {
      var crc: nat := i;
      for j := 0 to 8
        invariant crc == BitSteps(i, j)
      {
        crc := Xor(crc / 2, if crc % 2 == 1 then Polynomial else 0);
      }
      table[i] := crc;
    }
  }

  // Why a 256-entry table suffices: the bit steps are linear over exclusive
  // or, and the register's upper 24 bits are only shifted down by them.

  lemma FeedbackLinear(a: nat, b: nat)
    ensures Feedback(Xor(a, b)) == Xor(Feedback(a), Feedback(b))
  {
    MaskLinear(a, b, Polynomial);
  }

  lemma StepLinear(a: nat, b: nat)
    ensures BitStep(Xor(a, b)) == Xor(BitStep(a), BitStep(b))
  {
    XorHalves(a, b);
    FeedbackLinear(a, b);
    XorSwap(a / 2, Feedback(a), b / 2, Feedback(b));
  }

  lemma {:induction false} StepsLinear(a: nat, b: nat, n: nat)
    ensures BitSteps(Xor(a, b), n) == Xor(BitSteps(a, n), BitSteps(b, n))
    decreases n
  {
    if n > 0 {
      StepsLinear(a, b, n - 1);
      StepLinear(BitSteps(a, n - 1), BitSteps(b, n - 1));
    }
  }

  /** A register whose low `m` bits are clear is only shifted by `n <= m`
      steps: the polynomial is never folded in. */
  lemma {:induction false} HighSteps(h: nat, m: nat, n: nat)
    requires n <= m
    ensures BitSteps(Shl(h, m), n) == Shl(h, m - n)
    decreases n
  {
    if n > 0 {
      HighSteps(h, m, n - 1);
      var y := Shl(h, m - n);
      assert Shl(h, m - n + 1) == 2 * y;
      XorZero(y);
    }
  }

  lemma ShlByte(h: nat)
    ensures Shl(h, 8) == 256 * h
  {
    ShlIsScaling(h, 8);
    Pow2Byte();
  }

  /** Xoring a message byte into the register touches only its low byte. */
  lemma ByteIntoRegister(reg: nat, b: Byte)
    ensures Xor(reg % 256, b) < 256
    ensures Xor(reg, b) == Xor(Shl(reg / 256, 8), Xor(reg % 256, b))
  {
    var h := reg / 256;
    var k := Xor(reg % 256, b);
    Pow2Byte();
    ShlByte(h);
    XorBound(reg % 256, b, 8);
    XorLowBits(h, reg % 256, b, 8);
    XorLowBits(h, 0, k, 8);
    XorZero(k);
  }

  /** The table-driven step computes exactly the bit-at-a-time step. */
  lemma TableByteIsBitwise(reg: nat, b: Byte)
    ensures TableByte(reg, b) == BitwiseByte(reg, b)
  {
    var h := reg / 256;
    var k := Xor(reg % 256, b);
    ByteIntoRegister(reg, b);
    StepsLinear(Shl(h, 8), k, 8);
    HighSteps(h, 8, 8);
  }

  /** The table-driven CRC-32 of the first `len` bytes of `data`. */
  method Crc32(table: array<nat>, data: array<Byte>, len: nat) returns (crc: nat)
    requires IsCrcTable(table)
    requires len <= data.Length
    ensures crc == Crc32Of(data[..len])
  {
    var reg := InitialRegister;
    var i := 0;
    while i < len
      invariant 0 <= i <= len
      invariant reg == Register(data[..i])
    {
      TableByteIsBitwise(reg, data[i]);
      ByteIntoRegister(reg, data[i]);
      assert data[..i + 1][..i] == data[..i];
      reg := Xor(reg / 256, table[Xor(reg % 256, data[i])]);
      i := i + 1;
    }
    assert data[..len] == data[..i];
    crc := InitialRegister - reg;
  }

  /** The empty message has CRC 0: the initial register complemented. */
  lemma EmptyMessage()
    ensures Crc32Of([]) == 0
  {
  }
}
