/** Bytes as Python's `bytes` holds them, and the 16-byte AES block. */
module Bytes {

  type Byte = b: int | 0 <= b < 256

  /** `AES.block_size` */
  const BLOCK_SIZE: nat := 16

  type Block = s: seq<Byte> | |s| == BLOCK_SIZE witness seq(16, i => 0)

  function Pow2(k: nat): (p: nat)
    ensures p >= 1
  {
    if k == 0 then 1 else 2 * Pow2(k - 1)
  }

  /** Exclusive or of the low `k` bits of `a` and `b`, bit by bit from the least
      significant. */
  function XorBits(a: nat, b: nat, k: nat): (r: nat)
    ensures r < Pow2(k)
  {
    if k == 0 then 0 else (a % 2 + b % 2) % 2 + 2 * XorBits(a / 2, b / 2, k - 1)
  }

  /** Bitwise exclusive or of two bytes (`^`). */
  function Xor(a: Byte, b: Byte): Byte {
    XorBits(a, b, 8)
  }

  /** On `k`-bit numbers, exclusive or with the same mask twice is the identity. */
  lemma {:induction false} XorBitsTwice(a: nat, b: nat, k: nat)
    requires a < Pow2(k)
    ensures XorBits(XorBits(a, b, k), b, k) == a
  {
    if k > 0 {
      var low := (a % 2 + b % 2) % 2;
      var high := XorBits(a / 2, b / 2, k - 1);
      var x := XorBits(a, b, k);
      assert x == low + 2 * high;
      LowHigh(low, high);
      HalfBound(a, k);
      XorBitsTwice(a / 2, b / 2, k - 1);
      ParityTwice(a % 2, b % 2);
      assert XorBits(x, b, k) == (x % 2 + b % 2) % 2 + 2 * XorBits(x / 2, b / 2, k - 1);
    }
  }

  /** A bit and the rest are read back from `low + 2 * high`. */
  lemma LowHigh(low: nat, high: nat)
    requires low < 2
    ensures (low + 2 * high) % 2 == low && (low + 2 * high) / 2 == high
  {
  }

  lemma HalfBound(a: nat, k: nat)
    requires k > 0 && a < Pow2(k)
    ensures a / 2 < Pow2(k - 1)
  {
  }

  /** Adding the same bit twice modulo 2 changes nothing. */
  lemma ParityTwice(x: nat, y: nat)
    requires x < 2 && y < 2
    ensures ((x + y) % 2 + y) % 2 == x
  {
  }

  /** Exclusive or with the same byte twice gives the byte back. */
  lemma XorTwice(a: Byte, b: Byte)
    ensures Xor(Xor(a, b), b) == a
  {
    assert Pow2(8) == 256;
    XorBitsTwice(a, b, 8);
  }

  /** Exclusive or of two blocks, byte by byte. */
  function XorBlock(a: Block, b: Block): (r: Block)
    ensures forall i :: 0 <= i < BLOCK_SIZE ==> r[i] == Xor(a[i], b[i])
  {
    seq(BLOCK_SIZE, i requires 0 <= i < BLOCK_SIZE => Xor(a[i], b[i]))
  }

  /** XorBlock with the same block twice gives the block back. */
  lemma XorBlockTwice(a: Block, b: Block)
    ensures XorBlock(XorBlock(a, b), b) == a
  {
    forall i | 0 <= i < BLOCK_SIZE ensures XorBlock(XorBlock(a, b), b)[i] == a[i] {
      XorTwice(a[i], b[i]);
    }
  }
}
