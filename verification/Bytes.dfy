/** Spreading the bits of a block one per byte, as the evaluators do to avoid bit shifts. */
module Bytes {
  import opened Blocks
  import opened Dpf

  /** The value of byte `y` of a block. */
  function ByteAt(b: Block, y: nat): nat
    requires y < 16
  {
    var bit := (n: nat) requires n < 8 => if b[8 * y + n] then 1 else 0;
    bit(0) + 2 * bit(1) + 4 * bit(2) + 8 * bit(3) + 16 * bit(4) + 32 * bit(5) + 64 * bit(6) + 128 * bit(7)
  }

  /** A one in every byte. */
  function ByteOnes(): Block { seq(128, i => i % 8 == 0) }

  /** Arithmetic right shift of each 16-bit lane: the top bit of the lane is copied in. */
  function SraiEpi16(a: Block, n: nat): Block {
    seq(128, i requires 0 <= i < 128 => if i % 16 + n < 16 then a[i + n] else a[16 * (i / 16) + 15])
  }

  /** Bit `n` of every byte of `w`, as a byte of its own. */
  function Spread(w: Block, n: nat): Block {
    And(ByteOnes(), SraiEpi16(w, n))
  }

  /** The table zeroAndAllOne, indexed by a byte. */
  function ZeroAndAllOne(v: nat): Block
    requires v < 2
  {
    AllOf(v == 1)
  }

  function Bit(b: bool): nat { if b then 1 else 0 }

  lemma SpreadBit(w: Block, n: nat, y: nat, m: nat)
    requires n < 8 && y < 16 && m < 8
    ensures Spread(w, n)[8 * y + m] == (m == 0 && w[8 * y + n])
  {
    assert (8 * y + m) % 8 == m;
    assert m == 0 ==> (8 * y) % 16 + n < 16;
  }

  /** Byte `q` of the eight spread blocks is the bit of `w` that holds the value of point `q`. */
  lemma SpreadByte(w: Block, q: nat)
    requires q < 128
    ensures ByteAt(Spread(w, q / 16), q % 16) == Bit(w[BitPos(q)])
  {
    hide Spread;
    var n, y := q / 16, q % 16;
    SpreadBit(w, n, y, 0);
    SpreadBit(w, n, y, 1);
    SpreadBit(w, n, y, 2);
    SpreadBit(w, n, y, 3);
    SpreadBit(w, n, y, 4);
    SpreadBit(w, n, y, 5);
    SpreadBit(w, n, y, 6);
    SpreadBit(w, n, y, 7);
  }
}
