/**
  Powers of two, shifts and the digits of naturals. Shifts are recursive over binary
  digits and division is repeated subtraction; DivisionAgrees ties it to the built-in one.
 */
module Bits {
  function Pow2(n: nat): (p: nat)
    ensures p > 0
  {
    if n == 0 then 1 else 2 * Pow2(n - 1)
  }

  /** x >> n */
  function Shr(x: nat, n: nat): nat {
    if n == 0 then x else Shr(x / 2, n - 1)
  }

  /** The low n binary digits of x. */
  function Low(x: nat, n: nat): (r: nat)
    ensures r < Pow2(n)
  {
    if n == 0 then 0 else 2 * Low(x / 2, n - 1) + x % 2
  }

  function Quot(x: nat, d: nat): nat
    requires d > 0
  {
    if x < d then 0 else 1 + Quot(x - d, d)
  }

  function Rem(x: nat, d: nat): (r: nat)
    requires d > 0
    ensures r < d
  {
    if x < d then x else Rem(x - d, d)
  }

  lemma {:induction false} Digits(q: nat, d: nat, r: nat)
    requires r < d
    ensures q * d + r >= 0
    ensures Quot(q * d + r, d) == q && Rem(q * d + r, d) == r
  {
    if q > 0 {
      Digits(q - 1, d, r);
      assert q * d + r - d == (q - 1) * d + r >= 0;
    }
  }

  lemma {:induction false} QuotRem(x: nat, d: nat)
    requires d > 0
    ensures x == Quot(x, d) * d + Rem(x, d)
  {
    if x >= d {
      QuotRem(x - d, d);
      assert Quot(x, d) * d == Quot(x - d, d) * d + d;
    }
  }

  lemma DivisionAgrees(x: nat, d: nat)
    requires d > 0
    ensures Quot(x, d) == x / d && Rem(x, d) == x % d
  {
    var q, r := x / d, x % d;
    assert x == q * d + r;
    Digits(q, d, r);
  }

  lemma {:induction false} MultiplesApart(q: nat, r: nat, m: nat)
    requires q < r
    ensures q * m + m <= r * m
    decreases r - q
  {
    assert (q + 1) * m == q * m + m;
    if q + 1 < r {
      MultiplesApart(q + 1, r, m);
    }
  }

  lemma SameMultiple(q: nat, r: nat, m: nat, l: nat, l': nat)
    requires l < m && l' < m && q * m + l == r * m + l'
    ensures q == r && l == l'
  {
    if q < r {
      MultiplesApart(q, r, m);
    } else if r < q {
      MultiplesApart(r, q, m);
    }
  }

  /** One more place of shifting drops one more digit. */
  lemma {:induction false} ShrStep(x: nat, n: nat)
    ensures Shr(x, n) / 2 == Shr(x, n + 1)
  {
    if n > 0 {
      ShrStep(x / 2, n - 1);
    }
  }

  /** The node at depth `n` on the path to leaf `kIdx` of a tree of depth `kDepth`. */
  function PathTo(kIdx: nat, kDepth: nat, n: nat): nat
    requires n <= kDepth
  {
    Shr(kIdx, kDepth - n)
  }

  lemma PathStep(kIdx: nat, kDepth: nat, n: nat)
    requires 0 < n <= kDepth
    ensures PathTo(kIdx, kDepth, n) / 2 == PathTo(kIdx, kDepth, n - 1)
  {
    ShrStep(kIdx, kDepth - n);
  }

  lemma TwiceProduct(a: nat, p: nat)
    ensures a * (2 * p) == 2 * (a * p)
  {}

  /** A number is its high digits and its low ones. */
  lemma {:induction false} ShrLow(x: nat, n: nat)
    ensures x == Shr(x, n) * Pow2(n) + Low(x, n)
  {
    if n > 0 {
      ShrLow(x / 2, n - 1);
      TwiceProduct(Shr(x / 2, n - 1), Pow2(n - 1));
    }
  }

  lemma {:induction false} LowSmall(x: nat, n: nat)
    requires x < Pow2(n)
    ensures Low(x, n) == x && Shr(x, n) == 0
  {
    if n > 0 {
      LowSmall(x / 2, n - 1);
    }
  }

  /** The number with these binary digits, lowest first. */
  function Number(bits: seq<bool>): nat {
    if bits == [] then 0 else 2 * Number(bits[1..]) + if bits[0] then 1 else 0
  }

  /** The lowest n digits that shifting finds make up the number, up to its higher digits. */
  lemma {:induction false} NumberOfDigits(x: nat, n: nat, bits: seq<bool>)
    requires |bits| == n && forall i: nat | i < n :: bits[i] == (Shr(x, i) % 2 == 1)
    ensures Number(bits) == Low(x, n)
  {
    if n > 0 {
      forall i: nat | i < n - 1 ensures bits[1..][i] == (Shr(x / 2, i) % 2 == 1) {
        var j := i + 1;
        assert bits[j] == (Shr(x, j) % 2 == 1);
      }
      NumberOfDigits(x / 2, n - 1, bits[1..]);
    }
  }

  /** Shifting right divides. */
  lemma ShrDivides(x: nat, n: nat)
    ensures Shr(x, n) == x / Pow2(n)
  {
    ShrLow(x, n);
    Digits(Shr(x, n), Pow2(n), Low(x, n));
    DivisionAgrees(x, Pow2(n));
  }

  lemma Pow2Of4()
    ensures Pow2(4) == 16
  {
    assert Pow2(2) == 4;
  }

  lemma Pow2Of64()
    ensures Pow2(64) == 0x1_0000_0000_0000_0000
  {
    hide Pow2;
    Pow2Of4();
    Pow2Add(4, 4);
    Pow2Add(8, 8);
    Pow2Add(16, 16);
    Pow2Add(32, 32);
  }

  lemma {:induction false} Pow2Add(m: nat, n: nat)
    ensures Pow2(m + n) == Pow2(m) * Pow2(n)
  {
    if m > 0 {
      Pow2Add(m - 1, n);
    }
  }

  lemma Regroup(q: nat, n: nat, r: nat, hi: nat, p: nat, lo: nat)
    requires q == hi * p + lo && r < n && lo < p
    ensures q * n + r == hi * (p * n) + (lo * n + r)
    ensures 0 <= lo * n + r < p * n
  {
    assert q * n == hi * (p * n) + lo * n;
    assert (lo + 1) * n <= p * n;
  }

  lemma Pow2Times8(d: nat)
    ensures Pow2(d + 3) == 8 * Pow2(d)
  {
    assert Pow2(d + 1) == 2 * Pow2(d) && Pow2(d + 2) == 2 * Pow2(d + 1);
  }

  /** The remainder by 2^d * n has the low d digits of the quotient by n, and the remainder by n. */
  lemma WrapDigits(x: nat, d: nat, n: nat)
    requires n > 0
    ensures Pow2(d) * n > 0
    ensures Rem(x, Pow2(d) * n) == Low(Quot(x, n), d) * n + Rem(x, n)
  {
    var q, r := Quot(x, n), Rem(x, n);
    var hi, lo := Shr(q, d), Low(q, d);
    QuotRem(x, n);
    ShrLow(q, d);
    Regroup(q, n, r, hi, Pow2(d), lo);
    var w: nat, m: nat := lo * n + r, Pow2(d) * n;
    Digits(hi, m, w);
  }

  /** Two points fall together in a domain of 2^d groups of n when both of their digits do. */
  lemma SameWrapped(x: nat, y: nat, d: nat, n: nat)
    requires n > 0
    ensures Pow2(d) * n > 0
    ensures Rem(x, Pow2(d) * n) == Rem(y, Pow2(d) * n)
       <==> Low(Quot(x, n), d) == Low(Quot(y, n), d) && Rem(x, n) == Rem(y, n)
  {
    WrapDigits(x, d, n);
    WrapDigits(y, d, n);
    Digits(Low(Quot(x, n), d), n, Rem(x, n));
    Digits(Low(Quot(y, n), d), n, Rem(y, n));
  }
}

/**
  128-bit blocks. Bit 0 is the least significant bit; byte y of a block is its bits
  8y to 8y + 7, which is how the source's byte views of a block read it.
 */
module Blocks {
  import opened Bits

  type Block = b: seq<bool> | |b| == 128 witness seq(128, _ => false)

  function Zero(): Block { seq(128, _ => false) }

  function One(): Block { seq(128, i => i == 0) }

  /** Every bit but bit 0. */
  function NotOne(): Block { seq(128, i => i != 0) }

  /** Every bit but bits 0 and 1. */
  function NotThree(): Block { seq(128, i => i >= 2) }

  function Xor(a: Block, b: Block): Block {
    seq(128, i requires 0 <= i < 128 => a[i] != b[i])
  }

  function And(a: Block, b: Block): Block {
    seq(128, i requires 0 <= i < 128 => a[i] && b[i])
  }

  /** The table zeroAndAllOne[t]: all zeros for a clear bit, all ones for a set one. */
  function AllOf(t: bool): Block {
    seq(128, _ => t)
  }

  /** Left shift of each 64-bit half. */
  function Sll64(a: Block, n: nat): Block {
    seq(128, i requires 0 <= i < 128 => i % 64 >= n && a[i - n])
  }

  /** Logical right shift of each 64-bit half. */
  function Srl64(a: Block, n: nat): Block {
    seq(128, i requires 0 <= i < 128 => i % 64 + n < 64 && a[i + n])
  }

  /** A 64-bit integer in the low half. */
  function ToBlock(v: nat): Block {
    seq(128, i requires 0 <= i < 128 => i < 64 && Shr(v, i) % 2 == 1)
  }

  predicate Lsb(b: Block) {
    b[0]
  }

  lemma XorSelf(a: Block)
    ensures Xor(a, a) == Zero()
  {}

  lemma XorZero(a: Block)
    ensures Xor(a, Zero()) == a == Xor(Zero(), a)
  {}

  /** Exclusive or may be regrouped and reordered in pairs. */
  lemma XorSwap(a: Block, b: Block, c: Block, d: Block)
    ensures Xor(Xor(a, b), Xor(c, d)) == Xor(Xor(a, c), Xor(b, d))
  {}

  lemma XorComm(a: Block, b: Block)
    ensures Xor(a, b) == Xor(b, a)
  {}

  lemma XorAssoc(a: Block, b: Block, c: Block)
    ensures Xor(Xor(a, b), c) == Xor(a, Xor(b, c))
  {}

  /** The low half of a block made of a 64-bit number is that number in binary, and the high half is clear. */
  lemma ToBlockNumber(v: nat)
    ensures v < 0x1_0000_0000_0000_0000 ==> Number(ToBlock(v)[..64]) == v
    ensures forall i: nat | i < 128 :: ToBlock(v)[i] == (i < 64 && v / Pow2(i) % 2 == 1)
  {
    var low := ToBlock(v)[..64];
    forall i: nat | i < 128 ensures ToBlock(v)[i] == (i < 64 && v / Pow2(i) % 2 == 1) {
      ShrDivides(v, i);
    }
    NumberOfDigits(v, 64, low);
    if v < 0x1_0000_0000_0000_0000 {
      Pow2Of64();
      LowSmall(v, 64);
    }
  }

  lemma ToBlockBit(keep: nat)
    requires keep < 2
    ensures ToBlock(keep) == if keep == 1 then One() else Zero()
  {
    forall i | 0 <= i < 128
      ensures ToBlock(keep)[i] == (keep == 1 && i == 0)
    {
      if i > 0 {
        LowSmall(keep, i);
      }
    }
  }
}
