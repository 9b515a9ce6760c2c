/**
  Phasing: an item is sent to a bin by its low 64 bits and then loses its low `shift` bits, so that
  within the bin only the rest is compared. When does bin and rest still determine the item?
 */
module Phasing {
  import opened Bits

  function Addr(v: nat, binCount: nat): nat
    requires binCount > 0
  {
    Rem(Low(v, 64), binCount)
  }

  function Code(v: nat, shift: nat): nat {
    Shr(v, shift)
  }

  /** No two 128-bit items share both bin and code. */
  ghost predicate Separates(binCount: nat, shift: nat)
    requires binCount > 0
  {
    forall v: nat, w: nat | v < Pow2(128) && w < Pow2(128) && Addr(v, binCount) == Addr(w, binCount)
        && Code(v, shift) == Code(w, shift) :: v == w
  }

  /** The low n digits are the low s of them below the others. */
  lemma {:induction false} LowSplit(v: nat, s: nat, n: nat)
    requires s <= n
    ensures Low(v, n) == Low(Shr(v, s), n - s) * Pow2(s) + Low(v, s)
  {
    if s > 0 {
      LowSplit(v / 2, s - 1, n - 1);
      TwiceProduct(Low(Shr(v / 2, s - 1), n - s), Pow2(s - 1));
    }
  }

  /** Numbers closer than m with the same remainder by m are the same. */
  lemma NearAndSame(a: nat, b: nat, m: nat)
    requires m > 0 && b <= a < b + m && Rem(a, m) == Rem(b, m)
    ensures a == b
  {
    QuotRem(a, m);
    QuotRem(b, m);
    if Quot(a, m) > Quot(b, m) {
      MultiplesApart(Quot(b, m), Quot(a, m), m);
    } else if Quot(a, m) < Quot(b, m) {
      MultiplesApart(Quot(a, m), Quot(b, m), m);
    }
  }

  lemma EnoughBins(v: nat, w: nat, binCount: nat, shift: nat)
    requires binCount > 0 && shift <= 64 && Pow2(shift) <= binCount
    requires Addr(v, binCount) == Addr(w, binCount) && Code(v, shift) == Code(w, shift)
    ensures v == w
  {
    LowSplit(v, shift, 64);
    LowSplit(w, shift, 64);
    if Low(v, 64) >= Low(w, 64) {
      NearAndSame(Low(v, 64), Low(w, 64), binCount);
    } else {
      NearAndSame(Low(w, 64), Low(v, 64), binCount);
    }
    ShrLow(v, shift);
    ShrLow(w, shift);
  }

  lemma {:induction false} Pow2Monotone(m: nat, n: nat)
    requires m <= n
    ensures Pow2(m) <= Pow2(n)
  {
    if m < n {
      Pow2Monotone(m, n - 1);
    }
  }

  /** With fewer bins the items 0 and `binCount` fall together. */
  lemma TooFewBins(binCount: nat, shift: nat)
    requires 0 < binCount < Pow2(shift) && shift <= 64
    ensures binCount < Pow2(128)
    ensures Addr(0, binCount) == Addr(binCount, binCount) && Code(0, shift) == Code(binCount, shift)
  {
    Pow2Monotone(shift, 64);
    Pow2Monotone(64, 128);
    LowSmall(binCount, 64);
    LowSmall(0, 64);
    LowSmall(binCount, shift);
    LowSmall(0, shift);
  }

  /** Phasing keeps items apart exactly when there are at least as many bins as values of the bits it drops. */
  lemma SeparatesIff(binCount: nat, shift: nat)
    requires binCount > 0 && shift <= 64
    ensures Separates(binCount, shift) <==> Pow2(shift) <= binCount
  {
    if Pow2(shift) <= binCount {
      forall v: nat, w: nat | v < Pow2(128) && w < Pow2(128) && Addr(v, binCount) == Addr(w, binCount)
          && Code(v, shift) == Code(w, shift)
        ensures v == w
      {
        EnoughBins(v, w, binCount, shift);
      }
    } else {
      TooFewBins(binCount, shift);
      assert 0 < binCount;
    }
  }

  /** With the parameters the protocol picks: the shift is log2 of n rounded up, and there are at most n bins. */
  lemma ProtocolSeparatesIff(n: nat, binCount: nat, shift: nat)
    requires 0 < binCount <= n <= Pow2(shift) && shift <= 64
    ensures Separates(binCount, shift) <==> binCount == n == Pow2(shift)
  {
    hide Separates, Pow2;
    SeparatesIff(binCount, shift);
  }
}
