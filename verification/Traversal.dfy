/**
  Depth-first order over the leaves of a complete binary tree, as the evaluators walk
  it: from one leaf to the next they climb one level more than the leaf number has
  trailing ones, and keep the seeds cached above that point.
 */
module Traversal {
  import opened Bits

  /** Bitwise exclusive or of naturals. */
  function BitXor(a: nat, b: nat): nat
    decreases a + b
  {
    if a == 0 && b == 0 then 0
    else 2 * BitXor(a / 2, b / 2) + if a % 2 == b % 2 then 0 else 1
  }

  function Log2Floor(n: nat): nat
    requires n > 0
  {
    if n == 1 then 0 else 1 + Log2Floor(n / 2)
  }

  function TrailingOnes(i: nat): nat {
    if i % 2 == 0 then 0 else 1 + TrailingOnes(i / 2)
  }

  lemma {:induction false} BitXorSelf(a: nat)
    ensures BitXor(a, a) == 0
  {
    if a > 0 {
      BitXorSelf(a / 2);
    }
  }

  /** The source's log2floor((i + 1) ^ i) counts the trailing ones of i. */
  lemma {:induction false} ClimbCount(i: nat)
    ensures BitXor(i + 1, i) > 0 && Log2Floor(BitXor(i + 1, i)) == TrailingOnes(i)
  {
    if i % 2 == 0 {
      BitXorSelf(i / 2);
    } else {
      ClimbCount(i / 2);
      assert (i + 1) / 2 == i / 2 + 1;
    }
  }

  /** Above the climb, the next leaf hangs below the same node. */
  lemma {:induction false} SharedAncestor(i: nat, m: nat)
    requires m > TrailingOnes(i)
    ensures Shr(i + 1, m) == Shr(i, m)
  {
    if i % 2 == 1 {
      SharedAncestor(i / 2, m - 1);
      assert (i + 1) / 2 == i / 2 + 1;
    }
  }

  /** Only the last leaf climbs above the root. */
  lemma {:induction false} ClimbBounded(i: nat, d: nat)
    requires i < Pow2(d)
    ensures TrailingOnes(i) <= d
    ensures TrailingOnes(i) == d <==> i + 1 == Pow2(d)
  {
    if d == 0 {
    } else if i % 2 == 1 {
      ClimbBounded(i / 2, d - 1);
    }
  }

  /** The 64-bit subtraction by which the evaluators climb. */
  const WORD: nat := 0x1_0000_0000_0000_0000

  function Climb(d: nat, i: nat): nat {
    (d - ((ClimbCount(i); Log2Floor(BitXor(i + 1, i))) + 1)) % WORD
  }

  /** After leaf `i` of a tree of depth `dEnd` the climb lands where both paths still agree. */
  lemma ClimbLands(i: nat, dEnd: nat)
    requires i + 1 < Pow2(dEnd) && dEnd < WORD
    ensures Climb(dEnd, i) < dEnd
    ensures forall e | 0 <= e <= Climb(dEnd, i) :: PathTo(i + 1, dEnd, e) == PathTo(i, dEnd, e)
  {
    ClimbCount(i);
    ClimbBounded(i, dEnd);
    forall e | 0 <= e <= Climb(dEnd, i)
      ensures PathTo(i + 1, dEnd, e) == PathTo(i, dEnd, e)
    {
      SharedAncestor(i, dEnd - e);
    }
  }

  lemma {:induction false} OnlyHalfway(i: nat, d: nat)
    requires i + 1 < Pow2(d) && d > 0
    ensures TrailingOnes(i) == d - 1 <==> i + 1 == Pow2(d - 1)
  {
    if d == 1 {
    } else if i % 2 == 1 {
      OnlyHalfway(i / 2, d - 1);
    }
  }

  /** The climb reaches the root exactly before the first leaf of the right half. */
  lemma ClimbsToRoot(i: nat, dEnd: nat)
    requires i + 1 < Pow2(dEnd) && dEnd < WORD
    ensures dEnd > 0 && (Climb(dEnd, i) == 0 <==> i + 1 == Pow2(dEnd - 1))
  {
    ClimbCount(i);
    ClimbBounded(i, dEnd);
    OnlyHalfway(i, dEnd);
  }

  /** The climb after the last leaf wraps around below zero. */
  lemma LastClimb(dEnd: nat)
    requires dEnd < WORD
    ensures Climb(dEnd, Pow2(dEnd) - 1) == 0xFFFF_FFFF_FFFF_FFFF
  {
    ClimbCount(Pow2(dEnd) - 1);
    ClimbBounded(Pow2(dEnd) - 1, dEnd);
  }

  lemma {:induction false} Pow2Grows(n: nat)
    ensures n < Pow2(n)
  {
    if n > 0 {
      Pow2Grows(n - 1);
    }
  }
}
