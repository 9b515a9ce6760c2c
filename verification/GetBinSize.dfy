/** The search for the smallest bin size that is safe enough: doubling steps up, then halving steps back. */
module GetBinSize {
  import opened Bits

  /**
    `prob(B)` is the negated logarithm of the chance that a bin of size B overflows; it is maximal once every ball
    fits.
   */
  ghost predicate Certain(prob: nat -> real, numBalls: nat, statSecParam: nat) {
    forall B: nat | B >= numBalls :: prob(B) >= statSecParam as real
  }

  ghost predicate Monotone(prob: nat -> real) {
    forall B: nat, C: nat | B <= C :: prob(B) <= prob(C)
  }

  function Larger(a: nat, b: nat): nat {
    if a < b then b else a
  }

  function StartSize(numBins: nat, numBalls: nat): nat
    requires numBins > 0
  {
    Larger(1, numBalls / numBins)
  }

  lemma HalfOfPow2(k: nat)
    requires k > 0
    ensures Pow2(k) / 2 == Pow2(k - 1) && Pow2(k) == 2 * Pow2(k - 1)
  {}

  lemma OneIsPow2(k: nat)
    ensures Pow2(k) > 1 <==> k > 0
  {}

  /**
    The search always ends, at a size that is safe, and unless it is the one it began with the size
    below it is not. The step is never zero and the size never falls below the first one tried.
   */
  method GetBinSize(prob: nat -> real, numBins: nat, numBalls: nat,
                                       statSecParam: nat) returns (B: nat)
    requires numBins > 0 && Certain(prob, numBalls, statSecParam)
    ensures B >= StartSize(numBins, numBalls)
    ensures B >= 1 && B >= numBalls / numBins
    ensures prob(B) >= statSecParam as real
    ensures B > StartSize(numBins, numBalls) ==> prob(B - 1) < statSecParam as real
    ensures B > 1 && B > numBalls / numBins ==> prob(B - 1) < statSecParam as real
  {
    B := Larger(1, numBalls / numBins);
    var currentProb := prob(B);
    var step := 1;
    var doubling := true;
    ghost var k: nat := 0;
    while currentProb < statSecParam as real || step > 1
      invariant currentProb == prob(B) && step == Pow2(k) >= 1
      invariant B >= StartSize(numBins, numBalls)
      invariant (B == StartSize(numBins, numBalls) && doubling && step == 1)
             || (B >= StartSize(numBins, numBalls) + step && prob(B - step) < statSecParam as real)
      decreases doubling, if doubling then 0 else step, if B < numBalls then numBalls - B else 0
    {
      assert step != 0;  // the throw that is guarded by a zero step
      HalfOfPow2(k + 1);
      OneIsPow2(k);
      if statSecParam as real > currentProb {
        assert B < numBalls;
        if doubling {
          step, k := Larger(1, step * 2), k + 1;
        } else {
          if k > 0 {
            HalfOfPow2(k);
            k := k - 1;
          }
          step := Larger(1, step / 2);
        }
        B := B + step;
      } else {
        HalfOfPow2(k);
        doubling := false;
        step, k := Larger(1, step / 2), k - 1;
        B := B - step;
      }
      currentProb := prob(B);
    }
  }

  /**
    When larger bins are never less safe, a size that is safe while the one below it is not is the least safe one from
    the start on.
   */
  lemma LeastSafe(prob: nat -> real, start: nat, statSecParam: nat, B: nat)
    requires Monotone(prob) && B >= start && prob(B) >= statSecParam as real
    requires B > start ==> prob(B - 1) < statSecParam as real
    ensures forall C: nat | start <= C :: prob(C) >= statSecParam as real <==> B <= C
  {
    forall C: nat | start <= C ensures prob(C) >= statSecParam as real <==> B <= C {
      if C < B {
        assert prob(C) <= prob(B - 1);
      }
    }
  }
}
