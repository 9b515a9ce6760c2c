/** Points of a commutative group and the numbers that multiply them. */
module Groups {
  /** `plus`, `times` and `negate` are the arithmetic of the numbers, which may be modulo the order of the group. */
  datatype Group<!T> = Group(zero: T, add: (T, T) -> T, neg: T -> T, mul: (T, int) -> T,
                             plus: (int, int) -> int, times: (int, int) -> int, negate: int -> int)

  ghost predicate AddLaws<T(!new)>(G: Group<T>) {
    && (forall a: T, b: T :: G.add(a, b) == G.add(b, a))
    && (forall a: T, b: T, c: T :: G.add(G.add(a, b), c) == G.add(a, G.add(b, c)))
    && (forall a: T :: G.add(a, G.zero) == a)
    && forall a: T :: G.add(a, G.neg(a)) == G.zero
  }

  ghost predicate MulLaws<T(!new)>(G: Group<T>) {
    && (forall a: T, b: T, k: int :: G.mul(G.add(a, b), k) == G.add(G.mul(a, k), G.mul(b, k)))
    && (forall a: T, k: int :: G.mul(G.neg(a), k) == G.neg(G.mul(a, k)))
    && (forall a: T, k: int, l: int :: G.mul(a, G.plus(k, l)) == G.add(G.mul(a, k), G.mul(a, l)))
    && (forall a: T, k: int, l: int :: G.mul(a, G.times(k, l)) == G.mul(G.mul(a, k), l))
    && (forall a: T, k: int, l: int :: G.mul(a, G.times(k, l)) == G.mul(G.mul(a, l), k))
    && forall a: T, k: int :: G.mul(a, G.negate(k)) == G.neg(G.mul(a, k))
  }

  ghost predicate Laws<T(!new)>(G: Group<T>) {
    AddLaws(G) && MulLaws(G)
  }

  function Sub<T>(G: Group<T>, a: T, b: T): T {
    G.add(a, G.neg(b))
  }

  /** A sum starts with its first point. */
  function Sum<T>(G: Group<T>, ps: seq<T>): T {
    if ps == [] then G.zero else if |ps| == 1 then ps[0] else G.add(Sum(G, ps[..|ps| - 1]), ps[|ps| - 1])
  }

  /** Products of integers, kept apart from the solver's own arithmetic. */
  function Times(a: int, k: int): int {
    a * k
  }

  /** The integers, with themselves as the numbers that multiply them. */
  function Integers(): Group<int> {
    Group(0, (a: int, b: int) => a + b, (a: int) => -a, (a: int, k: int) => Times(a, k),
          (k: int, l: int) => k + l, (k: int, l: int) => Times(k, l), (k: int) => -k)
  }

  lemma Distribute(a: int, b: int, k: int)
    ensures Times(a + b, k) == Times(a, k) + Times(b, k) && Times(k, a + b) == Times(k, a) + Times(k, b)
    ensures Times(-a, k) == -Times(a, k) == Times(a, -k)
  {}

  lemma Associate(a: int, k: int, l: int)
    ensures Times(a, Times(k, l)) == Times(Times(a, k), l) == Times(Times(a, l), k)
  {
    assert a * (k * l) == (a * k) * l == (a * l) * k;
  }

  lemma IntegersAreAGroup()
    ensures Laws(Integers())
  {
    hide Times;
    var G := Integers();
    forall a: int, b: int, k: int ensures G.mul(G.add(a, b), k) == G.add(G.mul(a, k), G.mul(b, k)) {
      Distribute(a, b, k);
    }
    forall a: int, k: int, l: int ensures G.mul(a, G.plus(k, l)) == G.add(G.mul(a, k), G.mul(a, l)) {
      Distribute(k, l, a);
    }
    forall a: int, k: int ensures G.mul(G.neg(a), k) == G.neg(G.mul(a, k)) == G.mul(a, G.negate(k)) {
      Distribute(a, a, k);
    }
    forall a: int, k: int, l: int ensures G.mul(a, G.times(k, l)) == G.mul(G.mul(a, k), l) == G.mul(G.mul(a, l), k) {
      Associate(a, k, l);
    }
  }

  lemma AddComm<T(!new)>(G: Group<T>, a: T, b: T)
    requires Laws(G)
    ensures G.add(a, b) == G.add(b, a)
  {}

  lemma AddAssoc<T(!new)>(G: Group<T>, a: T, b: T, c: T)
    requires Laws(G)
    ensures G.add(G.add(a, b), c) == G.add(a, G.add(b, c))
  {}

  lemma AddNeg<T(!new)>(G: Group<T>, a: T)
    requires Laws(G)
    ensures G.add(a, G.neg(a)) == G.zero && G.add(a, G.zero) == a && G.add(G.zero, a) == a
  {
    hide MulLaws;
    AddComm(G, a, G.zero);
  }

  /** (a + b) + (c + d) == (a + c) + (b + d) */
  lemma AddSwap<T(!new)>(G: Group<T>, a: T, b: T, c: T, d: T)
    requires Laws(G)
    ensures G.add(G.add(a, b), G.add(c, d)) == G.add(G.add(a, c), G.add(b, d))
  {
    hide *;
    calc {
      G.add(G.add(a, b), G.add(c, d));
      { AddAssoc(G, a, b, G.add(c, d)); }
      G.add(a, G.add(b, G.add(c, d)));
      { AddAssoc(G, b, c, d); AddComm(G, b, c); AddAssoc(G, c, b, d); }
      G.add(a, G.add(c, G.add(b, d)));
      { AddAssoc(G, a, c, G.add(b, d)); }
      G.add(G.add(a, c), G.add(b, d));
    }
  }

  /** What added to a gives zero is the negative of a. */
  lemma NegUnique<T(!new)>(G: Group<T>, a: T, b: T)
    requires Laws(G) && G.add(a, b) == G.zero
    ensures b == G.neg(a)
  {
    hide *;
    calc {
      b;
      { AddNeg(G, b); AddComm(G, G.zero, b); AddNeg(G, a); }
      G.add(b, G.add(a, G.neg(a)));
      { AddAssoc(G, b, a, G.neg(a)); AddComm(G, a, b); }
      G.add(G.zero, G.neg(a));
      { AddNeg(G, G.neg(a)); }
      G.neg(a);
    }
  }

  lemma NegAdd<T(!new)>(G: Group<T>, a: T, b: T)
    requires Laws(G)
    ensures G.neg(G.add(a, b)) == G.add(G.neg(a), G.neg(b))
  {
    hide *;
    AddSwap(G, a, b, G.neg(a), G.neg(b));
    AddNeg(G, a);
    AddNeg(G, b);
    AddNeg(G, G.zero);
    NegUnique(G, G.add(a, b), G.add(G.neg(a), G.neg(b)));
  }

  /** (a + b) - (c + d) == (a - c) + (b - d) */
  lemma SubSwap<T(!new)>(G: Group<T>, a: T, b: T, c: T, d: T)
    requires Laws(G)
    ensures Sub(G, G.add(a, b), G.add(c, d)) == G.add(Sub(G, a, c), Sub(G, b, d))
  {
    hide AddLaws, MulLaws;
    NegAdd(G, c, d);
    AddSwap(G, a, b, G.neg(c), G.neg(d));
  }

  lemma SubSelf<T(!new)>(G: Group<T>, a: T, b: T)
    requires Laws(G)
    ensures Sub(G, G.add(a, b), a) == b && G.add(a, Sub(G, b, a)) == b
  {
    hide AddLaws, MulLaws;
    AddComm(G, a, b);
    AddAssoc(G, b, a, G.neg(a));
    AddNeg(G, a);
    AddNeg(G, b);
    AddAssoc(G, a, b, G.neg(a));
  }

  lemma Cancel<T(!new)>(G: Group<T>, a: T, b: T, c: T)
    requires Laws(G)
    ensures G.add(a, b) == G.add(a, c) <==> b == c
  {
    hide Laws;
    SubSelf(G, a, b);
    SubSelf(G, a, c);
  }

  lemma MulSub<T(!new)>(G: Group<T>, a: T, b: T, k: int)
    requires Laws(G)
    ensures G.mul(Sub(G, a, b), k) == Sub(G, G.mul(a, k), G.mul(b, k))
  {
    hide AddLaws;
  }
}

/**
  An honest run of the Diffie-Hellman style protocol: the receiver makes a commitment for each item, though
  always to the last one, and proves them well formed, the sender raises them to its secret and proves it used one
  secret throughout. Challenges are an oracle's answer to the transcript.
 */
module Dkt {
  import opened Groups
  import opened Permutations
  import opened Wrappers

  /** Three points, the map from items to points and the oracle, all shared by the two sides. */
  datatype Setup<!T> = Setup(G: Group<T>, g: T, gg: T, ggg: T, toPoint: nat -> T, oracle: seq<T> -> int)

  function Points<T>(S: Setup<T>, inputs: seq<nat>): (r: seq<T>)
    ensures |r| == |inputs| && forall i | 0 <= i < |r| :: r[i] == S.toPoint(inputs[i])
  {
    seq(|inputs|, i requires 0 <= i < |inputs| => S.toPoint(inputs[i]))
  }

  function G2<T>(S: Setup<T>): T {
    S.G.add(S.gg, S.ggg)
  }

  /**
    The point in every commitment. The loop over the items takes the one at the back of the list of points,
    which is complete by then: it is the point of the last item, whichever item is being committed to.
   */
  function LastPoint<T>(S: Setup<T>, inputs: seq<nat>): T
    requires inputs != []
  {
    S.toPoint(inputs[|inputs| - 1])
  }

  /** The receiver's first message. `transcript` is what it has hashed. */
  datatype Commitment<T> = Commitment(X: T, sigmaA: T, Ms: seq<T>, Ns: seq<T>, sigmaBs: seq<T>, transcript: seq<T>)

  ghost predicate CommitsTo<T(!new)>(S: Setup<T>, inputs: seq<nat>, Rc: int, sigmaD: int, Rcs: seq<int>,
                                     sigmaDs: seq<int>, m: Commitment<T>)
    requires |Rcs| == |sigmaDs| == |inputs|
  {
    var pch := Sum(S.G, Points(S, inputs));
    && m.X == S.G.add(pch, S.G.mul(S.g, Rc)) && m.sigmaA == S.G.mul(S.g, sigmaD)
    && |m.Ms| == |m.Ns| == |m.sigmaBs| == |inputs| && m.transcript == [m.sigmaA] + m.sigmaBs
    && forall i | 0 <= i < |inputs| ::
        CommitsAt(S, pch, LastPoint(S, inputs), Rcs[i], sigmaDs[i], m.Ms[i], m.Ns[i], m.sigmaBs[i])
  }

  ghost predicate CommitsAt<T(!new)>(S: Setup<T>, pch: T, point: T, r: int, d: int, M: T, N: T, B: T) {
    && M == S.G.add(point, S.G.mul(S.gg, r))
    && N == S.G.add(Sub(S.G, pch, point), S.G.mul(S.ggg, r))
    && B == S.G.mul(G2(S), d)
  }

  method Commit<T(!new)>(S: Setup<T>, inputs: seq<nat>, Rc: int, sigmaD: int, Rcs: seq<int>,
                         sigmaDs: seq<int>) returns (m: Commitment<T>)
    requires |Rcs| == |sigmaDs| == |inputs|
    ensures CommitsTo(S, inputs, Rc, sigmaD, Rcs, sigmaDs, m)
  {
    var inputPoints := Points(S, inputs);
    var pch := S.G.zero;
    for i := 0 to |inputs|
      invariant pch == Sum(S.G, inputPoints[..i])
    {
      pch := if i == 0 then inputPoints[i] else S.G.add(pch, inputPoints[i]);
      assert inputPoints[..i + 1][..i] == inputPoints[..i];
    }
    assert inputPoints[..|inputs|] == inputPoints;
    var sigmaA := S.G.mul(S.g, sigmaD);
    var transcript := [sigmaA];
    var Ms, Ns, Bs := [], [], [];
    for i := 0 to |inputs|
      invariant |Ms| == |Ns| == |Bs| == i && transcript == [sigmaA] + Bs
      invariant forall k | 0 <= k < i ::
                CommitsAt(S, pch, LastPoint(S, inputs), Rcs[k], sigmaDs[k], Ms[k], Ns[k], Bs[k])
    {
      var B, back := S.G.mul(G2(S), sigmaDs[i]), inputPoints[|inputPoints| - 1];
      Ms := Ms + [S.G.add(back, S.G.mul(S.gg, Rcs[i]))];
      Ns := Ns + [S.G.add(Sub(S.G, pch, back), S.G.mul(S.ggg, Rcs[i]))];
      Bs := Bs + [B];
      transcript := transcript + [B];
    }
    m := Commitment(S.G.add(pch, S.G.mul(S.g, Rc)), sigmaA, Ms, Ns, Bs, transcript);
  }

  /** The sender's answer, and both transcripts as it has hashed them. */
  datatype Reply<T> = Reply(Z: T, Mps: seq<T>, sigma2A: T, sigma2As: seq<T>, sigma2Phi: int, transcript: seq<T>,
      transcript2: seq<T>)

  ghost predicate RepliesTo<T(!new)>(S: Setup<T>, m: Commitment<T>, Rs: int, sigma2R: int, a: Reply<T>)
    requires |m.Ms| == |m.sigmaBs|
  {
    && a.Z == S.G.mul(S.gg, Rs) && a.sigma2A == S.G.mul(S.gg, sigma2R) && |a.Mps| == |a.sigma2As| == |m.Ms|
    && (forall i | 0 <= i < |m.Ms| :: a.Mps[i] == S.G.mul(m.Ms[i], Rs) && a.sigma2As[i] == S.G.mul(m.Ms[i], sigma2R))
    && a.transcript == [m.sigmaA] + m.sigmaBs && a.transcript2 == [a.sigma2A] + a.sigma2As
    && a.sigma2Phi == S.G.plus(sigma2R, S.G.times(S.oracle(a.transcript2), Rs))
  }

  method Answer<T(!new)>(S: Setup<T>, m: Commitment<T>, Rs: int, sigma2R: int) returns (a: Reply<T>)
    requires |m.Ms| == |m.sigmaBs|
    ensures RepliesTo(S, m, Rs, sigma2R, a)
  {
    var sigma2A := S.G.mul(S.gg, sigma2R);
    var transcript, transcript2 := [m.sigmaA], [sigma2A];
    var Mps, sigma2As := [], [];
    for i := 0 to |m.Ms|
      invariant |Mps| == |sigma2As| == i
      invariant forall k | 0 <= k < i :: Mps[k] == S.G.mul(m.Ms[k], Rs) && sigma2As[k] == S.G.mul(m.Ms[k], sigma2R)
      invariant transcript == [m.sigmaA] + m.sigmaBs[..i] && transcript2 == [sigma2A] + sigma2As
    {
      transcript := transcript + [m.sigmaBs[i]];
      Mps := Mps + [S.G.mul(m.Ms[i], Rs)];
      var sigma2Ai := S.G.mul(m.Ms[i], sigma2R);
      sigma2As := sigma2As + [sigma2Ai];
      transcript2 := transcript2 + [sigma2Ai];
    }
    assert m.sigmaBs[..|m.Ms|] == m.sigmaBs;
    var c := S.oracle(transcript2);
    a := Reply(S.G.mul(S.gg, Rs), Mps, sigma2A, sigma2As, S.G.plus(sigma2R, S.G.times(c, Rs)), transcript, transcript2);
  }

  // ----- the checks -----

  ghost predicate SigmaHolds<T(!new)>(S: Setup<T>, m: Commitment<T>, e: int, phi: int, phis: seq<int>, i: nat)
    requires i < |m.Ms| == |m.Ns| == |m.sigmaBs| == |phis|
  {
    Sub(S.G, S.G.mul(S.g, phi), S.G.mul(G2(S), phis[i]))
    == S.G.add(Sub(S.G, m.sigmaA, m.sigmaBs[i]), S.G.mul(Sub(S.G, m.X, S.G.add(m.Ms[i], m.Ns[i])), e))
  }

  /** The sender's pass over the receiver's proofs: which of them are bad. The run goes on in either case. */
  method CheckSigma<T(==, !new)>(S: Setup<T>, m: Commitment<T>, e: int, phi: int,
                                 phis: seq<int>) returns (bad: seq<nat>)
    requires |m.Ms| == |m.Ns| == |m.sigmaBs| == |phis|
    ensures forall i: nat :: i in bad <==> i < |m.Ms| && !SigmaHolds(S, m, e, phi, phis, i)
    ensures bad == [] <==> forall i: nat | i < |m.Ms| :: SigmaHolds(S, m, e, phi, phis, i)
  {
    bad := [];
    var sigmaGZ := S.G.mul(S.g, phi);
    for i := 0 to |m.Ms|
      invariant forall k: nat :: k in bad <==> k < i && !SigmaHolds(S, m, e, phi, phis, k)
      invariant bad == [] <==> forall k: nat | k < i :: SigmaHolds(S, m, e, phi, phis, k)
    {
      var checkVal := Sub(S.G, sigmaGZ, S.G.mul(G2(S), phis[i]));
      var proof := S.G.add(Sub(S.G, m.sigmaA, m.sigmaBs[i]), S.G.mul(Sub(S.G, m.X, S.G.add(m.Ms[i], m.Ns[i])), e));
      assert SigmaHolds(S, m, e, phi, phis, i) <==> checkVal == proof;
      if checkVal != proof {
        bad := bad + [i];
      }
    }
  }

  /** X - (M + N) takes the items' sum out and leaves the random parts. */
  lemma ItemsDropOut<T(!new)>(S: Setup<T>, pch: T, point: T, u: T, v: T, w: T)
    requires Laws(S.G)
    ensures Sub(S.G, S.G.add(pch, u), S.G.add(S.G.add(point, v), S.G.add(Sub(S.G, pch, point), w)))
            == Sub(S.G, u, S.G.add(v, w))
  {
    hide AddLaws, MulLaws;
    AddSwap(S.G, point, v, Sub(S.G, pch, point), w);
    SubSelf(S.G, point, pch);
    SubSwap(S.G, pch, u, pch, S.G.add(v, w));
    AddNeg(S.G, pch);
    AddNeg(S.G, Sub(S.G, u, S.G.add(v, w)));
  }

  lemma MulLawsAt<T(!new)>(G: Group<T>, a: T, b: T, k: int, l: int)
    requires Laws(G)
    ensures G.mul(G.add(a, b), k) == G.add(G.mul(a, k), G.mul(b, k))
    ensures G.mul(a, G.plus(k, l)) == G.add(G.mul(a, k), G.mul(a, l))
    ensures G.mul(a, G.times(k, l)) == G.mul(G.mul(a, k), l) == G.mul(G.mul(a, l), k)
    ensures G.mul(a, G.negate(k)) == G.neg(G.mul(a, k))
  {
    hide AddLaws;
  }

  /** phi = d + r * e as an exponent of a point. */
  lemma Response<T(!new)>(G: Group<T>, a: T, d: int, r: int, e: int)
    requires Laws(G)
    ensures G.mul(a, G.plus(d, G.times(r, e))) == G.add(G.mul(a, d), G.mul(G.mul(a, r), e))
    ensures G.mul(a, G.plus(d, G.times(e, r))) == G.add(G.mul(a, d), G.mul(G.mul(a, r), e))
  {
    hide Laws;
    MulLawsAt(G, a, a, d, G.times(r, e));
    MulLawsAt(G, a, a, d, G.times(e, r));
    MulLawsAt(G, a, a, r, e);
    MulLawsAt(G, a, a, e, r);
  }

  /** The sender's check of an honest receiver holds for every item. */
  lemma SigmaComplete<T(!new)>(S: Setup<T>, inputs: seq<nat>, Rc: int, sigmaD: int, Rcs: seq<int>, sigmaDs: seq<int>,
                               m: Commitment<T>,
                               e: int, phi: int, phis: seq<int>, i: nat)
    requires Laws(S.G) && |Rcs| == |sigmaDs| == |inputs| == |phis| && i < |inputs|
    requires CommitsTo(S, inputs, Rc, sigmaD, Rcs, sigmaDs, m)
    requires phi == S.G.plus(sigmaD, S.G.times(Rc, e)) && phis[i] == S.G.plus(sigmaDs[i], S.G.times(Rcs[i], e))
    ensures SigmaHolds(S, m, e, phi, phis, i)
  {
    hide Laws, Sub, Points, Sum;
    var G, g2 := S.G, G2(S);
    var pch, point := Sum(G, Points(S, inputs)), LastPoint(S, inputs);
    assert CommitsAt(S, pch, point, Rcs[i], sigmaDs[i], m.Ms[i], m.Ns[i], m.sigmaBs[i]);
    ItemsDropOut(S, pch, point, G.mul(S.g, Rc), G.mul(S.gg, Rcs[i]), G.mul(S.ggg, Rcs[i]));
    MulLawsAt(G, S.gg, S.ggg, Rcs[i], e);
    assert Sub(G, m.X, G.add(m.Ms[i], m.Ns[i])) == Sub(G, G.mul(S.g, Rc), G.mul(g2, Rcs[i]));
    MulSub(G, G.mul(S.g, Rc), G.mul(g2, Rcs[i]), e);
    Response(G, S.g, sigmaD, Rc, e);
    Response(G, g2, sigmaDs[i], Rcs[i], e);
    SubSwap(G, G.mul(S.g, sigmaD), G.mul(G.mul(S.g, Rc), e), G.mul(g2, sigmaDs[i]), G.mul(G.mul(g2, Rcs[i]), e));
  }

  /**
    An honest commitment with any response: it is accepted if and only if it comes to the same point as the honest
    response does.
   */
  lemma WrongResponseNoticed<T(!new)>(S: Setup<T>, inputs: seq<nat>, Rc: int, sigmaD: int, Rcs: seq<int>,
                                      sigmaDs: seq<int>, m: Commitment<T>, e: int, phi: int, phis: seq<int>, i: nat)
    requires Laws(S.G) && |Rcs| == |sigmaDs| == |inputs| == |phis| && i < |inputs|
    requires CommitsTo(S, inputs, Rc, sigmaD, Rcs, sigmaDs, m)
    ensures var honest := S.G.plus(sigmaD, S.G.times(Rc, e));
            var honesti := S.G.plus(sigmaDs[i], S.G.times(Rcs[i], e));
            SigmaHolds(S, m, e, phi, phis, i) <==>
            Sub(S.G, S.G.mul(S.g, phi), S.G.mul(G2(S), phis[i]))
            == Sub(S.G, S.G.mul(S.g, honest), S.G.mul(G2(S), honesti))
  {
    hide Laws, Sub, Points, Sum, CommitsAt;
    var honest := S.G.plus(sigmaD, S.G.times(Rc, e));
    var all := phis[i := S.G.plus(sigmaDs[i], S.G.times(Rcs[i], e))];
    SigmaComplete(S, inputs, Rc, sigmaD, Rcs, sigmaDs, m, e, honest, all, i);
  }

  /** What the receiver recovers from a commitment is the point in it times the sender's secret. */
  lemma KeyRecovered<T(!new)>(G: Group<T>, gg: T, point: T, r: int, Rs: int)
    requires Laws(G)
    ensures G.add(G.mul(G.mul(gg, Rs), G.negate(r)), G.mul(G.add(point, G.mul(gg, r)), Rs)) == G.mul(point, Rs)
  {
    hide Laws, Sub;
    var a, b := G.mul(point, Rs), G.mul(G.mul(gg, r), Rs);
    MulLawsAt(G, point, G.mul(gg, r), Rs, 0);
    MulLawsAt(G, gg, gg, r, Rs);
    MulLawsAt(G, G.mul(gg, Rs), gg, r, 0);
    AddComm(G, a, b);
    AddComm(G, G.neg(b), b);
    AddAssoc(G, G.neg(b), b, a);
    AddNeg(G, b);
    AddNeg(G, a);
  }

  /** What both sides hash for an item. */
  datatype Key<T> = Key(K: T, point: T, input: nat)

  /**
    The receiver's last pass: checks the sender's proofs, which abort the run when one is bad, and
    derives the keys.
   */
  method DeriveKeys<T(==, !new)>(S: Setup<T>, inputs: seq<nat>, Rcs: seq<int>, m: Commitment<T>,
                                 a: Reply<T>) returns (keys: Option<seq<Key<T>>>)
    requires |inputs| == |Rcs| == |m.Ms| == |a.Mps| == |a.sigma2As|
    ensures keys.Some? <==> SenderHonest(S, m, a)
    ensures keys.Some? ==> |keys.value| == |inputs| && forall i | 0 <= i < |inputs| ::
              keys.value[i] == Key(S.G.add(S.G.mul(a.Z, S.G.negate(Rcs[i])), a.Mps[i]), S.toPoint(inputs[i]), inputs[i])
  {
    var sigma2C := S.oracle([a.sigma2A] + a.sigma2As);
    if S.G.add(a.sigma2A, S.G.mul(a.Z, sigma2C)) != S.G.mul(S.gg, a.sigma2Phi) {
      return None;
    }
    var found := [];
    for i := 0 to |inputs|
      invariant |found| == i
      invariant forall k | 0 <= k < i ::
                found[k] == Key(S.G.add(S.G.mul(a.Z, S.G.negate(Rcs[k])), a.Mps[k]), S.toPoint(inputs[k]), inputs[k])
      invariant forall k | 0 <= k < i ::
                S.G.add(a.sigma2As[k], S.G.mul(a.Mps[k], sigma2C)) == S.G.mul(m.Ms[k], a.sigma2Phi)
    {
      found := found + [Key(S.G.add(S.G.mul(a.Z, S.G.negate(Rcs[i])), a.Mps[i]), S.toPoint(inputs[i]), inputs[i])];
      if S.G.add(a.sigma2As[i], S.G.mul(a.Mps[i], sigma2C)) != S.G.mul(m.Ms[i], a.sigma2Phi) {
        return None;
      }
    }
    keys := Some(found);
  }

  /** Both of the receiver's checks, for the challenge it computes itself. */
  ghost predicate SenderHonest<T(!new)>(S: Setup<T>, m: Commitment<T>, a: Reply<T>)
    requires |m.Ms| == |a.Mps| == |a.sigma2As|
  {
    var c := S.oracle([a.sigma2A] + a.sigma2As);
    && S.G.add(a.sigma2A, S.G.mul(a.Z, c)) == S.G.mul(S.gg, a.sigma2Phi)
    && forall i | 0 <= i < |m.Ms| :: S.G.add(a.sigma2As[i], S.G.mul(a.Mps[i], c)) == S.G.mul(m.Ms[i], a.sigma2Phi)
  }

  /**
    An honest answer but for the points it returns: it passes if and only if the challenge does not tell them apart.
   */
  lemma WrongPointsNoticed<T(!new)>(S: Setup<T>, m: Commitment<T>, Rs: int, sigma2R: int, a: Reply<T>, Mps: seq<T>)
    requires Laws(S.G) && |m.Ms| == |m.sigmaBs| == |Mps| && RepliesTo(S, m, Rs, sigma2R, a)
    ensures var c := S.oracle([a.sigma2A] + a.sigma2As);
            SenderHonest(S, m, a.(Mps := Mps)) <==>
            forall i | 0 <= i < |m.Ms| :: S.G.mul(Mps[i], c) == S.G.mul(S.G.mul(m.Ms[i], Rs), c)
  {
    hide Laws;
    var c := S.oracle([a.sigma2A] + a.sigma2As);
    HonestSenderPasses(S, m, Rs, sigma2R, a);
    forall i | 0 <= i < |m.Ms|
      ensures S.G.add(a.sigma2As[i], S.G.mul(Mps[i], c)) == S.G.mul(m.Ms[i], a.sigma2Phi)
         <==> S.G.mul(Mps[i], c) == S.G.mul(S.G.mul(m.Ms[i], Rs), c)
    {
      Cancel(S.G, a.sigma2As[i], S.G.mul(Mps[i], c), S.G.mul(a.Mps[i], c));
    }
  }

  /** The same for the number it answers the challenge with. */
  lemma WrongAnswerNoticed<T(!new)>(S: Setup<T>, m: Commitment<T>, Rs: int, sigma2R: int, a: Reply<T>, phi: int)
    requires Laws(S.G) && |m.Ms| == |m.sigmaBs| && RepliesTo(S, m, Rs, sigma2R, a)
    ensures SenderHonest(S, m, a.(sigma2Phi := phi))
       <==> S.G.mul(S.gg, phi) == S.G.mul(S.gg, a.sigma2Phi)
            && forall i | 0 <= i < |m.Ms| :: S.G.mul(m.Ms[i], phi) == S.G.mul(m.Ms[i], a.sigma2Phi)
  {
    hide Laws;
    HonestSenderPasses(S, m, Rs, sigma2R, a);
  }

  lemma HonestSenderPasses<T(!new)>(S: Setup<T>, m: Commitment<T>, Rs: int, sigma2R: int, a: Reply<T>)
    requires Laws(S.G) && |m.Ms| == |m.sigmaBs| && RepliesTo(S, m, Rs, sigma2R, a)
    ensures SenderHonest(S, m, a)
  {
    hide Laws;
    var c := S.oracle(a.transcript2);
    Response(S.G, S.gg, sigma2R, Rs, c);
    forall i | 0 <= i < |m.Ms| ensures S.G.add(a.sigma2As[i], S.G.mul(a.Mps[i], c)) == S.G.mul(m.Ms[i], a.sigma2Phi) {
      Response(S.G, m.Ms[i], sigma2R, Rs, c);
    }
  }

  /** The sender's keys. */
  method OwnKeys<T(!new)>(S: Setup<T>, inputs: seq<nat>, Rs: int) returns (keys: seq<Key<T>>)
    ensures |keys| == |inputs| && forall j | 0 <= j < |inputs| ::
            keys[j] == Key(S.G.mul(S.toPoint(inputs[j]), Rs), S.toPoint(inputs[j]), inputs[j])
  {
    keys := [];
    for j := 0 to |inputs|
      invariant |keys| == j && forall k | 0 <= k < j ::
                keys[k] == Key(S.G.mul(S.toPoint(inputs[k]), Rs), S.toPoint(inputs[k]), inputs[k])
    {
      var point := S.toPoint(inputs[j]);
      keys := keys + [Key(S.G.mul(point, Rs), point, inputs[j])];
    }
  }

  /** What the receiver recovers for each of its items: its last item's point times the sender's secret. */
  lemma KeysAre<T(!new)>(S: Setup<T>, inputs: seq<nat>, Rc: int, sigmaD: int, Rcs: seq<int>, sigmaDs: seq<int>,
                         m: Commitment<T>, Rs: int, sigma2R: int, a: Reply<T>)
    requires Laws(S.G) && |Rcs| == |sigmaDs| == |inputs| && CommitsTo(S, inputs, Rc, sigmaD, Rcs, sigmaDs, m)
             && RepliesTo(S, m, Rs, sigma2R, a)
    ensures forall i | 0 <= i < |inputs| ::
            S.G.add(S.G.mul(a.Z, S.G.negate(Rcs[i])), a.Mps[i]) == S.G.mul(LastPoint(S, inputs), Rs)
  {
    hide Laws, Sum, Points, Sub;
    forall i | 0 <= i < |inputs|
      ensures S.G.add(S.G.mul(a.Z, S.G.negate(Rcs[i])), a.Mps[i]) == S.G.mul(LastPoint(S, inputs), Rs)
    {
      assert CommitsAt(S, Sum(S.G, Points(S, inputs)), LastPoint(S, inputs), Rcs[i], sigmaDs[i], m.Ms[i], m.Ns[i],
          m.sigmaBs[i]);
      KeyRecovered(S.G, S.gg, LastPoint(S, inputs), Rcs[i], Rs);
    }
  }

  /** The receiver's item i is recognised when the sender holds it: the recovered point is the right one. */
  ghost predicate Recognised<T(!new)>(S: Setup<T>, mine: seq<nat>, Rs: int, i: nat)
    requires i < |mine|
  {
    S.G.mul(LastPoint(S, mine), Rs) == S.G.mul(S.toPoint(mine[i]), Rs)
  }

  /** Multiplying by the sender's secret loses nothing, as in a group of prime order for a secret other than zero. */
  ghost predicate Injective<T(!new)>(G: Group<T>, Rs: int) {
    forall a: T, b: T :: G.mul(a, Rs) == G.mul(b, Rs) ==> a == b
  }

  /** Then the items recognised are exactly those with the last item's point, the last item among them. */
  lemma RecognisedIff<T(!new)>(S: Setup<T>, mine: seq<nat>, Rs: int, i: nat)
    requires i < |mine|
    ensures Injective(S.G, Rs) ==> (Recognised(S, mine, Rs, i) <==> S.toPoint(mine[i]) == LastPoint(S, mine))
    ensures i == |mine| - 1 ==> Recognised(S, mine, Rs, i)
  {}

  // ----- the lookup -----

  /** The first eight bytes of a hash value, under which it is filed. */
  function Index(h: nat): nat {
    h % 0x1_0000_0000_0000_0000
  }

  /** Of the receiver's keys with its index, key i is the first, which is the one that stays. */
  ghost predicate IsFirst<T>(hash: Key<T> -> nat, keys: seq<Key<T>>, i: nat) {
    i < |keys| && forall k | 0 <= k < i :: Index(hash(keys[k])) != Index(hash(keys[i]))
  }

  ghost predicate HasHash<T>(hash: Key<T> -> nat, own: seq<Key<T>>, h: nat) {
    exists j :: 0 <= j < |own| && hash(own[j]) == h
  }

  /** Two of the sender's keys have one hash value, and it is that of a key of the receiver. */
  ghost predicate HitTwice<T>(hash: Key<T> -> nat, keys: seq<Key<T>>, own: seq<Key<T>>) {
    exists j, k :: 0 <= j < k < |own| && hash(own[j]) == hash(own[k]) && HasHash(hash, keys, hash(own[j]))
  }

  /** Files the receiver's keys and looks the sender's up, by index and then by the whole hash value. */
  method Lookup<T>(hash: Key<T> -> nat, keys: seq<Key<T>>, own: seq<Key<T>>) returns (mIntersection: seq<nat>)
    ensures forall i: nat :: i in mIntersection <==> IsFirst(hash, keys, i) && HasHash(hash, own, hash(keys[i]))
    ensures Distinct(mIntersection) || HitTwice(hash, keys, own)
    ensures forall i: nat :: i in mIntersection <==>
              && i < |keys| && (exists j :: 0 <= j < |own| && hash(own[j]) == hash(keys[i]))
              && forall k | 0 <= k < i ::
                   hash(keys[k]) % 0x1_0000_0000_0000_0000 != hash(keys[i]) % 0x1_0000_0000_0000_0000
  {
    hide Index, HasHash, HitTwice;
    NoneYet(hash, own);
    var hashs: map<nat, (nat, nat)> := map[];
    for i := 0 to |keys|
      invariant forall k | 0 <= k < i :: Index(hash(keys[k])) in hashs
      invariant forall x | x in hashs :: hashs[x].1 < i && IsFirst(hash, keys, hashs[x].1)
      invariant forall x | x in hashs :: hashs[x].0 == hash(keys[hashs[x].1]) && Index(hashs[x].0) == x
    {
      if Index(hash(keys[i])) !in hashs {
        hashs := hashs[Index(hash(keys[i])) := (hash(keys[i]), i)];
      }
    }
    mIntersection := [];
    for j := 0 to |own|
      invariant forall i: nat ::
                i in mIntersection <==> IsFirst(hash, keys, i) && HasHash(hash, own[..j], hash(keys[i]))
      invariant Distinct(mIntersection) || HitTwice(hash, keys, own)
    {
      var x := Index(hash(own[j]));
      HasNext(hash, own, j);
      if x in hashs && hashs[x].0 == hash(own[j]) {
        if hashs[x].1 in mIntersection {
          SeenBefore(hash, keys, own, hashs[x].1, j);
        }
        mIntersection := mIntersection + [hashs[x].1];
      }
      forall i: nat | IsFirst(hash, keys, i) && hash(keys[i]) == hash(own[j]) ensures i in mIntersection {
        assert Index(hash(keys[i])) in hashs;
      }
    }
    assert own[..|own|] == own;
    forall i: nat ensures IsFirst(hash, keys, i) && HasHash(hash, own, hash(keys[i])) <==>
              && i < |keys| && (exists j :: 0 <= j < |own| && hash(own[j]) == hash(keys[i]))
              && forall k | 0 <= k < i ::
                   hash(keys[k]) % 0x1_0000_0000_0000_0000 != hash(keys[i]) % 0x1_0000_0000_0000_0000 {
      FirstIs(hash, keys, own, i);
    }
  }

  lemma FirstIs<T>(hash: Key<T> -> nat, keys: seq<Key<T>>, own: seq<Key<T>>, i: nat)
    ensures IsFirst(hash, keys, i) && HasHash(hash, own, hash(keys[i])) <==>
              && i < |keys| && (exists j :: 0 <= j < |own| && hash(own[j]) == hash(keys[i]))
              && forall k | 0 <= k < i ::
                   hash(keys[k]) % 0x1_0000_0000_0000_0000 != hash(keys[i]) % 0x1_0000_0000_0000_0000
  {}

  lemma NoneYet<T>(hash: Key<T> -> nat, own: seq<Key<T>>)
    ensures forall h: nat :: !HasHash(hash, own[..0], h)
  {}

  lemma SeenBefore<T>(hash: Key<T> -> nat, keys: seq<Key<T>>, own: seq<Key<T>>, i: nat, j: nat)
    requires i < |keys| && j < |own| && hash(keys[i]) == hash(own[j]) && HasHash(hash, own[..j], hash(keys[i]))
    ensures HitTwice(hash, keys, own)
  {
    var k :| 0 <= k < j && hash(own[..j][k]) == hash(own[j]);
    assert hash(own[k]) == hash(own[j]) && HasHash(hash, keys, hash(own[k]));
  }

  lemma HasNext<T>(hash: Key<T> -> nat, own: seq<Key<T>>, j: nat)
    requires j < |own|
    ensures forall h: nat :: HasHash(hash, own[..j + 1], h) <==> HasHash(hash, own[..j], h) || hash(own[j]) == h
  {
    var n := j + 1;
    forall h: nat ensures HasHash(hash, own[..n], h) <==> HasHash(hash, own[..j], h) || hash(own[j]) == h {
      if k :| 0 <= k < j && hash(own[..j][k]) == h {
        assert hash(own[..n][k]) == h;
      }
      if hash(own[j]) == h {
        assert hash(own[..n][j]) == h;
      }
      if k :| 0 <= k < n && hash(own[..n][k]) == h {
        assert k < j ==> hash(own[..j][k]) == h;
      }
    }
  }

  /** Among the keys of one run no two different ones have the same index, where one of them is the receiver's. */
  ghost predicate NoCollisions<T>(hash: Key<T> -> nat, keys: seq<Key<T>>, own: seq<Key<T>>) {
    forall k, l | k in keys && l in keys + own
        && hash(k) % 0x1_0000_0000_0000_0000 == hash(l) % 0x1_0000_0000_0000_0000 ::
      k == l
  }

  /** Without collisions, and when the receiver's keys differ, the lookup lists the keys that both sides have. */
  lemma LookupExact<T>(hash: Key<T> -> nat, keys: seq<Key<T>>, own: seq<Key<T>>, i: nat)
    requires NoCollisions(hash, keys, own) && Distinct(keys) && i < |keys|
    ensures IsFirst(hash, keys, i)
    ensures HasHash(hash, own, hash(keys[i])) <==> keys[i] in own
  {
  }

  lemma NotTwice<T>(hash: Key<T> -> nat, keys: seq<Key<T>>, own: seq<Key<T>>)
    requires NoCollisions(hash, keys, own) && HitTwice(hash, keys, own)
    ensures !Distinct(own)
  {
    var j, k :| 0 <= j < k < |own| && hash(own[j]) == hash(own[k]) && HasHash(hash, keys, hash(own[j]));
    var i :| 0 <= i < |keys| && hash(keys[i]) == hash(own[j]);
    assert own[j] == keys[i] == own[k];
  }

  // ----- the run -----

  /** The receiver's keys have its items' own points in second place, but in first place what it recovered. */
  ghost predicate ReceiverKeys<T(!new)>(S: Setup<T>, mine: seq<nat>, Rs: int, keys: seq<Key<T>>) {
    |keys| == |mine| && forall i | 0 <= i < |mine| ::
      keys[i] == Key(S.G.mul(LastPoint(S, mine), Rs), S.toPoint(mine[i]), mine[i])
  }

  ghost predicate SenderKeys<T(!new)>(S: Setup<T>, theirs: seq<nat>, Rs: int, own: seq<Key<T>>) {
    |own| == |theirs| && forall j | 0 <= j < |theirs| ::
      own[j] == Key(S.G.mul(S.toPoint(theirs[j]), Rs), S.toPoint(theirs[j]), theirs[j])
  }

  /** What a report promises: the common items that are recognised, each once. */
  ghost predicate Reports<T(!new)>(S: Setup<T>, mine: seq<nat>, theirs: seq<nat>, Rs: int, report: seq<nat>) {
    && (forall i: nat :: i in report <==> i < |mine| && mine[i] in theirs && Recognised(S, mine, Rs, i))
    && (Distinct(theirs) ==> Distinct(report))
  }

  /**
    An honest run on one channel, whatever the points, the secrets and the inputs are: both sides
    answer the same challenges, every check on either side holds and the run is not aborted. Two items get the same
    key if and only if they are equal and the receiver's item is recognised; so only those are reported.
   */
  method HonestRun<T(==, !new)>(S: Setup<T>, mine: seq<nat>, theirs: seq<nat>, Rc: int, sigmaD: int, Rcs: seq<int>,
                                sigmaDs: seq<int>, Rs: int, sigma2R: int)
    returns (m: Commitment<T>, a: Reply<T>, keys: Option<seq<Key<T>>>, own: seq<Key<T>>, bad: seq<nat>)
    requires Laws(S.G) && |Rcs| == |sigmaDs| == |mine|
    ensures CommitsTo(S, mine, Rc, sigmaD, Rcs, sigmaDs, m) && RepliesTo(S, m, Rs, sigma2R, a)
    ensures m.transcript == a.transcript && |m.Ms| == |mine| && bad == []
    ensures keys.Some? && |keys.value| == |mine| && |own| == |theirs|
    ensures ReceiverKeys(S, mine, Rs, keys.value) && SenderKeys(S, theirs, Rs, own)
    ensures forall i: nat, j: nat | i < |mine| && j < |theirs| ::
            keys.value[i] == own[j] <==> mine[i] == theirs[j] && Recognised(S, mine, Rs, i)
  {
    hide Laws, CommitsAt, SigmaHolds, Sum, Points;
    m := Commit(S, mine, Rc, sigmaD, Rcs, sigmaDs);
    var e := S.oracle(m.transcript);
    var phi := S.G.plus(sigmaD, S.G.times(Rc, e));
    var phis := seq(|mine|, i requires 0 <= i < |mine| => S.G.plus(sigmaDs[i], S.G.times(Rcs[i], e)));
    a := Answer(S, m, Rs, sigma2R);
    bad := CheckSigma(S, m, S.oracle(a.transcript), phi, phis);
    HonestSenderPasses(S, m, Rs, sigma2R, a);
    keys := DeriveKeys(S, mine, Rcs, m, a);
    own := OwnKeys(S, theirs, Rs);
    forall i: nat | i < |mine| ensures SigmaHolds(S, m, e, phi, phis, i) {
      SigmaComplete(S, mine, Rc, sigmaD, Rcs, sigmaDs, m, e, phi, phis, i);
    }
    KeysAre(S, mine, Rc, sigmaD, Rcs, sigmaDs, m, Rs, sigma2R, a);
  }

  /** Keys that are equal as in an honest run, looked up without collisions. */
  lemma ReportIs<T(!new)>(S: Setup<T>, mine: seq<nat>, theirs: seq<nat>, Rs: int, hash: Key<T> -> nat,
                          keys: seq<Key<T>>, own: seq<Key<T>>, report: seq<nat>)
    requires |keys| == |mine| && |own| == |theirs| && Distinct(mine) && NoCollisions(hash, keys, own)
    requires ReceiverKeys(S, mine, Rs, keys) && SenderKeys(S, theirs, Rs, own)
    requires forall i: nat, j: nat | i < |mine| && j < |theirs| ::
               keys[i] == own[j] <==> mine[i] == theirs[j] && Recognised(S, mine, Rs, i)
    requires forall i: nat :: i in report <==> IsFirst(hash, keys, i) && HasHash(hash, own, hash(keys[i]))
    requires Distinct(report) || HitTwice(hash, keys, own)
    ensures Reports(S, mine, theirs, Rs, report)
  {
    hide NoCollisions, Recognised, HasHash, HitTwice;
    forall i, k | 0 <= i < k < |keys| ensures keys[i] != keys[k] {
      assert keys[i].input == mine[i] && keys[k].input == mine[k];
    }
    forall i: nat | i < |mine| ensures i in report <==> mine[i] in theirs && Recognised(S, mine, Rs, i) {
      LookupExact(hash, keys, own, i);
      if mine[i] in theirs {
        var j :| 0 <= j < |theirs| && theirs[j] == mine[i];
        assert keys[i] == own[j] <==> Recognised(S, mine, Rs, i);
      }
      if keys[i] in own {
        var j :| 0 <= j < |own| && own[j] == keys[i];
      }
    }
    if HitTwice(hash, keys, own) {
      NotTwice(hash, keys, own);
      var j, k :| 0 <= j < k < |own| && own[j] == own[k];
      assert theirs[j] == own[j].input == theirs[k];
    }
  }

  /** The same with the lookup at the end. */
  method Run<T(==, !new)>(S: Setup<T>, mine: seq<nat>, theirs: seq<nat>, Rc: int, sigmaD: int, Rcs: seq<int>,
                          sigmaDs: seq<int>, Rs: int, sigma2R: int, hash: Key<T> -> nat)
    returns (keys: seq<Key<T>>, own: seq<Key<T>>, mIntersection: seq<nat>)
    requires Laws(S.G) && |Rcs| == |sigmaDs| == |mine|
    ensures |keys| == |mine| && |own| == |theirs|
    ensures ReceiverKeys(S, mine, Rs, keys) && SenderKeys(S, theirs, Rs, own)
    ensures forall i: nat, j: nat | i < |mine| && j < |theirs| ::
            keys[i] == own[j] <==> mine[i] == theirs[j] && Recognised(S, mine, Rs, i)
    ensures NoCollisions(hash, keys, own) && Distinct(mine) ==> Reports(S, mine, theirs, Rs, mIntersection)
  {
    hide Laws, NoCollisions, Recognised, IsFirst, HasHash, HitTwice;
    var m, a, k, o, bad := HonestRun(S, mine, theirs, Rc, sigmaD, Rcs, sigmaDs, Rs, sigma2R);
    keys, own := k.value, o;
    mIntersection := Lookup(hash, keys, own);
    if NoCollisions(hash, keys, own) && Distinct(mine) {
      ReportIs(S, mine, theirs, Rs, hash, keys, own, mIntersection);
    }
  }

  /** The integers, each item its own point. */
  function IntegerSetup(): Setup<int> {
    Setup(Integers(), 1, 1, 1, (x: nat) => x, (t: seq<int>) => 0)
  }

  function IntegerHash(): Key<int> -> nat {
    (k: Key<int>) => if k.K < 0 then 0 else 10 * k.K + k.input
  }

  /** With the secret 1 the receiver recovers the point 2 for both of its items 1 and 2. */
  lemma LostKeys(keys: seq<Key<int>>, own: seq<Key<int>>)
    requires ReceiverKeys(IntegerSetup(), [1, 2], 1, keys) && SenderKeys(IntegerSetup(), [1], 1, own)
    ensures keys == [Key(2, 1, 1), Key(2, 2, 2)] && own == [Key(1, 1, 1)]
    ensures NoCollisions(IntegerHash(), keys, own) && !Recognised(IntegerSetup(), [1, 2], 1, 0)
  {
    assert keys == [Key(2, 1, 1), Key(2, 2, 2)] && own == [Key(1, 1, 1)];
  }

  lemma IntegerSetupIsFine()
    ensures Laws(IntegerSetup().G)
  {
    hide Laws, Integers;
    IntegersAreAGroup();
  }

  /** A common item that is lost: the receiver has 1 and 2, the sender has 1, and nothing is reported. */
  method LostItem() returns (keys: seq<Key<int>>, own: seq<Key<int>>, mIntersection: seq<nat>)
    ensures keys == [Key(2, 1, 1), Key(2, 2, 2)] && own == [Key(1, 1, 1)] && mIntersection == []
  {
    hide *;
    IntegerSetupIsFine();
    OneAndTwo();
    keys, own, mIntersection := Run(IntegerSetup(), [1, 2], [1], 0, 0, [0, 0], [0, 0], 1, 0, IntegerHash());
    LostKeys(keys, own);
    NothingReported(mIntersection);
  }

  lemma OneAndTwo()
    ensures Distinct<nat>([1, 2])
  {}

  lemma NothingReported(report: seq<nat>)
    requires Reports(IntegerSetup(), [1, 2], [1], 1, report)
    ensures report == []
  {
    assert !Recognised(IntegerSetup(), [1, 2], 1, 0);
    if report != [] {
      HasFirst(report);
    }
  }

  lemma HasFirst(s: seq<nat>)
    requires s != []
    ensures s[0] in s
  {}
}
