/**
  The distributed point function of Boyle, Gilboa and Ishai as a binary tree of seeds,
  independent of how any evaluator walks it, and the proof that a pair of keys splits
  a point function.
 */
module Dpf {
  import opened Bits
  import opened Blocks

  /** The two fixed-key ciphers. Every statement below holds for every choice of them. */
  datatype Ciphers = Ciphers(aes0: Block -> Block, aes1: Block -> Block)

  /** A cipher made one-way by adding its input back in. */
  function Prg(aes: Block -> Block, s: Block): Block {
    Xor(aes(s), s)
  }

  /** One step down the tree: child `keep` of the node with seed `s`, under correction word `cw`. */
  function TraverseOne(c: Ciphers, s: Block, cw: Block, keep: nat): Block
    requires keep < 2
  {
    var ss := And(s, NotThree());
    var tau0, tau1 := Prg(c.aes0, ss), Prg(c.aes1, ss);
    var scw := And(cw, NotThree());
    var mask := AllOf(Lsb(s));
    var d0 := And(Srl64(cw, 1), One());
    var d1 := And(cw, One());
    var c0 := And(Xor(scw, d0), mask);
    var c1 := And(Xor(scw, d1), mask);
    if keep == 0 then Xor(c0, tau0) else Xor(c1, tau1)
  }

  /**
    A child bit by bit, where `x` is the parent without its two lowest bits: the cipher of the child's side at x with x
    added in, and where the parent's t bit is set the correction word, whose bits 1 and 0 are for the t bits of
    children 0 and 1.
   */
  lemma ChildBits(c: Ciphers, s: Block, cw: Block, keep: nat, x: Block)
    requires keep < 2 && forall b: nat | b < 128 :: x[b] == (b >= 2 && s[b])
    ensures forall b: nat | b < 128 ::
              var y := if keep == 0 then c.aes0(x) else c.aes1(x);
              TraverseOne(c, s, cw, keep)[b]
              == ((y[b] != x[b]) != (s[0] && if b == 0 then cw[1 - keep] else b >= 2 && cw[b]))
  {
    assert And(s, NotThree()) == x;
  }

  /** Seed of the node reached from the root by the low `n` bits of `p`, most significant first. */
  function Node(c: Ciphers, k: seq<Block>, n: nat, p: nat): Block
    requires n < |k|
  {
    if n == 0 then k[0] else TraverseOne(c, Node(c, k, n - 1, p / 2), k[n], p % 2)
  }

  /** Input to the cipher for group block `i` of a leaf. */
  function LeafInput(s: Block, i: nat): Block {
    Xor(And(s, NotThree()), ToBlock(i))
  }

  /**
    What goes into the cipher, bit by bit: the seed without its two lowest bits, and the number i in binary
    added into its low half.
   */
  ghost predicate IsLeafInput(x: Block, s: Block, i: nat) {
    forall b: nat | b < 128 :: x[b] == ((b >= 2 && s[b]) != (b < 64 && i / Pow2(b) % 2 == 1))
  }

  lemma LeafInputBits(s: Block, i: nat)
    ensures IsLeafInput(LeafInput(s, i), s, i)
  {
    hide ToBlock;
    ToBlockNumber(i);
  }

  /** Different group blocks of a leaf have different inputs, for all 64-bit block numbers. */
  lemma InputsDiffer(s: Block, i: nat, j: nat)
    requires i < 0x1_0000_0000_0000_0000 && j < 0x1_0000_0000_0000_0000
    ensures LeafInput(s, i) == LeafInput(s, j) <==> i == j
  {
    hide ToBlock, And;
    if LeafInput(s, i) == LeafInput(s, j) {
      forall b | 0 <= b < 128 ensures ToBlock(i)[b] == ToBlock(j)[b] {
        assert LeafInput(s, i)[b] == LeafInput(s, j)[b];
      }
      assert ToBlock(i) == ToBlock(j);
      ToBlockNumber(i);
      ToBlockNumber(j);
    }
  }

  /** `y` is the cipher's answer to the input of group block `i`, with the input added in, bit by bit. */
  ghost predicate IsExpanded(c: Ciphers, y: Block, s: Block, i: nat) {
    exists x: Block :: IsLeafInput(x, s, i) && forall b: nat | b < 128 :: y[b] == (c.aes0(x)[b] != x[b])
  }

  lemma ExpandBits(c: Ciphers, s: Block, i: nat)
    ensures IsExpanded(c, Expand(c, s, i), s, i)
  {
    hide LeafInput, IsLeafInput;
    LeafInputBits(s, i);
  }

  /** Group block `i` of the leaf with seed `s`, before correction. */
  function Expand(c: Ciphers, s: Block, i: nat): Block {
    Prg(c.aes0, LeafInput(s, i))
  }

  /** The group blocks of the leaf with seed `s`, before correction. */
  method ExpandLeaf(c: Ciphers, s: Block, g: nat) returns (gs: array<Block>)
    ensures fresh(gs) && gs.Length == g
    ensures forall i | 0 <= i < g :: gs[i] == Expand(c, s, i) && IsExpanded(c, gs[i], s, i)
  {
    hide Xor, And, ToBlock, IsExpanded;
    var l := new Block[g];
    gs := new Block[g];
    for i := 0 to g
      invariant forall m | 0 <= m < i :: l[m] == LeafInput(s, m)
    {
      l[i] := Xor(And(s, NotThree()), ToBlock(i));
    }
    for i := 0 to g
      invariant forall m | 0 <= m < g :: l[m] == LeafInput(s, m)
      invariant forall m | 0 <= m < i :: gs[m] == c.aes0(l[m])
    {
      gs[i] := c.aes0(l[i]);
    }
    for i := 0 to g
      invariant forall m | 0 <= m < g :: l[m] == LeafInput(s, m)
      invariant forall m | 0 <= m < i :: gs[m] == Expand(c, s, m)
      invariant forall m | i <= m < g :: gs[m] == c.aes0(l[m])
      invariant forall m | 0 <= m < i :: IsExpanded(c, gs[m], s, m)
    {
      gs[i] := Xor(gs[i], l[i]);
      ExpandBits(c, s, i);
    }
  }

  /** Group block `i` of the leaf with seed `s`, corrected by the group word `g` when the t bit is set. */
  function LeafWord(c: Ciphers, s: Block, g: seq<Block>, i: nat): Block
    requires i < |g|
  {
    Xor(Expand(c, s, i), And(g[i], AllOf(Lsb(s))))
  }

  /** Bit of a group block that holds the value of point `q` of its 128 points. */
  function BitPos(q: nat): (b: nat)
    requires q < 128
    ensures b < 128
  {
    8 * (q % 16) + q / 16
  }

  /** Every bit of a block is the value of exactly one point. */
  lemma BitPosBijective(b: nat, q: nat)
    requires b < 128 && q < 128
    ensures BitPos(q) == b <==> q == 16 * (b % 8) + b / 8
  {
    var y, a := q % 16, q / 16;
    assert (8 * y + a) / 8 == y && (8 * y + a) % 8 == a;
  }

  /** Byte and bit index of point `gIdx` in a byte view of the group blocks. */
  lemma ByteAndBit(gIdx: nat)
    ensures var byteIdx, bitIdx := gIdx % 16 + 16 * (gIdx / 128), (gIdx % 128) / 16;
            byteIdx / 16 == gIdx / 128 && 8 * (byteIdx % 16) + bitIdx == BitPos(gIdx % 128)
  {
    var i, y := gIdx / 128, gIdx % 16;
    assert (gIdx % 128) % 16 == y by {
      assert gIdx == 16 * (8 * i + (gIdx % 128) / 16) + (gIdx % 128) % 16;
    }
    assert (y + 16 * i) / 16 == i && (y + 16 * i) % 16 == y;
  }

  /** Points per leaf. */
  function GroupPoints(g: nat): (n: nat)
    ensures g > 0 ==> n > 0
  {
    128 * g
  }

  function Domain(kDepth: nat, g: nat): (n: nat)
    ensures g > 0 ==> n > 0
  {
    Pow2(kDepth) * GroupPoints(g)
  }

  /** The share of point `q` of the leaf with seed `s`. */
  predicate LeafBit(c: Ciphers, s: Block, g: seq<Block>, q: nat)
    requires q < GroupPoints(|g|)
  {
    LeafWord(c, s, g, q / 128)[BitPos(q % 128)]
  }

  /** The share, under key (k, g), of the point function at `j`. */
  predicate Eval(c: Ciphers, k: seq<Block>, g: seq<Block>, j: nat)
    requires |k| > 0 && |g| > 0
  {
    var n := GroupPoints(|g|);
    LeafBit(c, Node(c, k, |k| - 1, Quot(j, n)), g, Rem(j, n))
  }

  // ----- what a pair of keys must satisfy -----

  /** Equal in every bit but bit 1, which no cipher input and no t bit ever reads. */
  ghost predicate Agree(a: Block, b: Block) {
    forall i | 0 <= i < 128 && i != 1 :: a[i] == b[i]
  }

  /**
    A correction word does its work at a level: from seeds with different t bits it
    brings the two children off the path together and keeps the t bits on it apart.
   */
  ghost predicate Corrects(c: Ciphers, s0: Block, s1: Block, cw: Block, keep: nat)
    requires keep < 2
  {
    && Agree(TraverseOne(c, s0, cw, 1 - keep), TraverseOne(c, s1, cw, 1 - keep))
    && Lsb(TraverseOne(c, s0, cw, keep)) != Lsb(TraverseOne(c, s1, cw, keep))
  }

  /**
    (k0, g0) and (k1, g1) split the point `idx`: different root t bits, at each level one
    correction word shared by both keys, and a shared group word that makes the
    two leaves on the path differ at exactly one point.
   */
  ghost predicate KeyPair(c: Ciphers, idx: nat, k0: seq<Block>, g0: seq<Block>, k1: seq<Block>, g1: seq<Block>) {
    && 0 < |k0| == |k1| && 0 < |g0| && g0 == g1
    && var kDepth, kIdx := |k0| - 1, Quot(idx, GroupPoints(|g0|));
    && Lsb(k0[0]) != Lsb(k1[0])
    && AllCorrected(c, kIdx, k0, k1)
    && PointDiffers(c, Node(c, k0, kDepth, kIdx), Node(c, k1, kDepth, kIdx), g0, Rem(idx, GroupPoints(|g0|)))
  }

  ghost predicate AllCorrected(c: Ciphers, kIdx: nat, k0: seq<Block>, k1: seq<Block>)
    requires 0 < |k0| == |k1|
  {
    forall n | 0 <= n < |k0| - 1 :: LevelCorrected(c, kIdx, k0, k1, n)
  }

  ghost predicate LevelCorrected(c: Ciphers, kIdx: nat, k0: seq<Block>, k1: seq<Block>, n: nat)
    requires n + 1 < |k0| == |k1|
  {
    var p := PathTo(kIdx, |k0| - 1, n);
    && k0[n + 1] == k1[n + 1]
    && Corrects(c, Node(c, k0, n, p), Node(c, k1, n, p), k0[n + 1], PathTo(kIdx, |k0| - 1, n + 1) % 2)
  }

  /** Under group word `g`, leaves `s0` and `s1` differ at point `at` and nowhere else. */
  ghost predicate PointDiffers(c: Ciphers, s0: Block, s1: Block, g: seq<Block>, at: nat) {
    forall q | 0 <= q < GroupPoints(|g|) :: LeafBit(c, s0, g, q) != LeafBit(c, s1, g, q) <==> q == at
  }

  // ----- one step -----

  /** What a correction word contributes to bit `i` of child `keep`. */
  predicate CwBit(cw: Block, keep: nat, i: nat)
    requires keep < 2 && i < 128
  {
    if i >= 2 then cw[i] else i == 0 && cw[1 - keep]
  }

  lemma ChildBit(c: Ciphers, s: Block, cw: Block, keep: nat, i: nat)
    requires keep < 2 && i < 128
    ensures TraverseOne(c, s, cw, keep)[i]
         == (Prg(if keep == 0 then c.aes0 else c.aes1, And(s, NotThree()))[i] != (Lsb(s) && CwBit(cw, keep, i)))
  {}

  /** Seeds that differ only in bit 1 have the same children. */
  lemma AgreeingSeeds(c: Ciphers, a: Block, b: Block, cw: Block, keep: nat)
    requires keep < 2 && Agree(a, b)
    ensures TraverseOne(c, a, cw, keep) == TraverseOne(c, b, cw, keep)
  {
    assert And(a, NotThree()) == And(b, NotThree());
  }

  /** Between seeds with different t bits a level has only one correction word that works. */
  lemma CorrectionUnique(c: Ciphers, s0: Block, s1: Block, cw: Block, cw': Block, keep: nat)
    requires keep < 2 && Lsb(s0) != Lsb(s1)
    requires Corrects(c, s0, s1, cw, keep) && Corrects(c, s0, s1, cw', keep)
    ensures cw == cw'
  {
    forall i | 0 <= i < 128
      ensures cw[i] == cw'[i]
    {
      var at := if i >= 2 then i else 0;
      var child := if i >= 2 then 1 - keep else 1 - i;
      ChildBit(c, s0, cw, child, at);
      ChildBit(c, s1, cw, child, at);
      ChildBit(c, s0, cw', child, at);
      ChildBit(c, s1, cw', child, at);
    }
  }

  // ----- whole paths -----

  /** Only the low `n` bits of `p` matter at depth `n`. */
  lemma {:induction false} NodeMod(c: Ciphers, k: seq<Block>, n: nat, p: nat, p': nat)
    requires n < |k| && Low(p, n) == Low(p', n)
    ensures Node(c, k, n, p) == Node(c, k, n, p')
  {
    if n > 0 {
      NodeMod(c, k, n - 1, p / 2, p' / 2);
    }
  }

  /** The t bits of the two parties differ at every node on the path. */
  lemma {:induction false} OnPath(c: Ciphers, kIdx: nat, k0: seq<Block>, k1: seq<Block>, n: nat)
    requires n < |k0| == |k1| && AllCorrected(c, kIdx, k0, k1) && Lsb(k0[0]) != Lsb(k1[0])
    ensures var p := PathTo(kIdx, |k0| - 1, n);
            Lsb(Node(c, k0, n, p)) != Lsb(Node(c, k1, n, p))
  {
    if n > 0 {
      assert LevelCorrected(c, kIdx, k0, k1, n - 1);
      PathStep(kIdx, |k0| - 1, n);
    }
  }

  /** Leaving the path: the other child of a node on it. */
  lemma LeavingPath(c: Ciphers, kIdx: nat, k0: seq<Block>, k1: seq<Block>, n: nat, p: nat)
    requires n + 1 < |k0| == |k1| && AllCorrected(c, kIdx, k0, k1)
    requires Low(p / 2, n) == Low(PathTo(kIdx, |k0| - 1, n), n)
    requires p % 2 != PathTo(kIdx, |k0| - 1, n + 1) % 2
    ensures Agree(Node(c, k0, n + 1, p), Node(c, k1, n + 1, p))
  {
    var up := PathTo(kIdx, |k0| - 1, n);
    assert LevelCorrected(c, kIdx, k0, k1, n);
    NodeMod(c, k0, n, p / 2, up);
    NodeMod(c, k1, n, p / 2, up);
  }

  /** Staying off the path: any child of a node off it. */
  lemma StayingOff(c: Ciphers, kIdx: nat, k0: seq<Block>, k1: seq<Block>, n: nat, p: nat)
    requires n + 1 < |k0| == |k1| && AllCorrected(c, kIdx, k0, k1)
    requires Agree(Node(c, k0, n, p / 2), Node(c, k1, n, p / 2))
    ensures Agree(Node(c, k0, n + 1, p), Node(c, k1, n + 1, p))
  {
    assert LevelCorrected(c, kIdx, k0, k1, n);
    AgreeingSeeds(c, Node(c, k0, n, p / 2), Node(c, k1, n, p / 2), k0[n + 1], p % 2);
  }

  /** The seeds of the two parties agree, except possibly in bit 1, at every node off the path. */
  lemma {:induction false} OffPath(c: Ciphers, kIdx: nat, k0: seq<Block>, k1: seq<Block>, n: nat, p: nat)
    requires n < |k0| == |k1| && AllCorrected(c, kIdx, k0, k1)
    requires Low(p, n) != Low(PathTo(kIdx, |k0| - 1, n), n)
    ensures Agree(Node(c, k0, n, p), Node(c, k1, n, p))
  {
    hide AllCorrected, TraverseOne, Agree;
    if n > 0 {
      PathStep(kIdx, |k0| - 1, n);
      if Low(p / 2, n - 1) == Low(PathTo(kIdx, |k0| - 1, n - 1), n - 1) {
        LeavingPath(c, kIdx, k0, k1, n - 1, p);
      } else {
        OffPath(c, kIdx, k0, k1, n - 1, p / 2);
        StayingOff(c, kIdx, k0, k1, n - 1, p);
      }
    }
  }

  /** Leaves that agree expand to the same shares. */
  lemma AgreeingLeaves(c: Ciphers, a: Block, b: Block, g: seq<Block>, q: nat)
    requires Agree(a, b) && q < GroupPoints(|g|)
    ensures LeafBit(c, a, g, q) == LeafBit(c, b, g, q)
  {
    assert And(a, NotThree()) == And(b, NotThree());
  }

  lemma PathLeafShares(c: Ciphers, idx: nat, k0: seq<Block>, g0: seq<Block>, k1: seq<Block>, g1: seq<Block>, p: nat,
                       q: nat)
    requires KeyPair(c, idx, k0, g0, k1, g1) && q < GroupPoints(|g0|)
    requires Low(p, |k0| - 1) == Low(Quot(idx, GroupPoints(|g0|)), |k0| - 1)
    ensures LeafBit(c, Node(c, k0, |k0| - 1, p), g0, q) != LeafBit(c, Node(c, k1, |k0| - 1, p), g1, q)
       <==> q == Rem(idx, GroupPoints(|g0|))
  {
    hide LeafBit, AllCorrected, Lsb, TraverseOne;
    var kIdx := Quot(idx, GroupPoints(|g0|));
    NodeMod(c, k0, |k0| - 1, p, kIdx);
    NodeMod(c, k1, |k0| - 1, p, kIdx);
  }

  lemma OtherLeafShares(c: Ciphers, idx: nat, k0: seq<Block>, g0: seq<Block>, k1: seq<Block>, g1: seq<Block>, p: nat,
                        q: nat)
    requires KeyPair(c, idx, k0, g0, k1, g1) && q < GroupPoints(|g0|)
    requires Low(p, |k0| - 1) != Low(Quot(idx, GroupPoints(|g0|)), |k0| - 1)
    ensures LeafBit(c, Node(c, k0, |k0| - 1, p), g0, q) == LeafBit(c, Node(c, k1, |k0| - 1, p), g1, q)
  {
    OffPath(c, Quot(idx, GroupPoints(|g0|)), k0, k1, |k0| - 1, p);
    AgreeingLeaves(c, Node(c, k0, |k0| - 1, p), Node(c, k1, |k0| - 1, p), g0, q);
  }

  /**
    The point function law. For every pair of keys for `idx` and every point `j`, the two
    shares differ exactly when `j` is `idx`; points outside the domain wrap around.
   */
  lemma PointFunction(c: Ciphers, idx: nat, k0: seq<Block>, g0: seq<Block>, k1: seq<Block>, g1: seq<Block>, j: nat)
    requires KeyPair(c, idx, k0, g0, k1, g1)
    ensures Eval(c, k0, g0, j) != Eval(c, k1, g1, j)
       <==> Rem(j, Domain(|k0| - 1, |g0|)) == Rem(idx, Domain(|k0| - 1, |g0|))
  {
    hide LeafBit, AllCorrected, PointDiffers, Node;
    var n := GroupPoints(|g0|);
    SameWrapped(j, idx, |k0| - 1, n);
    if Low(Quot(j, n), |k0| - 1) == Low(Quot(idx, n), |k0| - 1) {
      PathLeafShares(c, idx, k0, g0, k1, g1, Quot(j, n), Rem(j, n));
    } else {
      OtherLeafShares(c, idx, k0, g0, k1, g1, Quot(j, n), Rem(j, n));
    }
  }

  // ----- the keys are determined by the roots -----

  /** A node depends only on the correction words above it. */
  lemma {:induction false} NodePrefix(c: Ciphers, k: seq<Block>, k': seq<Block>, n: nat, p: nat)
    requires n < |k| && n < |k'| && k[..n + 1] == k'[..n + 1]
    ensures Node(c, k, n, p) == Node(c, k', n, p)
  {
    assert k[0] == k[..n + 1][0] && k[n] == k[..n + 1][n];
    if n > 0 {
      assert k[..n] == k[..n + 1][..n];
      NodePrefix(c, k, k', n - 1, p / 2);
    }
  }

  lemma LevelUnique(c: Ciphers, kIdx: nat, k0: seq<Block>, k1: seq<Block>, l0: seq<Block>, l1: seq<Block>, n: nat)
    requires n + 1 < |k0| == |k1| == |l0| == |l1| && k0[..n + 1] == l0[..n + 1] && k1[..n + 1] == l1[..n + 1]
    requires AllCorrected(c, kIdx, k0, k1) && AllCorrected(c, kIdx, l0, l1) && Lsb(k0[0]) != Lsb(k1[0])
    ensures k0[n + 1] == l0[n + 1] && k1[n + 1] == l1[n + 1]
  {
    hide TraverseOne;
    var p := PathTo(kIdx, |k0| - 1, n);
    NodePrefix(c, k0, l0, n, p);
    NodePrefix(c, k1, l1, n, p);
    OnPath(c, kIdx, k0, k1, n);
    assert LevelCorrected(c, kIdx, k0, k1, n) && LevelCorrected(c, kIdx, l0, l1, n);
    CorrectionUnique(c, Node(c, k0, n, p), Node(c, k1, n, p), k0[n + 1], l0[n + 1], PathTo(kIdx, |k0| - 1, n + 1) % 2);
  }

  lemma {:induction false} LevelsUnique(c: Ciphers, kIdx: nat, k0: seq<Block>, k1: seq<Block>, l0: seq<Block>,
                                        l1: seq<Block>, n: nat)
    requires n < |k0| == |k1| == |l0| == |l1| && k0[0] == l0[0] && k1[0] == l1[0] && Lsb(k0[0]) != Lsb(k1[0])
    requires AllCorrected(c, kIdx, k0, k1) && AllCorrected(c, kIdx, l0, l1)
    ensures k0[..n + 1] == l0[..n + 1] && k1[..n + 1] == l1[..n + 1]
  {
    if n > 0 {
      LevelsUnique(c, kIdx, k0, k1, l0, l1, n - 1);
      LevelUnique(c, kIdx, k0, k1, l0, l1, n - 1);
      Snoc(k0, l0, n);
      Snoc(k1, l1, n);
    }
  }

  lemma Snoc<T>(a: seq<T>, b: seq<T>, n: nat)
    requires n < |a| && n < |b| && a[..n] == b[..n] && a[n] == b[n]
    ensures a[..n + 1] == b[..n + 1]
  {
    assert a[..n + 1] == a[..n] + [a[n]] && b[..n + 1] == b[..n] + [b[n]];
  }

  lemma GroupUnique(c: Ciphers, s0: Block, s1: Block, g: seq<Block>, h: seq<Block>, at: nat)
    requires |g| == |h| && Lsb(s0) != Lsb(s1)
    requires PointDiffers(c, s0, s1, g, at) && PointDiffers(c, s0, s1, h, at)
    ensures g == h
  {
    hide Expand;
    forall i, b | 0 <= i < |g| && 0 <= b < 128
      ensures g[i][b] == h[i][b]
    {
      var q := 16 * (b % 8) + b / 8;
      BitPosBijective(b, q);
      assert LeafBit(c, s0, g, 128 * i + q) != LeafBit(c, s1, g, 128 * i + q) <==> 128 * i + q == at;
      assert LeafBit(c, s0, h, 128 * i + q) != LeafBit(c, s1, h, 128 * i + q) <==> 128 * i + q == at;
    }
    forall i | 0 <= i < |g|
      ensures g[i] == h[i]
    {
      assert forall b | 0 <= b < 128 :: g[i][b] == h[i][b];
    }
  }

  /** The two root seeds and the point determine every other block of the keys. */
  lemma KeysUnique(c: Ciphers, idx: nat, k0: seq<Block>, g0: seq<Block>, k1: seq<Block>, g1: seq<Block>,
                   l0: seq<Block>, h0: seq<Block>, l1: seq<Block>, h1: seq<Block>)
    requires KeyPair(c, idx, k0, g0, k1, g1) && KeyPair(c, idx, l0, h0, l1, h1)
    requires |k0| == |l0| && |g0| == |h0| && k0[0] == l0[0] && k1[0] == l1[0]
    ensures k0 == l0 && k1 == l1 && g0 == h0 && g1 == h1
  {
    var kDepth, kIdx := |k0| - 1, Quot(idx, GroupPoints(|g0|));
    LevelsUnique(c, kIdx, k0, k1, l0, l1, kDepth);
    assert k0 == k0[..kDepth + 1] && l0 == l0[..kDepth + 1] && k1 == k1[..kDepth + 1] && l1 == l1[..kDepth + 1];
    OnPath(c, kIdx, k0, k1, kDepth);
    GroupUnique(c, Node(c, k0, kDepth, kIdx), Node(c, k1, kDepth, kIdx), g0, h0, Rem(idx, GroupPoints(|g0|)));
  }
}
