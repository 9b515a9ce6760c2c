/**
  The client of the two-server PIR: generation of a pair of keys for one point.
  The two roots come from a pseudo-random generator and are parameters here.
 */
module BgiPirClient {
  import opened Bits
  import opened Blocks
  import opened Dpf

  /** Correction word of one level, with the two parties' seeds on the path one level down. */
  method LevelWord(c: Ciphers, s0: Block, s1: Block, keep: nat) returns (cw: Block, next0: Block, next1: Block)
    requires keep < 2 && Lsb(s0) != Lsb(s1)
    ensures Corrects(c, s0, s1, cw, keep)
    ensures next0 == TraverseOne(c, s0, cw, keep) && next1 == TraverseOne(c, s1, cw, keep)
  {
    hide TraverseOne, Agree;
    var a := ToBlock(keep);
    var ss0, ss1 := And(s0, NotThree()), And(s1, NotThree());
    var si00, si01 := Xor(c.aes0(ss0), ss0), Xor(c.aes1(ss0), ss0);
    var si10, si11 := Xor(c.aes0(ss1), ss1), Xor(c.aes1(ss1), ss1);
    var siXor0, siXor1 := Xor(si00, si10), Xor(si01, si11);
    // the left and right t bits
    var t0 := Xor(Xor(And(One(), siXor0), a), One());
    var t1 := Xor(And(One(), siXor1), a);
    // the child off the path supplies bits 2 to 127
    var scw := And(if keep == 0 then siXor1 else siXor0, NotThree());
    cw := Xor(Xor(scw, Sll64(t0, 1)), t1);
    var tKeep := if keep == 0 then t0 else t1;
    next0 := Xor(if keep == 0 then si00 else si01, And(AllOf(Lsb(s0)), Xor(scw, tKeep)));
    next1 := Xor(if keep == 0 then si10 else si11, And(AllOf(Lsb(s1)), Xor(scw, tKeep)));
    ToBlockBit(keep);
    assert CwIs(cw, scw, t0[0], t1[0]);
    NextSeed(c, s0, cw, scw, tKeep, keep, next0);
    NextSeed(c, s1, cw, scw, tKeep, keep, next1);
    Together(c, s0, s1, cw, 1 - keep, if keep == 0 then siXor1 else siXor0);
    Apart(c, s0, s1, cw, keep, if keep == 0 then siXor0 else siXor1);
  }

  /** `cw` is the word with bits `scw` above bit 1 and t bits `t0` and `t1`. */
  ghost predicate CwIs(cw: Block, scw: Block, t0: bool, t1: bool) {
    forall i | 0 <= i < 128 :: cw[i] == if i >= 2 then scw[i] else if i == 1 then t0 else t1
  }

  lemma NextSeed(c: Ciphers, s: Block, cw: Block, scw: Block, t: Block, keep: nat, next: Block)
    requires keep < 2 && !scw[0] && !scw[1] && (forall i | 2 <= i < 128 :: cw[i] == scw[i])
    requires (forall i | 1 <= i < 128 :: !t[i]) && t[0] == cw[1 - keep]
    requires next == Xor(Prg(if keep == 0 then c.aes0 else c.aes1, And(s, NotThree())), And(AllOf(Lsb(s)), Xor(scw, t)))
    ensures next == TraverseOne(c, s, cw, keep)
  {
    forall i | 0 <= i < 128
      ensures next[i] == TraverseOne(c, s, cw, keep)[i]
    {
      ChildBit(c, s, cw, keep, i);
    }
  }

  /** A word carrying the difference of the two children of a side brings that side together. */
  lemma Together(c: Ciphers, s0: Block, s1: Block, cw: Block, side: nat, diff: Block)
    requires side < 2 && Lsb(s0) != Lsb(s1)
    requires var f := if side == 0 then c.aes0 else c.aes1;
             diff == Xor(Prg(f, And(s0, NotThree())), Prg(f, And(s1, NotThree())))
    requires (forall i | 2 <= i < 128 :: cw[i] == diff[i]) && cw[1 - side] == diff[0]
    ensures Agree(TraverseOne(c, s0, cw, side), TraverseOne(c, s1, cw, side))
  {
    forall i | 0 <= i < 128 && i != 1
      ensures TraverseOne(c, s0, cw, side)[i] == TraverseOne(c, s1, cw, side)[i]
    {
      ChildBit(c, s0, cw, side, i);
      ChildBit(c, s1, cw, side, i);
    }
  }

  /** A t bit opposite to the difference of a side's t bits keeps that side apart. */
  lemma Apart(c: Ciphers, s0: Block, s1: Block, cw: Block, side: nat, diff: Block)
    requires side < 2 && Lsb(s0) != Lsb(s1)
    requires var f := if side == 0 then c.aes0 else c.aes1;
             diff == Xor(Prg(f, And(s0, NotThree())), Prg(f, And(s1, NotThree())))
    requires cw[1 - side] == !diff[0]
    ensures Lsb(TraverseOne(c, s0, cw, side)) != Lsb(TraverseOne(c, s1, cw, side))
  {
    ChildBit(c, s0, cw, side, 0);
    ChildBit(c, s1, cw, side, 0);
  }

  // ----- group word -----

  /** The bit of a block array that byte view index `byteIdx` and bit index `bitIdx` name. */
  function FlipBit(b: Block, pos: nat): Block
    requires pos < 128
  {
    b[pos := !b[pos]]
  }

  /** Group block `i` of the word that makes leaves `s0` and `s1` differ at point `at` alone. */
  ghost predicate GroupBlock(c: Ciphers, s0: Block, s1: Block, at: nat, i: nat, b: Block) {
    var sum := Xor(Expand(c, s0, i), Expand(c, s1, i));
    b == if i == at / 128 then FlipBit(sum, BitPos(at % 128)) else sum
  }

  lemma GroupWordWorks(c: Ciphers, s0: Block, s1: Block, g: seq<Block>, at: nat)
    requires Lsb(s0) != Lsb(s1) && at < GroupPoints(|g|)
    requires forall i | 0 <= i < |g| :: GroupBlock(c, s0, s1, at, i, g[i])
    ensures PointDiffers(c, s0, s1, g, at)
  {
    hide Expand;
    forall q | 0 <= q < GroupPoints(|g|)
      ensures LeafBit(c, s0, g, q) != LeafBit(c, s1, g, q) <==> q == at
    {
      var i := q / 128;
      assert GroupBlock(c, s0, s1, at, i, g[i]);
      BitPosBijective(BitPos(at % 128), q % 128);
      BitPosBijective(BitPos(at % 128), at % 128);
    }
  }

  /** The group word for leaves `s0` and `s1`. */
  method GroupWord(c: Ciphers, s0: Block, s1: Block, gIdx: nat, g: nat) returns (word: seq<Block>)
    requires Lsb(s0) != Lsb(s1) && gIdx < GroupPoints(g)
    ensures |word| == g && PointDiffers(c, s0, s1, word, gIdx)
  {
    hide Expand, Xor, PointDiffers, IsExpanded;
    var gs0 := ExpandLeaf(c, s0, g);
    var gs1 := ExpandLeaf(c, s1, g);
    for i := 0 to g
      invariant forall m | 0 <= m < i :: gs0[m] == Xor(Expand(c, s0, m), Expand(c, s1, m))
      invariant forall m | i <= m < g :: gs0[m] == Expand(c, s0, m)
      invariant forall m | 0 <= m < g :: gs1[m] == Expand(c, s1, m)
    {
      gs0[i] := Xor(gs0[i], gs1[i]);
    }
    var byteIdx, bitIdx := gIdx % 16 + 16 * (gIdx / 128), (gIdx % 128) / 16;
    ByteAndBit(gIdx);
    gs0[byteIdx / 16] := FlipBit(gs0[byteIdx / 16], 8 * (byteIdx % 16) + bitIdx);
    word := gs0[..];
    forall i | 0 <= i < g
      ensures GroupBlock(c, s0, s1, gIdx, i, word[i])
    {
      assert word[i] == gs0[i];
    }
    GroupWordWorks(c, s0, s1, word, gIdx);
  }

  // ----- whole keys -----

  /** Writing a word below level `n` leaves the levels above it corrected. */
  lemma LevelFrame(c: Ciphers, kIdx: nat, k0: seq<Block>, k1: seq<Block>, l0: seq<Block>, l1: seq<Block>, n: nat)
    requires n + 1 < |k0| == |k1| == |l0| == |l1| && k0[..n + 2] == l0[..n + 2] && k1[..n + 2] == l1[..n + 2]
    requires LevelCorrected(c, kIdx, k0, k1, n)
    ensures LevelCorrected(c, kIdx, l0, l1, n)
  {
    hide TraverseOne;
    var p := PathTo(kIdx, |k0| - 1, n);
    assert k0[..n + 1] == k0[..n + 2][..n + 1] && k1[..n + 1] == k1[..n + 2][..n + 1];
    assert l0[..n + 1] == l0[..n + 2][..n + 1] && l1[..n + 1] == l1[..n + 2][..n + 1];
    NodePrefix(c, k0, l0, n, p);
    NodePrefix(c, k1, l1, n, p);
    assert k0[n + 1] == k0[..n + 2][n + 1] && k1[n + 1] == k1[..n + 2][n + 1];
    assert l0[n + 1] == l0[..n + 2][n + 1] && l1[n + 1] == l1[..n + 2][n + 1];
  }

  /** The first `n` levels are corrected and (s0, s1) are the seeds on the path at level `n`. */
  ghost predicate Upto(c: Ciphers, kIdx: nat, k0: seq<Block>, k1: seq<Block>, n: nat, s0: Block, s1: Block)
    requires n < |k0| == |k1|
  {
    var p := PathTo(kIdx, |k0| - 1, n);
    && (forall m | 0 <= m < n :: LevelCorrected(c, kIdx, k0, k1, m))
    && s0 == Node(c, k0, n, p) && s1 == Node(c, k1, n, p) && Lsb(s0) != Lsb(s1)
  }

  lemma Start(c: Ciphers, kIdx: nat, k0: seq<Block>, k1: seq<Block>)
    requires 0 < |k0| == |k1| && Lsb(k0[0]) != Lsb(k1[0])
    ensures Upto(c, kIdx, k0, k1, 0, k0[0], k1[0])
  {}

  lemma NextLevel(c: Ciphers, kIdx: nat, k0: seq<Block>, k1: seq<Block>, n: nat, s0: Block, s1: Block, cw: Block)
    requires n + 1 < |k0| == |k1| && Upto(c, kIdx, k0, k1, n, s0, s1)
    requires Corrects(c, s0, s1, cw, PathTo(kIdx, |k0| - 1, n + 1) % 2)
    ensures var keep := PathTo(kIdx, |k0| - 1, n + 1) % 2;
            Upto(c, kIdx, k0[n + 1 := cw], k1[n + 1 := cw], n + 1, TraverseOne(c, s0, cw, keep),
                TraverseOne(c, s1, cw, keep))
    ensures var keep := PathTo(kIdx, |k0| - 1, n + 1) % 2;
            Lsb(TraverseOne(c, s0, cw, keep)) != Lsb(TraverseOne(c, s1, cw, keep))
  {
    hide TraverseOne, Agree;
    var l0, l1 := k0[n + 1 := cw], k1[n + 1 := cw];
    var p := PathTo(kIdx, |k0| - 1, n);
    PathStep(kIdx, |k0| - 1, n + 1);
    assert l0[..n + 1] == k0[..n + 1] && l1[..n + 1] == k1[..n + 1];
    NodePrefix(c, k0, l0, n, p);
    NodePrefix(c, k1, l1, n, p);
    forall m | 0 <= m < n
      ensures LevelCorrected(c, kIdx, l0, l1, m)
    {
      assert l0[..m + 2] == k0[..m + 2] && l1[..m + 2] == k1[..m + 2];
      LevelFrame(c, kIdx, k0, k1, l0, l1, m);
    }
    assert LevelCorrected(c, kIdx, l0, l1, n);
  }

  lemma Assemble(c: Ciphers, idx: nat, k0: seq<Block>, k1: seq<Block>, g: seq<Block>, s0: Block, s1: Block)
    requires 0 < |k0| == |k1| && 0 < |g| && Lsb(k0[0]) != Lsb(k1[0])
    requires Upto(c, Quot(idx, GroupPoints(|g|)), k0, k1, |k0| - 1, s0, s1)
    requires PointDiffers(c, s0, s1, g, Rem(idx, GroupPoints(|g|)))
    ensures KeyPair(c, idx, k0, g, k1, g)
  {
    hide LevelCorrected, PointDiffers;
  }

  method WriteGroup(word: seq<Block>, g0: array<Block>, g1: array<Block>)
    requires g0 != g1 && g0.Length == g1.Length == |word|
    modifies g0, g1
    ensures g0[..] == word && g1[..] == word
  {
    for i := 0 to |word|
      invariant forall m | 0 <= m < i :: g0[m] == word[m] && g1[m] == word[m]
    {
      g0[i], g1[i] := word[i], word[i];
    }
  }

  /**
    Writes a pair of keys for the point `idx` into k0, g0, k1 and g1. The key of party 1
    starts at root `r1`; the key of party 0 starts at `r0` with bit 0 set opposite to it.
   */
  method KeyGen(c: Ciphers, idx: nat, r0: Block, r1: Block, k0: array<Block>, g0: array<Block>, k1: array<Block>,
                g1: array<Block>)
    requires 0 < k0.Length == k1.Length && 0 < g0.Length == g1.Length
    requires k0 != k1 && g0 != g1 && k0 != g0 && k0 != g1 && k1 != g0 && k1 != g1
    modifies k0, g0, k1, g1
    ensures KeyPair(c, idx, k0[..], g0[..], k1[..], g1[..])
    ensures k1[0] == r1 && k0[0] == r0[0 := !r1[0]]
  {
    hide Upto, PointDiffers, KeyPair, TraverseOne, Corrects;
    var groupSize := g0.Length;
    DivisionAgrees(idx, 128 * groupSize);
    var kIdx, gIdx := idx / (128 * groupSize), idx % (128 * groupSize);
    var kDepth := k0.Length - 1;
    var s0, s1 := Xor(And(r0, NotOne()), Xor(And(r1, One()), One())), r1;
    assert s0 == r0[0 := !r1[0]];
    k0[0], k1[0] := s0, s1;
    assert Upto(c, kIdx, k0[..], k1[..], 0, s0, s1) by { Start(c, kIdx, k0[..], k1[..]); }
    for i := 0 to kDepth
      invariant k0[0] == r0[0 := !r1[0]] && k1[0] == r1
      invariant Upto(c, kIdx, k0[..], k1[..], i, s0, s1) && Lsb(s0) != Lsb(s1)
    {
      var keep := Shr(kIdx, kDepth - 1 - i) % 2;
      ghost var was0, was1 := k0[..], k1[..];
      var cw, next0, next1 := LevelWord(c, s0, s1, keep);
      k0[i + 1], k1[i + 1] := cw, cw;
      NextLevel(c, kIdx, was0, was1, i, s0, s1, cw);
      assert k0[..] == was0[i + 1 := cw] && k1[..] == was1[i + 1 := cw];
      s0, s1 := next0, next1;
    }
    var word := GroupWord(c, s0, s1, gIdx, groupSize);
    WriteGroup(word, g0, g1);
    Assemble(c, idx, k0[..], k1[..], word, s0, s1);
  }
}
