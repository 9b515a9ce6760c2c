/**
  The eight subtrees that the full-domain evaluators walk in step: lane j starts at node j
  of depth 3 and all lanes follow the same path below it. Row e of the stack of seeds holds
  the eight nodes of the current path at depth e of their subtrees.
 */
module Subtrees {
  import opened Bits
  import opened Blocks
  import opened Bytes
  import opened Dpf

  /** Number, at its depth, of the node of lane `j` reached by path `x` of `e` steps. */
  function LanePath(j: nat, e: nat, x: nat): (p: nat) {
    j * Pow2(e) + x
  }

  lemma LaneStep(j: nat, e: nat, x: nat)
    ensures LanePath(j, e + 1, x) / 2 == LanePath(j, e, x / 2) && LanePath(j, e + 1, x) % 2 == x % 2
  {
    assert j * Pow2(e + 1) == 2 * (j * Pow2(e));
  }

  /** Seed of lane `j` at depth `e` on the way to leaf `idx` of its subtree. */
  function LaneNode(c: Ciphers, k: seq<Block>, dEnd: nat, idx: nat, e: nat, j: nat): Block
    requires e <= dEnd && |k| == dEnd + 4
  {
    Node(c, k, 3 + e, LanePath(j, e, PathTo(idx, dEnd, e)))
  }

  lemma LaneNodeStep(c: Ciphers, k: seq<Block>, dEnd: nat, idx: nat, e: nat, j: nat)
    requires e < dEnd && |k| == dEnd + 4
    ensures LaneNode(c, k, dEnd, idx, e + 1, j)
         == TraverseOne(c, LaneNode(c, k, dEnd, idx, e, j), k[4 + e], PathTo(idx, dEnd, e + 1) % 2)
  {
    hide TraverseOne;
    PathStep(idx, dEnd, e + 1);
    LaneStep(j, e, PathTo(idx, dEnd, e + 1));
  }

  /** Rows 0 to d of the stack hold the seeds on the way to leaf `idx`. */
  ghost predicate StackHolds(c: Ciphers, k: seq<Block>, ss: array2<Block>, dEnd: nat, d: nat, idx: nat)
    requires d <= dEnd && |k| == dEnd + 4 && ss.Length0 == dEnd + 1 && ss.Length1 == 8
    reads ss
  {
    forall e, j | 0 <= e <= d && 0 <= j < 8 :: ss[e, j] == LaneNode(c, k, dEnd, idx, e, j)
  }

  /** The two t bits of a correction word, each as a block. */
  function TcwOf(cw: Block, keep: nat): Block {
    And(if keep == 0 then Srl64(cw, 1) else cw, One())
  }

  /** One lane step, with the t bits of the correction word taken out beforehand. */
  method StepSeed(c: Ciphers, s: Block, tcw: Block, kw: Block, keep: nat) returns (next: Block)
    requires keep < 2 && tcw == TcwOf(kw, keep)
    ensures next == TraverseOne(c, s, kw, keep)
  {
    var t := Lsb(s);
    var x := And(s, NotThree());
    var tau := if keep == 0 then c.aes0(x) else c.aes1(x);
    tau := Xor(x, tau);
    var cw := Xor(tcw, And(kw, NotThree()));
    var stcw := And(cw, AllOf(t));
    next := Xor(stcw, tau);
    forall i | 0 <= i < 128
      ensures next[i] == TraverseOne(c, s, kw, keep)[i]
    {
      ChildBit(c, s, kw, keep, i);
    }
  }

  /** Walks every lane down from row `d` to the leaf `idx`, filling the rows on the way. */
  method Descend(c: Ciphers, k: seq<Block>, ss: array2<Block>, tcw: array2<Block>, idx: nat, d0: nat,
                 dEnd: nat) returns (d: nat)
    requires d0 <= dEnd && |k| == dEnd + 4 && ss.Length0 == dEnd + 1 && ss.Length1 == 8
    requires ss != tcw && tcw.Length0 == dEnd && tcw.Length1 == 2
    requires forall e, b | 0 <= e < dEnd && 0 <= b < 2 :: tcw[e, b] == TcwOf(k[4 + e], b)
    requires StackHolds(c, k, ss, dEnd, d0, idx)
    modifies ss
    ensures d == dEnd && StackHolds(c, k, ss, dEnd, dEnd, idx)
  {
    hide TraverseOne, TcwOf, LaneNode;
    d := d0;
    while d != dEnd
      invariant d <= dEnd && StackHolds(c, k, ss, dEnd, d, idx)
      invariant forall e, b | 0 <= e < dEnd && 0 <= b < 2 :: tcw[e, b] == TcwOf(k[4 + e], b)
      decreases dEnd - d
    {
      var keep, e' := Shr(idx, dEnd - 1 - d) % 2, d + 1;
      for j := 0 to 8
        invariant StackHolds(c, k, ss, dEnd, d, idx)
        invariant forall e, b | 0 <= e < dEnd && 0 <= b < 2 :: tcw[e, b] == TcwOf(k[4 + e], b)
        invariant forall l | 0 <= l < j :: ss[e', l] == LaneNode(c, k, dEnd, idx, e', l)
      {
        var next := StepSeed(c, ss[d, j], tcw[d, keep], k[4 + d], keep);
        LaneNodeStep(c, k, dEnd, idx, d, j);
        ss[e', j] := next;
      }
      d := e';
    }
  }

  /** Lane `j` of the byte buffer spreads the words of group `g` under leaf seed `s`. */
  ghost predicate LaneSpread(c: Ciphers, s: Block, g: seq<Block>, row: seq<Block>) {
    |row| == 8 * |g| && forall i, b | 0 <= i < |g| && 0 <= b < 8 :: row[8 * i + b] == Spread(LeafWord(c, s, g, i), b)
  }

  /** Byte `x` of a byte buffer. */
  function ByteView(row: seq<Block>, x: nat): nat
    requires x < 16 * |row|
  {
    ByteAt(row[x / 16], x % 16)
  }

  /** Each byte of a lane is the share of one point of its leaf. */
  lemma LaneByte(c: Ciphers, s: Block, g: seq<Block>, row: seq<Block>, x: nat)
    requires LaneSpread(c, s, g, row) && x < GroupPoints(|g|)
    ensures ByteView(row, x) == Bit(LeafBit(c, s, g, x))
  {
    hide LeafWord, Spread, ByteAt, BitPos;
    var i, q := x / 128, x % 128;
    assert row[8 * i + q / 16] == Spread(LeafWord(c, s, g, i), q / 16);
    assert x / 16 == 8 * i + q / 16 && x % 16 == q % 16;
    SpreadByte(LeafWord(c, s, g, i), q);
  }

  /** Row `j` of the byte buffer. */
  function Row(expanded: array2<Block>, j: nat): seq<Block>
    requires j < expanded.Length0
    reads expanded
  {
    seq(expanded.Length1, x requires 0 <= x < expanded.Length1 reads expanded => expanded[j, x])
  }

  /** Computes the shares of the eight leaves in row `d` of the stack into the byte buffer. */
  method LeafBytes(c: Ciphers, ss: array2<Block>, d: nat, g: seq<Block>, expanded: array2<Block>)
    requires d < ss.Length0 && ss.Length1 == 8 && ss != expanded
    requires expanded.Length0 == 8 && expanded.Length1 == 8 * |g|
    modifies expanded
    ensures forall j | 0 <= j < 8 :: LaneSpread(c, ss[d, j], g, Row(expanded, j))
  {
    hide LeafInput, Expand, LeafWord, Spread;
    var temp := LeafWords(c, ss, d, g);
    for j := 0 to 8
      invariant forall i, l | 0 <= i < |g| && 0 <= l < 8 :: temp[i, l] == LeafWord(c, ss[d, l], g, i)
      invariant forall l | 0 <= l < j :: LaneSpread(c, ss[d, l], g, Row(expanded, l))
    {
      ghost var done := seq(j, l requires 0 <= l < j reads expanded => Row(expanded, l));
      for i := 0 to |g|
        invariant forall i, l | 0 <= i < |g| && 0 <= l < 8 :: temp[i, l] == LeafWord(c, ss[d, l], g, i)
        invariant forall l | 0 <= l < j :: Row(expanded, l) == done[l]
        invariant forall m, b | 0 <= m < i && 0 <= b < 8 ::
                  expanded[j, 8 * m + b] == Spread(LeafWord(c, ss[d, j], g, m), b)
      {
        for b := 0 to 8
          invariant forall i, l | 0 <= i < |g| && 0 <= l < 8 :: temp[i, l] == LeafWord(c, ss[d, l], g, i)
          invariant forall l | 0 <= l < j :: Row(expanded, l) == done[l]
          invariant forall m, b | 0 <= m < i && 0 <= b < 8 ::
                    expanded[j, 8 * m + b] == Spread(LeafWord(c, ss[d, j], g, m), b)
          invariant forall b' | 0 <= b' < b :: expanded[j, 8 * i + b'] == Spread(LeafWord(c, ss[d, j], g, i), b')
        {
          expanded[j, 8 * i + b] := Spread(temp[i, j], b);
        }
      }
    }
  }

  lemma LeafWordOf(c: Ciphers, s: Block, g: seq<Block>, i: nat)
    requires i < |g|
    ensures LeafWord(c, s, g, i) == Xor(Xor(LeafInput(s, i), c.aes0(LeafInput(s, i))), And(g[i], AllOf(Lsb(s))))
  {
    XorComm(LeafInput(s, i), c.aes0(LeafInput(s, i)));
  }

  /** The words of the eight leaves in row `d` of the stack, one column a leaf. */
  method LeafWords(c: Ciphers, ss: array2<Block>, d: nat, g: seq<Block>) returns (temp: array2<Block>)
    requires d < ss.Length0 && ss.Length1 == 8
    ensures fresh(temp) && temp.Length0 == |g| && temp.Length1 == 8
    ensures forall i, l | 0 <= i < |g| && 0 <= l < 8 :: temp[i, l] == LeafWord(c, ss[d, l], g, i)
  {
    hide LeafInput, LeafWord;
    temp := LeafInputs(ss, d, |g|);
    var enc := new Block[|g|, 8];
    for i := 0 to |g|
      invariant forall m, l | 0 <= m < |g| && 0 <= l < 8 :: temp[m, l] == LeafInput(ss[d, l], m)
      invariant forall m, l | 0 <= m < i && 0 <= l < 8 :: enc[m, l] == c.aes0(temp[m, l])
    {
      for j := 0 to 8
        invariant forall m, l | 0 <= m < |g| && 0 <= l < 8 :: temp[m, l] == LeafInput(ss[d, l], m)
        invariant forall m, l | 0 <= m < i && 0 <= l < 8 :: enc[m, l] == c.aes0(temp[m, l])
        invariant forall l | 0 <= l < j :: enc[i, l] == c.aes0(temp[i, l])
      {
        enc[i, j] := c.aes0(temp[i, j]);
      }
    }
    CorrectWords(c, ss, d, g, temp, enc);
  }

  method LeafInputs(ss: array2<Block>, d: nat, g: nat) returns (temp: array2<Block>)
    requires d < ss.Length0 && ss.Length1 == 8
    ensures fresh(temp) && temp.Length0 == g && temp.Length1 == 8
    ensures forall i, l | 0 <= i < g && 0 <= l < 8 :: temp[i, l] == LeafInput(ss[d, l], i)
  {
    hide Xor, And, ToBlock;
    temp := new Block[g, 8];
    for i := 0 to g
      invariant forall m, l | 0 <= m < i && 0 <= l < 8 :: temp[m, l] == LeafInput(ss[d, l], m)
    {
      for j := 0 to 8
        invariant forall m, l | 0 <= m < i && 0 <= l < 8 :: temp[m, l] == LeafInput(ss[d, l], m)
        invariant forall l | 0 <= l < j :: temp[i, l] == LeafInput(ss[d, l], i)
      {
        temp[i, j] := Xor(And(ss[d, j], NotThree()), ToBlock(i));
      }
    }
  }

  /** Entry (i, l) is still the input of the cipher, with its encryption beside it. */
  ghost predicate Pending(c: Ciphers, s: Block, i: nat, input: Block, output: Block) {
    input == LeafInput(s, i) && output == c.aes0(input)
  }

  method CorrectWords(c: Ciphers, ss: array2<Block>, d: nat, g: seq<Block>, temp: array2<Block>, enc: array2<Block>)
    requires d < ss.Length0 && ss.Length1 == 8 && temp != ss && temp != enc
    requires temp.Length0 == enc.Length0 == |g| && temp.Length1 == enc.Length1 == 8
    requires forall i, l | 0 <= i < |g| && 0 <= l < 8 :: Pending(c, ss[d, l], i, temp[i, l], enc[i, l])
    modifies temp
    ensures forall i, l | 0 <= i < |g| && 0 <= l < 8 :: temp[i, l] == LeafWord(c, ss[d, l], g, i)
  {
    hide Xor, And, LeafInput, LeafWord, AllOf;
    for i := 0 to |g|
      invariant forall m, l | 0 <= m < i && 0 <= l < 8 :: temp[m, l] == LeafWord(c, ss[d, l], g, m)
      invariant forall m, l | i <= m < |g| && 0 <= l < 8 :: Pending(c, ss[d, l], m, temp[m, l], enc[m, l])
    {
      for j := 0 to 8
        invariant forall m, l | 0 <= m < |g| && 0 <= l < 8 && (m < i || (m == i && l < j)) ::
                  temp[m, l] == LeafWord(c, ss[d, l], g, m)
        invariant forall m, l | i <= m < |g| && 0 <= l < 8 && (m > i || l >= j) ::
                  Pending(c, ss[d, l], m, temp[m, l], enc[m, l])
      {
        assert Pending(c, ss[d, j], i, temp[i, j], enc[i, j]);
        LeafWordOf(c, ss[d, j], g, i);
        temp[i, j] := Xor(temp[i, j], enc[i, j]);
        temp[i, j] := Xor(temp[i, j], And(g[i], AllOf(Lsb(ss[d, j]))));
      }
    }
  }
}
