/** The servers of the two-server PIR: evaluation at one point and over the whole domain. */
module BgiPirServer {
  import opened Bits
  import opened Blocks
  import opened Bytes
  import opened Dpf
  import opened Selection
  import opened Subtrees
  import opened Traversal
  import opened Wrappers

  method TraversePath(c: Ciphers, depth: nat, idx: nat, k: seq<Block>) returns (s: Block)
    requires depth < |k|
    ensures s == Node(c, k, depth, idx)
  {
    s := k[0];
    for i := 0 to depth
      invariant s == Node(c, k, i, PathTo(idx, depth, i))
    {
      var keep := Shr(idx, depth - 1 - i) % 2;
      PathStep(idx, depth, i + 1);
      s := TraverseOne(c, s, k[i + 1], keep);
    }
  }

  /** Bit `bitIdx` of byte `byteIdx` of consecutive blocks. */
  function ByteBit(bs: seq<Block>, byteIdx: nat, bitIdx: nat): bool
    requires byteIdx < 16 * |bs| && bitIdx < 8
  {
    bs[byteIdx / 16][8 * (byteIdx % 16) + bitIdx]
  }

  /** Point `idx` has share `bit`, found in the block `bb`, which without correction by the t bit `tt` is `ss`. */
  ghost predicate IsShareOf(c: Ciphers, k: seq<Block>, g: seq<Block>, idx: nat, bit: bool, bb: Block, ss: Block,
                            tt: bool)
    requires |k| > 0 && |g| > 0
  {
    var leaf, q := Node(c, k, |k| - 1, idx / (128 * |g|)), idx % (128 * |g|);
    && q / 128 < |g| && tt == leaf[0] && IsExpanded(c, ss, leaf, q / 128)
    && (forall b: nat | b < 128 :: bb[b] == (ss[b] != (tt && g[q / 128][b])))
    && bit == bb[8 * (q % 16) + (q % 128) / 16]
  }

  /** The share at `idx`, with the leaf block before and after correction and the t bit. */
  method EvalOne(c: Ciphers, idx: nat, k: seq<Block>, g: seq<Block>) returns (bit: bool, bb: Block, ss: Block, tt: bool)
    requires |k| > 0 && |g| > 0
    ensures bit == Eval(c, k, g, idx)
    ensures var leaf, q := Node(c, k, |k| - 1, Quot(idx, GroupPoints(|g|))), Rem(idx, GroupPoints(|g|));
            && tt == Lsb(leaf)
            && ss == Expand(c, leaf, q / 128)
            && bb == LeafWord(c, leaf, g, q / 128)
            && bit == bb[BitPos(q % 128)]
    ensures IsShareOf(c, k, g, idx, bit, bb, ss, tt)
  {
    hide Expand, LeafInput, Node, IsExpanded;
    var kDepth := |k| - 1;
    DivisionAgrees(idx, 128 * |g|);
    var kIdx, gIdx := idx / (128 * |g|), idx % (128 * |g|);
    assert kIdx == Quot(idx, GroupPoints(|g|)) && gIdx == Rem(idx, GroupPoints(|g|));
    var byteIdx, bitIdx := gIdx % 16 + 16 * (gIdx / 128), (gIdx % 128) / 16;
    ByteAndBit(gIdx);
    var s := TraversePath(c, kDepth, kIdx, k);
    var gs := ExpandLeaf(c, s, |g|);
    tt := Lsb(s);
    bit := ByteBit(gs[..], byteIdx, bitIdx) != (ByteBit(g, byteIdx, bitIdx) && tt);
    ss := gs[gIdx / 128];
    bb := Xor(gs[gIdx / 128], And(AllOf(tt), g[gIdx / 128]));
    assert And(AllOf(tt), g[gIdx / 128]) == And(g[gIdx / 128], AllOf(tt));
  }

  // ----- the whole domain -----

  /** The nodes at depth `m`, level by level from the root. */
  method ExpandTop(c: Ciphers, k: seq<Block>, m: nat) returns (prev: seq<Block>)
    requires m < |k|
    ensures |prev| == Pow2(m) && forall p | 0 <= p < Pow2(m) :: prev[p] == Node(c, k, m, p)
  {
    hide TraverseOne;
    prev := [k[0]];
    for i := 0 to m
      invariant |prev| == Pow2(i) && forall p | 0 <= p < Pow2(i) :: prev[p] == Node(c, k, i, p)
    {
      var next := [];
      for j := 0 to |prev|
        invariant |next| == 2 * j && forall p | 0 <= p < 2 * j :: next[p] == Node(c, k, i + 1, p)
      {
        next := next + [TraverseOne(c, prev[j], k[i + 1], 0), TraverseOne(c, prev[j], k[i + 1], 1)];
      }
      prev := next;
    }
  }

  /** Adds, in order, the selected entries of group block `i` of one leaf. */
  method AddGroup(c: Ciphers, k: seq<Block>, g: seq<Block>, data: seq<Block>, leaf: nat, i: nat, word: Block,
                  sum0: Block) returns (sum: Block)
    requires |k| > 0 && i < |g| && LeafStart(|g|, leaf) + GroupPoints(|g|) <= |data|
    requires word == LeafWord(c, Node(c, k, |k| - 1, leaf), g, i)
    requires sum0 == Select(c, k, g, data, 0, LeafStart(|g|, leaf) + 128 * i)
    ensures sum == Select(c, k, g, data, 0, LeafStart(|g|, leaf) + 128 * (i + 1))
  {
    hide Eval, Xor, And, AllOf, Node, Spread, LeafWord, LeafStart, ByteAt, BitPos;
    var expanded := [];
    for b := 0 to 8
      invariant |expanded| == b && forall b' | 0 <= b' < b :: expanded[b'] == Spread(word, b')
    {
      expanded := expanded + [Spread(word, b)];
    }
    sum := sum0;
    var start := LeafStart(|g|, leaf) + 128 * i;
    for x := 0 to 128
      invariant sum == Select(c, k, g, data, 0, start + x)
    {
      SpreadByte(word, x);
      EvalLeaf(c, k, g, leaf, 128 * i + x);
      sum := Xor(sum, And(data[start + x], ZeroAndAllOne(ByteView(expanded, x))));
    }
  }

  /** The fold over a tree of fewer than three levels, leaf by leaf. */
  method SmallDomain(c: Ciphers, data: seq<Block>, k: seq<Block>, g: seq<Block>) returns (sum: Block)
    requires |k| > 0 && |g| > 0 && |data| == Domain(|k| - 1, |g|)
    ensures sum == Select(c, k, g, data, 0, |data|)
  {
    hide Node, Eval, Xor, AllOf, And, LeafStart, Domain, Expand, IsExpanded;
    var prev := ExpandTop(c, k, |k| - 1);
    sum := Zero();
    LeafStartEdges(|g|, |k| - 1);
    for kIdx := 0 to |prev|
      invariant LeafStart(|g|, kIdx) <= |data| && sum == Select(c, k, g, data, 0, LeafStart(|g|, kIdx))
    {
      LeafStartStep(|g|, kIdx);
      LeafStartMonotone(|g|, kIdx + 1, |prev|);
      var t := Lsb(prev[kIdx]);
      var gs := ExpandLeaf(c, prev[kIdx], |g|);
      for i := 0 to |g|
        invariant forall m | 0 <= m < |g| :: gs[m] == Expand(c, prev[kIdx], m)
        invariant sum == Select(c, k, g, data, 0, LeafStart(|g|, kIdx) + 128 * i)
      {
        var word := Xor(gs[i], And(g[i], AllOf(t)));
        sum := AddGroup(c, k, g, data, kIdx, i, word, sum);
      }
    }
  }

  /** Points of lane `j` before leaf `idx` of its subtree. */
  function LaneStart(g: nat, dEnd: nat, j: nat, idx: nat): nat {
    LeafStart(g, LanePath(j, dEnd, idx))
  }

  lemma LaneStartStep(g: nat, dEnd: nat, j: nat, idx: nat)
    ensures LaneStart(g, dEnd, j, idx + 1) == LaneStart(g, dEnd, j, idx) + GroupPoints(g)
    ensures LaneStart(g, dEnd, j, Pow2(dEnd)) == LaneStart(g, dEnd, j + 1, 0)
    ensures LaneStart(g, dEnd, j, 0) <= LaneStart(g, dEnd, j, idx)
  {
    LanePathStep(j, dEnd, idx);
    LeafStartStep(g, LanePath(j, dEnd, idx));
    LeafStartMonotone(g, LanePath(j, dEnd, 0), LanePath(j, dEnd, idx));
  }

  lemma LaneInDomain(g: nat, dEnd: nat, j: nat, idx: nat)
    requires j < 8 && idx < Pow2(dEnd)
    ensures LaneStart(g, dEnd, j, idx) + GroupPoints(g) <= Domain(dEnd + 3, g)
  {
    hide LanePath, LeafStart;
    LanePathBound(j, dEnd, idx);
    LeafStartStep(g, LanePath(j, dEnd, idx));
    LeafStartMonotone(g, LanePath(j, dEnd, idx) + 1, Pow2(dEnd + 3));
    LeafStartEnds(g, dEnd);
  }

  lemma LeafStartEnds(g: nat, dEnd: nat)
    ensures LaneStart(g, dEnd, 0, 0) == 0
            && LaneStart(g, dEnd, 8, 0) == Domain(dEnd + 3, g) == LeafStart(g, Pow2(dEnd + 3))
  {
    Pow2Times8(dEnd);
  }

  lemma LeafStartEdges(g: nat, kDepth: nat)
    ensures LeafStart(g, 0) == 0 && LeafStart(g, Pow2(kDepth)) == Domain(kDepth, g)
  {}

  lemma LanePathStep(j: nat, dEnd: nat, idx: nat)
    ensures LanePath(j, dEnd, idx + 1) == LanePath(j, dEnd, idx) + 1 && LanePath(j, dEnd, 0) <= LanePath(j, dEnd, idx)
    ensures LanePath(j, dEnd, Pow2(dEnd)) == LanePath(j + 1, dEnd, 0)
  {}

  lemma LanePathBound(j: nat, dEnd: nat, idx: nat)
    requires j < 8 && idx < Pow2(dEnd)
    ensures LanePath(j, dEnd, idx) + 1 <= Pow2(dEnd + 3)
  {
    Scale(j, 7, Pow2(dEnd));
    Pow2Times8(dEnd);
  }

  lemma LeafStartStep(g: nat, p: nat)
    ensures LeafStart(g, p + 1) == LeafStart(g, p) + GroupPoints(g)
  {}

  lemma LeafStartMonotone(g: nat, p: nat, q: nat)
    requires p <= q
    ensures LeafStart(g, p) <= LeafStart(g, q)
  {
    Scale(p, q, GroupPoints(g));
  }

  lemma Scale(a: nat, b: nat, n: nat)
    requires a <= b
    ensures a * n <= b * n
  {}

  /** `v` selects from the leaves of lane `j` before leaf `idx` and the first `x` points of leaf `idx`. */
  ghost predicate LaneSum(c: Ciphers, k: seq<Block>, g: seq<Block>, data: seq<Block>, dEnd: nat, idx: nat, x: nat,
                          j: nat, v: Block)
    requires |k| > 0 && |g| > 0
  {
    && LaneStart(|g|, dEnd, j, 0) <= LaneStart(|g|, dEnd, j, idx) + x <= |data|
    && v == Select(c, k, g, data, LaneStart(|g|, dEnd, j, 0), LaneStart(|g|, dEnd, j, idx) + x)
  }

  /** Adds one point of lane `j`. */
  method AddPoint(c: Ciphers, k: seq<Block>, g: seq<Block>, data: seq<Block>, s: Block, dEnd: nat, idx: nat, x: nat,
                  j: nat, row: seq<Block>, v: Block)
    returns (v': Block)
    requires |k| == dEnd + 4 && |g| > 0 && |data| == Domain(dEnd + 3, |g|) && j < 8
    requires idx < Pow2(dEnd) && x < GroupPoints(|g|)
    requires s == LaneNode(c, k, dEnd, idx, dEnd, j) && LaneSpread(c, s, g, row)
    requires LaneSum(c, k, g, data, dEnd, idx, x, j, v)
    ensures LaneSum(c, k, g, data, dEnd, idx, x + 1, j, v')
  {
    hide LeafBit, Eval, Xor, And, AllOf, Node, Spread, LeafWord, LeafStart, LanePath;
    LaneInDomain(|g|, dEnd, j, idx);
    LaneByte(c, s, g, row, x);
    EvalLeaf(c, k, g, LanePath(j, dEnd, idx), x);
    v' := Xor(v, And(data[LaneStart(|g|, dEnd, j, idx) + x], ZeroAndAllOne(ByteView(row, x))));
  }

  /** Adds leaf `idx` of all eight lanes, whose bytes are in `expanded`. */
  method AddLeaves(c: Ciphers, k: seq<Block>, g: seq<Block>, data: seq<Block>, ss: array2<Block>, dEnd: nat, idx: nat,
                   expanded: array2<Block>, sums: array<Block>)
    requires |k| == dEnd + 4 && |g| > 0 && |data| == Domain(dEnd + 3, |g|) && sums.Length == 8
    requires ss.Length0 == dEnd + 1 && ss.Length1 == 8 && expanded.Length0 == 8 && expanded.Length1 == 8 * |g|
    requires idx < Pow2(dEnd) && StackHolds(c, k, ss, dEnd, dEnd, idx)
    requires forall j | 0 <= j < 8 :: LaneSpread(c, ss[dEnd, j], g, Row(expanded, j))
    requires forall j | 0 <= j < 8 :: LaneSum(c, k, g, data, dEnd, idx, 0, j, sums[j])
    requires ss != expanded && sums as object != ss && sums as object != expanded
    modifies sums
    ensures forall j | 0 <= j < 8 :: LaneSum(c, k, g, data, dEnd, idx + 1, 0, j, sums[j])
  {
    hide LaneSpread, LaneNode, LaneSum, Row, Domain;
    for x := 0 to GroupPoints(|g|)
      invariant forall j | 0 <= j < 8 :: LaneSum(c, k, g, data, dEnd, idx, x, j, sums[j])
    {
      for j := 0 to 8
        invariant forall l | 0 <= l < j :: LaneSum(c, k, g, data, dEnd, idx, x + 1, l, sums[l])
        invariant forall l | j <= l < 8 :: LaneSum(c, k, g, data, dEnd, idx, x, l, sums[l])
      {
        sums[j] := AddPoint(c, k, g, data, ss[dEnd, j], dEnd, idx, x, j, Row(expanded, j), sums[j]);
      }
    }
    forall j | 0 <= j < 8
      ensures LaneSum(c, k, g, data, dEnd, idx + 1, 0, j, sums[j])
    {
      NextLeaf(c, k, g, data, dEnd, idx, j, sums[j]);
    }
  }

  lemma NextLeaf(c: Ciphers, k: seq<Block>, g: seq<Block>, data: seq<Block>, dEnd: nat, idx: nat, j: nat, v: Block)
    requires |k| > 0 && |g| > 0 && LaneSum(c, k, g, data, dEnd, idx, GroupPoints(|g|), j, v)
    ensures LaneSum(c, k, g, data, dEnd, idx + 1, 0, j, v)
  {
    hide LaneStart, Select;
    LaneStartStep(|g|, dEnd, j, idx);
  }

  /** Rows up to the landing point of the climb also lie on the way to the next leaf. */
  lemma StackClimbs(c: Ciphers, k: seq<Block>, ss: array2<Block>, dEnd: nat, idx: nat)
    requires |k| == dEnd + 4 && ss.Length0 == dEnd + 1 && ss.Length1 == 8 && dEnd < WORD && idx + 1 < Pow2(dEnd)
    requires StackHolds(c, k, ss, dEnd, dEnd, idx)
    ensures Climb(dEnd, idx) < dEnd && StackHolds(c, k, ss, dEnd, Climb(dEnd, idx), idx + 1)
  {
    hide Climb, PathTo, Node, LanePath;
    ClimbLands(idx, dEnd);
    forall e, j | 0 <= e <= Climb(dEnd, idx) && 0 <= j < 8
      ensures ss[e, j] == LaneNode(c, k, dEnd, idx + 1, e, j)
    {
      assert ss[e, j] == LaneNode(c, k, dEnd, idx, e, j);
      assert PathTo(idx + 1, dEnd, e) == PathTo(idx, dEnd, e);
    }
  }

  lemma LaneRoot(c: Ciphers, k: seq<Block>, dEnd: nat, j: nat)
    requires |k| == dEnd + 4 && j < 8
    ensures LaneNode(c, k, dEnd, 0, 0, j) == Node(c, k, 3, j)
  {
    hide Node;
    Pow2Grows(dEnd);
    LowSmall(0, dEnd);
    assert LanePath(j, 0, PathTo(0, dEnd, 0)) == j;
  }

  /** Lane roots, and the t bits of every correction word below depth 3. */
  method StartLanes(c: Ciphers, k: seq<Block>, prev: seq<Block>, dEnd: nat)
    returns (ss: array2<Block>, tcw: array2<Block>)
    requires |k| == dEnd + 4 && |prev| == 8 && forall p | 0 <= p < 8 :: prev[p] == Node(c, k, 3, p)
    ensures fresh(ss) && fresh(tcw) && ss != tcw
    ensures ss.Length0 == dEnd + 1 && ss.Length1 == 8 && StackHolds(c, k, ss, dEnd, 0, 0)
    ensures tcw.Length0 == dEnd && tcw.Length1 == 2
    ensures forall e, b | 0 <= e < dEnd && 0 <= b < 2 :: tcw[e, b] == TcwOf(k[4 + e], b)
  {
    hide Node, And, Srl64, One, LaneNode;
    ss := new Block[dEnd + 1, 8];
    for j := 0 to 8
      invariant forall l | 0 <= l < j :: ss[0, l] == LaneNode(c, k, dEnd, 0, 0, l)
    {
      ss[0, j] := prev[j];
      LaneRoot(c, k, dEnd, j);
    }
    tcw := new Block[dEnd, 2];
    for i := 0 to dEnd
      invariant forall l | 0 <= l < 8 :: ss[0, l] == LaneNode(c, k, dEnd, 0, 0, l)
      invariant forall e, b | 0 <= e < i && 0 <= b < 2 :: tcw[e, b] == TcwOf(k[4 + e], b)
    {
      tcw[i, 0] := And(Srl64(k[4 + i], 1), One());
      tcw[i, 1] := And(k[4 + i], One());
    }
  }

  /** The fold over a tree of three levels or more, eight subtrees in step. */
  method LargeDomain(c: Ciphers, data: seq<Block>, k: seq<Block>, g: seq<Block>) returns (sum: Block)
    requires |k| >= 4 && |g| > 0 && |data| == Domain(|k| - 1, |g|) < WORD
    ensures sum == Select(c, k, g, data, 0, |data|)
  {
    hide Node, Select, Xor, LeafStart, Climb, TcwOf, LaneSum, LaneSpread, StackHolds, LaneNode;
    var dEnd := |k| - 4;
    DepthBound(|k| - 1, |g|);
    assert Pow2(3) == 8 by { Pow2Times8(0); }
    var prev := ExpandTop(c, k, 3);
    var ss, tcw := StartLanes(c, k, prev, dEnd);
    var expanded := new Block[8, 8 * |g|];
    var sums := new Block[8](_ => Zero());
    forall j | 0 <= j < 8
      ensures LaneSum(c, k, g, data, dEnd, 0, 0, j, sums[j])
    {
      EmptyLane(c, k, g, data, dEnd, j);
    }
    var idx: nat, d: nat, end: nat := 0, 0, Pow2(dEnd);
    while idx != end
      invariant idx <= end && (idx < end ==> d <= dEnd && StackHolds(c, k, ss, dEnd, d, idx))
      invariant forall e, b | 0 <= e < dEnd && 0 <= b < 2 :: tcw[e, b] == TcwOf(k[4 + e], b)
      invariant forall j | 0 <= j < 8 :: LaneSum(c, k, g, data, dEnd, idx, 0, j, sums[j])
      decreases end - idx
    {
      d := Descend(c, k, ss, tcw, idx, d, dEnd);
      LeafBytes(c, ss, d, g, expanded);
      AddLeaves(c, k, g, data, ss, dEnd, idx, expanded, sums);
      if idx + 1 < end {
        StackClimbs(c, k, ss, dEnd, idx);
      }
      d := Climb(d, idx);
      idx := idx + 1;
    }
    sum := Xor(Xor(Xor(Xor(Xor(Xor(Xor(sums[0], sums[1]), sums[2]), sums[3]), sums[4]), sums[5]), sums[6]), sums[7]);
    JoinLanes(c, k, g, data, dEnd, sums[..]);
  }

  lemma DepthBound(kDepth: nat, g: nat)
    requires g > 0
    ensures kDepth < Domain(kDepth, g)
  {
    Pow2Grows(kDepth);
    Scale(1, GroupPoints(g), Pow2(kDepth));
  }

  lemma EmptyLane(c: Ciphers, k: seq<Block>, g: seq<Block>, data: seq<Block>, dEnd: nat, j: nat)
    requires |k| == dEnd + 4 && |g| > 0 && |data| == Domain(dEnd + 3, |g|) && j < 8
    ensures LaneSum(c, k, g, data, dEnd, 0, 0, j, Zero())
  {
    LaneInDomain(|g|, dEnd, j, 0);
  }

  /** The sums of consecutive lanes join. */
  lemma {:induction false} JoinLane(c: Ciphers, k: seq<Block>, g: seq<Block>, data: seq<Block>, dEnd: nat, j: nat,
                                    left: Block, v: Block)
    requires |k| == dEnd + 4 && |g| > 0 && |data| == Domain(dEnd + 3, |g|) && j < 8
    requires LaneStart(|g|, dEnd, j, 0) <= |data| && left == Select(c, k, g, data, 0, LaneStart(|g|, dEnd, j, 0))
    requires LaneSum(c, k, g, data, dEnd, Pow2(dEnd), 0, j, v)
    ensures LaneStart(|g|, dEnd, j + 1, 0) <= |data|
    ensures Xor(left, v) == Select(c, k, g, data, 0, LaneStart(|g|, dEnd, j + 1, 0))
  {
    hide LaneStart, Select, Xor;
    LaneStartStep(|g|, dEnd, j, 0);
    SelectSplit(c, k, g, data, 0, LaneStart(|g|, dEnd, j, 0), LaneStart(|g|, dEnd, j + 1, 0));
  }

  lemma JoinLanes(c: Ciphers, k: seq<Block>, g: seq<Block>, data: seq<Block>, dEnd: nat, v: seq<Block>)
    requires |k| == dEnd + 4 && |g| > 0 && |data| == Domain(dEnd + 3, |g|) && |v| == 8
    requires forall j | 0 <= j < 8 :: LaneSum(c, k, g, data, dEnd, Pow2(dEnd), 0, j, v[j])
    ensures Xor(Xor(Xor(Xor(Xor(Xor(Xor(v[0], v[1]), v[2]), v[3]), v[4]), v[5]), v[6]), v[7])
            == Select(c, k, g, data, 0, |data|)
  {
    hide LaneStart, LaneSum, Select, Xor;
    LeafStartEnds(|g|, dEnd);
    assert Select(c, k, g, data, 0, 0) == Zero() by { SelectNone(c, k, g, data); }
    XorZero(v[0]);
    JoinLane(c, k, g, data, dEnd, 0, Zero(), v[0]);
    JoinLane(c, k, g, data, dEnd, 1, v[0], v[1]);
    var a2 := Xor(v[0], v[1]);
    JoinLane(c, k, g, data, dEnd, 2, a2, v[2]);
    var a3 := Xor(a2, v[2]);
    JoinLane(c, k, g, data, dEnd, 3, a3, v[3]);
    var a4 := Xor(a3, v[3]);
    JoinLane(c, k, g, data, dEnd, 4, a4, v[4]);
    var a5 := Xor(a4, v[4]);
    JoinLane(c, k, g, data, dEnd, 5, a5, v[5]);
    var a6 := Xor(a5, v[5]);
    JoinLane(c, k, g, data, dEnd, 6, a6, v[6]);
    JoinLane(c, k, g, data, dEnd, 7, Xor(a6, v[6]), v[7]);
  }

  lemma SelectNone(c: Ciphers, k: seq<Block>, g: seq<Block>, data: seq<Block>)
    requires |k| > 0 && |g| > 0
    ensures Select(c, k, g, data, 0, 0) == Zero()
  {}

  /** A server's answer: nothing unless the database fills the domain, and else its selection. */
  method FullDomain(c: Ciphers, data: seq<Block>, k: seq<Block>, g: seq<Block>) returns (r: Option<Block>)
    requires |k| > 0 && |g| > 0 && Domain(|k| - 1, |g|) < 0x8000_0000_0000_0000
    ensures r == if |data| == Domain(|k| - 1, |g|) then Some(Select(c, k, g, data, 0, |data|)) else None
  {
    hide Select;
    if |data| != Pow2(|k| - 1) * |g| * 128 {
      return None;
    }
    if |k| - 1 < 3 {
      var sum := SmallDomain(c, data, k, g);
      r := Some(sum);
    } else {
      var sum := LargeDomain(c, data, k, g);
      r := Some(sum);
    }
  }
}
