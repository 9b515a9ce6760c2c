/**
  The chunked evaluator: each call yields the shares of one more leaf, or of one more leaf
  of each of eight subtrees, keeping the seeds of the current path between calls.
 */
module FullDomainGenerator {
  import opened Bits
  import opened Blocks
  import opened Bytes
  import opened Dpf
  import opened Selection
  import opened Subtrees
  import opened Traversal
  import opened Wrappers
  import Server = BgiPirServer

  // ----- what the calls must yield -----

  function Lanes(kDepth: nat): nat {
    if kDepth < 3 then 1 else 8
  }

  /** Number of calls until the domain is exhausted. */
  function Calls(kDepth: nat): nat {
    if kDepth < 3 then Pow2(kDepth) else Pow2(kDepth - 3)
  }

  /** The leaf that lane `j` of call `n` yields. */
  function ChunkLeaf(kDepth: nat, n: nat, j: nat): nat {
    if kDepth < 3 then n else LanePath(j, kDepth - 3, n)
  }

  datatype Chunk = Chunk(offset: nat, bytes: seq<nat>)

  /** Offset and bytes of a leaf: one byte per point, holding its share. */
  function LeafChunk(c: Ciphers, k: seq<Block>, g: seq<Block>, leaf: nat): Chunk
    requires |k| > 0 && |g| > 0
  {
    Chunk(LeafStart(|g|, leaf), seq<nat>(GroupPoints(|g|),
        x requires 0 <= x < GroupPoints(|g|) => Bit(Eval(c, k, g, LeafStart(|g|, leaf) + x))))
  }

  /** Everything call number `n` must yield. */
  function Yielded(c: Ciphers, k: seq<Block>, g: seq<Block>, n: nat): seq<Chunk>
    requires |k| > 0 && |g| > 0
  {
    seq(Lanes(|k| - 1), j requires 0 <= j < Lanes(|k| - 1) => LeafChunk(c, k, g, ChunkLeaf(|k| - 1, n, j)))
  }

  /** Point `p` lies in the chunk of lane `j` of call `n`. */
  ghost predicate InChunk(kDepth: nat, g: nat, n: nat, j: nat, p: nat) {
    LeafStart(g, ChunkLeaf(kDepth, n, j)) <= p < LeafStart(g, ChunkLeaf(kDepth, n, j)) + GroupPoints(g)
  }

  /** The call and lane that yield point `p`. */
  function Owner(kDepth: nat, g: nat, p: nat): (nat, nat)
    requires g > 0
  {
    var leaf := Quot(p, GroupPoints(g));
    if kDepth < 3 then (leaf, 0) else (Low(leaf, kDepth - 3), Shr(leaf, kDepth - 3))
  }

  lemma InLeaf(g: nat, leaf: nat, p: nat)
    requires g > 0
    ensures LeafStart(g, leaf) <= p < LeafStart(g, leaf) + GroupPoints(g) <==> Quot(p, GroupPoints(g)) == leaf
  {
    QuotRem(p, GroupPoints(g));
    if LeafStart(g, leaf) <= p < LeafStart(g, leaf) + GroupPoints(g) {
      Digits(leaf, GroupPoints(g), p - LeafStart(g, leaf));
    }
  }

  lemma ShrLowUnique(hi: nat, n: nat, lo: nat)
    requires lo < Pow2(n)
    ensures hi * Pow2(n) + lo >= 0
    ensures Shr(hi * Pow2(n) + lo, n) == hi && Low(hi * Pow2(n) + lo, n) == lo
  {
    Digits(hi, Pow2(n), lo);
    var x := hi * Pow2(n) + lo;
    ShrLow(x, n);
    Digits(Shr(x, n), Pow2(n), Low(x, n));
  }

  lemma {:induction false} ShrBound(x: nat, d: nat, n: nat)
    requires x < Pow2(d + n)
    ensures Shr(x, n) < Pow2(d)
  {
    if n > 0 {
      ShrBound(x / 2, d, n - 1);
    }
  }

  lemma EightLanes()
    ensures Pow2(3) == 8
  {
    Pow2Times8(0);
  }

  /** Over a whole run every point of the domain is yielded once: by its owner and by nobody else. */
  lemma CoveredOnce(kDepth: nat, g: nat, p: nat, n: nat, j: nat)
    requires g > 0 && p < Domain(kDepth, g)
    ensures Owner(kDepth, g, p).0 < Calls(kDepth) && Owner(kDepth, g, p).1 < Lanes(kDepth)
    ensures n < Calls(kDepth) && j < Lanes(kDepth) ==> (InChunk(kDepth, g, n, j, p) <==> (n, j) == Owner(kDepth, g, p))
  {
    hide LeafStart, GroupPoints, Pow2, Low, Shr, Quot, Domain;
    var leaf := Quot(p, GroupPoints(g));
    LeafInDomain(kDepth, g, p);
    InLeaf(g, ChunkLeaf(kDepth, n, j), p);
    if kDepth >= 3 {
      ShrLow(leaf, kDepth - 3);
      EightLanes();
      ShrBound(leaf, 3, kDepth - 3);
      if n < Calls(kDepth) {
        ShrLowUnique(j, kDepth - 3, n);
      }
    }
  }

  lemma LeafInDomain(kDepth: nat, g: nat, p: nat)
    requires g > 0 && p < Domain(kDepth, g)
    ensures Quot(p, GroupPoints(g)) < Pow2(kDepth)
  {
    var n := GroupPoints(g);
    QuotRem(p, n);
    if Quot(p, n) >= Pow2(kDepth) {
      Server.Scale(Pow2(kDepth), Quot(p, n), n);
    }
  }

  // ----- the generator -----

  /** The byte view of one row of the buffer. */
  function RowBytes(row: seq<Block>): seq<nat> {
    seq<nat>(16 * |row|, x requires 0 <= x < 16 * |row| => ByteView(row, x))
  }

  /** A row that spreads a leaf's words reads as the leaf's chunk. */
  lemma RowIsChunk(c: Ciphers, k: seq<Block>, g: seq<Block>, leaf: nat, row: seq<Block>)
    requires |k| > 0 && |g| > 0 && LaneSpread(c, Node(c, k, |k| - 1, leaf), g, row)
    ensures Chunk(LeafStart(|g|, leaf), RowBytes(row)) == LeafChunk(c, k, g, leaf)
  {
    hide Node, Eval, LeafBit, LeafStart, ByteAt, Spread, LeafWord, ByteView;
    forall x | 0 <= x < GroupPoints(|g|)
      ensures RowBytes(row)[x] == LeafChunk(c, k, g, leaf).bytes[x]
    {
      LaneByte(c, Node(c, k, |k| - 1, leaf), g, row, x);
      EvalLeaf(c, k, g, leaf, x);
    }
  }

  class FullDomainGenerator {
    const c: Ciphers
    const k: seq<Block>
    const g: seq<Block>
    const kDepth: nat
    const dEnd: nat
    var prev: seq<Block>
    var mHasMore: bool
    var kIdx: nat
    var d: nat
    const ss: array2<Block>
    const tcw: array2<Block>
    const expandedS: array2<Block>

    ghost predicate Valid()
      reads this, ss, tcw
    {
      && |k| == kDepth + 1 && |g| > 0 && Domain(kDepth, |g|) < WORD
      && ss != tcw && ss != expandedS && tcw != expandedS
      && expandedS.Length0 == Lanes(kDepth) && expandedS.Length1 == 8 * |g|
      && kIdx <= Calls(kDepth) && mHasMore == (kIdx < Calls(kDepth))
      && (kDepth < 3 ==> |prev| == Pow2(kDepth) && forall p | 0 <= p < Pow2(kDepth) :: prev[p] == Node(c, k, kDepth, p))
      && (kDepth >= 3 ==>
            && dEnd == kDepth - 3 && ss.Length0 == dEnd + 1 && ss.Length1 == 8 && tcw.Length0 == dEnd
            && tcw.Length1 == 2
            && (forall e, b | 0 <= e < dEnd && 0 <= b < 2 :: tcw[e, b] == TcwOf(k[4 + e], b))
            && (mHasMore ==> d <= dEnd && StackHolds(c, k, ss, dEnd, d, kIdx)))
    }

    constructor (c: Ciphers, kk: seq<Block>, gg: seq<Block>)
      requires |kk| > 0 && |gg| > 0 && Domain(|kk| - 1, |gg|) < 0x8000_0000_0000_0000
      ensures Valid() && this.c == c && k == kk && g == gg && kIdx == 0 && mHasMore
      ensures fresh(ss) && fresh(tcw) && fresh(expandedS)
    {
      var depth := |kk| - 1;
      var m := if depth < 3 then depth else 3;
      var top := Server.ExpandTop(c, kk, m);
      var stack := new Block[0, 8];
      var words := new Block[0, 2];
      if depth >= 3 {
        assert Pow2(3) == 8 by { Pow2Times8(0); }
        stack, words := Server.StartLanes(c, kk, top, depth - 3);
      }
      var bytes := new Block[Lanes(depth), 8 * |gg|];
      this.c, k, g, kDepth := c, kk, gg, depth;
      dEnd := if depth < 3 then 0 else depth - 3;
      prev, mHasMore, kIdx, d := top, true, 0, 0;
      ss, tcw, expandedS := stack, words, bytes;
    }

    function HasMore(): bool
      reads this
    {
      mHasMore
    }

    /** The next chunks, or nothing once the domain is exhausted. */
    method Yield() returns (r: Option<seq<Chunk>>)
      requires Valid()
      modifies this, ss, expandedS
      ensures Valid()
      ensures r == if old(mHasMore) then Some(Yielded(c, k, g, old(kIdx))) else None
      ensures kIdx == old(kIdx) + if old(mHasMore) then 1 else 0
    {
      hide Node, StackHolds, Domain, LaneSpread, TcwOf, Climb, LeafChunk, RowBytes, ChunkLeaf;
      if !(kIdx < Calls(kDepth)) {
        return None;
      }
      FillBytes();
      var chunks := [];
      for j := 0 to Lanes(kDepth)
        modifies {}
        invariant |chunks| == j && forall l | 0 <= l < j :: chunks[l] == LeafChunk(c, k, g, ChunkLeaf(kDepth, kIdx, l))
      {
        RowIsChunk(c, k, g, ChunkLeaf(kDepth, kIdx, j), Row(expandedS, j));
        chunks := chunks + [Chunk(LeafStart(|g|, ChunkLeaf(kDepth, kIdx, j)), RowBytes(Row(expandedS, j)))];
      }
      assert chunks == Yielded(c, k, g, kIdx);
      r := Some(chunks);
      if kDepth >= 3 {
        DepthFits();
        if kIdx + 1 < Calls(kDepth) {
          Server.StackClimbs(c, k, ss, dEnd, kIdx);
        }
        d := Climb(d, kIdx);
      }
      kIdx := kIdx + 1;
      mHasMore := kIdx < Calls(kDepth);
    }

    /** Computes the bytes of the leaves of this call into the buffer. */
    method FillBytes()
      requires Valid() && mHasMore
      modifies `d, ss, expandedS
      ensures Valid() && (kDepth >= 3 ==> d == dEnd)
      ensures forall j | 0 <= j < Lanes(kDepth) ::
              LaneSpread(c, Node(c, k, kDepth, ChunkLeaf(kDepth, kIdx, j)), g, Row(expandedS, j))
    {
      hide Node, StackHolds, Domain, LaneSpread, TcwOf;
      if kDepth < 3 {
        SpreadOne();
      } else {
        d := Descend(c, k, ss, tcw, kIdx, d, dEnd);
        LeafBytes(c, ss, d, g, expandedS);
        LaneLeaves();
      }
    }

    lemma DepthFits()
      requires Valid()
      ensures dEnd < WORD || kDepth < 3
    {
      Server.DepthBound(kDepth, |g|);
    }

    /** The bottom row of the stack holds the leaves this call yields. */
    lemma LaneLeaves()
      requires Valid() && kDepth >= 3 && d == dEnd && StackHolds(c, k, ss, dEnd, dEnd, kIdx)
      ensures forall j | 0 <= j < 8 :: ss[dEnd, j] == Node(c, k, kDepth, ChunkLeaf(kDepth, kIdx, j))
    {
      forall j | 0 <= j < 8
        ensures ss[dEnd, j] == Node(c, k, kDepth, ChunkLeaf(kDepth, kIdx, j))
      {
        assert ss[dEnd, j] == LaneNode(c, k, dEnd, kIdx, dEnd, j);
      }
    }

    /** Spreads the words of leaf kIdx of a tree of fewer than three levels. */
    method SpreadOne()
      requires Valid() && kDepth < 3 && kIdx < Calls(kDepth)
      modifies expandedS
      ensures LaneSpread(c, Node(c, k, kDepth, kIdx), g, Row(expandedS, 0))
    {
      hide Node, Expand, IsExpanded, Xor, And, AllOf, Spread;
      var s := prev[kIdx];
      var gs := ExpandLeaf(c, s, |g|);
      var t := Lsb(s);
      for i := 0 to |g|
        invariant forall m | 0 <= m < |g| :: gs[m] == Expand(c, s, m)
        invariant forall m, b | 0 <= m < i && 0 <= b < 8 :: expandedS[0, 8 * m + b] == Spread(LeafWord(c, s, g, m), b)
      {
        var word := Xor(gs[i], And(g[i], AllOf(t)));
        for b := 0 to 8
          invariant forall m | 0 <= m < |g| :: gs[m] == Expand(c, s, m)
          invariant forall m, b' | 0 <= m < i && 0 <= b' < 8 ::
                    expandedS[0, 8 * m + b'] == Spread(LeafWord(c, s, g, m), b')
          invariant forall b' | 0 <= b' < b :: expandedS[0, 8 * i + b'] == Spread(LeafWord(c, s, g, i), b')
        {
          expandedS[0, 8 * i + b] := Spread(word, b);
        }
      }
    }
  }

  /**
    A whole run: yields until nothing is left and stores every byte at its offset. Every point
    of the domain gets its share.
   */
  method Drain(gen: FullDomainGenerator) returns (shares: array<nat>)
    requires gen.Valid() && gen.kIdx == 0
    modifies gen, gen.ss, gen.expandedS
    ensures shares.Length == Domain(gen.kDepth, |gen.g|) && !gen.mHasMore
    ensures forall p | 0 <= p < shares.Length :: shares[p] == Bit(Eval(gen.c, gen.k, gen.g, p))
  {
    hide Eval, Domain, LeafStart, ChunkLeaf, Lanes, Calls, Owner;
    var g := |gen.g|;
    shares := new nat[Domain(gen.kDepth, g)];
    while gen.HasMore()
      invariant gen.Valid() && fresh(shares)
      invariant forall p | 0 <= p < shares.Length && Owner(gen.kDepth, g, p).0 < gen.kIdx ::
                shares[p] == Bit(Eval(gen.c, gen.k, gen.g, p))
      decreases Calls(gen.kDepth) - gen.kIdx
    {
      ghost var n := gen.kIdx;
      var r := gen.Yield();
      var chunks := r.value;
      StoreChunks(gen.c, gen.k, gen.g, n, chunks, shares);
    }
    forall p | 0 <= p < shares.Length
      ensures shares[p] == Bit(Eval(gen.c, gen.k, gen.g, p))
    {
      CoveredOnce(gen.kDepth, g, p, 0, 0);
    }
  }

  method StoreChunks(c: Ciphers, k: seq<Block>, g: seq<Block>, ghost n: nat, chunks: seq<Chunk>, shares: array<nat>)
    requires |k| > 0 && |g| > 0 && n < Calls(|k| - 1) && chunks == Yielded(c, k, g, n)
    requires shares.Length == Domain(|k| - 1, |g|)
    requires forall p | 0 <= p < shares.Length && Owner(|k| - 1, |g|, p).0 < n :: shares[p] == Bit(Eval(c, k, g, p))
    modifies shares
    ensures forall p | 0 <= p < shares.Length && Owner(|k| - 1, |g|, p).0 <= n :: shares[p] == Bit(Eval(c, k, g, p))
  {
    hide Eval, Domain, LeafStart, ChunkLeaf, Calls, Owner;
    ghost var kDepth := |k| - 1;
    for j := 0 to |chunks|
      invariant forall p | 0 <= p < shares.Length && Owner(kDepth, |g|, p).0 < n :: shares[p] == Bit(Eval(c, k, g, p))
      invariant forall p | 0 <= p < shares.Length && Owner(kDepth, |g|, p).0 == n && Owner(kDepth, |g|, p).1 < j ::
                shares[p] == Bit(Eval(c, k, g, p))
    {
      label Chunk:
      var start, bytes := chunks[j].offset, chunks[j].bytes;
      ChunkFits(kDepth, |g|, n, j);
      for x := 0 to |bytes|
        invariant forall p | 0 <= p < shares.Length && (p < start || start + x <= p) ::
                  shares[p] == old@Chunk(shares[p])
        invariant forall p | start <= p < start + x :: shares[p] == Bit(Eval(c, k, g, p))
      {
        shares[start + x] := bytes[x];
      }
      forall p | 0 <= p < shares.Length
        ensures InChunk(kDepth, |g|, n, j, p) <==> (n, j) == Owner(kDepth, |g|, p)
      {
        CoveredOnce(kDepth, |g|, p, n, j);
      }
    }
    forall p | 0 <= p < shares.Length
      ensures Owner(kDepth, |g|, p).1 < |chunks|
    {
      CoveredOnce(kDepth, |g|, p, 0, 0);
    }
  }

  /** Chunks end inside the domain. */
  lemma ChunkFits(kDepth: nat, g: nat, n: nat, j: nat)
    requires g > 0 && n < Calls(kDepth) && j < Lanes(kDepth)
    ensures LeafStart(g, ChunkLeaf(kDepth, n, j)) + GroupPoints(g) <= Domain(kDepth, g)
  {
    var leaf := ChunkLeaf(kDepth, n, j);
    if kDepth >= 3 {
      Server.LanePathBound(j, kDepth - 3, n);
    }
    Server.LeafStartStep(g, leaf);
    Server.LeafStartMonotone(g, leaf + 1, Pow2(kDepth));
    Server.LeafStartEdges(g, kDepth);
  }
}
