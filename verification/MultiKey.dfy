/**
  The lock-step evaluator of many keys: each call yields, for every key, its share of one more
  point of the domain. Column h of each matrix belongs to key h; the columns are padded to
  a multiple of eight.
 */
module MultiKey {
  import opened Bits
  import opened Blocks
  import opened Bytes
  import opened Dpf
  import opened Selection
  import opened Subtrees
  import opened Traversal
  import opened Wrappers
  import Server = BgiPirServer

  function RoundUpTo8(n: nat): (r: nat)
    ensures n <= r < n + 8 && r % 8 == 0
  {
    (n + 7) / 8 * 8
  }

  /** The shares of point `p` under the first `n` keys, but for the columns in `outdated`. */
  ghost predicate AreShares(shares: seq<nat>, c: Ciphers, keys: seq<seq<Block>>, groups: seq<seq<Block>>, n: nat,
                            p: nat, outdated: set<nat>)
    requires n <= |keys| == |groups|
    requires forall h | 0 <= h < n :: |keys[h]| > 0 && |groups[h]| > 0
  {
    |shares| == n && forall h | 0 <= h < n && h !in outdated :: shares[h] == Bit(Eval(c, keys[h], groups[h], p))
  }

  class MultiKey {
    const c: Ciphers
    const numKeys: nat
    const mNumKeysRound8: nat
    const mDEnd: nat
    const gSize: nat
    var mD: nat
    var mLeafIdx: nat
    var mGIdx: nat
    var mBIdx: nat
    const mBuff: array2<nat>
    const mS: array2<Block>
    const mK: array2<Block>
    const mG: array2<Block>
    const mTcw: array3<Block>

    /** The matrices have their sizes and are different objects. */
    ghost predicate Shaped() {
      && gSize > 0 && mNumKeysRound8 == RoundUpTo8(numKeys) && Domain(mDEnd, gSize) < WORD
      && mBuff.Length0 == 128 && mBuff.Length1 == numKeys
      && mS.Length0 == mDEnd + 1 && mS.Length1 == mNumKeysRound8
      && mK.Length0 == mDEnd + 1 && mK.Length1 == mNumKeysRound8
      && mG.Length0 == gSize && mG.Length1 == mNumKeysRound8
      && mTcw.Length0 == mDEnd + 1 && mTcw.Length1 == mNumKeysRound8 && mTcw.Length2 == 2
      && mS != mK && mS != mG && mK != mG
    }

    /** The keys held in the columns, padding included. */
    ghost var keys: seq<seq<Block>>
    ghost var groups: seq<seq<Block>>
    /** The columns whose key was set since the walk last started at the root: only their row 0 is of that key. */
    ghost var stale: set<nat>
    /** The columns whose buffer was not filled from seeds of the key they hold. */
    ghost var outdated: set<nat>

    ghost predicate Columns()
      requires Shaped()
      reads this`keys, this`groups, mS, mK, mG
    {
      && |keys| == |groups| == mNumKeysRound8
      && (forall h | 0 <= h < mNumKeysRound8 :: |keys[h]| == mDEnd + 1 && keys[h][0] == mS[0, h])
      && (forall h, e | 0 <= h < mNumKeysRound8 && 0 <= e < mDEnd :: keys[h][e + 1] == mK[e, h])
      && (forall h | 0 <= h < mNumKeysRound8 :: |groups[h]| == gSize)
      && (forall h, i | 0 <= h < mNumKeysRound8 && 0 <= i < gSize :: groups[h][i] == mG[i, h])
    }

    /**
      Row `e` of the seeds lies on the way to leaf `idx` for every key whose column is not stale, and row 0 for all.
     */
    ghost predicate RowHolds(e: nat, idx: nat)
      requires Shaped() && e <= mDEnd && Columns()
      reads this`keys, this`groups, this`stale, mS, mK, mG
    {
      forall h | 0 <= h < mNumKeysRound8 && (e == 0 || h !in stale) ::
        mS[e, h] == Node(c, keys[h], e, PathTo(idx, mDEnd, e))
    }

    ghost predicate WordsSplit()
      requires Shaped()
      reads mK, mTcw
    {
      forall e, h, b | 0 <= e < mDEnd && 0 <= h < mNumKeysRound8 && 0 <= b < 2 :: mTcw[e, h, b] == TcwOf(mK[e, h], b)
    }

    /** The buffer holds the shares of the 128 points of group block `i` of leaf `leaf`. */
    ghost predicate Buffered(leaf: nat, i: nat)
      requires Shaped() && i < gSize && Columns()
      reads this`keys, this`groups, this`outdated, mS, mK, mG, mBuff
    {
      forall x, h | 0 <= x < 128 && 0 <= h < numKeys && h !in outdated ::
        mBuff[x, h] == Bit(LeafBit(c, Node(c, keys[h], mDEnd, leaf), groups[h], 128 * i + x))
    }

    /** The walk to the next leaf starts at the root: for the first leaf and for the first one of the right half. */
    ghost predicate FromRoot()
      reads this`mLeafIdx
    {
      mLeafIdx == 0 || (mDEnd > 0 && mLeafIdx == Pow2(mDEnd - 1))
    }

    /** The cached rows lie on the way to the next leaf, and the bottom row on the way to the last one. */
    ghost predicate Rows()
      requires Shaped() && Columns()
      reads this`mD, this`mLeafIdx, this`keys, this`groups, this`stale, mS, mK, mG
    {
      && mLeafIdx <= Pow2(mDEnd)
      && (mLeafIdx < Pow2(mDEnd) ==>
            mD <= mDEnd && (mD == 0 <==> FromRoot()) && forall e | 0 <= e <= mD :: RowHolds(e, mLeafIdx))
      && (mLeafIdx > 0 ==> RowHolds(mDEnd, mLeafIdx - 1))
    }

    ghost predicate Valid()
      reads this, mS, mK, mG, mTcw, mBuff
    {
      && Shaped() && WordsSplit() && Columns() && Rows()
      && mGIdx <= gSize && 1 <= mBIdx <= 128
      && (mLeafIdx == 0 ==> mGIdx == gSize && mBIdx == 128 && mD == 0)
      && (mBIdx < 128 ==> mLeafIdx > 0 && mGIdx > 0 && Buffered(mLeafIdx - 1, mGIdx - 1))
    }

    /** What the next call, unless it throws, makes of the stale columns: a walk from the root leaves none. */
    ghost function NextStale(): set<nat>
      reads this
    {
      if mBIdx == 128 && mGIdx == gSize && FromRoot() then {} else stale
    }

    /** What it makes of the columns with an outdated buffer, which it fills again after the last row. */
    ghost function NextOutdated(): set<nat>
      reads this
    {
      if mBIdx < 128 then outdated else if mDEnd == 0 then {} else NextStale()
    }

    /** The point whose shares the next call yields. */
    ghost function Position(): int
      reads this
    {
      LeafStart(gSize, mLeafIdx) + 128 * mGIdx + mBIdx - 128 * gSize - 128
    }

    constructor (c: Ciphers, numKeys: nat, kSize: nat, gSize: nat)
      requires kSize > 0 && gSize > 0 && Domain(kSize - 1, gSize) < 0x8000_0000_0000_0000
      ensures Valid() && Position() == 0 && mLeafIdx == 0 && this.c == c && this.numKeys == numKeys
      ensures mDEnd == kSize - 1 && this.gSize == gSize
      ensures fresh(mBuff) && fresh(mS) && fresh(mK) && fresh(mG) && fresh(mTcw)
    {
      var n8 := RoundUpTo8(numKeys);
      this.c, this.numKeys, mNumKeysRound8 := c, numKeys, n8;
      mDEnd, this.gSize := kSize - 1, gSize;
      mG := new Block[gSize, n8]((_, _) => Zero());
      mK := new Block[kSize, n8]((_, _) => Zero());
      mS := new Block[kSize, n8]((_, _) => Zero());
      mTcw := new Block[kSize, n8, 2]((_, _, _) => Zero());
      mBuff := new nat[128, numKeys];
      mD, mLeafIdx, mGIdx, mBIdx := 0, 0, gSize, 128;
      keys := seq(n8, _ => seq(kSize, _ => Zero()));
      groups := seq(n8, _ => seq(gSize, _ => Zero()));
      stale, outdated := {}, {};
      new;
      hide WordsSplit, Columns, Rows, Domain, Zero;
      ZeroColumns();
    }

    /** All-zero matrices hold all-zero keys, with the roots in row 0. */
    lemma ZeroColumns()
      requires Shaped() && mD == 0 && mLeafIdx == 0
      requires forall e, h | 0 <= e <= mDEnd && 0 <= h < mNumKeysRound8 :: mK[e, h] == mS[e, h] == Zero()
      requires forall i, h | 0 <= i < gSize && 0 <= h < mNumKeysRound8 :: mG[i, h] == Zero()
      requires forall e, h, b | 0 <= e <= mDEnd && 0 <= h < mNumKeysRound8 && 0 <= b < 2 :: mTcw[e, h, b] == Zero()
      requires keys == seq(mNumKeysRound8, _ => seq(mDEnd + 1, _ => Zero()))
      requires groups == seq(mNumKeysRound8, _ => seq(gSize, _ => Zero()))
      ensures Columns() && WordsSplit() && Rows()
    {
      hide TcwOf, RowHolds, Zero;
      ZeroWords();
      RootRow();
    }

    static lemma ZeroWords()
      ensures forall b | 0 <= b < 2 :: TcwOf(Zero(), b) == Zero()
    {}

    /**
      Puts a key in column `i`; false where the source throws, with nothing changed. Between calls of Yield this is
      allowed too, but then the column's cached seeds and its buffer are still those of the earlier key.
     */
    method SetKey(i: nat, k: seq<Block>, g: seq<Block>) returns (ok: bool)
      requires Valid() && i < numKeys
      modifies `keys, `groups, `stale, `outdated, mS, mK, mTcw, mG
      ensures Valid() && ok == (|k| == mDEnd + 1 && |g| == gSize)
      ensures keys == if ok then old(keys)[i := k] else old(keys)
      ensures groups == if ok then old(groups)[i := g] else old(groups)
      ensures stale == if ok then old(stale) + {i} else old(stale)
      ensures outdated == if ok then old(outdated) + {i} else old(outdated)
    {
      hide WordsSplit, RowHolds, Buffered;
      if |k| != mK.Length0 || |g| != mG.Length0 {
        return false;
      }
      ok := true;
      SetColumn(i, k, g);
      stale, outdated := stale + {i}, outdated + {i};
      OthersKeep(i);
      RootRow();
    }

    /** Writes a key of the right size to its column. */
    method SetColumn(i: nat, k: seq<Block>, g: seq<Block>)
      requires Shaped() && WordsSplit() && Columns() && i < numKeys && |k| == mDEnd + 1 && |g| == gSize
      modifies `keys, `groups, mS, mK, mTcw, mG
      ensures WordsSplit() && Columns() && keys == old(keys)[i := k] && groups == old(groups)[i := g]
      ensures forall e, h | 0 <= e <= mDEnd && 0 <= h < mNumKeysRound8 && h != i :: mS[e, h] == old(mS[e, h])
    {
      hide WordsSplit;
      mS[0, i] := k[0];
      SetWords(i, k);
      SetGroup(i, g);
      keys, groups := keys[i := k], groups[i := g];
    }

    /** What holds of the other columns does so after a key is set in another one. */
    twostate lemma OthersKeep(i: nat)
      requires Shaped() && old(Columns()) && Columns()
      requires stale == old(stale) + {i} && outdated == old(outdated) + {i}
      requires forall h | 0 <= h < mNumKeysRound8 && h != i :: keys[h] == old(keys)[h] && groups[h] == old(groups)[h]
      requires forall e, h | 0 <= e <= mDEnd && 0 <= h < mNumKeysRound8 && h != i :: mS[e, h] == old(mS[e, h])
      requires forall x, h | 0 <= x < 128 && 0 <= h < numKeys :: mBuff[x, h] == old(mBuff[x, h])
      ensures forall e: nat, idx: nat | 0 < e <= mDEnd && old(RowHolds(e, idx)) :: RowHolds(e, idx)
      ensures forall leaf: nat, m: nat | m < gSize && old(Buffered(leaf, m)) :: Buffered(leaf, m)
    {
      hide Node, LeafBit, PathTo, Columns;
    }

    method SetGroup(i: nat, g: seq<Block>)
      requires Shaped() && i < numKeys && |g| == gSize
      modifies mG
      ensures forall m, h | 0 <= m < gSize && 0 <= h < mNumKeysRound8 ::
              mG[m, h] == if h == i then g[m] else old(mG[m, h])
    {
      for gIdx := 0 to gSize
        modifies mG
        invariant forall m, h | 0 <= m < gSize && 0 <= h < mNumKeysRound8 ::
          mG[m, h] == if h == i && m < gIdx then g[m] else old(mG[m, h])
      {
        mG[gIdx, i] := g[gIdx];
      }
    }

    method SetWords(i: nat, k: seq<Block>)
      requires Shaped() && WordsSplit() && i < numKeys && |k| == mDEnd + 1
      modifies mK, mTcw
      ensures WordsSplit()
      ensures forall e, h | 0 <= e < mDEnd && 0 <= h < mNumKeysRound8 ::
              mK[e, h] == if h == i then k[e + 1] else old(mK[e, h])
    {
      hide TcwOf;
      for d := 0 to mDEnd
        invariant WordsSplit()
        invariant forall e, h | 0 <= e < mDEnd && 0 <= h < mNumKeysRound8 ::
          mK[e, h] == if h == i && e < d then k[e + 1] else old(mK[e, h])
      {
        mK[d, i] := k[d + 1];
        mTcw[d, i, 0] := And(Srl64(mK[d, i], 1), One());
        mTcw[d, i, 1] := And(mK[d, i], One());
        TcwSplit(mK[d, i]);
      }
    }

    static lemma TcwSplit(kw: Block)
      ensures TcwOf(kw, 0) == And(Srl64(kw, 1), One()) && TcwOf(kw, 1) == And(kw, One())
    {}

    /** Row 0 holds the roots, whatever the leaf. */
    lemma RootRow()
      requires Shaped() && Columns()
      ensures forall idx: nat :: RowHolds(0, idx)
    {}

    /** The position is in range, and at its end exactly when everything is used up. */
    lemma PositionBounds()
      requires Valid()
      ensures 0 <= Position() <= Domain(mDEnd, gSize)
      ensures Position() == Domain(mDEnd, gSize) <==> mLeafIdx == Pow2(mDEnd) && mGIdx == gSize && mBIdx == 128
      ensures mLeafIdx > 0 ==> Position() == LeafStart(gSize, mLeafIdx - 1) + 128 * mGIdx + mBIdx - 128
      ensures mLeafIdx == 0 ==> Position() == 0
      ensures mLeafIdx <= Pow2(mDEnd)
    {
      hide WordsSplit, RowHolds, Columns, Buffered, LeafStart;
      Server.LeafStartEdges(gSize, mDEnd);
      if mLeafIdx > 0 {
        Server.LeafStartStep(gSize, mLeafIdx - 1);
      }
      if mLeafIdx < Pow2(mDEnd) {
        Server.LeafStartStep(gSize, mLeafIdx);
        Server.LeafStartMonotone(gSize, mLeafIdx + 1, Pow2(mDEnd));
      }
    }

    /** Walks every key down to leaf mLeafIdx, and climbs for the one after it. */
    method NextLeaf()
      requires Shaped() && WordsSplit() && Columns() && Rows() && mLeafIdx < Pow2(mDEnd)
      modifies `mD, `mLeafIdx, `stale, mS
      ensures Columns() && Rows() && mLeafIdx == old(mLeafIdx) + 1
      ensures stale == old(if FromRoot() then {} else stale)
    {
      hide WordsSplit, RowHolds, Node, Climb;
      if mD == 0 {
        stale := {};
        RootRow();
      }
      while mD != mDEnd
        modifies `mD, mS
        invariant mD <= mDEnd && Columns() && forall e | 0 <= e <= mD :: RowHolds(e, mLeafIdx)
        decreases mDEnd - mD
      {
        StepRow();
        mD := mD + 1;
      }
      Server.DepthBound(mDEnd, gSize);
      if mLeafIdx + 1 < Pow2(mDEnd) {
        ClimbRows(mLeafIdx + 1);
      }
      mD := Climb(mD, mLeafIdx);
      mLeafIdx := mLeafIdx + 1;
    }

    /** Fills row mD + 1 from row mD. */
    method StepRow()
      requires Shaped() && WordsSplit() && Columns() && mD < mDEnd && mLeafIdx < Pow2(mDEnd)
      requires forall e | 0 <= e <= mD :: RowHolds(e, mLeafIdx)
      modifies mS
      ensures Columns() && forall e | 0 <= e <= mD + 1 :: RowHolds(e, mLeafIdx)
    {
      hide Node, TraverseOne, TcwOf, Pow2, PathTo, Shr, WordsSplit, RowBelow;
      var keep := Shr(mLeafIdx, mDEnd - 1 - mD) % 2;
      StepReady(keep);
      ghost var target := RowBelow(keep);
      FillRow(keep, target);
      forall e | 0 <= e <= mD + 1 ensures RowHolds(e, mLeafIdx) {
        if e <= mD {
          assert old(RowHolds(e, mLeafIdx));
        }
      }
    }

    /** What the seeds of row mD step to. */
    ghost function RowBelow(keep: nat): (r: seq<Block>)
      requires Shaped() && mD < mDEnd && keep < 2
      reads this, mS, mK
      ensures |r| == mNumKeysRound8 && forall h | 0 <= h < |r| :: r[h] == TraverseOne(c, mS[mD, h], mK[mD, h], keep)
    {
      seq(mNumKeysRound8, h requires 0 <= h < mNumKeysRound8 && Shaped() && mD < mDEnd && keep < 2 reads this, mS, mK =>
        TraverseOne(c, mS[mD, h], mK[mD, h], keep))
    }

    /** One step of every column, eight at a time in the source. */
    method FillRow(keep: nat, ghost target: seq<Block>)
      requires Shaped() && WordsSplit() && mD < mDEnd && keep < 2 && |target| == mNumKeysRound8
      requires forall h | 0 <= h < mNumKeysRound8 :: TraverseOne(c, mS[mD, h], mK[mD, h], keep) == target[h]
      modifies mS
      ensures forall h | 0 <= h < mNumKeysRound8 :: mS[mD + 1, h] == target[h]
      ensures forall e, h | 0 <= e <= mDEnd && e != mD + 1 && 0 <= h < mNumKeysRound8 :: mS[e, h] == old(mS[e, h])
    {
      hide TraverseOne, TcwOf;
      for h := 0 to mNumKeysRound8
        invariant forall l | 0 <= l < h :: mS[mD + 1, l] == target[l]
        invariant forall e, l | 0 <= e <= mDEnd && e != mD + 1 && 0 <= l < mNumKeysRound8 :: mS[e, l] == old(mS[e, l])
      {
        var next := StepSeed(c, mS[mD, h], mTcw[mD, h, keep], mK[mD, h], keep);
        mS[mD + 1, h] := next;
      }
    }

    /** Row mD steps to the seeds of the row below. */
    lemma StepReady(keep: nat)
      requires Shaped() && Columns() && mD < mDEnd && RowHolds(mD, mLeafIdx)
               && keep == Shr(mLeafIdx, mDEnd - 1 - mD) % 2
      ensures forall h | 0 <= h < mNumKeysRound8 && h !in stale ::
                TraverseOne(c, mS[mD, h], mK[mD, h], keep) == Node(c, keys[h], mD + 1, PathTo(mLeafIdx, mDEnd, mD + 1))
    {
      hide Node, TraverseOne, PathTo, Shr;
      StepSide();
      forall h | 0 <= h < mNumKeysRound8 && h !in stale
        ensures TraverseOne(c, mS[mD, h], mK[mD, h], keep) == Node(c, keys[h], mD + 1, PathTo(mLeafIdx, mDEnd, mD + 1))
      {
        NodeStep(c, keys[h], mDEnd, mD, mLeafIdx);
      }
    }

    /** The source's choice of a side is the last turn of the path to the row below. */
    lemma StepSide()
      requires mD < mDEnd
      ensures Shr(mLeafIdx, mDEnd - 1 - mD) == PathTo(mLeafIdx, mDEnd, mD + 1)
    {}

    static lemma NodeStep(c: Ciphers, k: seq<Block>, depth: nat, n: nat, idx: nat)
      requires n < depth && |k| == depth + 1
      ensures Node(c, k, n + 1, PathTo(idx, depth, n + 1))
           == TraverseOne(c, Node(c, k, n, PathTo(idx, depth, n)), k[n + 1], PathTo(idx, depth, n + 1) % 2)
    {
      hide TraverseOne;
      PathStep(idx, depth, n + 1);
    }

    lemma ClimbRows(next: nat)
      requires Shaped() && Columns() && next == mLeafIdx + 1 < Pow2(mDEnd) && mDEnd < WORD
      requires forall e | 0 <= e <= mDEnd :: RowHolds(e, mLeafIdx)
      ensures Climb(mDEnd, mLeafIdx) < mDEnd && forall e | 0 <= e <= Climb(mDEnd, mLeafIdx) :: RowHolds(e, next)
      ensures mDEnd > 0 && (Climb(mDEnd, mLeafIdx) == 0 <==> next == Pow2(mDEnd - 1))
    {
      hide Climb, PathTo, Node, Columns;
      ClimbLands(mLeafIdx, mDEnd);
      ClimbsToRoot(mLeafIdx, mDEnd);
      forall e | 0 <= e <= Climb(mDEnd, mLeafIdx)
        ensures RowHolds(e, next)
      {
        assert RowHolds(e, mLeafIdx) && PathTo(next, mDEnd, e) == PathTo(mLeafIdx, mDEnd, e);
      }
    }

    /** Expands group block mGIdx of the seeds in the bottom row, one byte a point. */
    method FillBuffer()
      requires Shaped() && Columns() && Rows() && mLeafIdx > 0 && mGIdx < gSize
      modifies `outdated, mBuff
      ensures forall x, h | 0 <= x < 128 && 0 <= h < numKeys ::
              mBuff[x, h] == Bit(LeafBit(c, mS[mDEnd, h], groups[h], 128 * mGIdx + x))
      ensures outdated == (if mDEnd == 0 then {} else stale) && Buffered(mLeafIdx - 1, mGIdx)
    {
      hide Node, Xor, And, AllOf, LeafBit, RowHolds, Buffered;
      for h := 0 to mNumKeysRound8
        invariant forall x, l | 0 <= x < 128 && 0 <= l < numKeys && l < h ::
          mBuff[x, l] == Bit(LeafBit(c, mS[mDEnd, l], groups[l], 128 * mGIdx + x))
      {
        var t := Lsb(mS[mDEnd, h]);
        var temp := Xor(And(mS[mDEnd, h], NotThree()), ToBlock(mGIdx));
        temp := Xor(temp, c.aes0(temp));
        temp := Xor(temp, And(mG[mGIdx, h], AllOf(t)));
        if h < numKeys {
          BottomWord(h, temp);
          FillColumn(h, temp);
        }
      }
      outdated := if mDEnd == 0 then {} else stale;
      BottomRow();
    }

    lemma BottomWord(h: nat, word: Block)
      requires Shaped() && Columns() && mGIdx < gSize && h < mNumKeysRound8
      requires var input := Xor(And(mS[mDEnd, h], NotThree()), ToBlock(mGIdx));
               word == Xor(Xor(input, c.aes0(input)), And(mG[mGIdx, h], AllOf(Lsb(mS[mDEnd, h]))))
      ensures forall x: nat | x < 128 :: LeafBit(c, mS[mDEnd, h], groups[h], 128 * mGIdx + x) == word[BitPos(x)]
    {
      hide Node, LeafWord, Xor, And, AllOf, LeafBit, BitPos;
      LeafWordOf(c, mS[mDEnd, h], groups[h], mGIdx);
      WordBits(c, mS[mDEnd, h], groups[h], mGIdx);
    }

    /** Spreads the 128 points of a word down column `h` of the buffer. */
    method FillColumn(h: nat, word: Block)
      requires Shaped() && h < numKeys
      modifies mBuff
      ensures forall y, l | 0 <= y < 128 && 0 <= l < numKeys && l != h :: mBuff[y, l] == old(mBuff[y, l])
      ensures forall y: nat | y < 128 :: mBuff[y, h] == Bit(word[BitPos(y)])
    {
      hide Spread, BitPos, ByteAt;
      var row := [];
      for b := 0 to 8
        modifies {}
        invariant |row| == b && forall b' | 0 <= b' < b :: row[b'] == Spread(word, b')
      {
        row := row + [Spread(word, b)];
      }
      for x := 0 to 128
        invariant forall y, l | 0 <= y < 128 && 0 <= l < numKeys && l != h :: mBuff[y, l] == old(mBuff[y, l])
        invariant forall y: nat | y < x :: mBuff[y, h] == Bit(word[BitPos(y)])
      {
        SpreadByte(word, x);
        mBuff[x, h] := ByteView(row, x);
      }
    }

    /** Where the bottom row holds the seeds of the leaf, the buffer holds its shares. */
    lemma BottomRow()
      requires Shaped() && Columns() && mLeafIdx > 0 && RowHolds(mDEnd, mLeafIdx - 1) && mGIdx < gSize
      requires outdated == if mDEnd == 0 then {} else stale
      requires forall x, h | 0 <= x < 128 && 0 <= h < numKeys ::
                 mBuff[x, h] == Bit(LeafBit(c, mS[mDEnd, h], groups[h], 128 * mGIdx + x))
      ensures Buffered(mLeafIdx - 1, mGIdx)
    {
      hide Node, LeafBit, PathTo;
      BottomPath(mLeafIdx - 1);
    }

    lemma BottomPath(leaf: nat)
      ensures PathTo(leaf, mDEnd, mDEnd) == leaf
    {}

    static lemma WordBits(c: Ciphers, s: Block, g: seq<Block>, i: nat)
      requires i < |g|
      ensures forall x: nat | x < 128 :: LeafBit(c, s, g, 128 * i + x) == LeafWord(c, s, g, i)[BitPos(x)]
    {
      hide LeafWord, BitPos;
      forall x: nat | x < 128 ensures LeafBit(c, s, g, 128 * i + x) == LeafWord(c, s, g, i)[BitPos(x)] {
        assert (128 * i + x) / 128 == i && (128 * i + x) % 128 == x;
      }
    }

    /**
      The next shares of every key whose column is not outdated, or nothing where the source throws because the domain
      is exhausted. The throw leaves the group index reset, so the call after it replays the last leaf. Until the
      buffer is used up a column yields what was filled in, whatever its key is by then.
     */
    method Yield() returns (r: Option<seq<nat>>)
      requires Valid()
      modifies `mD, `mLeafIdx, `mGIdx, `mBIdx, `stale, `outdated, mS, mBuff
      ensures Valid() && 0 <= old(Position()) <= Domain(mDEnd, gSize)
      ensures old(Position()) < Domain(mDEnd, gSize) ==>
                r.Some? && AreShares(r.value, c, keys, groups, numKeys, old(Position()), outdated)
                && Position() == old(Position()) + 1
      ensures old(Position()) < Domain(mDEnd, gSize) ==> stale == old(NextStale()) && outdated == old(NextOutdated())
      ensures old(mBIdx) < 128 ==>
                r.Some? && |r.value| == numKeys && forall h | 0 <= h < numKeys :: r.value[h] == old(mBuff[mBIdx, h])
      ensures old(Position()) == Domain(mDEnd, gSize) ==>
                r == None && Position() == Domain(mDEnd, gSize) - GroupPoints(gSize) && stale == old(stale)
    {
      hide WordsSplit, RowHolds, Rows, Columns, Buffered, Eval, LeafStart, Domain;
      PositionBounds();
      if mBIdx == 128 {
        var more := Refill();
        if !more {
          PositionBounds();
          return None;
        }
      }
      ReadyShares();
      var b := mBIdx;
      var row := seq<nat>(numKeys, h requires 0 <= h < numKeys reads mBuff, this => mBuff[b, h]);
      assert AreShares(row, c, keys, groups, numKeys, Position(), outdated);
      r := Some(row);
      mBIdx := mBIdx + 1;
    }

    /** The next row of the buffer is computed and not yet handed out. */
    ghost predicate Ready()
      reads this, mS, mK, mG, mTcw, mBuff
    {
      && Shaped() && WordsSplit() && Columns() && Rows()
      && mLeafIdx > 0 && 0 < mGIdx <= gSize && mBIdx < 128 && Buffered(mLeafIdx - 1, mGIdx - 1)
    }

    /** Moves to the next group block, and to the next leaf after the last one. */
    method Refill() returns (more: bool)
      requires Valid() && mBIdx == 128
      modifies `mD, `mLeafIdx, `mGIdx, `mBIdx, `stale, `outdated, mS, mBuff
      ensures more == !(old(mGIdx) == gSize && old(mLeafIdx) == Pow2(mDEnd))
      ensures more ==> Ready() && Position() == old(Position())
      ensures more ==> stale == old(NextStale()) && outdated == old(NextOutdated())
      ensures !more ==> Valid() && mBIdx == 128 && mGIdx == 0 && mLeafIdx == old(mLeafIdx) && stale == old(stale)
    {
      hide WordsSplit, RowHolds, Rows, Columns, Buffered, LeafStart, Domain;
      assert mLeafIdx <= Pow2(mDEnd) by { PositionBounds(); }
      if mGIdx == gSize {
        mGIdx := 0;
        if mLeafIdx == Pow2(mDEnd) {
          return false;
        }
        Server.LeafStartStep(gSize, mLeafIdx);
        NextLeaf();
      }
      mBIdx := 0;
      FillBuffer();
      mGIdx := mGIdx + 1;
      more := true;
    }

    /** A buffer that is not used up holds the shares of the keys it was filled for. */
    lemma BufferedShares()
      requires Valid() && mBIdx < 128
      ensures 0 <= Position() && |keys| == |groups| && numKeys <= |keys|
      ensures forall h | 0 <= h < numKeys :: |keys[h]| > 0 && |groups[h]| > 0
      ensures forall h | 0 <= h < numKeys && h !in outdated ::
              mBuff[mBIdx, h] == Bit(Eval(c, keys[h], groups[h], Position()))
    {
      hide WordsSplit, Columns, Rows, Buffered, Eval, LeafStart;
      ReadyShares();
    }

    lemma ReadyShares()
      requires Ready()
      ensures 0 <= Position() && |keys| == |groups| && numKeys <= |keys|
      ensures forall h | 0 <= h < numKeys :: |keys[h]| > 0 && |groups[h]| > 0
      ensures forall h | 0 <= h < numKeys && h !in outdated ::
              mBuff[mBIdx, h] == Bit(Eval(c, keys[h], groups[h], Position()))
    {
      hide WordsSplit, Rows, LeafBit, Eval, Node, LeafStart;
      var leaf, x := mLeafIdx - 1, 128 * (mGIdx - 1) + mBIdx;
      Server.LeafStartStep(gSize, leaf);
      forall h | 0 <= h < numKeys && h !in outdated
        ensures mBuff[mBIdx, h] == Bit(Eval(c, keys[h], groups[h], Position()))
      {
        EvalLeaf(c, keys[h], groups[h], leaf, x);
      }
    }
  }

  /** Two groups of one block that differ at point 1, where the t bit is set. */
  lemma DifferentShares(c: Ciphers)
    ensures Eval(c, [One()], [Zero()], 1) != Eval(c, [One()], [AllOf(true)], 1)
  {
    hide Xor, And, ToBlock, Expand, BitPos;
    var e := Expand(c, One(), 0);
    assert Xor(e, And(Zero(), AllOf(true)))[BitPos(1)] != Xor(e, And(AllOf(true), AllOf(true)))[BitPos(1)] by {
      WordBit(e, Zero(), BitPos(1));
      WordBit(e, AllOf(true), BitPos(1));
    }
  }

  lemma WordBit(e: Block, g: Block, i: nat)
    requires i < 128
    ensures Xor(e, And(g, AllOf(true)))[i] == (e[i] != g[i])
  {}

  /** A multi-key after its first call, with the next share in its buffer. */
  method FirstCall(c: Ciphers) returns (m: MultiKey)
    ensures fresh(m) && fresh(m.mBuff) && fresh(m.mS) && fresh(m.mK) && fresh(m.mG) && fresh(m.mTcw)
    ensures m.Valid() && m.numKeys == m.gSize == 1 && m.mDEnd == 0 && m.Position() == 1 && m.mBIdx < 128
    ensures m.mBuff[m.mBIdx, 0] == Bit(Eval(c, [One()], [Zero()], 1))
  {
    hide Eval;
    m := new MultiKey(c, 1, 1, 1);
    var ok := m.SetKey(0, [One()], [Zero()]);
    m.PositionBounds();
    var r := m.Yield();
    m.PositionBounds();
    m.BufferedShares();
  }

  /** A wrong share, whatever the ciphers: a key set before the second call is not the one whose share it returns. */
  method RekeyedShare(c: Ciphers) returns (shares: seq<nat>)
    ensures |shares| == 1 && shares[0] == Bit(Eval(c, [One()], [Zero()], 1))
    ensures shares[0] != Bit(Eval(c, [One()], [AllOf(true)], 1))
  {
    hide Eval;
    DifferentShares(c);
    var m := FirstCall(c);
    var ok := m.SetKey(0, [One()], [AllOf(true)]);
    var r := m.Yield();
    shares := r.value;
  }
}
