/** The single-threaded cuckoo table, whose stash grows and which never refuses a batch. */
module SimpleCuckoo {
  import opened CuckooChain
  import opened CuckooTable
  import opened CuckooRounds

  class SimpleCuckoo {
    const nh: nat
    const mHashes: array<seq<nat>>
    const mBins: array<nat>
    var mStash: seq<nat>
    /** The items in the slots, each as often as it is there, and those that a lookup finds: all of them. */
    ghost var held: multiset<nat>
    ghost var live: set<nat>

    ghost predicate Valid()
      reads this, mHashes, mBins
    {
      && mHashes as object != mBins
      && Holds(mHashes[..], nh, mBins[..], mStash, held, live)
      && (forall x | x in held :: x in live)
      && forall i | 0 <= i < |mStash| :: mStash[i] != EMPTY
    }

    constructor (n: nat, numHashes: nat, binCount: nat)
      requires 0 < numHashes < 255 && n < SHIFT && binCount > 0
      ensures Valid() && held == multiset{} && live == {} && nh == numHashes && mHashes.Length == n
              && mBins.Length == binCount && mStash == []
      ensures fresh(mHashes) && fresh(mBins)
    {
      nh := numHashes;
      mHashes := new seq<nat>[n](_ => seq<nat>(numHashes, _ => 0));
      mBins := new nat[binCount](_ => EMPTY);
      mStash := [];
      held, live := multiset{}, {};
      new;
      hide Occupants, Homed, Address;
      var none: multiset<nat> := multiset{};
      assert none + none + none == none;
      assert mBins[..] == seq(binCount, _ => EMPTY);
      OccupantsEmpty(binCount);
      OccupantsNone();
    }

    /**
      Inserts a batch, whose items may repeat and may be in the table already; what a hundred rounds
      cannot place joins the stash, so nothing is ever lost.
     */
    method InsertBatch(inputIdxs: array<nat>, hashs: seq<seq<nat>>, w: Workspace)
      requires Valid() && BatchOk(mHashes.Length, nh, inputIdxs[..], hashs)
      requires Fits(w, inputIdxs.Length) && Separate(mHashes, mBins, inputIdxs, w)
      modifies mHashes, mBins, `mStash, `held, `live, inputIdxs, w.curAddrs, w.curHashIdxs, w.oldVals
      ensures Valid() && old(mStash) <= mStash
      ensures held == old(held) + multiset(old(inputIdxs[..])) && live == old(live) + Members(old(inputIdxs[..]))
      ensures RowsRecorded(old(mHashes[..]), mHashes[..], old(inputIdxs[..]), hashs)
      ensures (mBins[..], mStash[|old(mStash)|..]) == Rounds(mHashes[..], nh, old(mBins[..]), old(inputIdxs[..]), 100)
    {
      hide Holds, InProgress, Occupants, HandSeq, RowsRecorded, Rounds;
      ghost var items := inputIdxs[..];
      RecordBatch(mHashes, nh, mBins[..], mStash, held, live, inputIdxs, hashs, w.curHashIdxs);
      BatchInHand(mHashes[..], nh, mBins[..], mStash, held, live, items, hashs, w.curHashIdxs[..]);
      held, live := held + multiset(items), live + Members(items);
      ghost var rows := mHashes[..];
      AtFirstHash(items, w.curHashIdxs[..]);
      BinsThere(rows, nh, mBins[..], mStash, held, live, items, w.curHashIdxs[..], |items|);
      var remaining := PushThrough(mHashes, nh, mBins, mStash, held, live, inputIdxs, w, inputIdxs.Length);
      assert mHashes[..] == rows;
      ghost var idxs, hs, bins, stash := inputIdxs[..], w.curHashIdxs[..], mBins[..], mStash;
      ghost var hand := HandSeq(idxs, hs, 0, remaining);
      for i := 0 to remaining
        modifies `mStash
        invariant mStash == stash + hand[..i]
        invariant inputIdxs[..] == idxs && w.curHashIdxs[..] == hs && mBins[..] == bins && mHashes[..] == rows
      {
        HandAt(idxs, hs, remaining, i);
        mStash := mStash + [Pack(inputIdxs[i], w.curHashIdxs[i])];
      }
      assert hand[..remaining] == hand;
      Stashed(rows, bins, stash, held, live, idxs, hs, remaining);
    }

    static lemma HandAt(idxs: seq<nat>, hs: seq<nat>, n: nat, i: nat)
      requires i < n <= |idxs| && n <= |hs|
      ensures HandSeq(idxs, hs, 0, n)[..i + 1] == HandSeq(idxs, hs, 0, n)[..i] + [Pack(idxs[i], hs[i])]
    {
      hide Pack;
    }

    /** A filled stash with the hand behind it holds everybody. */
    lemma Stashed(rows: Rows, bins: seq<nat>, stash: seq<nat>, all: multiset<nat>, found: set<nat>, idxs: seq<nat>,
                  hs: seq<nat>, n: nat)
      requires n <= |idxs| && n <= |hs| && InProgress(rows, nh, bins, stash, all, found, idxs, hs, n)
      requires forall i | 0 <= i < |stash| :: stash[i] != EMPTY
      ensures Holds(rows, nh, bins, stash + HandSeq(idxs, hs, 0, n), all, found)
      ensures forall i | 0 <= i < |stash| + n :: (stash + HandSeq(idxs, hs, 0, n))[i] != EMPTY
    {
      hide Occupants, HandSeq, Homed;
      var hand := HandSeq(idxs, hs, 0, n);
      HandFilled(rows, nh, idxs, hs, n);
      OccupantsAppend(stash, hand);
      assert Occupants(bins) + Occupants(stash + hand) + multiset{}
          == Occupants(bins) + Occupants(stash) + Occupants(hand);
      forall x | x in found ensures x in Homed(rows, nh, bins, |bins|) + Occupants(stash + hand) + multiset{} {
        assert x in Homed(rows, nh, bins, |bins|) + Occupants(stash) + Occupants(hand);
      }
    }

    /** The item in bin `b` if it has vector `q`, and EMPTY otherwise. */
    method LookInBin(b: nat, q: seq<nat>) returns (r: nat)
      requires Valid() && b < mBins.Length && |q| == nh
      ensures HeldMatch(mHashes[..], held, q, r) && (r == EMPTY ==> NoMatch(mHashes[..], mBins[b], q))
    {
      hide Holds, IdxOf;
      if mBins[b] != EMPTY {
        SlotIsHeld(mHashes[..], nh, mBins[..], mStash, held, live, mBins[..], b);
        var m := Matches(mHashes, nh, mBins[b], q);
        if m {
          return IdxOf(mBins[b]);
        }
      }
      r := EMPTY;
    }

    /** Scans the whole stash; the last match wins. */
    method LookInStash(q: seq<nat>) returns (r: nat)
      requires Valid() && |q| == nh && NotInBins(mHashes[..], mBins[..], q, nh)
      ensures Answers(mHashes[..], held, live, q, r)
    {
      hide Holds, IdxOf, NotInBins;
      r := EMPTY;
      var j := 0;
      while j < |mStash| && mStash[j] != EMPTY
        invariant j <= |mStash| && HeldMatch(mHashes[..], held, q, r)
        invariant r == EMPTY ==> NotInStash(mHashes[..], mStash, q, j)
      {
        SlotIsHeld(mHashes[..], nh, mBins[..], mStash, held, live, mStash, j);
        var m := Matches(mHashes, nh, mStash[j], q);
        if m {
          r := IdxOf(mStash[j]);
        }
        j := j + 1;
      }
      if r == EMPTY {
        AbsentAnswers(mHashes[..], nh, mBins[..], mStash, held, live, q, j);
      }
    }

    lemma SomeBins()
      requires Valid()
      ensures mBins.Length > 0 && nh > 0
    {}

    /** Looks up many vectors, for any number of hash functions. */
    method FindBatch(hashes: seq<seq<nat>>, idxs: array<nat>)
      requires Valid() && idxs.Length == |hashes| && forall i | 0 <= i < |hashes| :: |hashes[i]| == nh
      requires idxs != mBins && idxs as object != mHashes
      modifies idxs
      ensures forall i | 0 <= i < |hashes| :: Answers(mHashes[..], held, live, hashes[i], idxs[i])
    {
      hide Holds, NoMatch, Answers;
      SomeBins();
      for i := 0 to |hashes|
        invariant Valid() && forall m | 0 <= m < i :: Answers(mHashes[..], held, live, hashes[m], idxs[m])
      {
        var r := FindOne(hashes[i]);
        idxs[i] := r;
      }
    }

    /**
      One query of a batch. With two hash functions the second bin overrides the first; otherwise the first match
      stands.
     */
    method FindOne(q: seq<nat>) returns (r: nat)
      requires Valid() && |q| == nh
      ensures Answers(mHashes[..], held, live, q, r)
    {
      hide Holds, NoMatch;
      SomeBins();
      r := EMPTY;
      if nh == 2 {
        var r0 := LookInBin(q[0] % mBins.Length, q);
        var r1 := LookInBin(q[1] % mBins.Length, q);
        r := if r1 != EMPTY then r1 else r0;
      } else {
        var j := 0;
        while j < nh && r == EMPTY
          invariant j <= nh && HeldMatch(mHashes[..], held, q, r)
          invariant r == EMPTY ==> NotInBins(mHashes[..], mBins[..], q, j)
        {
          r := LookInBin(q[j] % mBins.Length, q);
          j := j + 1;
        }
      }
      if r == EMPTY {
        r := LookInStash(q);
      }
    }
  }
}
