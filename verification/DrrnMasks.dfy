/**
  The three-party masking of the PIR-based protocol. Server 1 gives server 0 its mask behind a secret
  permutation; the client gives server 0 what it needs to apply that mask to its shares without
  learning which query a share belongs to.
 */
module DrrnMasks {
  import opened Bits
  import opened Blocks
  import opened Permutations

  // ----- server 1's shuffle -----

  /** Swapping positions 1 to m - 1 of a group, in this order, with those that `sigma` names. */
  function GroupSwaps(sigma: seq<nat>, m: nat): (r: seq<nat>)
    requires m <= |sigma| && forall j | 0 <= j < |sigma| :: sigma[j] < |sigma|
    ensures |r| == |sigma| && forall t | 0 <= t < |r| :: r[t] < |r|
  {
    if m <= 1 then seq<nat>(|sigma|, t requires 0 <= t < |sigma| => t)
    else
      var before := GroupSwaps(sigma, m - 1);
      before[m - 1 := before[sigma[m - 1]]][sigma[m - 1] := before[m - 1]]
  }

  /** The swap at m - 1 comes after those before it: it changes two positions, and without any nothing moves. */
  lemma LastSwap(sigma: seq<nat>, m: nat, t: nat)
    requires m <= |sigma| && (forall j | 0 <= j < |sigma| :: sigma[j] < |sigma|) && t < |sigma|
    ensures m <= 1 ==> GroupSwaps(sigma, m)[t] == t
    ensures m > 1 ==>
              GroupSwaps(sigma, m)[t] == GroupSwaps(sigma, m - 1)[if t == m - 1 then sigma[m - 1]
                                                                  else if t == sigma[m - 1] then m - 1 else t]
  {}

  lemma {:induction false} GroupSwapsPermute(sigma: seq<nat>, m: nat)
    requires m <= |sigma| && forall j | 0 <= j < |sigma| :: sigma[j] < |sigma|
    ensures IsPermutation(GroupSwaps(sigma, m))
  {
    if m > 1 {
      GroupSwapsPermute(sigma, m - 1);
    }
  }

  ghost predicate SigmasOk(sigmas: seq<seq<nat>>, h: nat) {
    h > 0 && forall i | 0 <= i < |sigmas| :: |sigmas[i]| == h && forall j | 0 <= j < h :: sigmas[i][j] < h
  }

  /** Which mask position k ends up with when the first n groups are shuffled. */
  ghost function From(sigmas: seq<seq<nat>>, h: nat, n: nat, k: nat): (f: nat)
    requires SigmasOk(sigmas, h) && n <= |sigmas|
  {
    var i := Quot(k, h);
    if i < n then i * h + GroupSwaps(sigmas[i], h)[Rem(k, h)] else k
  }

  lemma GroupPosition(i: nat, h: nat, t: nat)
    requires t < h
    ensures i * h + t >= 0 && Quot(i * h + t, h) == i && Rem(i * h + t, h) == t
  {
    Digits(i, h, t);
  }

  lemma FromIs(sigmas: seq<seq<nat>>, h: nat, n: nat, k: nat) returns (i: nat, t: nat, u: nat)
    requires SigmasOk(sigmas, h) && n <= |sigmas|
    ensures i == Quot(k, h) && t == Rem(k, h) < h && (i < n ==> u == GroupSwaps(sigmas[i], h)[t] < h)
    ensures From(sigmas, h, n, k) == if i < n then i * h + u else k
  {
    i, t := Quot(k, h), Rem(k, h);
    u := if i < n then GroupSwaps(sigmas[i], h)[t] else 0;
  }

  /** The shuffle keeps every mask in its group, and moves it exactly as the group's swaps do. */
  lemma FromInGroup(sigmas: seq<seq<nat>>, h: nat, n: nat, k: nat)
    requires SigmasOk(sigmas, h) && n <= |sigmas|
    ensures Quot(From(sigmas, h, n, k), h) == Quot(k, h)
    ensures From(sigmas, h, n, k) == k <==> Quot(k, h) >= n || GroupSwaps(sigmas[Quot(k, h)], h)[Rem(k, h)] == Rem(k, h)
  {
    hide *;
    var i, t, u := FromIs(sigmas, h, n, k);
    QuotRem(k, h);
    if i < n {
      GroupPosition(i, h, u);
      GroupPosition(i, h, t);
    }
  }

  lemma FromBelow(sigmas: seq<seq<nat>>, h: nat, n: nat, k: nat, size: nat)
    requires SigmasOk(sigmas, h) && n <= |sigmas| && n * h <= size && k < size
    ensures From(sigmas, h, n, k) < size
  {
    var i := Quot(k, h);
    if i < n {
      MultiplesApart(i, n, h);
    }
  }

  /** No two positions end up with the same mask. */
  lemma FromInjective(sigmas: seq<seq<nat>>, h: nat, n: nat, k: nat, k': nat)
    requires SigmasOk(sigmas, h) && n <= |sigmas| && From(sigmas, h, n, k) == From(sigmas, h, n, k')
    ensures k == k'
  {
    FromInGroup(sigmas, h, n, k);
    FromInGroup(sigmas, h, n, k');
    QuotRem(k, h);
    QuotRem(k', h);
    var i := Quot(k, h);
    if i < n {
      GroupSwapsPermute(sigmas[i], h);
      GroupPosition(i, h, GroupSwaps(sigmas[i], h)[Rem(k, h)]);
      GroupPosition(i, h, GroupSwaps(sigmas[i], h)[Rem(k', h)]);
    }
  }

  /** The masks after the first n groups. */
  ghost predicate Shuffled(before: seq<Block>, after: seq<Block>, sigmas: seq<seq<nat>>, h: nat, n: nat)
    requires SigmasOk(sigmas, h) && n <= |sigmas| && n * h <= |before|
  {
    |after| == |before| && forall k: nat | k < |before| :: HoldsMask(before, after, sigmas, h, n, k)
  }

  ghost predicate HoldsMask(before: seq<Block>, after: seq<Block>, sigmas: seq<seq<nat>>, h: nat, n: nat, k: nat)
    requires SigmasOk(sigmas, h) && n <= |sigmas| && n * h <= |before| == |after| && k < |before|
  {
    FromBelow(sigmas, h, n, k, |before|);
    after[k] == before[From(sigmas, h, n, k)]
  }

  /**
    Server 1's shuffle of its masks: within each item's group, position j swaps with the one that the
    item's shuffled `sigma` names, the first position excepted.
   */
  method ShuffleMasks(r: array<Block>, sigmas: seq<seq<nat>>, h: nat)
    requires SigmasOk(sigmas, h) && |sigmas| * h <= r.Length
    modifies r
    ensures Shuffled(old(r[..]), r[..], sigmas, h, |sigmas|)
  {
    hide From, GroupMoved;
    ghost var before := r[..];
    var rIter := 0;
    NothingShuffled(before, sigmas, h);
    for i := 0 to |sigmas|
      invariant rIter == i * h <= |before| == r.Length && Shuffled(before, r[..], sigmas, h, i)
    {
      hide Shuffled;
      MultiplesApart(i, |sigmas|, h);
      ghost var was := r[..];
      ShuffleGroup(r, sigmas, h, i, rIter);
      assert (i + 1) * h == i * h + h;
      GroupShuffled(before, was, r[..], sigmas, h, i);
      rIter := rIter + h;
    }
  }

  lemma NothingShuffled(before: seq<Block>, sigmas: seq<seq<nat>>, h: nat)
    requires SigmasOk(sigmas, h)
    ensures Shuffled(before, before, sigmas, h, 0)
  {}

  /** One group's swaps. */
  method ShuffleGroup(r: array<Block>, sigmas: seq<seq<nat>>, h: nat, i: nat, rIter: nat)
    requires SigmasOk(sigmas, h) && i < |sigmas| && rIter == i * h && rIter + h <= r.Length
    modifies r
    ensures GroupMoved(old(r[..]), r[..], sigmas[i], rIter)
  {
    var sigma := sigmas[i];
    hide SigmasOk;
    for j := 1 to h
      invariant forall t | 0 <= t < h :: r[rIter + t] == old(r[rIter + GroupSwaps(sigma, j)[t]])
      invariant forall k | 0 <= k < r.Length && (k < rIter || k >= rIter + h) :: r[k] == old(r[k])
    {
      r[rIter + j], r[rIter + sigma[j]] := r[rIter + sigma[j]], r[rIter + j];
    }
  }

  /** The group from `start` on has moved as its swaps do, and nothing else has. */
  ghost predicate GroupMoved(was: seq<Block>, after: seq<Block>, sigma: seq<nat>, start: nat)
    requires forall j | 0 <= j < |sigma| :: sigma[j] < |sigma|
  {
    && start + |sigma| <= |was| == |after|
    && (forall t | 0 <= t < |sigma| :: after[start + t] == was[start + GroupSwaps(sigma, |sigma|)[t]])
    && forall k | 0 <= k < |after| && (k < start || k >= start + |sigma|) :: after[k] == was[k]
  }

  lemma MovedAt(was: seq<Block>, after: seq<Block>, sigma: seq<nat>, start: nat, t: nat)
    requires (forall j | 0 <= j < |sigma| :: sigma[j] < |sigma|) && GroupMoved(was, after, sigma, start)
    requires t < |sigma|
    ensures start + |sigma| <= |was| == |after| && GroupSwaps(sigma, |sigma|)[t] < |sigma|
    ensures after[start + t] == was[start + GroupSwaps(sigma, |sigma|)[t]]
  {}

  /** A position of another group. */
  lemma OtherGroup(h: nat, i: nat, k: nat)
    requires h > 0 && Quot(k, h) != i
    ensures k < i * h || k >= i * h + h
  {
    QuotRem(k, h);
    if Quot(k, h) < i {
      MultiplesApart(Quot(k, h), i, h);
    } else {
      MultiplesApart(i, Quot(k, h), h);
    }
  }

  lemma SigmaOk(sigmas: seq<seq<nat>>, h: nat, i: nat)
    requires SigmasOk(sigmas, h) && i < |sigmas|
    ensures |sigmas[i]| == h > 0 && forall j | 0 <= j < h :: sigmas[i][j] < h
  {}

  lemma MaskHere(before: seq<Block>, was: seq<Block>, after: seq<Block>, sigmas: seq<seq<nat>>, h: nat, i: nat, k: nat)
    requires SigmasOk(sigmas, h) && i < |sigmas| && i * h + h == (i + 1) * h <= |before| == |was| == |after|
    requires Shuffled(before, was, sigmas, h, i) && GroupMoved(was, after, sigmas[i], i * h) && k < |before|
    ensures HoldsMask(before, after, sigmas, h, i + 1, k)
  {
    hide From, GroupMoved, GroupSwaps, SigmasOk;
    SigmaOk(sigmas, h, i);
    var q, t, u := FromIs(sigmas, h, i + 1, k);
    QuotRem(k, h);
    if q == i {
      var from: nat := i * h + u;
      GroupPosition(i, h, u);
      var q', t', u' := FromIs(sigmas, h, i, from);
      MovedAt(was, after, sigmas[i], i * h, t);
      assert HoldsMask(before, was, sigmas, h, i, from);
    } else {
      var q', t', u' := FromIs(sigmas, h, i, k);
      OtherGroup(h, i, k);
      assert after[k] == was[k] by { StaysAt(was, after, sigmas[i], i * h, k); }
      assert HoldsMask(before, was, sigmas, h, i, k);
    }
  }

  lemma StaysAt(was: seq<Block>, after: seq<Block>, sigma: seq<nat>, start: nat, k: nat)
    requires (forall j | 0 <= j < |sigma| :: sigma[j] < |sigma|) && GroupMoved(was, after, sigma, start)
    requires k < |after| && (k < start || k >= start + |sigma|)
    ensures |was| == |after| && after[k] == was[k]
  {}

  /** The next group's swaps on top of those before it. */
  lemma GroupShuffled(before: seq<Block>, was: seq<Block>, after: seq<Block>, sigmas: seq<seq<nat>>, h: nat, i: nat)
    requires SigmasOk(sigmas, h) && i < |sigmas| && i * h + h == (i + 1) * h <= |before| == |was| == |after|
    requires Shuffled(before, was, sigmas, h, i)
    requires GroupMoved(was, after, sigmas[i], i * h)
    ensures Shuffled(before, after, sigmas, h, i + 1)
  {
    hide HoldsMask, GroupMoved, SigmasOk;
    var n := i + 1;
    forall k: nat | k < |before| ensures HoldsMask(before, after, sigmas, h, n, k) {
      MaskHere(before, was, after, sigmas, h, i, k);
    }
  }

  /** Server 1, set up: its shuffled masks and the masks of the masks, permuted. */
  method PermutedMasks(r: seq<Block>, s: seq<Block>, pi1: seq<nat>) returns (pi1SigmaRS: seq<Block>)
    requires |r| == |s| == |pi1| && IsPermutation(pi1)
    ensures |pi1SigmaRS| == |r| && forall i | 0 <= i < |r| :: pi1SigmaRS[i] == Xor(r[pi1[i]], s[pi1[i]])
  {
    pi1SigmaRS := [];
    for i := 0 to |r|
      invariant |pi1SigmaRS| == i && forall k | 0 <= k < i :: pi1SigmaRS[k] == Xor(r[pi1[k]], s[pi1[k]])
    {
      pi1SigmaRS := pi1SigmaRS + [Xor(r[pi1[i]], s[pi1[i]])];
    }
  }

  /** The client inverts the permutation it shares with server 1. */
  method Invert(pi1: seq<nat>) returns (pi1Inv: array<nat>)
    requires IsPermutation(pi1)
    ensures fresh(pi1Inv) && pi1Inv.Length == |pi1|
    ensures forall y | 0 <= y < |pi1| :: pi1Inv[y] < |pi1| && pi1[pi1Inv[y]] == y
  {
    pi1Inv := new nat[|pi1|](_ => 0);
    for i := 0 to |pi1|
      invariant forall k | 0 <= k < i :: pi1Inv[pi1[k]] == k
    {
      pi1Inv[pi1[i]] := i;
    }
    forall y | 0 <= y < |pi1| ensures pi1Inv[y] < |pi1| && pi1[pi1Inv[y]] == y {
      var k := PositionOf(pi1, y);
      assert pi1Inv[pi1[k]] == k;
    }
  }

  /**
    The client's messages to server 0: where to find each query's mask, and what takes the masks of masks off again.
   */
  method ClientPermutations(pi: seq<nat>, pi1: seq<nat>, s: seq<Block>, piS1: seq<Block>) returns (pi0: seq<nat>,
                            piS0: seq<Block>)
    requires |pi| == |pi1| == |s| == |piS1| && IsPermutation(pi1) && forall i | 0 <= i < |pi| :: pi[i] < |pi|
    ensures |pi0| == |piS0| == |pi|
    ensures forall i | 0 <= i < |pi| :: pi0[i] < |pi| && pi1[pi0[i]] == pi[i] && piS0[i] == Xor(piS1[i], s[pi[i]])
  {
    hide Xor, IsPermutation;
    var pi1Inv := Invert(pi1);
    pi0, piS0 := [], [];
    for i := 0 to |pi|
      invariant |pi0| == |piS0| == i
      invariant forall k | 0 <= k < i :: pi0[k] < |pi| && pi1[pi0[k]] == pi[k] && piS0[k] == Xor(piS1[k], s[pi[k]])
    {
      pi0 := pi0 + [pi1Inv[pi[i]]];
      piS0 := piS0 + [Xor(piS1[i], s[pi[i]])];
    }
  }

  lemma Cancel(v0: Block, v1: Block, r: Block, s: Block, t: Block)
    ensures Xor(Xor(v0, Xor(Xor(r, s), Xor(t, s))), Xor(v1, t)) == Xor(Xor(v0, v1), r)
  {}

  /** Server 1's part in the query: its shares behind `piS1`, in place. */
  method HideShares(shares: array<Block>, piS1: seq<Block>)
    requires shares.Length == |piS1|
    modifies shares
    ensures forall i | 0 <= i < |piS1| :: shares[i] == Xor(old(shares[i]), piS1[i])
  {
    for j := 0 to |piS1|
      invariant forall i | 0 <= i < j :: shares[i] == Xor(old(shares[i]), piS1[i])
      invariant forall i | j <= i < |piS1| :: shares[i] == old(shares[i])
    {
      shares[j] := Xor(shares[j], piS1[j]);
    }
  }

  /** Server 0's part, in place. */
  method Unmask(shares: array<Block>, pi1SigmaRS: seq<Block>, pi0: seq<nat>, piS0: seq<Block>, piSigmaRV1: seq<Block>)
    requires shares.Length == |pi1SigmaRS| == |pi0| == |piS0| == |piSigmaRV1| && forall i | 0 <= i < |pi0| ::
             pi0[i] < |pi0|
    modifies shares
    ensures forall i | 0 <= i < |pi0| ::
            shares[i] == Xor(Xor(old(shares[i]), Xor(pi1SigmaRS[pi0[i]], piS0[i])), piSigmaRV1[i])
  {
    var piSigmaR0: seq<Block> := [];
    for i := 0 to |pi0|
      invariant |piSigmaR0| == i && forall k | 0 <= k < i :: piSigmaR0[k] == Xor(pi1SigmaRS[pi0[k]], piS0[k])
    {
      piSigmaR0 := piSigmaR0 + [Xor(pi1SigmaRS[pi0[i]], piS0[i])];
    }
    for i := 0 to |pi0|
      invariant forall k | 0 <= k < i :: shares[k] == Xor(Xor(old(shares[k]), piSigmaR0[k]), piSigmaRV1[k])
      invariant forall k | i <= k < |pi0| :: shares[k] == old(shares[k])
    {
      shares[i] := Xor(Xor(shares[i], piSigmaR0[i]), piSigmaRV1[i]);
    }
  }

  /**
    The masks cancel. Whatever the query positions, the permutation and the masks are, server 0 ends
    with the sum of the two servers' shares and the one mask of the query, and nothing else.
   */
  method MaskedShares(shares0: array<Block>, shares1: array<Block>, pi: seq<nat>, pi1: seq<nat>, r: seq<Block>,
                      s: seq<Block>, piS1: seq<Block>)
    requires shares0 != shares1 && shares0.Length == shares1.Length == |pi| == |pi1| == |r| == |s| == |piS1|
    requires IsPermutation(pi1) && forall i | 0 <= i < |pi| :: pi[i] < |pi|
    modifies shares0, shares1
    ensures forall i | 0 <= i < |pi| :: shares0[i] == Xor(Xor(old(shares0[i]), old(shares1[i])), r[pi[i]])
  {
    hide Xor, IsPermutation;
    var pi1SigmaRS := PermutedMasks(r, s, pi1);
    var pi0, piS0 := ClientPermutations(pi, pi1, s, piS1);
    HideShares(shares1, piS1);
    Unmask(shares0, pi1SigmaRS, pi0, piS0, shares1[..]);
    forall i | 0 <= i < |pi| ensures shares0[i] == Xor(Xor(old(shares0[i]), old(shares1[i])), r[pi[i]]) {
      Cancel(old(shares0[i]), old(shares1[i]), r[pi[i]], s[pi[i]], piS1[i]);
    }
  }

  lemma XorCancels(item: Block, mine: Block, theirs: Block)
    ensures Xor(mine, item) == Xor(item, theirs) <==> mine == theirs
  {
    var a, b := Xor(mine, item), Xor(item, theirs);
    if a == b {
      forall k | 0 <= k < 128 ensures mine[k] == theirs[k] {
        assert a[k] == b[k];
      }
      assert mine == theirs;
    } else if mine == theirs {
      XorComm(mine, item);
    }
  }

  /**
    A whole query: server 1 shuffles its copy of the masks, the client uses its own, and the shares go
    through. Server 0's entry of a query that found the client's item equals what the client compares it
    with if and only if the shuffle leaves that query's mask where it was.
   */
  method Query(masks: array<Block>, sigmas: seq<seq<nat>>, h: nat, shares0: array<Block>, shares1: array<Block>,
               pi: seq<nat>,
               pi1: seq<nat>, s: seq<Block>, piS1: seq<Block>)
    requires SigmasOk(sigmas, h) && |sigmas| * h <= masks.Length
    requires shares0 != shares1 && masks != shares0 && masks != shares1
    requires shares0.Length == shares1.Length == |pi| == |pi1| == masks.Length == |s| == |piS1|
    requires IsPermutation(pi1) && (forall i | 0 <= i < |pi| :: pi[i] < |pi|) && DistinctMasks(masks[..])
    modifies masks, shares0, shares1
    ensures forall i: nat | i < |pi| ::
              var item := Xor(old(shares0[i]), old(shares1[i]));
              ClientShare(old(masks[..]), pi[i], item) == shares0[i] <==> From(sigmas, h, |sigmas|, pi[i]) == pi[i]
  {
    hide Xor, IsPermutation, From, SigmasOk, DistinctMasks, Shuffled, ClientShare;
    ghost var r, v0, v1 := masks[..], shares0[..], shares1[..];
    ShuffleMasks(masks, sigmas, h);
    MaskedShares(shares0, shares1, pi, pi1, masks[..], s, piS1);
    forall i: nat | i < |pi|
      ensures ClientShare(r, pi[i], Xor(v0[i], v1[i])) == shares0[i] <==> From(sigmas, h, |sigmas|, pi[i]) == pi[i]
    {
      SharesAgreeIff(r, masks[..], sigmas, h, pi[i], Xor(v0[i], v1[i]));
    }
  }

  ghost predicate DistinctMasks(r: seq<Block>) {
    forall i, j | 0 <= i < j < |r| :: r[i] != r[j]
  }

  /** What the client puts into the comparison for an item at mask position `rIdx`. */
  function ClientShare(r: seq<Block>, rIdx: nat, item: Block): Block
    requires rIdx < |r|
  {
    Xor(r[rIdx], item)
  }

  lemma SharesAgreeIff(r: seq<Block>, shuffled: seq<Block>, sigmas: seq<seq<nat>>, h: nat, rIdx: nat, item: Block)
    requires SigmasOk(sigmas, h) && |sigmas| * h <= |r| && Shuffled(r, shuffled, sigmas, h, |sigmas|)
             && DistinctMasks(r)
    requires rIdx < |r|
    ensures rIdx < |shuffled|
    ensures ClientShare(r, rIdx, item) == Xor(item, shuffled[rIdx]) <==> From(sigmas, h, |sigmas|, rIdx) == rIdx
  {
    hide Xor, From;
    assert HoldsMask(r, shuffled, sigmas, h, |sigmas|, rIdx);
    FromBelow(sigmas, h, |sigmas|, rIdx, |r|);
    XorCancels(item, r[rIdx], shuffled[rIdx]);
  }

  /** The query positions at which client and servers agree: those that the swaps of their group give back. */
  lemma AgreesIff(sigmas: seq<seq<nat>>, h: nat, rIdx: nat)
    requires SigmasOk(sigmas, h) && rIdx < |sigmas| * h
    ensures Quot(rIdx, h) < |sigmas| && Rem(rIdx, h) < h
    ensures From(sigmas, h, |sigmas|, rIdx) == rIdx
            <==> GroupSwaps(sigmas[Quot(rIdx, h)], h)[Rem(rIdx, h)] == Rem(rIdx, h)
  {
    QuotRem(rIdx, h);
    if Quot(rIdx, h) >= |sigmas| {
      MultiplesUp(|sigmas|, Quot(rIdx, h), h);
      assert false;
    }
    FromInGroup(sigmas, h, |sigmas|, rIdx);
  }

  lemma MultiplesUp(a: nat, b: nat, m: nat)
    requires a <= b
    ensures a * m <= b * m
  {
    if a < b {
      MultiplesApart(a, b, m);
    }
  }

  /** With two hash functions the one swap is a no-op or moves both masks of the item. */
  lemma TwoHashes(sigma: seq<nat>, t: nat)
    requires |sigma| == 2 && t < 2 && (sigma == [0, 1] || sigma == [1, 0])
    ensures GroupSwaps(sigma, 2)[t] == t <==> sigma == [0, 1]
  {}

  /** So an item whose `sigma` is [1, 0] is lost at every position. */
  lemma SwappedPairFails(sigmas: seq<seq<nat>>, rIdx: nat)
    requires SigmasOk(sigmas, 2) && rIdx < |sigmas| * 2
    ensures Quot(rIdx, 2) < |sigmas|
    ensures sigmas[Quot(rIdx, 2)] == [1, 0] ==> From(sigmas, 2, |sigmas|, rIdx) != rIdx
    ensures sigmas[Quot(rIdx, 2)] == [0, 1] ==> From(sigmas, 2, |sigmas|, rIdx) == rIdx
  {
    hide GroupSwaps;
    AgreesIff(sigmas, 2, rIdx);
    if sigmas[Quot(rIdx, 2)] == [1, 0] || sigmas[Quot(rIdx, 2)] == [0, 1] {
      TwoHashes(sigmas[Quot(rIdx, 2)], Rem(rIdx, 2));
    }
  }

  /** With three the swaps may undo each other: this is not the identity, yet nothing moves. */
  lemma UndoneSwaps()
    ensures GroupSwaps([0, 2, 1], 3) == [0, 1, 2]
  {
    assert GroupSwaps([0, 2, 1], 1) == [0, 1, 2];
    assert GroupSwaps([0, 2, 1], 2) == [0, 2, 1];
  }
}
