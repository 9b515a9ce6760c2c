/**
  The rounds in which a batch of items is pushed through the bins: fetch every address,
  exchange every item into its bin, and compact what was evicted to the front of the arrays.
 */
module CuckooRounds {
  import opened CuckooChain
  import opened CuckooTable

  const MAX_TRIES: nat := 100

  class Workspace {
    const curAddrs: array<nat>
    const curHashIdxs: array<nat>
    const oldVals: array<nat>

    constructor (n: nat)
      ensures curAddrs.Length == curHashIdxs.Length == oldVals.Length == n
      ensures fresh(curAddrs) && fresh(curHashIdxs) && fresh(oldVals)
      ensures curAddrs != curHashIdxs && curAddrs != oldVals && curHashIdxs != oldVals
    {
      var addrs, hashIdxs, vals := new nat[n], new nat[n], new nat[n];
      curAddrs, curHashIdxs, oldVals := addrs, hashIdxs, vals;
    }
  }

  /** Entries lo to hi - 1 in hand, packed. */
  function HandSeq(idxs: seq<nat>, hs: seq<nat>, lo: nat, hi: nat): (s: seq<nat>)
    requires lo <= hi <= |idxs| && hi <= |hs|
    ensures |s| == hi - lo
  {
    seq<nat>(hi - lo, i requires 0 <= i < hi - lo => Pack(idxs[lo + i], hs[lo + i]))
  }

  /** Every entry in hand names an item and one of its hash functions. */
  predicate HandOk(rows: Rows, nh: nat, idxs: seq<nat>, hs: seq<nat>, n: nat)
    requires n <= |idxs| && n <= |hs|
  {
    forall i | 0 <= i < n :: idxs[i] < |rows| && hs[i] < nh
  }

  lemma HandFilled(rows: Rows, nh: nat, idxs: seq<nat>, hs: seq<nat>, n: nat)
    requires Sized(rows, nh) && n <= |idxs| && n <= |hs|
    ensures HandOk(rows, nh, idxs, hs, n) ==> AllFilled(rows, nh, HandSeq(idxs, hs, 0, n))
  {
    if HandOk(rows, nh, idxs, hs, n) {
      forall i | 0 <= i < n
        ensures Filled(rows, nh, HandSeq(idxs, hs, 0, n)[i])
      {
        PackRoundTrip(idxs[i], hs[i]);
      }
    }
  }

  lemma {:induction false} EvictedSnoc(olds: seq<nat>, n: nat, nh: nat)
    requires n < |olds| && nh > 0
    ensures Evicted(olds[..n + 1], nh) == Evicted(olds[..n], nh) + if olds[n] == EMPTY then []
            else [Advance(olds[n], nh)]
  {
    assert olds[..n + 1][..n] == olds[..n];
  }

  /**
    Compacts in place: the evicted slots among the first `remaining` old values, each advanced
    to its next hash function, move to the front of the hand in their order.
   */
  method Compact(ghost rows: Rows, idxs: array<nat>, hs: array<nat>, oldVals: array<nat>, remaining: nat,
                 nh: nat) returns (putIdx: nat)
    requires nh > 0 && remaining <= idxs.Length && remaining <= hs.Length && remaining <= oldVals.Length
    requires idxs != hs && idxs != oldVals && hs != oldVals
    requires SlotsOk(rows, nh, oldVals[..remaining])
    modifies idxs, hs, oldVals
    ensures putIdx <= remaining && HandOk(rows, nh, idxs[..], hs[..], putIdx)
    ensures HandSeq(idxs[..], hs[..], 0, putIdx) == Evicted(old(oldVals[..remaining]), nh)
  {
    hide IdxOf, HashIdxOf, Evicted, HandOk, HandSeq, Filled, Advance;
    ghost var olds := oldVals[..remaining];
    assert HandOk(rows, nh, idxs[..], hs[..], 0)
        && HandSeq(idxs[..], hs[..], 0, 0) == [] by { NoHand(rows, nh, idxs[..], hs[..]); }
    putIdx := 0;
    EvictedNone(nh);
    assert olds[..0] == [];
    while putIdx < remaining && oldVals[putIdx] != EMPTY
      invariant putIdx <= remaining
      invariant forall m | putIdx <= m < remaining :: oldVals[m] == olds[m]
      invariant HandSeq(idxs[..], hs[..], 0, putIdx) == Evicted(olds[..putIdx], nh)
                && HandOk(rows, nh, idxs[..], hs[..], putIdx)
    {
      EvictedSnoc(olds, putIdx, nh);
      Put(rows, idxs, hs, putIdx, oldVals[putIdx], nh);
      putIdx := putIdx + 1;
    }
    if putIdx == remaining {
      assert olds[..remaining] == olds;
      return;
    }
    EvictedSnoc(olds, putIdx, nh);
    putIdx := CompactRest(rows, idxs, hs, oldVals, remaining, nh, putIdx, olds);
  }

  /** The part past the first empty old value, which lies at `putIdx0`. */
  method CompactRest(ghost rows: Rows, idxs: array<nat>, hs: array<nat>, oldVals: array<nat>, remaining: nat, nh: nat,
                     putIdx0: nat, ghost olds: seq<nat>)
    returns (putIdx: nat)
    requires nh > 0 && putIdx0 < remaining <= idxs.Length && remaining <= hs.Length && remaining <= oldVals.Length
    requires idxs != hs && idxs != oldVals && hs != oldVals
    requires |olds| == remaining && SlotsOk(rows, nh, olds) && forall m | putIdx0 < m < remaining ::
             oldVals[m] == olds[m]
    requires HandOk(rows, nh, idxs[..], hs[..], putIdx0)
             && HandSeq(idxs[..], hs[..], 0, putIdx0) == Evicted(olds[..putIdx0 + 1], nh)
    modifies idxs, hs, oldVals
    ensures putIdx <= remaining && HandOk(rows, nh, idxs[..], hs[..], putIdx)
    ensures HandSeq(idxs[..], hs[..], 0, putIdx) == Evicted(olds, nh)
  {
    hide IdxOf, HashIdxOf, Evicted, HandOk, HandSeq, Filled, Advance;
    putIdx := putIdx0;
    var getIdx := putIdx + 1;
    while getIdx < remaining
      invariant putIdx < getIdx <= remaining
      invariant forall m | getIdx <= m < remaining :: oldVals[m] == olds[m]
      invariant HandSeq(idxs[..], hs[..], 0, putIdx) == Evicted(olds[..getIdx], nh)
                && HandOk(rows, nh, idxs[..], hs[..], putIdx)
    {
      getIdx := SkipEmpty(oldVals, remaining, nh, getIdx, olds);
      if getIdx >= remaining {
        break;
      }
      EvictedSnoc(olds, getIdx, nh);
      Put(rows, idxs, hs, putIdx, oldVals[getIdx], nh);
      oldVals[putIdx], oldVals[getIdx] := oldVals[getIdx], oldVals[putIdx];
      putIdx := putIdx + 1;
      getIdx := getIdx + 1;
    }
    assert olds[..getIdx] == olds;
  }

  /** The next old value that is not empty. */
  method SkipEmpty(oldVals: array<nat>, remaining: nat, nh: nat, getIdx0: nat,
                   ghost olds: seq<nat>) returns (getIdx: nat)
    requires nh > 0 && getIdx0 <= remaining <= oldVals.Length && |olds| == remaining
    requires forall m | getIdx0 <= m < remaining :: oldVals[m] == olds[m]
    ensures getIdx0 <= getIdx <= remaining && (getIdx < remaining ==> oldVals[getIdx] != EMPTY)
    ensures Evicted(olds[..getIdx], nh) == Evicted(olds[..getIdx0], nh)
  {
    hide Evicted;
    getIdx := getIdx0;
    while getIdx < remaining && oldVals[getIdx] == EMPTY
      invariant getIdx0 <= getIdx <= remaining
      invariant Evicted(olds[..getIdx], nh) == Evicted(olds[..getIdx0], nh)
    {
      EvictedSnoc(olds, getIdx, nh);
      getIdx := getIdx + 1;
    }
  }

  lemma EvictedNone(nh: nat)
    requires nh > 0
    ensures Evicted([], nh) == []
  {}

  lemma NoHand(rows: Rows, nh: nat, idxs: seq<nat>, hs: seq<nat>)
    ensures HandOk(rows, nh, idxs, hs, 0) && HandSeq(idxs, hs, 0, 0) == []
  {}

  /** Unpacks an evicted slot, advanced, into position `at` of the hand. */
  method Put(ghost rows: Rows, idxs: array<nat>, hs: array<nat>, at: nat, v: nat, nh: nat)
    requires nh > 0 && at < idxs.Length && at < hs.Length && idxs != hs
    requires Filled(rows, nh, v) && HandOk(rows, nh, idxs[..], hs[..], at)
    modifies idxs, hs
    ensures HandSeq(idxs[..], hs[..], 0, at + 1) == old(HandSeq(idxs[..], hs[..], 0, at)) + [Advance(v, nh)]
    ensures HandOk(rows, nh, idxs[..], hs[..], at + 1)
  {
    idxs[at] := IdxOf(v);
    hs[at] := (1 + HashIdxOf(v)) % nh;
  }

  // ----- a round -----

  /** Addresses of the items in hand. */
  method Fetch(hashes: array<seq<nat>>, nh: nat, binCount: nat, idxs: array<nat>, hs: array<nat>, curAddrs: array<nat>,
               remaining: nat)
    requires Sized(hashes[..], nh) && binCount > 0
    requires remaining <= idxs.Length && remaining <= hs.Length && remaining <= curAddrs.Length
    requires curAddrs != idxs && curAddrs != hs && curAddrs as object != hashes
    requires HandOk(hashes[..], nh, idxs[..], hs[..], remaining)
    modifies curAddrs
    ensures forall i | 0 <= i < remaining :: curAddrs[i] == hashes[idxs[i]][hs[i]] % binCount
  {
    for i := 0 to remaining
      invariant forall m | 0 <= m < i :: curAddrs[m] == hashes[idxs[m]][hs[m]] % binCount
    {
      curAddrs[i] := hashes[idxs[i]][hs[i]] % binCount;
    }
  }

  lemma {:induction false} OccupantsSnoc(s: seq<nat>, n: nat)
    requires n < |s|
    ensures Occupants(s[..n + 1]) == Occupants(s[..n]) + One(s[n])
  {
    assert s[..n + 1][..n] == s[..n];
  }

  /** What is in hand after i exchanges: the i old values so far and the entries still to come. */
  function Between(olds: seq<nat>, hand: seq<nat>, i: nat): multiset<nat>
    requires i <= |hand| && i <= |olds|
  {
    Occupants(olds[..i]) + Occupants(hand[i..])
  }

  lemma BetweenHead(olds: seq<nat>, hand: seq<nat>, i: nat)
    requires i < |hand| && i <= |olds|
    ensures Between(olds, hand, i) == One(hand[i]) + (Occupants(olds[..i]) + Occupants(hand[i + 1..]))
  {
    hide Occupants, One;
    assert hand[i..] == [hand[i]] + hand[i + 1..];
    OccupantsAppend([hand[i]], hand[i + 1..]);
    OccupantsOne(hand[i]);
  }

  /** One exchange puts an item from the hand into the bins and another from the bins among the old values. */
  lemma ExchangeOne(rows: Rows, nh: nat, bins: seq<nat>, stash: seq<nat>, held: multiset<nat>, live: set<nat>,
                    olds: seq<nat>, olds': seq<nat>, hand: seq<nat>, i: nat)
    requires AllFilled(rows, nh, hand) && i < |hand| <= |olds| == |olds'| && SlotsOk(rows, nh, olds[..i])
    requires Account(rows, nh, bins, stash, Between(olds, hand, i), held, live)
    requires olds' == olds[i := bins[Address(rows, nh, |bins|, hand[i])]]
    ensures var bins' := bins[Address(rows, nh, |bins|, hand[i]) := hand[i]];
            SlotsOk(rows, nh, olds'[..i + 1])
                && Account(rows, nh, bins', stash, Between(olds', hand, i + 1), held, live)
  {
    hide Occupants, One, Filled, Address, Reachable, FilledPrefix;
    var rest := Occupants(olds[..i]) + Occupants(hand[i + 1..]);
    var was := bins[Address(rows, nh, |bins|, hand[i])];
    BetweenHead(olds, hand, i);
    AccountBin(rows, nh, bins, stash, hand[i], rest, held, live);
    OccupantsSnoc(olds', i);
    assert olds'[..i] == olds[..i];
    assert Between(olds', hand, i + 1) == One(was) + rest;
  }

  /** Exchanges every item in hand, in order, into its bin; what was there goes to the old values. */
  method ExchangeAll(ghost rows: Rows, nh: nat, bins: array<nat>, idxs: array<nat>, hs: array<nat>,
                     curAddrs: array<nat>, oldVals: array<nat>, remaining: nat, ghost stash: seq<nat>,
                     ghost held: multiset<nat>, ghost live: set<nat>)
    requires remaining <= idxs.Length && remaining <= hs.Length && remaining <= curAddrs.Length
             && remaining <= oldVals.Length
    requires bins != idxs && bins != hs && bins != curAddrs && bins != oldVals
    requires oldVals != idxs && oldVals != hs && oldVals != curAddrs
    requires InProgress(rows, nh, bins[..], stash, held, live, idxs[..], hs[..], remaining)
    requires forall i | 0 <= i < remaining :: curAddrs[i] == rows[idxs[i]][hs[i]] % bins.Length
    modifies bins, oldVals
    ensures SlotsOk(rows, nh, oldVals[..remaining])
    ensures Account(rows, nh, bins[..], stash, Occupants(oldVals[..remaining]), held, live)
    ensures (bins[..], oldVals[..remaining])
            == Exchanged(rows, old(bins[..]), HandSeq(idxs[..], hs[..], 0, remaining))
  {
    hide Occupants, Filled, Between, Reachable, FilledPrefix, Exchanged, Home, Address;
    ghost var hand := HandSeq(idxs[..], hs[..], 0, remaining);
    ghost var start := bins[..];
    NoneExchanged(rows, start);
    assert hand[..0] == [] && oldVals[..0] == [];
    HandFilled(rows, nh, idxs[..], hs[..], remaining);
    BetweenEnds(oldVals[..], hand);
    for i := 0 to remaining
      invariant Account(rows, nh, bins[..], stash, Between(oldVals[..], hand, i), held, live)
      invariant SlotsOk(rows, nh, oldVals[..i])
      invariant (bins[..], oldVals[..i]) == Exchanged(rows, start, hand[..i])
    {
      ghost var b, o := bins[..], oldVals[..];
      var newVal := Pack(idxs[i], hs[i]);
      assert newVal == hand[i];
      PackRoundTrip(idxs[i], hs[i]);
      AddressOf(rows, nh, |b|, idxs[i], hs[i]);
      oldVals[i] := bins[curAddrs[i]];
      bins[curAddrs[i]] := newVal;
      assert bins[..] == b[curAddrs[i] := newVal] && oldVals[..] == o[i := b[curAddrs[i]]];
      assert o[..i] == oldVals[..i];
      ExchangeOne(rows, nh, b, stash, held, live, o, oldVals[..], hand, i);
      NextExchange(rows, start, hand, i);
      assert oldVals[..i + 1] == o[..i] + [b[curAddrs[i]]];
    }
    assert hand[..remaining] == hand;
    BetweenEnds(oldVals[..], hand);
    assert oldVals[..][..remaining] == oldVals[..remaining];
  }

  lemma AddressOf(rows: Rows, nh: nat, binCount: nat, idx: nat, h: nat)
    requires Sized(rows, nh) && binCount > 0 && idx < |rows| && h < nh
    ensures Filled(rows, nh, Pack(idx, h))
    ensures Home(rows, Pack(idx, h), binCount) == Address(rows, nh, binCount, Pack(idx, h)) == rows[idx][h] % binCount
  {
    PackRoundTrip(idx, h);
  }

  /** Before the first exchange the hand itself, after the last one the old values. */
  lemma BetweenEnds(olds: seq<nat>, hand: seq<nat>)
    requires |hand| <= |olds|
    ensures Between(olds, hand, 0) == Occupants(hand) && Between(olds, hand, |hand|) == Occupants(olds[..|hand|])
  {
    hide Occupants;
    assert olds[..0] == [] && hand[0..] == hand && hand[|hand|..] == [];
    OccupantsNone();
  }

  // ----- up to a hundred rounds -----

  /** The account with the first `n` entries in hand. */
  ghost predicate InProgress(rows: Rows, nh: nat, bins: seq<nat>, stash: seq<nat>, held: multiset<nat>, live: set<nat>,
                             idxs: seq<nat>, hs: seq<nat>, n: nat)
    requires n <= |idxs| && n <= |hs|
  {
    HandOk(rows, nh, idxs, hs, n) && Account(rows, nh, bins, stash, Occupants(HandSeq(idxs, hs, 0, n)), held, live)
  }

  /** One round: afterwards the hand holds what was evicted. */
  method OneRound(hashes: array<seq<nat>>, nh: nat, bins: array<nat>, ghost stash: seq<nat>, ghost held: multiset<nat>,
                  ghost live: set<nat>, idxs: array<nat>, w: Workspace, remaining0: nat)
    returns (remaining: nat)
    requires remaining0 <= idxs.Length && Fits(w, remaining0) && Separate(hashes, bins, idxs, w)
    requires InProgress(hashes[..], nh, bins[..], stash, held, live, idxs[..], w.curHashIdxs[..], remaining0)
    modifies bins, idxs, w.curAddrs, w.curHashIdxs, w.oldVals
    ensures remaining <= remaining0
    ensures InProgress(hashes[..], nh, bins[..], stash, held, live, idxs[..], w.curHashIdxs[..], remaining)
    ensures var (b, olds) := Exchanged(hashes[..], old(bins[..]),
              old(HandSeq(idxs[..], w.curHashIdxs[..], 0, remaining0)));
            (bins[..], HandSeq(idxs[..], w.curHashIdxs[..], 0, remaining)) == (b, Evicted(olds, nh))
  {
    hide Exchanged, Occupants, FilledPrefix, SlotsOk, HandSeq, Evicted, Filled, Reachable;
    ghost var rows := hashes[..];
    Fetch(hashes, nh, bins.Length, idxs, w.curHashIdxs, w.curAddrs, remaining0);
    ExchangeAll(rows, nh, bins, idxs, w.curHashIdxs, w.curAddrs, w.oldVals, remaining0, stash, held, live);
    EvictedOccupants(rows, nh, w.oldVals[..remaining0]);
    remaining := Compact(rows, idxs, w.curHashIdxs, w.oldVals, remaining0, nh);
    assert hashes[..] == rows;
  }

  predicate Fits(w: Workspace, n: nat) {
    n <= w.curAddrs.Length && n <= w.curHashIdxs.Length && n <= w.oldVals.Length
  }

  /** The arrays a batch works on are different objects. */
  predicate Separate(hashes: array<seq<nat>>, bins: array<nat>, idxs: array<nat>, w: Workspace) {
    && hashes as object != bins && hashes as object != idxs
    && hashes as object != w.curAddrs && hashes as object != w.curHashIdxs && hashes as object != w.oldVals
    && bins != idxs && bins != w.curAddrs && bins != w.curHashIdxs && bins != w.oldVals
    && idxs != w.curAddrs && idxs != w.curHashIdxs && idxs != w.oldVals
    && w.curAddrs != w.curHashIdxs && w.curAddrs != w.oldVals && w.curHashIdxs != w.oldVals
  }

  /** Rounds until nothing is in hand, a hundred at most. */
  method PushThrough(hashes: array<seq<nat>>, nh: nat, bins: array<nat>, ghost stash: seq<nat>,
                     ghost held: multiset<nat>,
                     ghost live: set<nat>, idxs: array<nat>, w: Workspace, n: nat)
    returns (remaining: nat)
    requires n <= idxs.Length && Fits(w, n) && Separate(hashes, bins, idxs, w)
    requires InProgress(hashes[..], nh, bins[..], stash, held, live, idxs[..], w.curHashIdxs[..], n)
    modifies bins, idxs, w.curAddrs, w.curHashIdxs, w.oldVals
    ensures remaining <= n
    ensures InProgress(hashes[..], nh, bins[..], stash, held, live, idxs[..], w.curHashIdxs[..], remaining)
    ensures (bins[..], HandSeq(idxs[..], w.curHashIdxs[..], 0, remaining))
            == Rounds(hashes[..], nh, old(bins[..]), old(HandSeq(idxs[..], w.curHashIdxs[..], 0, n)), 100)
  {
    hide InProgress, Rounds, Exchanged, HandSeq, Evicted;
    remaining := n;
    ghost var rows, start, hand := hashes[..], bins[..], HandSeq(idxs[..], w.curHashIdxs[..], 0, n);
    BinsThere(rows, nh, start, stash, held, live, idxs[..], w.curHashIdxs[..], n);
    var tryCount := 0;
    while remaining != 0 && tryCount < MAX_TRIES
      invariant remaining <= n && tryCount <= MAX_TRIES && hashes[..] == rows
      invariant InProgress(rows, nh, bins[..], stash, held, live, idxs[..], w.curHashIdxs[..], remaining)
      invariant Rounds(rows, nh, start, hand, 100)
                == Rounds(rows, nh, bins[..], HandSeq(idxs[..], w.curHashIdxs[..], 0, remaining), 100 - tryCount)
    {
      ghost var b, inHand := bins[..], HandSeq(idxs[..], w.curHashIdxs[..], 0, remaining);
      HandSize(idxs[..], w.curHashIdxs[..], remaining);
      NextRound(rows, nh, b, inHand, 100 - tryCount);
      tryCount := tryCount + 1;
      remaining := OneRound(hashes, nh, bins, stash, held, live, idxs, w, remaining);
    }
    HandSize(idxs[..], w.curHashIdxs[..], remaining);
    NoRounds(rows, nh, bins[..], HandSeq(idxs[..], w.curHashIdxs[..], 0, remaining), 100 - tryCount);
  }

  /** An item under its first hash function is packed as its own number. */
  lemma AtFirstHash(items: seq<nat>, hs: seq<nat>)
    requires |items| <= |hs| && forall i | 0 <= i < |items| :: hs[i] == 0
    ensures HandSeq(items, hs, 0, |items|) == items
  {}

  lemma BinsThere(rows: Rows, nh: nat, bins: seq<nat>, stash: seq<nat>, held: multiset<nat>, live: set<nat>,
                 idxs: seq<nat>, hs: seq<nat>, n: nat)
    requires n <= |idxs| && n <= |hs| && InProgress(rows, nh, bins, stash, held, live, idxs, hs, n)
    ensures |bins| > 0 && nh > 0
  {}

  lemma HandSize(idxs: seq<nat>, hs: seq<nat>, n: nat)
    requires n <= |idxs| && n <= |hs|
    ensures |HandSeq(idxs, hs, 0, n)| == n
  {}

  // ----- starting a batch -----

  /**
    A batch: items of the table's range, one row of hash values each. Items may repeat, and may be in the table
    already.
   */
  ghost predicate BatchOk(n: nat, nh: nat, items: seq<nat>, hashs: seq<seq<nat>>) {
    |hashs| == |items| && forall i | 0 <= i < |items| :: items[i] < n && |hashs[i]| == nh
  }

  /** The rows after a batch: an item's last row of the batch stands. */
  ghost predicate RowsRecorded(before: Rows, after: Rows, items: seq<nat>, hashs: seq<seq<nat>>)
    requires |hashs| == |items|
  {
    && |after| == |before|
    && (forall i | 0 <= i < |items| && items[i] < |after| && items[i] !in items[i + 1..] :: after[items[i]] == hashs[i])
    && forall x | 0 <= x < |before| && x !in items :: after[x] == before[x]
  }

  lemma RecordedSnoc(before: Rows, mid: Rows, items: seq<nat>, hashs: seq<seq<nat>>, x: nat, row: seq<nat>)
    requires |hashs| == |items| && RowsRecorded(before, mid, items, hashs) && x < |mid|
    ensures RowsRecorded(before, mid[x := row], items + [x], hashs + [row])
  {
    var all := items + [x];
    forall i | 0 <= i < |all| && all[i] < |mid| && all[i] !in all[i + 1..]
      ensures mid[x := row][all[i]] == (hashs + [row])[i]
    {
      if i < |items| {
        assert all[i + 1..] == items[i + 1..] + [x];
      }
    }
  }

  /** Records the hash values of the batch and starts every item at its first hash function. */
  method RecordBatch(hashes: array<seq<nat>>, nh: nat, ghost bins: seq<nat>, ghost stash: seq<nat>,
                     ghost held: multiset<nat>, ghost live: set<nat>,
                     inputIdxs: array<nat>, hashs: seq<seq<nat>>, hs: array<nat>)
    requires Holds(hashes[..], nh, bins, stash, held, live) && BatchOk(hashes.Length, nh, inputIdxs[..], hashs)
    requires inputIdxs.Length <= hs.Length && hs != inputIdxs && hs as object != hashes && hashes as object != inputIdxs
    modifies hashes, hs
    ensures Holds(hashes[..], nh, bins, stash, held, live - Members(inputIdxs[..]))
    ensures RowsRecorded(old(hashes[..]), hashes[..], inputIdxs[..], hashs)
    ensures forall i | 0 <= i < inputIdxs.Length :: hs[i] == 0
  {
    hide Account, RowsRecorded;
    ghost var items, first := inputIdxs[..], hashes[..];
    assert items[..0] == [] && hashs[..0] == [] && live - Members(items[..0]) == live;
    NothingRecorded(first);
    for i := 0 to inputIdxs.Length
      invariant inputIdxs[..] == items && hashes.Length == |first|
      invariant Holds(hashes[..], nh, bins, stash, held, live - Members(items[..i]))
      invariant RowsRecorded(first, hashes[..], items[..i], hashs[..i])
      invariant forall m | 0 <= m < i :: hs[m] == 0
    {
      ghost var rows := hashes[..];
      AccountRow(rows, nh, bins, stash, multiset{}, held, live - Members(items[..i]), inputIdxs[i], hashs[i]);
      RecordedSnoc(first, rows, items[..i], hashs[..i], inputIdxs[i], hashs[i]);
      hashes[inputIdxs[i]] := hashs[i];
      assert hashes[..] == rows[inputIdxs[i] := hashs[i]];
      assert items[..i + 1] == items[..i] + [items[i]] && hashs[..i + 1] == hashs[..i] + [hashs[i]];
      assert live - Members(items[..i + 1]) == live - Members(items[..i]) - {items[i]};
      hs[i] := 0;
    }
    assert items[..|items|] == items && hashs[..|items|] == hashs;
  }

  lemma NothingRecorded(rows: Rows)
    ensures RowsRecorded(rows, rows, [], [])
  {}

  /** With the batch in hand the account is of everything there was and the batch. */
  lemma BatchInHand(rows: Rows, nh: nat, bins: seq<nat>, stash: seq<nat>, held: multiset<nat>, live: set<nat>,
                    items: seq<nat>, hashs: seq<seq<nat>>, hs: seq<nat>)
    requires Holds(rows, nh, bins, stash, held, live - Members(items)) && BatchOk(|rows|, nh, items, hashs)
    requires |items| <= |hs| && forall i | 0 <= i < |items| :: hs[i] == 0
    ensures InProgress(rows, nh, bins, stash, held + multiset(items), live + Members(items), items, hs, |items|)
  {
    assert Sized(rows, nh);
    hide Account, Pack, Occupants;
    assert HandSeq(items, hs, 0, |items|) == seq<nat>(|items|, i requires 0 <= i < |items| => Pack(items[i], 0));
    PackedItems(items);
    var added := Members(items);
    AccountJoin(rows, nh, bins, stash, multiset{}, held, live - added, multiset(items), added);
    assert multiset{} + multiset(items) == multiset(items);
    assert live - added + added == live + added;
  }

  // ----- lookup -----

  /** Does the item in slot value `v` have the hash vector `q`? */
  method Matches(hashes: array<seq<nat>>, nh: nat, v: nat, q: seq<nat>) returns (m: bool)
    requires IdxOf(v) < hashes.Length && Sized(hashes[..], nh) && |q| == nh
    ensures m == (hashes[IdxOf(v)] == q)
  {
    var row := hashes[IdxOf(v)];
    assert |row| == nh by { assert hashes[..][IdxOf(v)] == row; }
    m := true;
    for j := 0 to nh
      invariant m == (row[..j] == q[..j])
    {
      assert row[..j + 1] == row[..j] + [row[j]] && q[..j + 1] == q[..j] + [q[j]];
      m := m && row[j] == q[j];
    }
    assert row[..nh] == row && q[..nh] == q;
  }

  /** Slot value `v` is empty, or its item does not have the vector `q`. */
  predicate NoMatch(rows: Rows, v: nat, q: seq<nat>) {
    v == EMPTY || (IdxOf(v) < |rows| && rows[IdxOf(v)] != q)
  }

  /** `r` is a held item with vector `q`, or EMPTY. */
  ghost predicate HeldMatch(rows: Rows, held: multiset<nat>, q: seq<nat>, r: nat) {
    r == EMPTY || (r in held && r < |rows| && rows[r] == q)
  }

  /** None of the bins that the first `h` hash values of `q` name holds a match. */
  ghost predicate NotInBins(rows: Rows, bins: seq<nat>, q: seq<nat>, h: nat)
    requires h <= |q| && |bins| > 0
  {
    forall g | 0 <= g < h :: NoMatch(rows, bins[q[g] % |bins|], q)
  }

  ghost predicate NotInStash(rows: Rows, stash: seq<nat>, q: seq<nat>, s: nat)
    requires s <= |stash|
  {
    forall m | 0 <= m < s :: NoMatch(rows, stash[m], q)
  }

  /** A slot of the table names a held item, whose number is not the empty mark. */
  lemma SlotIsHeld(rows: Rows, nh: nat, bins: seq<nat>, stash: seq<nat>, held: multiset<nat>, live: set<nat>,
                   s: seq<nat>, i: nat)
    requires Holds(rows, nh, bins, stash, held, live) && (s == bins || s == stash) && i < |s| && s[i] != EMPTY
    ensures IdxOf(s[i]) in held && IdxOf(s[i]) < |rows| && IdxOf(s[i]) != EMPTY && Sized(rows, nh)
  {
    hide Reachable, Occupants, IdxOf;
    FoundIsHeld(rows, nh, bins, stash, held, live, s, i);
  }

  /** Neither in the bins its vector names nor before the first empty slot of the stash: nowhere. */
  lemma AbsentAnswers(rows: Rows, nh: nat, bins: seq<nat>, stash: seq<nat>, held: multiset<nat>, live: set<nat>,
                      q: seq<nat>, s: nat)
    requires Holds(rows, nh, bins, stash, held, live) && |q| == nh && s <= |stash|
             && (s < |stash| ==> stash[s] == EMPTY)
    requires NotInBins(rows, bins, q, nh) && NotInStash(rows, stash, q, s)
    ensures Answers(rows, held, live, q, EMPTY)
  {
    hide Reachable, Occupants, IdxOf;
    forall x | x in live && x < |rows|
      ensures rows[x] != q
    {
      LiveIsFound(rows, nh, bins, stash, held, live, x);
    }
  }
}
