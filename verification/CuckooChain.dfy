/**
  Where evictions lead: the bins and what is in hand after some rounds, told without the arrays that the
  tables work on. An entry in hand is a packed slot, the item in its low 56 bits.
 */
module CuckooChain {
  import opened CuckooTable

  /** The bin for entry `v`: the hash value of its item under its hash function, modulo the number of bins. */
  function Home(rows: Rows, v: nat, binCount: nat): (a: nat)
    requires binCount > 0
    ensures a < binCount
  {
    if IdxOf(v) < |rows| && HashIdxOf(v) < |rows[IdxOf(v)]| then rows[IdxOf(v)][HashIdxOf(v)] % binCount else 0
  }

  /** The bins after the entries in hand have been exchanged in order, and what came out. */
  function Exchanged(rows: Rows, bins: seq<nat>, hand: seq<nat>): (r: (seq<nat>, seq<nat>))
    requires |bins| > 0
    ensures |r.0| == |bins| && |r.1| == |hand|
  {
    if hand == [] then (bins, [])
    else
      var (b, olds) := Exchanged(rows, bins, hand[..|hand| - 1]);
      var v := hand[|hand| - 1];
      var a := Home(rows, v, |b|);
      (b[a := v], olds + [b[a]])
  }

  /** The bins and the hand after at most `k` rounds; without anything in hand there are no more rounds. */
  function Rounds(rows: Rows, nh: nat, bins: seq<nat>, hand: seq<nat>, k: nat): (r: (seq<nat>, seq<nat>))
    requires |bins| > 0 && nh > 0
    ensures |r.0| == |bins| && |r.1| <= |hand|
    decreases k
  {
    if k == 0 || hand == [] then (bins, hand)
    else
      var (b, olds) := Exchanged(rows, bins, hand);
      Rounds(rows, nh, b, Evicted(olds, nh), k - 1)
  }

  /** One more round. */
  lemma NextRound(rows: Rows, nh: nat, bins: seq<nat>, hand: seq<nat>, k: nat)
    requires |bins| > 0 && nh > 0 && k > 0 && hand != []
    ensures var (b, olds) := Exchanged(rows, bins, hand);
            Rounds(rows, nh, bins, hand, k) == Rounds(rows, nh, b, Evicted(olds, nh), k - 1)
  {}

  lemma NoRounds(rows: Rows, nh: nat, bins: seq<nat>, hand: seq<nat>, k: nat)
    requires |bins| > 0 && nh > 0 && (k == 0 || hand == [])
    ensures Rounds(rows, nh, bins, hand, k) == (bins, hand)
  {}

  /** One exchange more. */
  lemma NextExchange(rows: Rows, bins: seq<nat>, hand: seq<nat>, i: nat)
    requires |bins| > 0 && i < |hand|
    ensures var (b, olds) := Exchanged(rows, bins, hand[..i]);
            var a := Home(rows, hand[i], |b|);
            Exchanged(rows, bins, hand[..i + 1]) == (b[a := hand[i]], olds + [b[a]])
  {
    assert hand[..i + 1][..i] == hand[..i];
  }

  lemma ExchangeOnly(rows: Rows, bins: seq<nat>, v: nat)
    requires |bins| > 0
    ensures var a := Home(rows, v, |bins|); Exchanged(rows, bins, [v]) == (bins[a := v], [bins[a]])
  {
    hide Home;
    var none: seq<nat> := [];
    assert [v][..0] == none && Exchanged(rows, bins, none) == (bins, none);
    assert none + [bins[Home(rows, v, |bins|)]] == [bins[Home(rows, v, |bins|)]];
  }

  lemma EvictedOne(was: nat, nh: nat)
    requires nh > 0
    ensures Evicted([was], nh) == if was == EMPTY then [] else [Advance(was, nh)]
  {
    assert [was][..0] == [];
  }

  // ----- what goes to the stash -----

  /**
    A stash whose first `f` slots are filled after the entries `e` went to it: the first of them shifts what was there,
    the others go behind it, and what comes to lie beyond the end is not there.
   */
  ghost predicate PushedAt(was: seq<nat>, e: seq<nat>, now: seq<nat>, f: nat) {
    && e != [] && |now| == |was| && f <= |was|
    && (forall i | 0 <= i < |was| :: was[i] == 0xFFFF_FFFF_FFFF_FFFF <==> f <= i)
    && forall i: nat | i < |was| :: now[i] == PushedValue(was, e, f, i)
  }

  ghost function PushedValue(was: seq<nat>, e: seq<nat>, f: nat, i: nat): nat
    requires e != [] && f <= |was|
  {
    if i == 0 then e[0] else if i <= f then was[i - 1] else if i - f < |e| then e[i - f] else 0xFFFF_FFFF_FFFF_FFFF
  }

  ghost predicate Pushed(was: seq<nat>, e: seq<nat>, now: seq<nat>) {
    exists f: nat :: PushedAt(was, e, now, f)
  }

  /** The first `j` slots are done. */
  ghost predicate PushedSoFar(was: seq<nat>, e: seq<nat>, now: seq<nat>, f: nat, j: nat) {
    && e != [] && |now| == |was| && f <= |was| && j <= |was|
    && (forall i: nat | i < j :: now[i] == PushedValue(was, e, f, i))
    && forall i | j <= i < |was| :: now[i] == was[i]
  }

  lemma PushMore(was: seq<nat>, e: seq<nat>, now: seq<nat>, f: nat, j: nat)
    requires PushedSoFar(was, e, now, f, j) && j < |was|
    ensures PushedSoFar(was, e, now[j := PushedValue(was, e, f, j)], f, j + 1)
  {
    hide PushedValue;
  }

  /** There are `n` empty slots, which are the last ones. */
  ghost predicate HasRoom(stash: seq<nat>, n: nat) {
    n == 0 || (n <= |stash| && stash[|stash| - n] == 0xFFFF_FFFF_FFFF_FFFF)
  }

  lemma FilledUpTo(stash: seq<nat>) returns (f: nat)
    requires FilledPrefix(stash)
    ensures f <= |stash| && forall i | 0 <= i < |stash| :: stash[i] == 0xFFFF_FFFF_FFFF_FFFF <==> f <= i
  {
    f := 0;
    while f < |stash| && stash[f] != EMPTY
      invariant f <= |stash| && forall i | 0 <= i < f :: stash[i] != EMPTY
    {
      f := f + 1;
    }
  }

  // ----- the chain of a single entry, slot by slot -----

  /**
    From bins `b` entry `v` goes into its bin, whose occupant goes on as entry `w`: in the slots' own arithmetic, the
    item's hash value of number v / 2^56 modulo the number of bins, and the same item with the next hash function.
   */
  ghost predicate Moves(rows: Rows, nh: nat, b: seq<nat>, v: nat, b': seq<nat>, w: nat) {
    var x, h := v % 0x100_0000_0000_0000, v / 0x100_0000_0000_0000;
    && nh > 0 && x < |rows| && h < |rows[x]| && |b| > 0
    && var a := rows[x][h] % |b|;
    && b[a] != 0xFFFF_FFFF_FFFF_FFFF && b' == b[a := v]
    && w == b[a] % 0x100_0000_0000_0000 + (b[a] / 0x100_0000_0000_0000 + 1) % nh * 0x100_0000_0000_0000
  }

  /** From bins `b` entry `v` goes into its bin, which is empty. */
  ghost predicate Settles(rows: Rows, b: seq<nat>, v: nat, b': seq<nat>) {
    var x, h := v % 0x100_0000_0000_0000, v / 0x100_0000_0000_0000;
    && x < |rows| && h < |rows[x]| && |b| > 0
    && var a := rows[x][h] % |b|;
    && b[a] == 0xFFFF_FFFF_FFFF_FFFF && b' == b[a := v]
  }

  /** Bins and entry in hand after each of the moves of a chain. */
  ghost predicate IsChain(rows: Rows, nh: nat, bs: seq<seq<nat>>, vs: seq<nat>) {
    |bs| == |vs| > 0 && forall i: nat, n: nat | n == i + 1 < |vs| :: Moves(rows, nh, bs[i], vs[i], bs[n], vs[n])
  }

  lemma MoveIsRound(rows: Rows, nh: nat, b: seq<nat>, v: nat, b': seq<nat>, w: nat, k: nat)
    requires Moves(rows, nh, b, v, b', w) && k > 0
    ensures |b'| == |b| > 0 && Rounds(rows, nh, b, [v], k) == Rounds(rows, nh, b', [w], k - 1)
  {
    hide Exchanged, Evicted, Rounds, Home, Advance;
    MovesHome(rows, nh, b, v, b', w);
    ExchangeOnly(rows, b, v);
    EvictedOne(b[Home(rows, v, |b|)], nh);
    NextRound(rows, nh, b, [v], k);
  }

  lemma MovesHome(rows: Rows, nh: nat, b: seq<nat>, v: nat, b': seq<nat>, w: nat)
    requires Moves(rows, nh, b, v, b', w)
    ensures |b| > 0 && nh > 0
    ensures var a := Home(rows, v, |b|); b[a] != EMPTY && b' == b[a := v] && w == Advance(b[a], nh)
  {}

  lemma SettleIsRound(rows: Rows, b: seq<nat>, v: nat, b': seq<nat>, k: nat, nh: nat)
    requires Settles(rows, b, v, b') && k > 0 && nh > 0
    ensures Rounds(rows, nh, b, [v], k) == (b', [])
  {
    ExchangeOnly(rows, b, v);
    EvictedOne(b[Home(rows, v, |b|)], nh);
    NextRound(rows, nh, b, [v], k);
  }

  /** A chain of n moves is what n rounds with one entry do. */
  lemma {:induction false} ChainIsRounds(rows: Rows, nh: nat, bs: seq<seq<nat>>, vs: seq<nat>, k: nat)
    requires IsChain(rows, nh, bs, vs) && |vs| - 1 <= k && nh > 0 && |bs[0]| > 0
    ensures var n := |vs| - 1; |bs[n]| > 0 && Rounds(rows, nh, bs[0], [vs[0]], k)
                               == Rounds(rows, nh, bs[n], [vs[n]], k - n)
  {
    hide Moves, Rounds;
    if |vs| > 1 {
      var j := 1;
      assert Moves(rows, nh, bs[0], vs[0], bs[j], vs[j]);
      MoveIsRound(rows, nh, bs[0], vs[0], bs[1], vs[1], k);
      forall i: nat, n: nat | n == i + 1 < |vs| - 1
        ensures Moves(rows, nh, bs[1..][i], vs[1..][i], bs[1..][n], vs[1..][n])
      {
        var i', n' := i + 1, n + 1;
        assert Moves(rows, nh, bs[i'], vs[i'], bs[n'], vs[n']);
      }
      ChainIsRounds(rows, nh, bs[1..], vs[1..], k - 1);
    }
  }

  /** A chain that ends in an empty bin after at most 100 further moves is followed to its end by 101 exchanges. */
  lemma ChainFits(rows: Rows, nh: nat, bs: seq<seq<nat>>, vs: seq<nat>, end: seq<nat>)
    requires IsChain(rows, nh, bs, vs) && |vs| <= 101 && nh > 0 && Settles(rows, bs[|vs| - 1], vs[|vs| - 1], end)
    ensures |bs[0]| > 0 && Rounds(rows, nh, bs[0], [vs[0]], 101) == (end, [])
  {
    hide Settles, Rounds;
    var n := |vs| - 1;
    ChainBins(rows, nh, bs, vs, end);
    ChainIsRounds(rows, nh, bs, vs, 101);
    SettleIsRound(rows, bs[n], vs[n], end, 101 - n, nh);
  }

  /** A longer one is left after 101 exchanges with its next entry in hand. */
  lemma ChainTooLong(rows: Rows, nh: nat, bs: seq<seq<nat>>, vs: seq<nat>)
    requires IsChain(rows, nh, bs, vs) && |vs| == 102 && nh > 0
    ensures |bs[0]| > 0 && Rounds(rows, nh, bs[0], [vs[0]], 101) == (bs[101], [vs[101]])
  {
    hide Rounds;
    var j := 1;
    assert Moves(rows, nh, bs[0], vs[0], bs[j], vs[j]);
    ChainIsRounds(rows, nh, bs, vs, 101);
    NoRounds(rows, nh, bs[101], [vs[101]], 0);
  }

  lemma ChainBins(rows: Rows, nh: nat, bs: seq<seq<nat>>, vs: seq<nat>, end: seq<nat>)
    requires IsChain(rows, nh, bs, vs) && Settles(rows, bs[|vs| - 1], vs[|vs| - 1], end)
    ensures |bs[0]| > 0
  {
    if |vs| > 1 {
      var j := 1;
      assert Moves(rows, nh, bs[0], vs[0], bs[j], vs[j]);
    }
  }

  // ----- a round of many, slot by slot -----

  /** Bins before each exchange of a round, in the slots' own arithmetic, and what comes out. */
  ghost predicate IsRound(rows: Rows, bs: seq<seq<nat>>, hand: seq<nat>, olds: seq<nat>) {
    && |bs| == |hand| + 1 && |olds| == |hand|
    && forall i: nat, n: nat | n == i + 1 <= |hand| :: Exchanges(rows, bs[i], hand[i], bs[n], olds[i])
  }

  ghost predicate Exchanges(rows: Rows, b: seq<nat>, v: nat, b': seq<nat>, was: nat) {
    var x, h := v % 0x100_0000_0000_0000, v / 0x100_0000_0000_0000;
    && x < |rows| && h < |rows[x]| && |b| > 0
    && var a := rows[x][h] % |b|;
    was == b[a] && b' == b[a := v]
  }

  lemma {:induction false} RoundIs(rows: Rows, bs: seq<seq<nat>>, hand: seq<nat>, olds: seq<nat>, n: nat)
    requires IsRound(rows, bs, hand, olds) && n <= |hand| && |bs[0]| > 0
    ensures Exchanged(rows, bs[0], hand[..n]) == (bs[n], olds[..n])
  {
    hide Exchanges, Exchanged, Home;
    if n == 0 {
      NoneExchanged(rows, bs[0]);
      assert hand[..0] == [] && olds[..0] == [];
    } else {
      var m := n - 1;
      RoundIs(rows, bs, hand, olds, m);
      assert Exchanges(rows, bs[m], hand[m], bs[n], olds[m]);
      NextExchange(rows, bs[0], hand, m);
      ExchangesHome(rows, bs[m], hand[m], bs[n], olds[m]);
      assert olds[..n] == olds[..m] + [olds[m]];
    }
  }

  lemma NoneExchanged(rows: Rows, bins: seq<nat>)
    requires |bins| > 0
    ensures Exchanged(rows, bins, []) == (bins, [])
  {}

  lemma ExchangesHome(rows: Rows, b: seq<nat>, v: nat, b': seq<nat>, was: nat)
    requires Exchanges(rows, b, v, b', was)
    ensures |b| > 0 && var a := Home(rows, v, |b|); was == b[a] && b' == b[a := v]
  {}

  /** What a round leaves in hand, one old value more: nothing for an empty slot, and else the next hash function. */
  lemma EvictedMore(olds: seq<nat>, v: nat, nh: nat)
    requires nh > 0
    ensures Evicted(olds + [v], nh) == Evicted(olds, nh) + if v == 0xFFFF_FFFF_FFFF_FFFF then []
            else [v % 0x100_0000_0000_0000 + (v / 0x100_0000_0000_0000 + 1) % nh * 0x100_0000_0000_0000]
  {
    assert (olds + [v])[..|olds|] == olds;
  }
}
