/**
  What a cuckoo hash table holds: bins and a stash of packed 64-bit slots. A slot packs an
  item index into its low 56 bits and the number of the hash function into the top 8.
 */
module CuckooTable {
  const EMPTY: nat := 0xFFFF_FFFF_FFFF_FFFF
  const SHIFT: nat := 0x100_0000_0000_0000

  function Pack(idx: nat, h: nat): nat {
    idx + h * SHIFT
  }

  function IdxOf(v: nat): nat {
    v % SHIFT
  }

  function HashIdxOf(v: nat): nat {
    v / SHIFT
  }

  /** Unpacking returns what was packed, and no packed slot looks empty. */
  lemma PackRoundTrip(idx: nat, h: nat)
    requires idx < SHIFT && h < 255
    ensures IdxOf(Pack(idx, h)) == idx && HashIdxOf(Pack(idx, h)) == h && Pack(idx, h) < EMPTY
  {}

  /** The hash values of every item, one row an item. */
  type Rows = seq<seq<nat>>

  /** Sizes the source's parameters keep to. */
  predicate Sized(rows: Rows, nh: nat) {
    0 < nh < 255 && |rows| < SHIFT && forall x | 0 <= x < |rows| :: |rows[x]| == nh
  }

  /** A filled slot names an item and one of its hash functions. */
  predicate Filled(rows: Rows, nh: nat, v: nat) {
    v != EMPTY && IdxOf(v) < |rows| && HashIdxOf(v) < nh
  }

  predicate SlotOk(rows: Rows, nh: nat, v: nat) {
    v == EMPTY || Filled(rows, nh, v)
  }

  predicate SlotsOk(rows: Rows, nh: nat, s: seq<nat>) {
    forall i | 0 <= i < |s| :: SlotOk(rows, nh, s[i])
  }

  predicate AllFilled(rows: Rows, nh: nat, s: seq<nat>) {
    forall i | 0 <= i < |s| :: Filled(rows, nh, s[i])
  }

  /** The bin a filled slot belongs in. */
  function Address(rows: Rows, nh: nat, binCount: nat, v: nat): (a: nat)
    requires Sized(rows, nh) && binCount > 0 && Filled(rows, nh, v)
    ensures a < binCount
  {
    rows[IdxOf(v)][HashIdxOf(v)] % binCount
  }

  /** Every filled bin is the bin its item hashes to under the hash function it records. */
  ghost predicate Placed(rows: Rows, nh: nat, bins: seq<nat>)
    requires Sized(rows, nh)
  {
    forall b | 0 <= b < |bins| ::
        bins[b] == EMPTY || (Filled(rows, nh, bins[b]) && Address(rows, nh, |bins|, bins[b]) == b)
  }

  /** The filled slots of the stash come first, so a scan may stop at the first empty one. */
  ghost predicate FilledPrefix(stash: seq<nat>) {
    forall i, j | 0 <= i < j < |stash| :: stash[j] != EMPTY ==> stash[i] != EMPTY
  }

  // ----- who is in a sequence of slots -----

  function One(v: nat): multiset<nat> {
    if v == EMPTY then multiset{} else multiset{IdxOf(v)}
  }

  /** The items held by the slots, each as often as it is held. */
  function Occupants(s: seq<nat>): multiset<nat> {
    if s == [] then multiset{} else Occupants(s[..|s| - 1]) + One(s[|s| - 1])
  }

  lemma {:induction false} OccupantsAppend(s: seq<nat>, t: seq<nat>)
    ensures Occupants(s + t) == Occupants(s) + Occupants(t)
  {
    hide One;
    if t == [] {
      assert s + t == s;
    } else {
      assert (s + t)[..|s + t| - 1] == s + t[..|t| - 1];
      OccupantsAppend(s, t[..|t| - 1]);
    }
  }

  lemma OccupantsNone()
    ensures Occupants([]) == multiset{}
  {}

  lemma OccupantsOne(v: nat)
    ensures Occupants([v]) == One(v)
  {
    assert [v][..0] == [];
  }

  /** Overwriting a slot exchanges its occupant. */
  lemma OccupantsUpdate(s: seq<nat>, i: nat, v: nat)
    requires i < |s|
    ensures Occupants(s[i := v]) + One(s[i]) == Occupants(s) + One(v)
  {
    hide One, Occupants;
    OccupantsOne(s[i]);
    OccupantsOne(v);
    assert s == s[..i] + ([s[i]] + s[i + 1..]);
    assert s[i := v] == s[..i] + ([v] + s[i + 1..]);
    OccupantsAppend(s[..i], [s[i]] + s[i + 1..]);
    OccupantsAppend(s[..i], [v] + s[i + 1..]);
    OccupantsAppend([s[i]], s[i + 1..]);
    OccupantsAppend([v], s[i + 1..]);
  }

  lemma {:induction false} OccupantHasSlot(s: seq<nat>, x: nat)
    ensures x in Occupants(s) <==> exists i | 0 <= i < |s| :: s[i] != EMPTY && IdxOf(s[i]) == x
  {
    hide IdxOf;
    if s != [] {
      var t := s[..|s| - 1];
      OccupantHasSlot(t, x);
      if i :| 0 <= i < |t| && t[i] != EMPTY && IdxOf(t[i]) == x {
        assert s[i] == t[i];
      }
      if i :| 0 <= i < |s| && s[i] != EMPTY && IdxOf(s[i]) == x {
        assert i < |t| ==> t[i] == s[i];
      }
    }
  }

  lemma {:induction false} OccupantsEmpty(n: nat)
    ensures Occupants(seq(n, _ => EMPTY)) == multiset{}
  {
    if n > 0 {
      assert seq(n, _ => EMPTY)[..n - 1] == seq(n - 1, _ => EMPTY);
      OccupantsEmpty(n - 1);
    }
  }

  lemma OnePacked(x: nat, h: nat)
    requires x < SHIFT && h < 255
    ensures One(Pack(x, h)) == multiset{x}
  {
    PackRoundTrip(x, h);
  }

  function Members(items: seq<nat>): set<nat> {
    set x | x in items
  }

  /** A batch of items, packed, is held as often as it lists them. */
  lemma {:induction false} PackedItems(items: seq<nat>)
    requires forall i | 0 <= i < |items| :: items[i] < SHIFT
    ensures Occupants(seq<nat>(|items|, i requires 0 <= i < |items| => Pack(items[i], 0))) == multiset(items)
  {
    hide One, IdxOf;
    var packed := seq<nat>(|items|, i requires 0 <= i < |items| => Pack(items[i], 0));
    if items != [] {
      var m := |items| - 1;
      PackedItems(items[..m]);
      assert packed[..m] == seq<nat>(m, i requires 0 <= i < m => Pack(items[..m][i], 0));
      OnePacked(items[m], 0);
      assert items == items[..m] + [items[m]];
    }
  }

  lemma {:induction false} DistinctItems(items: seq<nat>)
    requires forall i, j | 0 <= i < j < |items| :: items[i] != items[j]
    ensures multiset(items) == multiset(Members(items))
    decreases |items|
  {
    if items != [] {
      var m := |items| - 1;
      DistinctItems(items[..m]);
      assert items == items[..m] + [items[m]];
      assert Members(items) == Members(items[..m]) + {items[m]};
      assert items[m] !in Members(items[..m]);
    }
  }

  // ----- eviction -----

  /** An evicted item tries its next hash function. */
  function Advance(v: nat, nh: nat): nat
    requires nh > 0
  {
    Pack(IdxOf(v), (1 + HashIdxOf(v)) % nh)
  }

  /** What a round leaves in hand: the evicted slots, in order, each advanced. */
  function Evicted(olds: seq<nat>, nh: nat): (r: seq<nat>)
    requires nh > 0
    ensures |r| <= |olds|
  {
    if olds == [] then []
    else
      var v := olds[|olds| - 1];
      Evicted(olds[..|olds| - 1], nh) + if v == EMPTY then [] else [Advance(v, nh)]
  }

  lemma AdvanceFilled(rows: Rows, nh: nat, v: nat)
    requires Sized(rows, nh) && Filled(rows, nh, v)
    ensures Filled(rows, nh, Advance(v, nh)) && IdxOf(Advance(v, nh)) == IdxOf(v) && One(Advance(v, nh)) == One(v)
  {
    PackRoundTrip(IdxOf(v), (1 + HashIdxOf(v)) % nh);
  }

  /** Eviction loses nobody. */
  lemma {:induction false} EvictedOccupants(rows: Rows, nh: nat, olds: seq<nat>)
    requires Sized(rows, nh) && SlotsOk(rows, nh, olds)
    ensures Occupants(Evicted(olds, nh)) == Occupants(olds) && AllFilled(rows, nh, Evicted(olds, nh))
  {
    hide Filled, One, Advance;
    if olds != [] {
      var v, t := olds[|olds| - 1], olds[..|olds| - 1];
      EvictedOccupants(rows, nh, t);
      if v != EMPTY {
        AdvanceFilled(rows, nh, v);
        OccupantsAppend(Evicted(t, nh), [Advance(v, nh)]);
        OccupantsOne(Advance(v, nh));
      } else {
        assert One(v) == multiset{} by { NobodyInEmpty(); }
        assert Evicted(olds, nh) == Evicted(t, nh);
      }
    }
  }

  lemma NobodyInEmpty()
    ensures One(EMPTY) == multiset{}
  {}

  // ----- one atomic exchange -----

  /** Exchanging a filled slot into its bin keeps every bin placed and hands back what was there. */
  lemma ExchangeBin(rows: Rows, nh: nat, bins: seq<nat>, v: nat)
    requires Sized(rows, nh) && |bins| > 0 && Placed(rows, nh, bins) && Filled(rows, nh, v)
    ensures var a := Address(rows, nh, |bins|, v);
      && Placed(rows, nh, bins[a := v]) && SlotOk(rows, nh, bins[a])
      && Occupants(bins[a := v]) + One(bins[a]) == Occupants(bins) + One(v)
  {
    hide Filled, Occupants, One, IdxOf, HashIdxOf;
    OccupantsUpdate(bins, Address(rows, nh, |bins|, v), v);
  }

  /** Exchanging a filled slot into the stash right after filled ones keeps the filled slots first. */
  lemma ExchangeStash(rows: Rows, nh: nat, stash: seq<nat>, j: nat, v: nat)
    requires SlotsOk(rows, nh, stash) && FilledPrefix(stash) && Filled(rows, nh, v) && j < |stash|
    requires forall i | 0 <= i < j :: stash[i] != EMPTY
    ensures SlotsOk(rows, nh, stash[j := v]) && FilledPrefix(stash[j := v]) && SlotOk(rows, nh, stash[j])
    ensures Occupants(stash[j := v]) + One(stash[j]) == Occupants(stash) + One(v)
  {
    OccupantsUpdate(stash, j, v);
  }

  // ----- where a lookup finds an item -----

  /** Slot b of the bins holds `v`, and that is where its item hashes to under the function it records. */
  predicate AtHome(rows: Rows, nh: nat, binCount: nat, b: nat, v: nat)
    requires Sized(rows, nh) && binCount > 0
  {
    Filled(rows, nh, v) && Address(rows, nh, binCount, v) == b
  }

  /** The items of the first n bins that are at home, each as often as it is. */
  function Homed(rows: Rows, nh: nat, bins: seq<nat>, n: nat): multiset<nat>
    requires Sized(rows, nh) && n <= |bins|
  {
    if n == 0 then multiset{}
    else Homed(rows, nh, bins, n - 1) + if AtHome(rows, nh, |bins|, n - 1, bins[n - 1]) then One(bins[n - 1])
        else multiset{}
  }

  lemma {:induction false} HomedUpdate(rows: Rows, nh: nat, bins: seq<nat>, a: nat, v: nat, n: nat)
    requires Sized(rows, nh) && a < |bins| && n <= |bins| && AtHome(rows, nh, |bins|, a, v)
    ensures a < n ==> Homed(rows, nh, bins, n) + One(v) <= Homed(rows, nh, bins[a := v], n) + One(bins[a])
    ensures a >= n ==> Homed(rows, nh, bins, n) == Homed(rows, nh, bins[a := v], n)
  {
    hide AtHome, One;
    if n > 0 {
      var bins' := bins[a := v];
      HomedUpdate(rows, nh, bins, a, v, n - 1);
      assert n - 1 != a ==> bins'[n - 1] == bins[n - 1];
      var here := if AtHome(rows, nh, |bins|, n - 1, bins[n - 1]) then One(bins[n - 1]) else multiset{};
      forall x | a < n ensures (Homed(rows, nh, bins, n) + One(v))[x] <= (Homed(rows, nh, bins', n) + One(bins[a]))[x] {
        assert Homed(rows, nh, bins, n) == Homed(rows, nh, bins, n - 1) + here;
        if a < n - 1 {
          assert Homed(rows, nh, bins', n) == Homed(rows, nh, bins', n - 1) + here;
          assert (Homed(rows, nh, bins, n - 1) + One(v))[x] <= (Homed(rows, nh, bins', n - 1) + One(bins[a]))[x];
        } else {
          assert Homed(rows, nh, bins', n) == Homed(rows, nh, bins', n - 1) + One(v);
        }
      }
    }
  }

  lemma {:induction false} HomedHasBin(rows: Rows, nh: nat, bins: seq<nat>, n: nat, x: nat)
    requires Sized(rows, nh) && n <= |bins| && x in Homed(rows, nh, bins, n)
    ensures exists b :: 0 <= b < n && AtHome(rows, nh, |bins|, b, bins[b]) && IdxOf(bins[b]) == x
  {
    hide AtHome, IdxOf;
    if x in Homed(rows, nh, bins, n - 1) {
      HomedHasBin(rows, nh, bins, n - 1, x);
    } else {
      assert AtHome(rows, nh, |bins|, n - 1, bins[n - 1]) && x in One(bins[n - 1]);
      assert IdxOf(bins[n - 1]) == x;
    }
  }

  /** When every bin is the one its item hashes to, everybody is at home. */
  lemma {:induction false} PlacedHomed(rows: Rows, nh: nat, bins: seq<nat>, n: nat)
    requires Sized(rows, nh) && n <= |bins| && Placed(rows, nh, bins)
    ensures Homed(rows, nh, bins, n) == Occupants(bins[..n])
  {
    hide Filled, IdxOf;
    if n > 0 {
      PlacedHomed(rows, nh, bins, n - 1);
      assert bins[..n][..n - 1] == bins[..n - 1];
    }
  }

  lemma {:induction false} HomedWithin(rows: Rows, nh: nat, bins: seq<nat>, n: nat)
    requires Sized(rows, nh) && n <= |bins|
    ensures Homed(rows, nh, bins, n) <= Occupants(bins[..n])
  {
    hide AtHome, One;
    if n > 0 {
      HomedWithin(rows, nh, bins, n - 1);
      assert bins[..n][..n - 1] == bins[..n - 1];
    }
  }

  /** Nobody else's home changes with the hash values of item x. */
  lemma {:induction false} HomedRow(rows: Rows, nh: nat, bins: seq<nat>, n: nat, x: nat, row: seq<nat>, y: nat)
    requires Sized(rows, nh) && n <= |bins| && x < |rows| && |row| == nh && y != x
    ensures Homed(rows, nh, bins, n)[y] == Homed(rows[x := row], nh, bins, n)[y]
  {
    hide HashIdxOf;
    if n > 0 {
      HomedRow(rows, nh, bins, n - 1, x, row, y);
    }
  }

  // ----- the account of a table -----

  /**
    The slots of bins and stash and the items in `hand` make up `held`, and every item of `live` is somewhere
    a lookup finds it, or in hand.
   */
  ghost predicate Account(rows: Rows, nh: nat, bins: seq<nat>, stash: seq<nat>, hand: multiset<nat>,
                          held: multiset<nat>, live: set<nat>) {
    && Sized(rows, nh) && |bins| > 0 && SlotsOk(rows, nh, bins) && SlotsOk(rows, nh, stash) && FilledPrefix(stash)
    && Occupants(bins) + Occupants(stash) + hand == held
    && Reachable(rows, nh, bins, stash, hand, live)
  }

  ghost predicate Reachable(rows: Rows, nh: nat, bins: seq<nat>, stash: seq<nat>, hand: multiset<nat>, live: set<nat>)
    requires Sized(rows, nh)
  {
    forall x | x in live :: x in Homed(rows, nh, bins, |bins|) + Occupants(stash) + hand
  }

  /** An exchange with a bin keeps the account: what was there is in hand instead. */
  lemma AccountBin(rows: Rows, nh: nat, bins: seq<nat>, stash: seq<nat>, v: nat, rest: multiset<nat>,
                   held: multiset<nat>, live: set<nat>)
    requires Account(rows, nh, bins, stash, One(v) + rest, held, live) && Filled(rows, nh, v)
    ensures var a := Address(rows, nh, |bins|, v);
            Account(rows, nh, bins[a := v], stash, One(bins[a]) + rest, held, live) && SlotOk(rows, nh, bins[a])
  {
    var a := Address(rows, nh, |bins|, v);
    assert AtHome(rows, nh, |bins|, a, v);
    hide Filled, Occupants, One, IdxOf, HashIdxOf, FilledPrefix, Homed, AtHome;
    OccupantsUpdate(bins, a, v);
    HomedUpdate(rows, nh, bins, a, v, |bins|);
    SwapKeeps(Occupants(bins), Occupants(bins[a := v]), One(v), One(bins[a]), Occupants(stash), rest, held);
    forall x | x in live ensures x in Homed(rows, nh, bins[a := v], |bins|) + Occupants(stash) + (One(bins[a]) + rest) {
      assert x in Homed(rows, nh, bins, |bins|) + Occupants(stash) + (One(v) + rest);
      assert (Homed(rows, nh, bins, |bins|) + One(v))[x] <= (Homed(rows, nh, bins[a := v], |bins|) + One(bins[a]))[x];
    }
  }

  lemma SwapKeeps(b: multiset<nat>, b': multiset<nat>, v: multiset<nat>, was: multiset<nat>, others: multiset<nat>,
                  rest: multiset<nat>, all: multiset<nat>)
    requires b' + was == b + v && b + others + (v + rest) == all
    ensures b' + others + (was + rest) == all
  {
    forall x ensures (b' + others + (was + rest))[x] == all[x] {
      assert (b' + was)[x] == (b + v)[x] && (b + others + (v + rest))[x] == all[x];
    }
  }

  /** So does an exchange with a stash slot behind filled ones. */
  lemma AccountStash(rows: Rows, nh: nat, bins: seq<nat>, stash: seq<nat>, j: nat, v: nat, rest: multiset<nat>,
                     held: multiset<nat>, live: set<nat>)
    requires Account(rows, nh, bins, stash, One(v) + rest, held, live) && Filled(rows, nh, v) && j < |stash|
    requires forall i | 0 <= i < j :: stash[i] != EMPTY
    ensures Account(rows, nh, bins, stash[j := v], One(stash[j]) + rest, held, live) && SlotOk(rows, nh, stash[j])
  {
    ExchangeStash(rows, nh, stash, j, v);
    hide Filled, Occupants, One, IdxOf, HashIdxOf, FilledPrefix, Homed;
    var was := One(stash[j]);
    assert Occupants(bins) + Occupants(stash[j := v]) + (was + rest) == held by {
      assert Occupants(stash) + Occupants(bins) + (One(v) + rest) == held;
      SwapKeeps(Occupants(stash), Occupants(stash[j := v]), One(v), was, Occupants(bins), rest, held);
      assert Occupants(bins) + Occupants(stash[j := v]) == Occupants(stash[j := v]) + Occupants(bins);
    }
    forall x | x in live ensures x in Homed(rows, nh, bins, |bins|) + Occupants(stash[j := v]) + (was + rest) {
      assert x in Homed(rows, nh, bins, |bins|) + Occupants(stash) + (One(v) + rest);
      assert (Occupants(stash[j := v]) + was)[x] == (Occupants(stash) + One(v))[x];
    }
  }

  /** Writing new hash values for an item moves nobody; only that item may have to be found again. */
  lemma AccountRow(rows: Rows, nh: nat, bins: seq<nat>, stash: seq<nat>, hand: multiset<nat>, held: multiset<nat>,
                   live: set<nat>, x: nat, row: seq<nat>)
    requires Account(rows, nh, bins, stash, hand, held, live) && x < |rows| && |row| == nh
    ensures Account(rows[x := row], nh, bins, stash, hand, held, live - {x})
  {
    hide Occupants, IdxOf, HashIdxOf, FilledPrefix, Homed;
    forall y | y in live - {x} ensures y in Homed(rows[x := row], nh, bins, |bins|) + Occupants(stash) + hand {
      assert y in Homed(rows, nh, bins, |bins|) + Occupants(stash) + hand;
      HomedRow(rows, nh, bins, |bins|, x, row, y);
    }
  }

  /** Whoever joins the hand can be counted as found. */
  lemma AccountJoin(rows: Rows, nh: nat, bins: seq<nat>, stash: seq<nat>, hand: multiset<nat>, held: multiset<nat>,
                    live: set<nat>, more: multiset<nat>, who: set<nat>)
    requires Account(rows, nh, bins, stash, hand, held, live) && forall x | x in who :: x in more
    ensures Account(rows, nh, bins, stash, hand + more, held + more, live + who)
  {
    hide Occupants, IdxOf, HashIdxOf, FilledPrefix, Homed, SlotsOk;
    assert Occupants(bins) + Occupants(stash) + (hand + more) == held + more;
    forall x | x in live + who ensures x in Homed(rows, nh, bins, |bins|) + Occupants(stash) + (hand + more) {
      if x in live {
        assert x in Homed(rows, nh, bins, |bins|) + Occupants(stash) + hand;
      }
    }
  }

  /**
    Losing the hand: the rest makes up what was held before without it, and only who was in hand may be lost to
    lookups.
   */
  lemma AccountLose(rows: Rows, nh: nat, bins: seq<nat>, stash: seq<nat>, hand: multiset<nat>, held: multiset<nat>,
                    live: set<nat>)
    requires Account(rows, nh, bins, stash, hand, held, live)
    ensures hand <= held
    ensures Holds(rows, nh, bins, stash, held - hand, StillFound(rows, nh, bins, stash, live))
    ensures StillFound(rows, nh, bins, stash, live) <= live
    ensures forall x | x in live && x !in hand :: x in StillFound(rows, nh, bins, stash, live)
  {
    hide IdxOf, HashIdxOf, FilledPrefix, Homed, SlotsOk, Occupants;
    forall x
      ensures hand[x] <= held[x] && (Occupants(bins) + Occupants(stash) + multiset{})[x] == (held - hand)[x]
    {
      assert (Occupants(bins) + Occupants(stash) + hand)[x] == held[x];
    }
    assert Occupants(bins) + Occupants(stash) + multiset{} == held - hand;
    forall x | x in live && x !in hand ensures x in StillFound(rows, nh, bins, stash, live) {
      assert x in Homed(rows, nh, bins, |bins|) + Occupants(stash) + hand;
    }
  }

  /** The same for one entry in hand. */
  lemma AccountLoseOne(rows: Rows, nh: nat, bins: seq<nat>, stash: seq<nat>, v: nat, held: multiset<nat>,
                       live: set<nat>)
    requires Account(rows, nh, bins, stash, One(v) + multiset{}, held, live) && v != EMPTY
    ensures Sized(rows, nh) && (One(v) + multiset{}) == multiset{IdxOf(v)}
    ensures held - multiset{IdxOf(v)} + multiset{IdxOf(v)} == held
    ensures Holds(rows, nh, bins, stash, held - multiset{IdxOf(v)}, StillFound(rows, nh, bins, stash, live))
    ensures StillFound(rows, nh, bins, stash, live) <= live
    ensures forall x | x in live && x !in multiset{IdxOf(v)} :: x in StillFound(rows, nh, bins, stash, live)
  {
    hide Holds, StillFound, Homed, Occupants, IdxOf, FilledPrefix, SlotsOk;
    AccountLose(rows, nh, bins, stash, One(v) + multiset{}, held, live);
    assert One(v) + multiset{} == multiset{IdxOf(v)};
    forall x ensures (held - multiset{IdxOf(v)} + multiset{IdxOf(v)})[x] == held[x] {
      assert multiset{IdxOf(v)}[x] <= held[x];
    }
  }

  /** The items of `live` that are found in bins and stash alone. */
  ghost function StillFound(rows: Rows, nh: nat, bins: seq<nat>, stash: seq<nat>, live: set<nat>): set<nat>
    requires Sized(rows, nh)
  {
    set x | x in live && x in Homed(rows, nh, bins, |bins|) + Occupants(stash)
  }

  // ----- lookup -----

  /** `r` answers a lookup of the hash vector `q`; EMPTY means that no item of `live` has it. */
  ghost predicate Answers(rows: Rows, held: multiset<nat>, live: set<nat>, q: seq<nat>, r: nat) {
    && (r != EMPTY ==> r in held && r < |rows| && rows[r] == q)
    && (r == EMPTY ==> forall x | x in live && x < |rows| :: rows[x] != q)
  }

  /** Bins and stash between them hold `held`, and every item of `live` where a lookup finds it. */
  ghost predicate Holds(rows: Rows, nh: nat, bins: seq<nat>, stash: seq<nat>, held: multiset<nat>, live: set<nat>) {
    Account(rows, nh, bins, stash, multiset{}, held, live)
  }

  /** New items only, each once. */
  ghost predicate Fresh(live: set<nat>, items: seq<nat>) {
    && (forall i | 0 <= i < |items| :: items[i] !in live)
    && forall i, j | 0 <= i < j < |items| :: items[i] != items[j]
  }

  lemma FreshOnce(live: set<nat>, items: seq<nat>)
    requires Fresh(live, items)
    ensures multiset(live) + multiset(items) == multiset(live + Members(items))
  {
    DistinctItems(items);
    assert live !! Members(items);
  }

  /** Whoever a lookup finds is held. */
  lemma LiveIsHeld(rows: Rows, nh: nat, bins: seq<nat>, stash: seq<nat>, held: multiset<nat>, live: set<nat>, x: nat)
    requires Holds(rows, nh, bins, stash, held, live) && x in live
    ensures x in held
  {
    hide Homed, Occupants, SlotsOk, FilledPrefix;
    HomedWithin(rows, nh, bins, |bins|);
    assert bins[..|bins|] == bins;
    assert x in Homed(rows, nh, bins, |bins|) + Occupants(stash) + multiset{};
    assert (Occupants(bins) + Occupants(stash) + multiset{})[x] == held[x];
  }

  /** A table in which every bin is the one its item hashes to, and every item is held once. */
  lemma PlacedHolds(rows: Rows, nh: nat, bins: seq<nat>, stash: seq<nat>, live: set<nat>)
    requires Sized(rows, nh) && |bins| > 0 && Placed(rows, nh, bins) && SlotsOk(rows, nh, stash) && FilledPrefix(stash)
    requires Occupants(bins) + Occupants(stash) == multiset(live)
    ensures Holds(rows, nh, bins, stash, multiset(live), live)
  {
    PlacedHomed(rows, nh, bins, |bins|);
    assert bins[..|bins|] == bins;
    hide IdxOf, HashIdxOf, FilledPrefix, Homed, Occupants;
    assert Occupants(bins) + Occupants(stash) + multiset{} == multiset(live);
    forall x | x in live ensures x in Homed(rows, nh, bins, |bins|) + Occupants(stash) + multiset{} {
      assert multiset(live)[x] == 1;
    }
  }

  /** A live item is in one of the bins its hash vector names, or in the filled prefix of the stash. */
  lemma LiveIsFound(rows: Rows, nh: nat, bins: seq<nat>, stash: seq<nat>, held: multiset<nat>, live: set<nat>, x: nat)
    requires Holds(rows, nh, bins, stash, held, live) && x in live
    ensures x < |rows|
    ensures (exists h | 0 <= h < nh :: bins[rows[x][h] % |bins|] != EMPTY && IdxOf(bins[rows[x][h] % |bins|]) == x)
         || (exists i | 0 <= i < |stash| :: stash[i] != EMPTY && IdxOf(stash[i]) == x)
  {
    hide Occupants, Homed;
    assert x in Homed(rows, nh, bins, |bins|) + Occupants(stash) + multiset{};
    if x in Homed(rows, nh, bins, |bins|) {
      HomedHasBin(rows, nh, bins, |bins|, x);
      var b :| 0 <= b < |bins| && AtHome(rows, nh, |bins|, b, bins[b]) && IdxOf(bins[b]) == x;
      var h := HashIdxOf(bins[b]);
      assert rows[x][h] % |bins| == b;
    } else {
      OccupantHasSlot(stash, x);
    }
  }

  /** Whoever fills a slot is held. */
  lemma FoundIsHeld(rows: Rows, nh: nat, bins: seq<nat>, stash: seq<nat>, held: multiset<nat>, live: set<nat>,
                    s: seq<nat>, i: nat)
    requires Holds(rows, nh, bins, stash, held, live) && (s == bins || s == stash) && i < |s| && s[i] != EMPTY
    ensures IdxOf(s[i]) in held && IdxOf(s[i]) < |rows|
  {
    hide Occupants, Homed;
    OccupantHasSlot(s, IdxOf(s[i]));
    assert IdxOf(s[i]) in Occupants(bins) + Occupants(stash) + multiset{};
  }
}
