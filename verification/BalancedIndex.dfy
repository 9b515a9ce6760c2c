/**
  Two-choice hashing with random rebalancing. Each item has two candidate bins and starts in the
  emptier one; while some bin is over-full, random items move from heavy bins to their other
  candidate. The source's calls of rand() read a sequence of numbers here, and a run stops when
  it is used up, so what holds for every sequence holds at every point of every run.
 */
module BalancedIndex {
  import opened Permutations

  datatype Item = Item(hashIdx: nat, idx: nat)

  /** The bin an item is in, its other candidate, under which the bin lists it, and the hash index it was filed with. */
  datatype Place = Place(bin: nat, other: nat, hashIdx: nat)

  type SubBins = map<nat, seq<Item>>

  // ----- contents of one bin's lists -----

  /** The lists of bin `b` hold exactly the items placed there, each once and under its other candidate. */
  ghost predicate Lists(b: nat, values: SubBins, place: seq<Place>) {
    && (forall k | k in values :: ListOk(b, k, values[k], place))
    && forall x | 0 <= x < |place| && place[x].bin == b :: place[x].other in values && Lists1(values[place[x].other], x)
  }

  ghost predicate ListOk(b: nat, k: nat, list: seq<Item>, place: seq<Place>) {
    && (forall p | 0 <= p < |list| :: list[p].idx < |place| && place[list[p].idx] == Place(b, k, list[p].hashIdx))
    && forall p, q | 0 <= p < q < |list| :: list[p].idx != list[q].idx
  }

  ghost predicate Lists1(list: seq<Item>, x: nat) {
    exists p | 0 <= p < |list| :: list[p].idx == x
  }

  /** How many items are placed in bin `b`. */
  function CountIn(place: seq<Place>, b: nat): nat {
    if place == [] then 0 else CountIn(place[..|place| - 1], b) + if place[|place| - 1].bin == b then 1 else 0
  }

  lemma CountAppend(place: seq<Place>, p: Place, b: nat)
    ensures CountIn(place + [p], b) == CountIn(place, b) + if p.bin == b then 1 else 0
  {
    assert (place + [p])[..|place|] == place;
  }

  lemma {:induction false} CountUpdate(place: seq<Place>, x: nat, p: Place, b: nat)
    requires x < |place|
    ensures CountIn(place[x := p], b) + (if place[x].bin == b then 1 else 0)
         == CountIn(place, b) + if p.bin == b then 1 else 0
  {
    var m := |place| - 1;
    if x < m {
      CountUpdate(place[..m], x, p, b);
      assert place[x := p][..m] == place[..m][x := p];
    } else {
      assert place[x := p][..m] == place[..m];
    }
  }

  /** Adding a new item, number |place|, to bin `b` under `k`. */
  lemma ListsInsert(b: nat, values: SubBins, place: seq<Place>, at: Place)
    requires Lists(b, values, place)
    ensures Lists(b, if b == at.bin then AddTo(values, at.other, Item(at.hashIdx, |place|)) else values, place + [at])
  {
    var place' := place + [at];
    if b == at.bin {
      var k := at.other;
      var before := if k in values then values[k] else [];
      var item := Item(at.hashIdx, |place|);
      assert (before + [item])[|before|] == item;
      var values' := AddTo(values, k, item);
      forall x | 0 <= x < |place'| && place'[x].bin == b
        ensures place'[x].other in values' && Lists1(values'[place'[x].other], x)
      {
        if x < |place| {
          var p :| 0 <= p < |values[place[x].other]| && values[place[x].other][p].idx == x;
          assert values'[place[x].other][p].idx == x;
        }
      }
      forall o | o in values'
        ensures ListOk(b, o, values'[o], place')
      {
        assert o in values ==> ListOk(b, o, values[o], place);
      }
    } else {
      assert forall k | k in values :: ListOk(b, k, values[k], place);
    }
  }

  /** Appends to the list under `k`, creating it if there is none. */
  function AddTo(values: SubBins, k: nat, item: Item): SubBins {
    values[k := (if k in values then values[k] else []) + [item]]
  }

  function RemoveAt(list: seq<Item>, p: nat): seq<Item>
    requires p < |list|
  {
    list[..p] + list[p + 1..]
  }

  lemma RemovedListOk(b: nat, k: nat, list: seq<Item>, place: seq<Place>, p: nat, to: Place)
    requires ListOk(b, k, list, place) && p < |list|
    ensures list[p].idx < |place| && ListOk(b, k, RemoveAt(list, p), place[list[p].idx := to])
  {
    var rest := RemoveAt(list, p);
    forall q | 0 <= q < |rest| ensures rest[q] == list[if q < p then q else q + 1] {}
  }

  lemma OtherListOk(b: nat, k: nat, list: seq<Item>, place: seq<Place>, x: nat, to: Place)
    requires ListOk(b, k, list, place) && x < |place| && place[x].other != k
    ensures ListOk(b, k, list, place[x := to])
  {}

  lemma StillListed(list: seq<Item>, p: nat, y: nat)
    requires p < |list| && Lists1(list, y) && list[p].idx != y
    ensures Lists1(RemoveAt(list, p), y)
  {
    var q :| 0 <= q < |list| && list[q].idx == y;
    assert RemoveAt(list, p)[if q < p then q else q - 1].idx == y;
  }

  /** Taking the item at position `p` of list `k` out of bin `b`; it is placed elsewhere from now on. */
  lemma ListsRemove(b: nat, values: SubBins, place: seq<Place>, k: nat, p: nat, to: Place)
    requires Lists(b, values, place) && k in values && p < |values[k]| && to.bin != b
    ensures values[k][p].idx < |place| && place[values[k][p].idx] == Place(b, k, values[k][p].hashIdx)
    ensures Lists(b, values[k := RemoveAt(values[k], p)], place[values[k][p].idx := to])
  {
    var list := values[k];
    var x := list[p].idx;
    assert ListOk(b, k, list, place);
    assert place[x] == Place(b, k, list[p].hashIdx);
    hide ListOk, Lists1, RemoveAt;
    RemovedListOk(b, k, list, place, p, to);
    var place' := place[x := to];
    var values' := values[k := RemoveAt(list, p)];
    forall k' | k' in values'
      ensures ListOk(b, k', values'[k'], place')
    {
      if k' != k {
        OtherListOk(b, k', values[k'], place, x, to);
      }
    }
    forall y | 0 <= y < |place'| && place'[y].bin == b
      ensures place'[y].other in values' && Lists1(values'[place'[y].other], y)
    {
      if place[y].other == k {
        StillListed(list, p, y);
      }
    }
  }

  lemma ListsHas(b: nat, values: SubBins, place: seq<Place>, k: nat)
    requires Lists(b, values, place)
    ensures ListOk(b, k, if k in values then values[k] else [], place)
  {}

  /** A list of bin `b` does not have an item that is placed elsewhere. */
  lemma ListOkElsewhere(b: nat, k: nat, list: seq<Item>, place: seq<Place>, x: nat, to: Place)
    requires ListOk(b, k, list, place) && x < |place| && place[x].bin != b
    ensures ListOk(b, k, list, place[x := to]) && !Lists1(list, x)
  {}

  lemma ListOkJoin(b: nat, k: nat, list: seq<Item>, place: seq<Place>, item: Item)
    requires ListOk(b, k, list, place) && item.idx < |place| && place[item.idx] == Place(b, k, item.hashIdx)
    requires !Lists1(list, item.idx)
    ensures ListOk(b, k, list + [item], place)
  {}

  /** Putting an item that was placed elsewhere into bin `b`. */
  lemma ListsArrive(b: nat, values: SubBins, place: seq<Place>, item: Item, to: Place)
    requires Lists(b, values, place) && to.bin == b && to.hashIdx == item.hashIdx && item.idx < |place|
             && place[item.idx].bin != b
    ensures Lists(b, AddTo(values, to.other, item), place[item.idx := to])
  {
    hide ListOk;
    var k := to.other;
    var place' := place[item.idx := to];
    var values' := AddTo(values, k, item);
    var before := if k in values then values[k] else [];
    assert values'[k][|before|] == item;
    forall k' | k' in values'
      ensures ListOk(b, k', values'[k'], place')
    {
      ListsHas(b, values, place, k');
      ListOkElsewhere(b, k', if k' in values then values[k'] else [], place, item.idx, to);
      if k' == k {
        ListOkJoin(b, k, before, place', item);
      }
    }
    forall y | 0 <= y < |place'| && place'[y].bin == b
      ensures place'[y].other in values' && Lists1(values'[place'[y].other], y)
    {
      if y != item.idx {
        var q :| 0 <= q < |values[place[y].other]| && values[place[y].other][q].idx == y;
        assert values'[place[y].other][q].idx == y;
      }
    }
  }

  /** A bin that takes no part in a move. */
  lemma ListsBystander(b: nat, values: SubBins, place: seq<Place>, x: nat, to: Place)
    requires Lists(b, values, place) && x < |place| && place[x].bin != b && to.bin != b
    ensures Lists(b, values, place[x := to])
  {
    assert forall k | k in values :: ListOk(b, k, values[k], place);
  }

  /** The items placed in bin `b`. */
  function ItemsIn(place: seq<Place>, b: nat): (s: set<nat>)
    ensures forall x: nat :: x in s <==> x < |place| && place[x].bin == b
  {
    if place == [] then {}
    else ItemsIn(place[..|place| - 1], b) + if place[|place| - 1].bin == b then {|place| - 1} else {}
  }

  lemma {:induction false} ItemsInSize(place: seq<Place>, b: nat)
    ensures |ItemsIn(place, b)| == CountIn(place, b)
  {
    if place != [] {
      ItemsInSize(place[..|place| - 1], b);
      assert |place| - 1 !in ItemsIn(place[..|place| - 1], b);
    }
  }

  /** A duplicate-free listing of the items in a bin is as long as the bin's count. */
  lemma ListingSize(place: seq<Place>, b: nat, s: seq<nat>)
    requires Distinct(s) && forall x: nat :: x in s <==> x < |place| && place[x].bin == b
    ensures |s| == CountIn(place, b)
  {
    hide CountIn;
    ElementsSize(s);
    ItemsInSize(place, b);
    assert Elements(s) == ItemsIn(place, b);
  }

  /**
    `ids` lists, without repetition, exactly the items in bin `b` whose other candidate is in `keys`, `hs` their hash
    indices.
   */
  ghost predicate Flat(place: seq<Place>, b: nat, keys: set<nat>, ids: seq<nat>, hs: seq<nat>) {
    && Distinct(ids) && |hs| == |ids|
    && (forall x: nat :: x in ids <==> x < |place| && place[x].bin == b && place[x].other in keys)
    && forall i | 0 <= i < |ids| && ids[i] < |place| :: hs[i] == place[ids[i]].hashIdx
  }

  // ----- the potential -----

  function SumSq(cnt: seq<nat>): nat {
    if cnt == [] then 0 else SumSq(cnt[..|cnt| - 1]) + cnt[|cnt| - 1] * cnt[|cnt| - 1]
  }

  lemma {:induction false} SumSqUpdate(cnt: seq<nat>, b: nat, v: nat)
    requires b < |cnt|
    ensures SumSq(cnt[b := v]) + cnt[b] * cnt[b] == SumSq(cnt) + v * v
  {
    var m := |cnt| - 1;
    if b < m {
      SumSqUpdate(cnt[..m], b, v);
      assert cnt[b := v][..m] == cnt[..m][b := v];
    } else {
      assert cnt[b := v][..m] == cnt[..m];
    }
  }

  /** A move from a fuller bin never raises the potential, and lowers it by two or more unless it is a tie. */
  lemma MoveLowers(cnt: seq<nat>, b1: nat, b2: nat)
    requires b1 < |cnt| && b2 < |cnt| && cnt[b2] < cnt[b1]
    ensures var cnt' := cnt[b1 := (cnt[b1] - 1) as nat][b2 := cnt[b2] + 1];
      SumSq(cnt') + 2 * (cnt[b1] - cnt[b2] - 1) == SumSq(cnt)
  {
    hide SumSq;
    var x: int, y: int := cnt[b1], cnt[b2];
    var mid: seq<nat> := cnt[b1 := x - 1];
    SumSqUpdate(cnt, b1, x - 1);
    SumSqUpdate(mid, b2, y + 1);
    assert (x - 1) * (x - 1) == x * x - 2 * x + 1;
    assert (y + 1) * (y + 1) == y * y + 2 * y + 1;
  }

  // ----- the index -----

  /** Every item is in one of its two candidate bins and listed under the other. */
  ghost predicate Candidates(place: seq<Place>, cand: seq<(nat, nat)>) {
    |place| <= |cand| && forall x | 0 <= x < |place| ::
      (place[x].bin, place[x].other) == cand[x] || (place[x].other, place[x].bin) == cand[x]
  }

  lemma ChangingSides(place: seq<Place>, cand: seq<(nat, nat)>, x: nat, to: Place)
    requires Candidates(place, cand) && x < |place| && to == Place(place[x].other, place[x].bin, place[x].hashIdx)
    ensures Candidates(place[x := to], cand) && SameHashes(place, place[x := to])
  {}

  /** Item x joined the candidate that held fewer items before it, the second one on a tie. */
  ghost predicate JoinsEmptier(place: seq<Place>, x: nat, cand: (nat, nat))
    requires x < |place|
  {
    place[x] == if CountIn(place[..x], cand.0) < CountIn(place[..x], cand.1) then Place(cand.0, cand.1, 0)
        else Place(cand.1, cand.0, 1)
  }

  /** Next to every listed item is the hash index it was first filed with. */
  ghost predicate HashesListed(ids: seq<nat>, hs: seq<nat>, place: seq<Place>) {
    |ids| == |hs| && forall i | 0 <= i < |ids| :: ids[i] < |place| && hs[i] == place[ids[i]].hashIdx
  }

  ghost predicate SameHashes(before: seq<Place>, after: seq<Place>) {
    |before| == |after| && forall x | 0 <= x < |after| :: after[x].hashIdx == before[x].hashIdx
  }

  function WithoutFirst(s: seq<nat>, x: nat): (r: seq<nat>)
    ensures x !in s ==> r == s
    ensures forall y :: y in r ==> y in s
    ensures forall y :: y in s && y != x ==> y in r
  {
    if s == [] then [] else if s[0] == x then s[1..] else [s[0]] + WithoutFirst(s[1..], x)
  }

  /** The lists of bin `b` after the first pass: its items in their order, each under its other candidate. */
  function FirstValues(place: seq<Place>, b: nat): SubBins {
    if place == [] then map[]
    else
      var m := |place| - 1;
      var before := FirstValues(place[..m], b);
      if place[m].bin == b then AddTo(before, place[m].other, Item(place[m].hashIdx, m)) else before
  }

  lemma FirstValuesNext(place: seq<Place>, at: Place, b: nat)
    ensures FirstValues(place + [at], b)
         == if at.bin == b then AddTo(FirstValues(place, b), at.other, Item(at.hashIdx, |place|))
            else FirstValues(place, b)
  {
    assert (place + [at])[..|place|] == place;
  }

  // ----- the balancing loop on values -----

  /** What the balancing loop works on: counters, lists, light candidates and heavy bins. */
  datatype Snap = Snap(cnt: seq<nat>, values: seq<SubBins>, light: seq<seq<nat>>, heavy: seq<nat>)

  /** A turn of the loop: nothing moves, or the item at position `p` that `b1` lists for its light candidate `i2`. */
  datatype Turn = Stay | Go(b1: nat, i2: nat, p: nat)

  /** Bin `b1` lists items for its light candidate number `i2`. */
  predicate Listed(s: Snap, b1: nat, i2: nat) {
    && b1 < |s.cnt| == |s.values| == |s.light| && i2 < |s.light[b1]|
    && var b2 := s.light[b1][i2];
       b2 < |s.cnt| && b2 in s.values[b1]
  }

  /**
    What a turn does on four of the numbers that rand() returns: it picks a heavy bin and one of its light
    candidates, and if that one is emptier a random item that the heavy bin lists for it is due to move, on a tie only
    half the time.
   */
  function Drawn(s: Snap, r1: nat, r2: nat, r3: nat, r4: nat): (t: Turn)
    ensures t.Go? ==> Listed(s, t.b1, t.i2) && t.p < |s.values[t.b1][s.light[t.b1][t.i2]]| && s.cnt[t.b1] > 0
  {
    if s.heavy == [] then Stay
    else
      var b1 := s.heavy[r1 % |s.heavy|];
      if b1 >= |s.light| || s.light[b1] == [] then Stay
      else
        var i2 := r2 % |s.light[b1]|;
        if !Listed(s, b1, i2) then Stay
        else
          var b2 := s.light[b1][i2];
          var list := s.values[b1][b2];
          if s.cnt[b2] >= s.cnt[b1] || (s.cnt[b2] + 1 == s.cnt[b1] && r3 % 2 != 1) || list == [] then Stay
          else Go(b1, i2, r4 % |list|)
  }

  /**
    After a move: the item changes lists and the counters follow; `b1` is no longer heavy once it is below the maximum,
    and `b2` is, and no light candidate of `b1`, once it is above; `b1` becomes a light candidate of `b2` if it had no
    list there, or is below the maximum.
   */
  function Moved(max: nat, s: Snap, b1: nat, i2: nat, p: nat): Snap
    requires Listed(s, b1, i2) && p < |s.values[b1][s.light[b1][i2]]| && s.cnt[b1] > 0
  {
    var b2 := s.light[b1][i2];
    var item := s.values[b1][b2][p];
    var cnt: seq<nat> := s.cnt[b1 := s.cnt[b1] - 1][b2 := s.cnt[b2] + 1];
    var light := s.light[b2 := s.light[b2] + if b1 !in s.values[b2] || cnt[b1] < max then [b1] else []];
    Snap(cnt, s.values[b1 := s.values[b1][b2 := RemoveAt(s.values[b1][b2], p)]][b2 := AddTo(s.values[b2], b1, item)],
         if cnt[b2] > max then light[b1 := s.light[b1][..i2] + s.light[b1][i2 + 1..]] else light,
         HeavyAfter(max, cnt, s.heavy, b1, b2))
  }

  /** The heavy bins after a move: `b1` leaves once it is below the maximum, `b2` joins once it is above. */
  function HeavyAfter(max: nat, cnt: seq<nat>, heavy: seq<nat>, b1: nat, b2: nat): seq<nat>
    requires b1 < |cnt| && b2 < |cnt|
  {
    (if cnt[b1] < max then WithoutFirst(heavy, b1) else heavy) + if cnt[b2] > max then [b2] else []
  }

  /** The same with the light candidates bin by bin. */
  lemma MovedParts(max: nat, s: Snap, b1: nat, i2: nat, p: nat, s': Snap)
    requires Listed(s, b1, i2) && p < |s.values[b1][s.light[b1][i2]]| && s.cnt[s.light[b1][i2]] < s.cnt[b1]
    requires var b2 := s.light[b1][i2];
             var list := s.values[b1][b2];
             && s'.cnt == s.cnt[b1 := (s.cnt[b1] - 1) as nat][b2 := s.cnt[b2] + 1]
             && s'.values == s.values[b1 := s.values[b1][b2 := RemoveAt(list, p)]]
                                     [b2 := AddTo(s.values[b2], b1, list[p])]
             && s'.heavy == HeavyAfter(max, s'.cnt, s.heavy, b1, b2) && |s'.light| == |s.light|
             && (forall b | 0 <= b < |s.light| && b != b1 && b != b2 :: s'.light[b] == s.light[b])
             && s'.light[b2] == s.light[b2] + (if b1 !in s.values[b2] || s'.cnt[b1] < max then [b1] else [])
             && s'.light[b1] == if s'.cnt[b2] > max then s.light[b1][..i2] + s.light[b1][i2 + 1..] else s.light[b1]
    ensures s' == Moved(max, s, b1, i2, p)
  {
    hide RemoveAt, AddTo, HeavyAfter;
    assert s'.light == Moved(max, s, b1, i2, p).light;
  }

  function NextSnap(max: nat, s: Snap, r1: nat, r2: nat, r3: nat, r4: nat): Snap {
    match Drawn(s, r1, r2, r3, r4)
    case Stay => s
    case Go(b1, i2, p) => Moved(max, s, b1, i2, p)
  }

  /** The loop: while a bin is heavy and four numbers are left. */
  function After(max: nat, s: Snap, rands: seq<nat>): Snap
    decreases |rands|
  {
    if s.heavy == [] || |rands| < 4 then s
    else After(max, NextSnap(max, s, rands[0], rands[1], rands[2], rands[3]), rands[4..])
  }

  /**
    What the loop starts with: items placed by the first pass, for each bin the candidates below the maximum, in
    whatever
    order, and the bins above it.
   */
  ghost predicate StartsFrom(max: nat, n: nat, cand: seq<(nat, nat)>, s: Snap, place: seq<Place>) {
    && |place| == |cand| && (forall x | 0 <= x < |cand| :: JoinsEmptier(place, x, cand[x]))
    && |s.cnt| == |s.values| == |s.light| == n
    && (forall b: nat | b < n :: s.cnt[b] == CountIn(place, b) && s.values[b] == FirstValues(place, b))
    && (forall b: nat | b < n :: Distinct(s.light[b])
          && forall k: nat :: k in s.light[b] <==> k in s.values[b] && k < n && s.cnt[k] < max)
    && Distinct(s.heavy) && forall b: nat :: b in s.heavy <==> b < n && s.cnt[b] > max
  }

  /** From such a start the loop gets rid of all heavy bins on these numbers, or does not. */
  ghost predicate EndsFrom(max: nat, n: nat, cand: seq<(nat, nat)>, rands: seq<nat>, done: bool) {
    exists s: Snap, place: seq<Place> ::
      StartsFrom(max, n, cand, s, place) && (done <==> After(max, s, rands).heavy == [])
  }

  lemma OneTurn(max: nat, s: Snap, rands: seq<nat>)
    requires s.heavy != [] && |rands| >= 4
    ensures After(max, s, rands) == After(max, NextSnap(max, s, rands[0], rands[1], rands[2], rands[3]), rands[4..])
  {}

  lemma NoTurn(max: nat, s: Snap, rands: seq<nat>)
    requires s.heavy == [] || |rands| < 4
    ensures After(max, s, rands) == s
  {}

  /**
    Whichever heavy bin, emptier light candidate and listed item one names, there are numbers on which the turn moves
    that item; the third is free unless it is a tie.
   */
  lemma EveryMoveCanBeDrawn(max: nat, s: Snap, i1: nat, i2: nat, p: nat, r3: nat)
    requires i1 < |s.heavy| && Listed(s, s.heavy[i1], i2)
    requires var b1, b2 := s.heavy[i1], s.light[s.heavy[i1]][i2];
             s.cnt[b2] < s.cnt[b1] && p < |s.values[b1][b2]| && (s.cnt[b2] + 1 < s.cnt[b1] || r3 % 2 == 1)
    ensures var b1, b2, s' := s.heavy[i1], s.light[s.heavy[i1]][i2], NextSnap(max, s, i1, i2, r3, p);
            var list, there := s.values[b1][b2], if b1 in s.values[b2] then s.values[b2][b1] else [];
            && |s'.cnt| == |s'.values| == |s.cnt| && s'.cnt[b1] == s.cnt[b1] - 1 && s'.cnt[b2] == s.cnt[b2] + 1
            && b2 in s'.values[b1] && s'.values[b1][b2] == list[..p] + list[p + 1..]
            && b1 in s'.values[b2] && s'.values[b2][b1] == there + [list[p]]
            && forall b | 0 <= b < |s.cnt| && b != b1 && b != b2 ::
                 s'.cnt[b] == s.cnt[b] && s'.values[b] == s.values[b]
  {
    hide Moved, Drawn;
    DrawnWhere(s, i1, i2, p, r3);
    MovedItem(max, s, s.heavy[i1], i2, p);
  }

  lemma Within(i: nat, n: nat)
    requires i < n
    ensures i % n == i
  {}

  lemma DrawnWhere(s: Snap, i1: nat, i2: nat, p: nat, r3: nat)
    requires i1 < |s.heavy| && Listed(s, s.heavy[i1], i2)
    requires var b1, b2 := s.heavy[i1], s.light[s.heavy[i1]][i2];
             s.cnt[b2] < s.cnt[b1] && p < |s.values[b1][b2]| && (s.cnt[b2] + 1 < s.cnt[b1] || r3 % 2 == 1)
    ensures Drawn(s, i1, i2, r3, p) == Go(s.heavy[i1], i2, p)
  {
    var b1, b2 := s.heavy[i1], s.light[s.heavy[i1]][i2];
    Within(i1, |s.heavy|);
    Within(i2, |s.light[b1]|);
    Within(p, |s.values[b1][b2]|);
  }

  lemma MovedItem(max: nat, s: Snap, b1: nat, i2: nat, p: nat)
    requires Listed(s, b1, i2) && p < |s.values[b1][s.light[b1][i2]]| && s.cnt[s.light[b1][i2]] < s.cnt[b1]
    ensures var b2, s' := s.light[b1][i2], Moved(max, s, b1, i2, p);
            var list, there := s.values[b1][b2], if b1 in s.values[b2] then s.values[b2][b1] else [];
            && |s'.cnt| == |s'.values| == |s.cnt| && s'.cnt[b1] == s.cnt[b1] - 1 && s'.cnt[b2] == s.cnt[b2] + 1
            && b2 in s'.values[b1] && s'.values[b1][b2] == list[..p] + list[p + 1..]
            && b1 in s'.values[b2] && s'.values[b2][b1] == there + [list[p]]
            && forall b | 0 <= b < |s.cnt| && b != b1 && b != b2 ::
                 s'.cnt[b] == s.cnt[b] && s'.values[b] == s.values[b]
  {}

  /**
    Nothing moves only if the candidate drawn is not emptier, or nothing is listed for it, or a tie draws an even
    number.
   */
  lemma WhenNothingMoves(max: nat, s: Snap, i1: nat, i2: nat, r1: nat, r2: nat, r3: nat, r4: nat)
    requires i1 < |s.heavy| && Listed(s, s.heavy[i1], i2)
    requires r1 % |s.heavy| == i1 && r2 % |s.light[s.heavy[i1]]| == i2
    ensures var b1, b2 := s.heavy[i1], s.light[s.heavy[i1]][i2];
            (NextSnap(max, s, r1, r2, r3, r4).cnt == s.cnt) <==>
            s.cnt[b2] >= s.cnt[b1] || s.values[b1][b2] == [] || (s.cnt[b2] + 1 == s.cnt[b1] && r3 % 2 == 0)
  {
    var b1, b2 := s.heavy[i1], s.light[s.heavy[i1]][i2];
    if Drawn(s, r1, r2, r3, r4).Go? {
      assert Moved(max, s, b1, i2, Drawn(s, r1, r2, r3, r4).p).cnt[b1] != s.cnt[b1];
    }
  }

  class BalancedIndex {
    const mNumBins: nat
    const mMaxBinSize: nat
    const cnt: array<nat>
    const values: array<SubBins>
    const lightBins: array<seq<nat>>
    const idxs: array<seq<nat>>
    const hashIdxs: array<seq<nat>>
    var numIters: nat
    /** Where each item inserted so far is. */
    ghost var place: seq<Place>

    constructor (numBins: nat, maxBinSize: nat)
      requires numBins > 0
      ensures Valid() && place == [] && mNumBins == numBins && mMaxBinSize == maxBinSize && numIters == 0
      ensures forall b | 0 <= b < numBins ::
                values[b] == map[] && lightBins[b] == [] && idxs[b] == [] && hashIdxs[b] == []
      ensures fresh(cnt) && fresh(values) && fresh(lightBins) && fresh(idxs) && fresh(hashIdxs)
    {
      mNumBins, mMaxBinSize := numBins, maxBinSize;
      cnt := new nat[numBins](_ => 0);
      values := new SubBins[numBins](_ => map[]);
      lightBins := new seq<nat>[numBins](_ => []);
      var i := new seq<nat>[numBins](_ => []);
      var h := new seq<nat>[numBins](_ => []);
      idxs, hashIdxs := i, h;
      numIters := 0;
      place := [];
    }

    /** Every list holds what is placed there and every counter counts it. */
    ghost predicate Valid()
      reads this, cnt, values
    {
      && mNumBins > 0 && cnt.Length == values.Length == lightBins.Length == idxs.Length == hashIdxs.Length == mNumBins
      && cnt as object != values && lightBins as object != values && lightBins as object != cnt
      && lightBins != idxs && lightBins != hashIdxs && idxs != hashIdxs
      && (forall x | 0 <= x < |place| :: place[x].bin < mNumBins && place[x].other < mNumBins)
      && (forall b, k | 0 <= b < mNumBins && k in values[b] :: k < mNumBins)
      && (forall b | 0 <= b < mNumBins :: Lists(b, values[b], place))
      && forall b | 0 <= b < mNumBins :: cnt[b] == CountIn(place, b)
    }

    ghost function Snapshot(heavyBins: seq<nat>): Snap
      reads cnt, values, lightBins
    {
      Snap(cnt[..], values[..], lightBins[..], heavyBins)
    }

    ghost predicate InCandidates(cand: seq<(nat, nat)>)
      reads this
    {
      Candidates(place, cand)
    }

    /** First pass: every item joins the emptier of its candidates, the second one on a tie. */
    method FirstPass(cand: seq<(nat, nat)>)
      requires Valid() && place == [] && forall x | 0 <= x < |cand| :: cand[x].0 < mNumBins && cand[x].1 < mNumBins
      requires forall b | 0 <= b < mNumBins :: values[b] == map[]
      modifies `place, cnt, values
      ensures Valid() && |place| == |cand| && InCandidates(cand)
      ensures forall x | 0 <= x < |cand| :: JoinsEmptier(place, x, cand[x])
      ensures forall b: nat | b < mNumBins :: values[b] == FirstValues(place, b)
    {
      hide Lists, CountIn, FirstValues;
      NoneYet();
      for x := 0 to |cand|
        invariant Valid() && |place| == x && InCandidates(cand)
        invariant forall b: nat | b < mNumBins :: values[b] == FirstValues(place, b)
        invariant forall y | 0 <= y < x :: JoinsEmptier(place, y, cand[y])
      {
        var b1, b2 := cand[x].0, cand[x].1;
        ghost var before := place;
        if cnt[b1] < cnt[b2] {
          InsertAt(Place(b1, b2, 0), x);
        } else {
          InsertAt(Place(b2, b1, 1), x);
        }
        assert forall y | 0 <= y <= x :: place[..y] == before[..y];
      }
    }

    static lemma NoneYet()
      ensures forall b: nat :: FirstValues([], b) == map[]
    {}

    /** Adds the next item to the list of its bin. */
    method InsertAt(at: Place, x: nat)
      requires Valid() && x == |place| && at.bin < mNumBins && at.other < mNumBins
      requires forall b: nat | b < mNumBins :: values[b] == FirstValues(place, b)
      modifies `place, cnt, values
      ensures Valid() && place == old(place) + [at]
      ensures forall b: nat | b < mNumBins :: values[b] == FirstValues(place, b)
    {
      hide Lists, CountIn, FirstValues;
      forall b | 0 <= b < mNumBins
        ensures Lists(b, if b == at.bin then AddTo(values[b], at.other, Item(at.hashIdx, |place|))
                else values[b], place + [at])
        ensures CountIn(place + [at], b) == CountIn(place, b) + if at.bin == b then 1 else 0
      {
        ListsInsert(b, values[b], place, at);
        CountAppend(place, at, b);
      }
      forall b: nat | b < mNumBins
        ensures FirstValues(place + [at], b)
             == if b == at.bin then AddTo(values[b], at.other, Item(at.hashIdx, |place|)) else values[b]
      {
        FirstValuesNext(place, at, b);
      }
      values[at.bin] := AddTo(values[at.bin], at.other, Item(at.hashIdx, x));
      cnt[at.bin] := cnt[at.bin] + 1;
      place := place + [at];
    }

    // ----- light and heavy bins -----

    /** Light bins are keys of the lists. */
    ghost predicate LightOk()
      requires Valid()
      reads this, cnt, values, lightBins
    {
      forall b, i | 0 <= b < mNumBins && 0 <= i < |lightBins[b]| :: lightBins[b][i] in values[b]
    }

    /** Every over-full bin is among the heavy ones. */
    ghost predicate HeavyOk(heavyBins: seq<nat>)
      requires Valid()
      reads this, cnt, values
    {
      && (forall i | 0 <= i < |heavyBins| :: heavyBins[i] < mNumBins)
      && forall b: nat | b < mNumBins && cnt[b] > mMaxBinSize :: b in heavyBins
    }

    /** For each bin its light candidates, in whatever order its lists come, and the over-full bins. */
    method FindLightAndHeavy() returns (heavyBins: seq<nat>)
      requires Valid() && forall b | 0 <= b < mNumBins :: lightBins[b] == []
      modifies lightBins
      ensures Valid() && LightOk() && HeavyOk(heavyBins)
      ensures Distinct(heavyBins) && forall b: nat :: b in heavyBins <==> b < mNumBins && cnt[b] > mMaxBinSize
      ensures forall b | 0 <= b < mNumBins :: Distinct(lightBins[b]) && LightOf(b, lightBins[b], values[b].Keys)
    {
      hide Lists, CountIn;
      heavyBins := [];
      for b := 0 to mNumBins
        invariant Valid() && LightOk() && Distinct(heavyBins)
        invariant forall c | b <= c < mNumBins :: lightBins[c] == []
        invariant forall c: nat :: c in heavyBins <==> c < b && cnt[c] > mMaxBinSize
        invariant forall c | 0 <= c < b :: Distinct(lightBins[c]) && LightOf(c, lightBins[c], values[c].Keys)
      {
        ListLight(b);
        if cnt[b] > mMaxBinSize {
          heavyBins := heavyBins + [b];
        }
      }
      assert forall i | 0 <= i < |heavyBins| :: heavyBins[i] in heavyBins;
    }

    /** `light` are the bins of `keys` that are below the maximum. */
    ghost predicate LightOf(b: nat, light: seq<nat>, keys: set<nat>)
      requires Valid() && b < mNumBins && keys <= values[b].Keys
      reads this, cnt, values
    {
      forall k: nat :: k in light <==> k in keys && cnt[k] < mMaxBinSize
    }

    method ListLight(b: nat)
      requires Valid() && b < mNumBins && lightBins[b] == []
      modifies lightBins
      ensures Valid() && Distinct(lightBins[b]) && LightOf(b, lightBins[b], values[b].Keys)
      ensures forall c | 0 <= c < mNumBins && c != b :: lightBins[c] == old(lightBins[c])
    {
      hide Lists, CountIn;
      var keys := values[b].Keys;
      while keys != {}
        modifies lightBins
        invariant keys <= values[b].Keys && Valid() && Distinct(lightBins[b])
                  && LightOf(b, lightBins[b], values[b].Keys - keys)
        invariant forall c | 0 <= c < mNumBins && c != b :: lightBins[c] == old(lightBins[c])
        decreases |keys|
      {
        var k :| k in keys;
        if cnt[k] < mMaxBinSize {
          lightBins[b] := lightBins[b] + [k];
        }
        keys := keys - {k};
      }
      assert values[b].Keys - keys == values[b].Keys;
    }

    // ----- self-balancing -----

    /** Moves the item at position `p` of the list for `b2` in `b1` over to `b2`. */
    method MoveItem(b1: nat, b2: nat, p: nat)
      requires Valid() && b1 < mNumBins && b2 < mNumBins && b2 in values[b1] && p < |values[b1][b2]|
               && cnt[b2] < cnt[b1]
      modifies `place, cnt, values
      ensures Valid() && old(values[b1][b2][p]).idx < |old(place)|
      ensures old(place)[old(values[b1][b2][p]).idx] == Place(b1, b2, old(values[b1][b2][p]).hashIdx)
      ensures place == old(place)[old(values[b1][b2][p]).idx := Place(b2, b1, old(values[b1][b2][p]).hashIdx)]
      ensures cnt[..] == old(cnt[..])[b1 := (old(cnt[b1]) - 1) as nat][b2 := old(cnt[b2]) + 1]
      ensures values[..] == old(values[..])[b1 := old(values[b1])[b2 := RemoveAt(old(values[b1][b2]), p)]]
                            [b2 := AddTo(old(values[b2]), b1, old(values[b1][b2][p]))]
      ensures forall b | 0 <= b < mNumBins :: old(values[b].Keys) <= values[b].Keys
      ensures b1 in values[b2]
    {
      hide CountIn, RemoveAt, AddTo, Lists;
      var item := values[b1][b2][p];
      MoveKeeps(b1, b2, p);
      KeysKept(values[b1], b2, RemoveAt(values[b1][b2], p));
      AddKeys(values[b2], b1, item);
      values[b1] := values[b1][b2 := RemoveAt(values[b1][b2], p)];
      cnt[b1] := cnt[b1] - 1;
      values[b2] := AddTo(values[b2], b1, item);
      cnt[b2] := cnt[b2] + 1;
      place := place[item.idx := Place(b2, b1, item.hashIdx)];
    }

    lemma MoveKeeps(b1: nat, b2: nat, p: nat)
      requires Valid() && b1 < mNumBins && b2 < mNumBins && b2 in values[b1] && p < |values[b1][b2]| && b1 != b2
      ensures var item, to := values[b1][b2][p], Place(b2, b1, values[b1][b2][p].hashIdx);
        && item.idx < |place| && place[item.idx] == Place(b1, b2, item.hashIdx)
        && (forall b | 0 <= b < mNumBins && b != b1 && b != b2 :: Lists(b, values[b], place[item.idx := to]))
        && Lists(b1, values[b1][b2 := RemoveAt(values[b1][b2], p)], place[item.idx := to])
        && Lists(b2, AddTo(values[b2], b1, item), place[item.idx := to])
        && forall b | 0 <= b < mNumBins ::
             CountIn(place[item.idx := to], b) + (if b == b1 then 1 else 0)
             == CountIn(place, b) + if b == b2 then 1 else 0
    {
      hide CountIn, RemoveAt, AddTo, Lists;
      var item, to := values[b1][b2][p], Place(b2, b1, values[b1][b2][p].hashIdx);
      ListsRemove(b1, values[b1], place, b2, p, to);
      ListsArrive(b2, values[b2], place, item, to);
      forall b | 0 <= b < mNumBins
        ensures b != b1 && b != b2 ==> Lists(b, values[b], place[item.idx := to])
        ensures CountIn(place[item.idx := to], b) + (if b == b1 then 1 else 0)
             == CountIn(place, b) + if b == b2 then 1 else 0
      {
        CountUpdate(place, item.idx, to, b);
        if b != b1 && b != b2 {
          ListsBystander(b, values[b], place, item.idx, to);
        }
      }
    }

    static lemma KeysKept(m: SubBins, k: nat, list: seq<Item>)
      requires k in m
      ensures m[k := list].Keys == m.Keys
    {}

    static lemma AddKeys(m: SubBins, k: nat, item: Item)
      ensures AddTo(m, k, item).Keys == m.Keys + {k}
    {}

    /** Position of the first occurrence. */
    static method IndexOf(s: seq<nat>, x: nat) returns (i: nat)
      requires x in s
      ensures i < |s| && s[i] == x && x !in s[..i]
    {
      i := 0;
      while s[i] != x
        invariant i < |s| && x in s[i..] && x !in s[..i]
        decreases |s| - i
      {
        i := i + 1;
      }
    }

    /** The bookkeeping of heavy and light bins after an item has moved from `b1` to `b2`. */
    method UpdateTracking(heavy0: seq<nat>, b1: nat, b2: nat, i2: nat, listed: bool) returns (heavyBins: seq<nat>)
      requires Valid() && LightOk() && b1 < mNumBins && b2 < mNumBins && b1 != b2 && b1 in heavy0 && b1 in values[b2]
               && i2 < |lightBins[b1]|
      requires (forall i | 0 <= i < |heavy0| :: heavy0[i] < mNumBins)
      requires forall b: nat | b < mNumBins && cnt[b] > mMaxBinSize && b != b2 :: b in heavy0
      modifies lightBins
      ensures Valid() && LightOk() && HeavyOk(heavyBins)
      ensures heavyBins == HeavyAfter(mMaxBinSize, cnt[..], heavy0, b1, b2)
      ensures forall b | 0 <= b < mNumBins && b != b1 && b != b2 :: lightBins[b] == old(lightBins[b])
      ensures lightBins[b2] == old(lightBins[b2]) + if !listed || cnt[b1] < mMaxBinSize then [b1] else []
      ensures lightBins[b1] == if cnt[b2] > mMaxBinSize then old(lightBins[b1])[..i2] + old(lightBins[b1])[i2 + 1..]
              else old(lightBins[b1])
    {
      hide Lists, CountIn, HeavyAfter, WithoutFirst;
      heavyBins := UpdateHeavy(heavy0, b1, b2);
      if !listed || cnt[b1] < mMaxBinSize {
        lightBins[b2] := lightBins[b2] + [b1];
      }
      if cnt[b2] > mMaxBinSize {
        lightBins[b1] := lightBins[b1][..i2] + lightBins[b1][i2 + 1..];
      }
    }

    method UpdateHeavy(heavy0: seq<nat>, b1: nat, b2: nat) returns (heavyBins: seq<nat>)
      requires Valid() && b1 < mNumBins && b2 < mNumBins && b1 in heavy0
      requires (forall i | 0 <= i < |heavy0| :: heavy0[i] < mNumBins)
      requires forall b: nat | b < mNumBins && cnt[b] > mMaxBinSize && b != b2 :: b in heavy0
      ensures HeavyOk(heavyBins) && heavyBins == HeavyAfter(mMaxBinSize, cnt[..], heavy0, b1, b2)
    {
      hide Lists, CountIn;
      heavyBins := heavy0;
      if cnt[b1] < mMaxBinSize {
        var i := IndexOf(heavyBins, b1);
        heavyBins := heavyBins[..i] + heavyBins[i + 1..];
        Erased(heavy0, i);
      }
      if cnt[b2] > mMaxBinSize {
        heavyBins := heavyBins + [b2];
      }
    }

    static lemma {:induction false} Erased(s: seq<nat>, i: nat)
      requires i < |s| && s[i] !in s[..i]
      ensures s[..i] + s[i + 1..] == WithoutFirst(s, s[i])
    {
      if i > 0 {
        assert s[0] != s[i] by { assert s[..i][0] == s[0]; }
        assert s[1..][..i - 1] == s[..i][1..];
        Erased(s[1..], i - 1);
        assert s[..i] == [s[0]] + s[1..][..i - 1];
        assert s[1..][i..] == s[i + 1..];
      }
    }

    /** Moves an item, which lowers the potential, and brings the heavy and light bins up to date. */
    method MoveOne(heavy0: seq<nat>, b1: nat, b2: nat, i2: nat, p: nat,
                   ghost cand: seq<(nat, nat)>) returns (heavyBins: seq<nat>)
      requires Valid() && InCandidates(cand) && LightOk() && HeavyOk(heavy0) && b1 in heavy0
      requires b1 < mNumBins && i2 < |lightBins[b1]| && lightBins[b1][i2] == b2 && b2 in values[b1] && b2 < mNumBins
      requires p < |values[b1][b2]| && cnt[b2] < cnt[b1]
      modifies `place, cnt, values, lightBins
      ensures Valid() && InCandidates(cand) && |place| == old(|place|) && LightOk() && HeavyOk(heavyBins)
      ensures SumSq(cnt[..]) + 2 * (old(cnt[b1]) - old(cnt[b2]) - 1) == SumSq(old(cnt[..]))
      ensures old(values[b1][b2][p]).idx < |old(place)| && SameHashes(old(place), place)
      ensures place
              == old(place)[old(values[b1][b2][p]).idx := Place(b2, b1, old(place)[old(values[b1][b2][p]).idx].hashIdx)]
      ensures Listed(old(Snapshot(heavy0)), b1, i2) && old(cnt[b1]) > 0
      ensures Snapshot(heavyBins) == Moved(mMaxBinSize, old(Snapshot(heavy0)), b1, i2, p)
    {
      hide Lists, CountIn, SumSq, WithoutFirst, Candidates, SameHashes, RemoveAt, AddTo, Moved, HeavyAfter;
      ghost var before, s := place, Snapshot(heavy0);
      ghost var item := values[b1][b2][p];
      MoveLowers(cnt[..], b1, b2);
      heavyBins := MoveAndTrack(heavy0, b1, b2, i2, p);
      ChangingSides(before, cand, item.idx, Place(b2, b1, before[item.idx].hashIdx));
      MovedParts(mMaxBinSize, s, b1, i2, p, Snapshot(heavyBins));
    }

    method MoveAndTrack(heavy0: seq<nat>, b1: nat, b2: nat, i2: nat, p: nat) returns (heavyBins: seq<nat>)
      requires Valid() && LightOk() && HeavyOk(heavy0) && b1 in heavy0
      requires b1 < mNumBins && i2 < |lightBins[b1]| && lightBins[b1][i2] == b2 && b2 in values[b1] && b2 < mNumBins
      requires p < |values[b1][b2]| && cnt[b2] < cnt[b1]
      modifies `place, cnt, values, lightBins
      ensures Valid() && LightOk() && HeavyOk(heavyBins)
      ensures old(values[b1][b2][p]).idx < |old(place)|
      ensures old(place)[old(values[b1][b2][p]).idx] == Place(b1, b2, old(values[b1][b2][p]).hashIdx)
      ensures place == old(place)[old(values[b1][b2][p]).idx := Place(b2, b1, old(values[b1][b2][p]).hashIdx)]
      ensures cnt[..] == old(cnt[..])[b1 := (old(cnt[b1]) - 1) as nat][b2 := old(cnt[b2]) + 1]
      ensures values[..] == old(values[..])[b1 := old(values[b1])[b2 := RemoveAt(old(values[b1][b2]), p)]]
                            [b2 := AddTo(old(values[b2]), b1, old(values[b1][b2][p]))]
      ensures heavyBins == HeavyAfter(mMaxBinSize, cnt[..], heavy0, b1, b2)
      ensures forall b | 0 <= b < mNumBins && b != b1 && b != b2 :: lightBins[b] == old(lightBins[b])
      ensures lightBins[b2] == old(lightBins[b2])
                               + if b1 !in old(values[b2]) || cnt[b1] < mMaxBinSize then [b1] else []
      ensures lightBins[b1] == if cnt[b2] > mMaxBinSize then old(lightBins[b1])[..i2] + old(lightBins[b1])[i2 + 1..]
              else old(lightBins[b1])
    {
      hide Lists, CountIn, WithoutFirst, RemoveAt, AddTo, HeavyAfter;
      var listed := b1 in values[b2];
      MoveItem(b1, b2, p);
      heavyBins := UpdateTracking(heavy0, b1, b2, i2, listed);
    }

    /**
      One turn of the balancing loop: moves the item that is due, and nothing else. True if the move
      was not a tie.
     */
    method BalanceOnce(heavy0: seq<nat>, r1: nat, r2: nat, r3: nat, r4: nat,
                       cand: seq<(nat, nat)>) returns (heavyBins: seq<nat>, lowered: bool)
      requires Valid() && InCandidates(cand) && LightOk() && HeavyOk(heavy0) && heavy0 != []
      modifies `place, `numIters, cnt, values, lightBins
      ensures Valid() && InCandidates(cand) && |place| == old(|place|) && LightOk() && HeavyOk(heavyBins)
      ensures SumSq(cnt[..]) + (if lowered then 2 else 0) <= SumSq(old(cnt[..]))
      ensures Snapshot(heavyBins) == NextSnap(mMaxBinSize, old(Snapshot(heavy0)), r1, r2, r3, r4)
      ensures match Drawn(old(Snapshot(heavy0)), r1, r2, r3, r4)
              case Stay => place == old(place) && !lowered
              case Go(b1, i2, p) =>
                var b2 := old(lightBins[b1])[i2];
                var item := old(values[b1])[b2][p];
                && item.idx < |old(place)| && lowered == (old(cnt[b2]) + 1 != old(cnt[b1]))
                && place == old(place)[item.idx := Place(b2, b1, old(place)[item.idx].hashIdx)]
      ensures SameHashes(old(place), place)
    {
      hide Lists, CountIn, SumSq, WithoutFirst;
      heavyBins, lowered := heavy0, false;
      var b1 := heavyBins[r1 % |heavyBins|];
      if |lightBins[b1]| > 0 {
        var i2 := r2 % |lightBins[b1]|;
        var b2 := lightBins[b1][i2];
        if cnt[b2] < cnt[b1] {
          if r3 % 2 == 1 || cnt[b2] + 1 != cnt[b1] {
            if |values[b1][b2]| == 0 {
              return;
            }
            lowered := cnt[b2] + 1 != cnt[b1];
            heavyBins := MoveOne(heavyBins, b1, b2, i2, r4 % |values[b1][b2]|, cand);
          }
          numIters := numIters + 1;
        }
      }
    }

    /** Turns the loop while a bin is heavy and numbers are left; `moves` counts the moves that were no tie. */
    method Balance(heavy0: seq<nat>, rands: seq<nat>, cand: seq<(nat, nat)>) returns (done: bool, ghost moves: nat)
      requires Valid() && InCandidates(cand) && LightOk() && HeavyOk(heavy0)
      modifies `place, `numIters, cnt, values, lightBins
      ensures Valid() && InCandidates(cand) && |place| == old(|place|) && LightOk() && SameHashes(old(place), place)
      ensures 2 * moves <= SumSq(old(cnt[..])) && SumSq(cnt[..]) + 2 * moves <= SumSq(old(cnt[..]))
      ensures done ==> forall b | 0 <= b < mNumBins :: cnt[b] <= mMaxBinSize
      ensures done <==> After(mMaxBinSize, old(Snapshot(heavy0)), rands).heavy == []
      ensures Snapshot(After(mMaxBinSize, old(Snapshot(heavy0)), rands).heavy)
              == After(mMaxBinSize, old(Snapshot(heavy0)), rands)
    {
      hide Lists, CountIn, SumSq, InCandidates, LightOk, NextSnap, After, Drawn;
      var heavyBins, at := heavy0, 0;
      assert rands[0..] == rands;
      moves := 0;
      while |heavyBins| > 0 && at + 4 <= |rands|
        invariant Valid() && InCandidates(cand) && |place| == old(|place|) && LightOk() && HeavyOk(heavyBins)
        invariant SameHashes(old(place), place)
        invariant SumSq(cnt[..]) + 2 * moves <= SumSq(old(cnt[..])) && at <= |rands|
        invariant After(mMaxBinSize, old(Snapshot(heavy0)), rands)
                  == After(mMaxBinSize, Snapshot(heavyBins), rands[at..])
        decreases |rands| - at
      {
        var lowered: bool;
        OneTurn(mMaxBinSize, Snapshot(heavyBins), rands[at..]);
        assert rands[at..][4..] == rands[at + 4..];
        heavyBins, lowered := BalanceOnce(heavyBins, rands[at], rands[at + 1], rands[at + 2], rands[at + 3], cand);
        moves := moves + if lowered then 1 else 0;
        at := at + 4;
      }
      done := heavyBins == [];
      NoTurn(mMaxBinSize, Snapshot(heavyBins), rands[at..]);
    }

    /** Writes out the lists of each bin, in whatever order they come. */
    method Flatten()
      requires Valid() && forall b | 0 <= b < mNumBins :: idxs[b] == [] && hashIdxs[b] == []
      modifies idxs, hashIdxs
      ensures Valid()
      ensures forall b | 0 <= b < mNumBins :: Distinct(idxs[b]) && |idxs[b]| == |hashIdxs[b]| == cnt[b]
      ensures forall b, x: nat | 0 <= b < mNumBins :: x in idxs[b] <==> x < |place| && place[x].bin == b
      ensures forall b | 0 <= b < mNumBins :: HashesListed(idxs[b], hashIdxs[b], place)
    {
      hide CountIn, Lists, Flat, HashesListed;
      for b := 0 to mNumBins
        invariant Valid() && forall c | b <= c < mNumBins :: idxs[c] == [] && hashIdxs[c] == []
        invariant forall c | 0 <= c < b :: Flat(place, c, values[c].Keys, idxs[c], hashIdxs[c])
      {
        FlattenBin(b);
      }
      forall b | 0 <= b < mNumBins
        ensures Distinct(idxs[b]) && |idxs[b]| == |hashIdxs[b]| == cnt[b]
        ensures forall x: nat :: x in idxs[b] <==> x < |place| && place[x].bin == b
        ensures HashesListed(idxs[b], hashIdxs[b], place)
      {
        FlatIsListing(b);
      }
    }

    lemma FlatIsListing(b: nat)
      requires Valid() && b < mNumBins && Flat(place, b, values[b].Keys, idxs[b], hashIdxs[b])
      ensures Distinct(idxs[b]) && |idxs[b]| == |hashIdxs[b]| == cnt[b]
      ensures forall x: nat :: x in idxs[b] <==> x < |place| && place[x].bin == b
      ensures HashesListed(idxs[b], hashIdxs[b], place)
    {
      hide CountIn, ListOk;
      assert Lists(b, values[b], place);
      ListingSize(place, b, idxs[b]);
      assert forall i | 0 <= i < |idxs[b]| :: idxs[b][i] in idxs[b];
    }

    method FlattenBin(b: nat)
      requires Valid() && b < mNumBins && idxs[b] == [] && hashIdxs[b] == []
      modifies idxs, hashIdxs
      ensures Flat(place, b, values[b].Keys, idxs[b], hashIdxs[b])
      ensures forall c | 0 <= c < mNumBins && c != b :: idxs[c] == old(idxs[c]) && hashIdxs[c] == old(hashIdxs[c])
    {
      hide CountIn, Lists, Lists1, Flat, ListOk;
      var keys := values[b].Keys;
      ghost var done: set<nat> := {};
      FlatNone(place, b);
      while keys != {}
        modifies idxs, hashIdxs
        invariant keys !! done && keys + done == values[b].Keys && Flat(place, b, done, idxs[b], hashIdxs[b])
        invariant forall c | 0 <= c < mNumBins && c != b :: idxs[c] == old(idxs[c]) && hashIdxs[c] == old(hashIdxs[c])
        decreases |keys|
      {
        var k :| k in keys;
        ListOf(b, k);
        FlattenList(b, k, done);
        keys, done := keys - {k}, done + {k};
      }
      assert done == values[b].Keys;
    }

    static lemma FlatNone(place: seq<Place>, b: nat)
      ensures Flat(place, b, {}, [], [])
    {}

    lemma ListOf(b: nat, k: nat)
      requires Valid() && b < mNumBins && k in values[b]
      ensures ListOk(b, k, values[b][k], place)
      ensures forall x | 0 <= x < |place| && place[x].bin == b && place[x].other == k :: Lists1(values[b][k], x)
    {
      hide CountIn, ListOk, Lists1;
      assert Lists(b, values[b], place);
    }

    method FlattenList(b: nat, k: nat, ghost done: set<nat>)
      requires b < idxs.Length && b < hashIdxs.Length && b < values.Length && idxs != hashIdxs
      requires idxs as object != values && hashIdxs as object != values
      requires k in values[b] && ListOk(b, k, values[b][k], place) && k !in done
               && Flat(place, b, done, idxs[b], hashIdxs[b])
      requires forall x | 0 <= x < |place| && place[x].bin == b && place[x].other == k :: Lists1(values[b][k], x)
      modifies idxs, hashIdxs
      ensures Flat(place, b, done + {k}, idxs[b], hashIdxs[b])
      ensures forall c | 0 <= c < idxs.Length && c != b :: idxs[c] == old(idxs[c])
      ensures forall c | 0 <= c < hashIdxs.Length && c != b :: hashIdxs[c] == old(hashIdxs[c])
    {
      var list := values[b][k];
      for p := 0 to |list|
        invariant Distinct(idxs[b]) && |hashIdxs[b]| == |idxs[b]|
        invariant forall i | 0 <= i < |idxs[b]| && idxs[b][i] < |place| :: hashIdxs[b][i] == place[idxs[b][i]].hashIdx
        invariant forall x: nat :: x in idxs[b] <==>
          x < |place| && place[x].bin == b && (place[x].other in done || (place[x].other == k && Lists1(list[..p], x)))
        invariant forall c | 0 <= c < idxs.Length && c != b :: idxs[c] == old(idxs[c])
        invariant forall c | 0 <= c < hashIdxs.Length && c != b :: hashIdxs[c] == old(hashIdxs[c])
      {
        Lists1Snoc(list, p);
        idxs[b] := idxs[b] + [list[p].idx];
        hashIdxs[b] := hashIdxs[b] + [list[p].hashIdx];
      }
      assert list[..|list|] == list;
    }

    static lemma Lists1Snoc(list: seq<Item>, p: nat)
      requires p < |list|
      ensures forall x :: Lists1(list[..p + 1], x) <==> Lists1(list[..p], x) || x == list[p].idx
      ensures (forall q, r | 0 <= q < r < |list| :: list[q].idx != list[r].idx) ==> !Lists1(list[..p], list[p].idx)
    {
      forall x
        ensures Lists1(list[..p + 1], x) <==> Lists1(list[..p], x) || x == list[p].idx
      {
        if Lists1(list[..p], x) {
          var q :| 0 <= q < p && list[..p][q].idx == x;
          assert list[..p + 1][q].idx == x;
        }
        if x == list[p].idx {
          assert list[..p + 1][p].idx == x;
        }
        if Lists1(list[..p + 1], x) && x != list[p].idx {
          var q :| 0 <= q < p + 1 && list[..p + 1][q].idx == x;
          assert list[..p][q].idx == x;
        }
      }
    }

    /**
      Distributes the items over the bins. If the balancing ends before the numbers do, no bin holds more
      than the maximum, and every item is written out exactly once, in one of its two candidate bins.
     */
    method InsertItems(cand: seq<(nat, nat)>, rands: seq<nat>) returns (done: bool)
      requires Valid() && place == [] && forall x | 0 <= x < |cand| :: cand[x].0 < mNumBins && cand[x].1 < mNumBins
      requires forall b | 0 <= b < mNumBins ::
                 values[b] == map[] && lightBins[b] == [] && idxs[b] == [] && hashIdxs[b] == []
      modifies `place, `numIters, cnt, values, lightBins, idxs, hashIdxs
      ensures Valid() && InCandidates(cand) && |place| == |cand|
      ensures EndsFrom(mMaxBinSize, mNumBins, cand, rands, done)
      ensures done ==> forall b | 0 <= b < mNumBins ::
              |idxs[b]| == |hashIdxs[b]| == cnt[b] <= mMaxBinSize && Distinct(idxs[b])
      ensures done ==> forall x: nat, b | 0 <= b < mNumBins :: x in idxs[b] <==> x < |cand| && place[x].bin == b
      ensures done ==> forall b | 0 <= b < mNumBins :: HashesListed(idxs[b], hashIdxs[b], place)
    {
      hide CountIn, Lists, SumSq, JoinsEmptier, FirstValues, After;
      FirstPass(cand);
      var heavyBins := FindLightAndHeavy();
      ghost var moves: nat;
      ghost var first := place;
      assert StartsFrom(mMaxBinSize, mNumBins, cand, Snapshot(heavyBins), first);
      done, moves := Balance(heavyBins, rands, cand);
      if done {
        Flatten();
      }
    }
  }

  // ----- an example -----

  /** Seven items, of which the first pass puts three into bin 0. */
  const SEVEN: seq<(nat, nat)> := [(4, 3), (6, 5), (5, 3), (6, 2), (1, 0), (2, 0), (3, 0)]

  /** Two turns that draw bin 0 and its first and its second light candidate, with an odd number for a tie. */
  const TWO_TURNS: seq<nat> := [0, 0, 1, 0, 0, 1, 1, 0]

  /** In seven bins of two the items balance on these numbers, in whatever order the light candidates come. */
  method SevenBalance() returns (done: bool)
    ensures done
  {
    hide EndsFrom, BalancedIndex.Valid, BalancedIndex.InCandidates;
    var index := new BalancedIndex(7, 2);
    done := index.InsertItems(SEVEN, TWO_TURNS);
    SevenEnd(done);
  }

  lemma SevenEnd(done: bool)
    requires EndsFrom(2, 7, SEVEN, TWO_TURNS, done)
    ensures done
  {
    hide After, StartsFrom;
    var s: Snap, place: seq<Place> :|
      StartsFrom(2, 7, SEVEN, s, place) && (done <==> After(2, s, TWO_TURNS).heavy == []);
    SevenStart(s, place);
    SevenTurns(s);
  }

  /** The first items are at `placed`, which gives these counters, and these lists in bins 0 to 2. */
  ghost predicate PlacedSoFar(place: seq<Place>, placed: seq<Place>, v: seq<nat>, m: seq<SubBins>) {
    && |placed| <= |place| && place[..|placed|] == placed && |v| == 7 && |m| == 3
    && (forall b: nat | b < 7 :: CountIn(placed, b) == v[b])
    && forall b: nat | b < 3 :: FirstValues(placed, b) == m[b]
  }

  lemma NextPlaced(place: seq<Place>, placed: seq<Place>, v: seq<nat>, m: seq<SubBins>, c: (nat, nat), p: Place,
                   v': seq<nat>, m': seq<SubBins>)
    requires PlacedSoFar(place, placed, v, m) && |placed| < |place| && c.0 < 7 && c.1 < 7
    requires JoinsEmptier(place, |placed|, c)
    requires p == (if v[c.0] < v[c.1] then Place(c.0, c.1, 0) else Place(c.1, c.0, 1)) && v' == v[p.bin := v[p.bin] + 1]
    requires |m'| == 3 && forall b: nat | b < 3 ::
               m'[b] == if b == p.bin then AddTo(m[b], p.other, Item(p.hashIdx, |placed|)) else m[b]
    ensures PlacedSoFar(place, placed + [p], v', m')
  {
    hide CountIn, FirstValues, AddTo;
    forall b: nat | b < 7 ensures CountIn(placed + [p], b) == CountIn(placed, b) + if p.bin == b then 1 else 0 {
      CountAppend(placed, p, b);
    }
    forall b: nat | b < 3 ensures FirstValues(placed + [p], b) == m'[b] {
      FirstValuesNext(placed, p, b);
    }
  }

  lemma FourPlaced(place: seq<Place>)
    requires |place| == 7 && forall x | 0 <= x < 7 :: JoinsEmptier(place, x, SEVEN[x])
    ensures PlacedSoFar(place, [Place(3, 4, 1), Place(5, 6, 1), Place(3, 5, 1), Place(2, 6, 1)], [0, 0, 1, 2, 0, 1, 0],
                        [map[], map[], map[6 := [Item(1, 3)]]])
  {
    hide CountIn, FirstValues, JoinsEmptier, PlacedSoFar, AddTo;
    var none: seq<SubBins> := [map[], map[], map[]];
    assert PlacedSoFar(place, [], [0, 0, 0, 0, 0, 0, 0], none) by { NonePlaced(place); }
    var p, q, r, t := Place(3, 4, 1), Place(5, 6, 1), Place(3, 5, 1), Place(2, 6, 1);
    NextPlaced(place, [], [0, 0, 0, 0, 0, 0, 0], none, SEVEN[0], p, [0, 0, 0, 1, 0, 0, 0], none);
    assert [] + [p] == [p] && [p] + [q] == [p, q] && [p, q] + [r] == [p, q, r] && [p, q, r] + [t] == [p, q, r, t];
    NextPlaced(place, [p], [0, 0, 0, 1, 0, 0, 0], none, SEVEN[1], q, [0, 0, 0, 1, 0, 1, 0], none);
    NextPlaced(place, [p, q], [0, 0, 0, 1, 0, 1, 0], none, SEVEN[2], r, [0, 0, 0, 2, 0, 1, 0], none);
    assert AddTo(map[], 6, Item(1, 3)) == map[6 := [Item(1, 3)]] by { AddNew(map[], 6, Item(1, 3)); }
    NextPlaced(place, [p, q, r], [0, 0, 0, 2, 0, 1, 0], none, SEVEN[3], t, [0, 0, 1, 2, 0, 1, 0],
               [map[], map[], map[6 := [Item(1, 3)]]]);
  }

  lemma AddNew(m: SubBins, k: nat, item: Item)
    requires k !in m
    ensures AddTo(m, k, item) == m[k := [item]]
  {
    assert [] + [item] == [item];
  }

  lemma NonePlaced(place: seq<Place>)
    ensures PlacedSoFar(place, [], [0, 0, 0, 0, 0, 0, 0], [map[], map[], map[]])
  {}

  lemma SevenPlaces(place: seq<Place>)
    requires |place| == 7 && forall x | 0 <= x < 7 :: JoinsEmptier(place, x, SEVEN[x])
    ensures forall b: nat | b < 7 :: CountIn(place, b) == [3, 0, 1, 2, 0, 1, 0][b]
    ensures FirstValues(place, 0) == map[1 := [Item(1, 4)], 2 := [Item(1, 5)], 3 := [Item(1, 6)]]
    ensures FirstValues(place, 1) == map[] && FirstValues(place, 2) == map[6 := [Item(1, 3)]]
  {
    hide CountIn, FirstValues, JoinsEmptier, PlacedSoFar, AddTo;
    FourPlaced(place);
    var four := [Place(3, 4, 1), Place(5, 6, 1), Place(3, 5, 1), Place(2, 6, 1)];
    var m0: SubBins, m1: SubBins, m2: SubBins := map[1 := [Item(1, 4)]], map[1 := [Item(1, 4)], 2 := [Item(1, 5)]],
      map[1 := [Item(1, 4)], 2 := [Item(1, 5)], 3 := [Item(1, 6)]];
    var two: SubBins := map[6 := [Item(1, 3)]];
    var p, q, r := Place(0, 1, 1), Place(0, 2, 1), Place(0, 3, 1);
    AddNew(map[], 1, Item(1, 4));
    AddNew(m0, 2, Item(1, 5));
    AddNew(m1, 3, Item(1, 6));
    assert AddTo(map[], 1, Item(1, 4)) == m0 && AddTo(m0, 2, Item(1, 5)) == m1 && AddTo(m1, 3, Item(1, 6)) == m2;
    NextPlaced(place, four, [0, 0, 1, 2, 0, 1, 0], [map[], map[], two], SEVEN[4], p, [1, 0, 1, 2, 0, 1, 0],
               [m0, map[], two]);
    NextPlaced(place, four + [p], [1, 0, 1, 2, 0, 1, 0], [m0, map[], two], SEVEN[5], q, [2, 0, 1, 2, 0, 1, 0],
               [m1, map[], two]);
    NextPlaced(place, four + [p] + [q], [2, 0, 1, 2, 0, 1, 0], [m1, map[], two], SEVEN[6], r, [3, 0, 1, 2, 0, 1, 0],
               [m2, map[], two]);
    AllPlaced(place, four + [p] + [q] + [r], [3, 0, 1, 2, 0, 1, 0], [m2, map[], two]);
  }

  lemma AllPlaced(place: seq<Place>, placed: seq<Place>, v: seq<nat>, m: seq<SubBins>)
    requires PlacedSoFar(place, placed, v, m) && |placed| == |place|
    ensures |v| == 7 && |m| == 3 && forall b: nat | b < 7 :: CountIn(place, b) == v[b]
    ensures forall b: nat | b < 3 :: FirstValues(place, b) == m[b]
  {
    assert place[..|placed|] == place;
  }

  lemma SevenStart(s: Snap, place: seq<Place>)
    requires StartsFrom(2, 7, SEVEN, s, place)
    ensures SevenPlaced(s)
  {
    hide CountIn, FirstValues, JoinsEmptier;
    SevenPlaces(place);
    OnlyOne(s.heavy, 0);
    OnlyTwo(s.light[0], 1, 2);
  }

  lemma OnlyOne(s: seq<nat>, x: nat)
    requires Distinct(s) && forall b: nat :: b in s <==> b == x
    ensures s == [x]
  {
    ElementsSize(s);
    assert Elements(s) == {x};
    assert s[0] in s;
  }

  lemma OnlyTwo(s: seq<nat>, x: nat, y: nat)
    requires x != y && Distinct(s) && forall b: nat :: b in s <==> b == x || b == y
    ensures s == [x, y] || s == [y, x]
  {
    assert |s| == 2 by {
      ElementsSize(s);
      assert Elements(s) == {x, y};
    }
    assert s[0] in s && s[1] in s && s[0] != s[1];
  }

  /** After the first pass: bin 0 is over-full, and bins 1 and 2 could take an item from it. */
  ghost predicate SevenPlaced(s: Snap) {
    && s.cnt == [3, 0, 1, 2, 0, 1, 0] && |s.values| == |s.light| == 7 && s.heavy == [0]
    && s.values[0] == map[1 := [Item(1, 4)], 2 := [Item(1, 5)], 3 := [Item(1, 6)]]
    && s.values[1] == map[] && 0 !in s.values[2] && (s.light[0] == [1, 2] || s.light[0] == [2, 1])
  }

  /** After one turn: bin 0 has as many as it may, is still heavy and lists an item for its other candidate. */
  ghost predicate SevenHalfway(s: Snap) {
    && |s.cnt| == |s.values| == |s.light| == 7 && s.heavy == [0] && s.cnt[0] == 2 && |s.light[0]| == 2
    && var b := s.light[0][1];
       (b == 1 || b == 2) && s.cnt[b] < 2 && b in s.values[0] && |s.values[0][b]| == 1
  }

  lemma FirstTurn(s: Snap)
    requires SevenPlaced(s)
    ensures SevenHalfway(NextSnap(2, s, 0, 0, 1, 0))
  {
    hide Drawn;
    DrawnWhere(s, 0, 0, 0, 1);
  }

  lemma SecondTurn(s: Snap)
    requires SevenHalfway(s)
    ensures NextSnap(2, s, 0, 1, 1, 0).heavy == []
  {
    hide Drawn, RemoveAt, AddTo;
    DrawnWhere(s, 0, 1, 0, 1);
  }

  lemma SevenTurns(s: Snap)
    requires SevenPlaced(s)
    ensures After(2, s, TWO_TURNS).heavy == []
  {
    hide NextSnap, After;
    var half := NextSnap(2, s, 0, 0, 1, 0);
    FirstTurn(s);
    OneTurn(2, s, TWO_TURNS);
    SecondTurn(half);
    OneTurn(2, half, TWO_TURNS[4..]);
    NoTurn(2, NextSnap(2, half, 0, 1, 1, 0), TWO_TURNS[4..][4..]);
  }
}
