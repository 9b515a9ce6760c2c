/**
  KKRT private set intersection: how the sender hashes its items to cells, how the receiver
  files its masks and matches the sender's, and why what it reports is the intersection.
  `place` gives the bin of an item under a hash function and `enc` its mask in a bin.
 */
module Kkrt {
  import opened Permutations
  import opened Wrappers
  import Schedule = KkrtSchedule

  const NONE: nat := Schedule.NONE
  const NUM_HASHES: nat := 3

  /** Do earlier hash functions already send `x` to its bin under `h`? */
  predicate Repeats<T>(place: (T, nat) -> nat, x: T, h: nat) {
    exists g | 0 <= g < h :: place(x, g) == place(x, h)
  }

  /** The bin of `x` under `h`, kept only at the least hash function that leads there. */
  function KeptBin<T>(place: (T, nat) -> nat, x: T, h: nat): nat {
    if Repeats(place, x, h) then NONE else place(x, h)
  }

  /** The least hash function that sends `x` to bin `b`. */
  function LeastHash<T>(place: (T, nat) -> nat, x: T, b: nat, n: nat): (h: nat)
    requires exists g | 0 <= g < n :: place(x, g) == b
    ensures h < n && place(x, h) == b && !Repeats(place, x, h)
    ensures forall g | 0 <= g < n && place(x, g) == b && !Repeats(place, x, g) :: g == h
  {
    if exists g | 0 <= g < n - 1 :: place(x, g) == b then LeastHash(place, x, b, n - 1) else n - 1
  }

  /** The bits of `b`, all set when `c` is. */
  function OrAll(b: nat, c: bool): nat {
    if c then NONE else b
  }

  /** Fills the map from items and hash functions to bins, eight items at a time and then the rest. */
  method HashItems<T>(items: seq<T>, place: (T, nat) -> nat, binIdxs: array2<nat>)
    requires binIdxs.Length0 == |items|
    modifies binIdxs
    ensures forall i, h | 0 <= i < |items| && 0 <= h < binIdxs.Length1 :: binIdxs[i, h] == KeptBin(place, items[i], h)
  {
    hide Repeats;
    var mainSteps := if binIdxs.Length1 == 3 then |items| / 8 else 0;
    var itemIdx := 0;
    for step := 0 to mainSteps
      invariant itemIdx == 8 * step
      invariant forall i, h | 0 <= i < itemIdx && 0 <= h < 3 && binIdxs.Length1 == 3 ::
                binIdxs[i, h] == KeptBin(place, items[i], h)
    {
      for lane := 0 to 8
        invariant forall i, h | 0 <= i < itemIdx + lane && 0 <= h < 3 :: binIdxs[i, h] == KeptBin(place, items[i], h)
      {
        var i := itemIdx + lane;
        var b0, b1, b2 := place(items[i], 0), place(items[i], 1), place(items[i], 2);
        ThreeBins(place, items[i]);
        binIdxs[i, 0] := b0;
        binIdxs[i, 1] := OrAll(b1, b0 == b1);
        binIdxs[i, 2] := OrAll(b2, b0 == b2 || b1 == b2);
      }
      itemIdx := itemIdx + 8;
    }
    while itemIdx < |items|
      invariant itemIdx <= |items|
      invariant forall i, h | 0 <= i < itemIdx && 0 <= h < binIdxs.Length1 ::
                binIdxs[i, h] == KeptBin(place, items[i], h)
    {
      HashOne(items, place, binIdxs, itemIdx);
      itemIdx := itemIdx + 1;
    }
  }

  lemma ThreeBins<T>(place: (T, nat) -> nat, x: T)
    ensures !Repeats(place, x, 0)
    ensures Repeats(place, x, 1) <==> place(x, 0) == place(x, 1)
    ensures Repeats(place, x, 2) <==> place(x, 0) == place(x, 2) || place(x, 1) == place(x, 2)
  {}

  /** The bins of one item, each compared with all the earlier ones. */
  method HashOne<T>(items: seq<T>, place: (T, nat) -> nat, binIdxs: array2<nat>, itemIdx: nat)
    requires itemIdx < |items| == binIdxs.Length0
    modifies binIdxs
    ensures forall i, h | 0 <= i < |items| && 0 <= h < binIdxs.Length1 ::
      binIdxs[i, h] == if i == itemIdx then KeptBin(place, items[i], h) else old(binIdxs[i, h])
  {
    var n := binIdxs.Length1;
    var bIdxs := new nat[n];
    for h := 0 to n
      invariant forall g | 0 <= g < h :: bIdxs[g] == place(items[itemIdx], g)
      invariant forall i, g | 0 <= i < |items| && 0 <= g < n ::
        binIdxs[i, g] == if i == itemIdx && g < h then KeptBin(place, items[i], g) else old(binIdxs[i, g])
    {
      var bIdx := place(items[itemIdx], h);
      bIdxs[h] := bIdx;
      var collision := false;
      for hh := 0 to h
        modifies {}
        invariant collision <==> exists g | 0 <= g < hh :: place(items[itemIdx], g) == place(items[itemIdx], h)
      {
        collision := collision || bIdxs[hh] == bIdx;
      }
      binIdxs[itemIdx, h] := OrAll(bIdx, collision);
    }
  }

  // ----- the receiver's masks -----

  /** Key of a mask: its first eight bytes. */
  function Key(mask: nat): nat {
    mask % 0x1_0000_0000_0000_0000
  }

  /**
    What the cuckoo table of the receiver provides: every item is in exactly one bin, one of
    those its hash functions name. `binOf` says which.
   */
  ghost predicate Tabled<T>(place: (T, nat) -> nat, items: seq<T>, bins: seq<Option<nat>>, binOf: seq<nat>) {
    && |binOf| == |items|
    && (forall b | 0 <= b < |bins| && bins[b].Some? :: bins[b].value < |items| && binOf[bins[b].value] == b)
    && (forall x | 0 <= x < |items| :: binOf[x] < |bins| && bins[binOf[x]] == Some(x))
    && forall x | 0 <= x < |items| :: HasHash(place, items[x], binOf[x])
  }

  ghost predicate HasHash<T>(place: (T, nat) -> nat, x: T, b: nat) {
    exists h | 0 <= h < 3 :: place(x, h) == b
  }

  /** Among the items of both sides, no two different (bin, item) pairs have masks with the same key. */
  ghost predicate CollisionFree<T>(enc: (nat, T) -> nat, numBins: nat, ours: seq<T>, theirs: seq<T>) {
    forall b: nat, x, b': nat, x' | b < numBins && b' < numBins && x in ours && x' in ours + theirs ::
      enc(b, x) % 0x1_0000_0000_0000_0000 == enc(b', x') % 0x1_0000_0000_0000_0000 ==> b == b' && x == x'
  }

  /** The hash function under which item `x` of the receiver is filed. */
  ghost function HashOf<T>(place: (T, nat) -> nat, items: seq<T>, binOf: seq<nat>, x: nat): (h: nat)
    requires x < |items| == |binOf| && HasHash(place, items[x], binOf[x])
    ensures h < NUM_HASHES
  {
    LeastHash(place, items[x], binOf[x], NUM_HASHES)
  }

  /** A mask and the item it belongs to, by key. */
  type MaskMap = map<nat, (nat, nat)>

  /** Map `h` holds the masks of exactly the items filed under `h` whose bin is below `upto`. */
  ghost predicate Files<T>(place: (T, nat) -> nat, enc: (nat, T) -> nat, items: seq<T>, bins: seq<Option<nat>>,
                           binOf: seq<nat>, h: nat, m: MaskMap, upto: nat)
    requires Tabled(place, items, bins, binOf)
  {
    && (forall x | 0 <= x < |items| && binOf[x] < upto && HashOf(place, items, binOf, x) == h ::
          var mask := enc(binOf[x], items[x]); Key(mask) in m && m[Key(mask)] == (mask, x))
    && (forall key | key in m ::
        m[key].1 < |items| && binOf[m[key].1] < upto && HashOf(place, items, binOf, m[key].1) == h
          && m[key].0 == enc(binOf[m[key].1], items[m[key].1]) && key == Key(m[key].0))
  }

  /** Encodes every filled bin and files the mask under the item's least hash function. */
  method FileMasks<T(!new)>(place: (T, nat) -> nat, enc: (nat, T) -> nat, items: seq<T>, bins: seq<Option<nat>>,
                            ghost binOf: seq<nat>, ghost theirs: seq<T>)
    returns (localMasks: seq<MaskMap>)
    requires Tabled(place, items, bins, binOf) && CollisionFree(enc, |bins|, items, theirs)
    ensures |localMasks| == 3
    ensures forall h | 0 <= h < NUM_HASHES :: Files(place, enc, items, bins, binOf, h, localMasks[h], |bins|)
  {
    hide CollisionFree, Key, Files;
    localMasks := [map[], map[], map[]];
    NothingFiled(place, enc, items, bins, binOf);
    for b := 0 to |bins|
      invariant |localMasks| == NUM_HASHES
      invariant forall h | 0 <= h < NUM_HASHES :: Files(place, enc, items, bins, binOf, h, localMasks[h], b)
    {
      ghost var was := localMasks;
      if bins[b].Some? {
        var idx := bins[b].value;
        assert HasHash(place, items[idx], b);
        var hIdx := LeastHash(place, items[idx], b, NUM_HASHES);
        var mask := enc(b, items[idx]);
        if Key(mask) !in localMasks[hIdx] {
          var m: MaskMap := localMasks[hIdx][Key(mask) := (mask, idx)];
          localMasks := localMasks[hIdx := m];
        }
        forall h | 0 <= h < NUM_HASHES
          ensures Files(place, enc, items, bins, binOf, h, localMasks[h], b + 1)
        {
          FileOne(place, enc, items, bins, binOf, h, was[h], idx, theirs);
        }
      } else {
        SkipBin(place, enc, items, bins, binOf, b, localMasks);
      }
    }
  }

  lemma NothingFiled<T>(place: (T, nat) -> nat, enc: (nat, T) -> nat, items: seq<T>, bins: seq<Option<nat>>,
                        binOf: seq<nat>)
    requires Tabled(place, items, bins, binOf)
    ensures forall h: nat :: Files(place, enc, items, bins, binOf, h, map[], 0)
  {}

  /** An empty bin has nobody to file. */
  lemma SkipBin<T>(place: (T, nat) -> nat, enc: (nat, T) -> nat, items: seq<T>, bins: seq<Option<nat>>,
                   binOf: seq<nat>, b: nat, localMasks: seq<MaskMap>)
    requires Tabled(place, items, bins, binOf) && b < |bins| && bins[b].None?
    requires forall h | 0 <= h < |localMasks| :: Files(place, enc, items, bins, binOf, h, localMasks[h], b)
    ensures forall h | 0 <= h < |localMasks| :: Files(place, enc, items, bins, binOf, h, localMasks[h], b + 1)
  {
    hide HashOf, Key;
    forall x | 0 <= x < |items| && binOf[x] < b + 1 ensures binOf[x] < b {
      assert bins[binOf[x]] == Some(x);
    }
    forall h | 0 <= h < |localMasks| ensures Files(place, enc, items, bins, binOf, h, localMasks[h], b + 1) {
      assert Files(place, enc, items, bins, binOf, h, localMasks[h], b);
    }
  }

  lemma FileOne<T(!new)>(place: (T, nat) -> nat, enc: (nat, T) -> nat, items: seq<T>, bins: seq<Option<nat>>,
                         binOf: seq<nat>, h: nat, m: MaskMap, idx: nat, theirs: seq<T>)
    requires Tabled(place, items, bins, binOf) && CollisionFree(enc, |bins|, items, theirs) && idx < |items|
    requires Files(place, enc, items, bins, binOf, h, m, binOf[idx])
    ensures var mask := enc(binOf[idx], items[idx]);
      && Key(mask) !in m
      && Files(place, enc, items, bins, binOf, h, if h == HashOf(place, items, binOf, idx)
          then m[Key(mask) := (mask, idx)] else m, binOf[idx] + 1)
  {
    hide HashOf;
    var mask := enc(binOf[idx], items[idx]);
    forall x | 0 <= x < |items| && Key(enc(binOf[x], items[x])) == Key(mask)
      ensures x == idx
    {
      assert binOf[x] == binOf[idx];
      assert bins[binOf[x]] == Some(x) && bins[binOf[idx]] == Some(idx);
    }
  }

  // ----- matching -----

  /** The masks the sender sends, one row of three cells for each of its items in the order `perm`. */
  ghost predicate SentRows<T>(place: (T, nat) -> nat, enc: (nat, T) -> nat, theirs: seq<T>, perm: seq<nat>,
                              cells: seq<seq<nat>>) {
    && |cells| == |perm| == |theirs|
    && (forall i | 0 <= i < |perm| :: perm[i] < |theirs| && |cells[i]| == NUM_HASHES)
    && forall i, h | 0 <= i < |perm| && 0 <= h < NUM_HASHES && KeptBin(place, theirs[perm[i]], h) != NONE ::
         cells[i][h] == enc(KeptBin(place, theirs[perm[i]], h), theirs[perm[i]])
  }

  /** A cell with nothing encoded in it holds no mask of any of our items in any bin. */
  ghost predicate FillersMiss<T>(place: (T, nat) -> nat, enc: (nat, T) -> nat, ours: seq<T>, numBins: nat,
                                 theirs: seq<T>, perm: seq<nat>, cells: seq<seq<nat>>)
    requires SentRows(place, enc, theirs, perm, cells)
  {
    forall i, h, b: nat, x | 0 <= i < |perm| && 0 <= h < NUM_HASHES && KeptBin(place, theirs[perm[i]], h) == NONE
        && b < numBins && x in ours ::
      cells[i][h] != enc(b, x)
  }

  /** The item that a mask received in column k matches. */
  function Hit(m: MaskMap, mask: nat): Option<nat> {
    if Key(mask) in m && m[Key(mask)].0 == mask then Some(m[Key(mask)].1) else None
  }

  /** Bins are numbered below `numBins`, which the mark NONE is not. */
  ghost predicate InRange<T(!new)>(place: (T, nat) -> nat, numBins: nat) {
    numBins <= 0xFFFF_FFFF_FFFF_FFFF && forall x, h :: place(x, h) < numBins
  }

  /** Everything the matching of one run depends on. */
  ghost predicate Matching<T(!new)>(place: (T, nat) -> nat, enc: (nat, T) -> nat, items: seq<T>, bins: seq<Option<nat>>,
                                    binOf: seq<nat>,
                                    theirs: seq<T>, perm: seq<nat>, cells: seq<seq<nat>>) {
    && Tabled(place, items, bins, binOf) && CollisionFree(enc, |bins|, items, theirs) && InRange(place, |bins|)
    && Distinct(theirs) && Distinct(perm)
    && SentRows(place, enc, theirs, perm, cells) && FillersMiss(place, enc, items, |bins|, theirs, perm, cells)
  }

  /** A cell hits exactly the item that is the row's item and is filed under the cell's hash function. */
  lemma HitIff<T(!new)>(place: (T, nat) -> nat, enc: (nat, T) -> nat, items: seq<T>, bins: seq<Option<nat>>,
                        binOf: seq<nat>,
                        theirs: seq<T>, perm: seq<nat>, cells: seq<seq<nat>>, m: MaskMap, i: nat, k: nat, x: nat)
    requires Matching(place, enc, items, bins, binOf, theirs, perm, cells)
    requires k < NUM_HASHES && Files(place, enc, items, bins, binOf, k, m, |bins|) && i < |perm|
    ensures Hit(m, cells[i][k]) == Some(x)
       <==> x < |items| && items[x] == theirs[perm[i]] && HashOf(place, items, binOf, x) == k
  {
    hide Key, Repeats;
    var y, mask := theirs[perm[i]], cells[i][k];
    var kept := KeptBin(place, y, k);
    if Hit(m, mask) == Some(x) {
      assert Key(mask) in m && mask == enc(binOf[x], items[x]);
      assert kept != NONE;
      assert mask == enc(kept, y);
    }
    if x < |items| && items[x] == y && HashOf(place, items, binOf, x) == k {
      assert kept == binOf[x];
      assert kept != NONE;
    }
  }

  /** Item `x` has been hit in a row before i, or in row i in a column before k. */
  ghost predicate HitBefore<T>(place: (T, nat) -> nat, items: seq<T>, binOf: seq<nat>, theirs: seq<T>, perm: seq<nat>,
                               i: nat, k: nat, x: nat)
    requires x < |items| == |binOf| && HasHash(place, items[x], binOf[x])
    requires i <= |perm| && forall r | 0 <= r < |perm| :: perm[r] < |theirs|
  {
    exists r | 0 <= r < |perm| ::
        items[x] == theirs[perm[r]] && (r < i || (r == i && HashOf(place, items, binOf, x) < k))
  }

  /** The result so far: no duplicates, and just the items hit before. */
  ghost predicate Reported<T>(place: (T, nat) -> nat, items: seq<T>, binOf: seq<nat>, theirs: seq<T>, perm: seq<nat>,
                              i: nat, k: nat, result: seq<nat>)
    requires |items| == |binOf| && forall x | 0 <= x < |items| :: HasHash(place, items[x], binOf[x])
    requires i <= |perm| && forall r | 0 <= r < |perm| :: perm[r] < |theirs|
  {
    && Distinct(result) && (forall j | 0 <= j < |result| :: result[j] < |items|)
    && forall x: nat | x < |items| :: x in result <==> HitBefore(place, items, binOf, theirs, perm, i, k, x)
  }

  lemma ReportCell<T(!new)>(place: (T, nat) -> nat, enc: (nat, T) -> nat, items: seq<T>, bins: seq<Option<nat>>,
                            binOf: seq<nat>,
                            theirs: seq<T>, perm: seq<nat>, cells: seq<seq<nat>>, m: MaskMap, i: nat, k: nat,
                                result: seq<nat>)
    requires Matching(place, enc, items, bins, binOf, theirs, perm, cells)
    requires k < NUM_HASHES && Files(place, enc, items, bins, binOf, k, m, |bins|) && i < |perm|
    requires Reported(place, items, binOf, theirs, perm, i, k, result)
    ensures Reported(place, items, binOf, theirs, perm, i, k + 1,
                     result + if Hit(m, cells[i][k]).Some? then [Hit(m, cells[i][k]).value] else [])
  {
    hide Files, FillersMiss, HashOf, CollisionFree, Hit;
    var hit := Hit(m, cells[i][k]);
    var result' := result + if hit.Some? then [hit.value] else [];
    forall x: nat
      ensures hit == Some(x) <==> x < |items| && items[x] == theirs[perm[i]] && HashOf(place, items, binOf, x) == k
    {
      HitIff(place, enc, items, bins, binOf, theirs, perm, cells, m, i, k, x);
    }
    forall x: nat | x < |items|
      ensures HitBefore(place, items, binOf, theirs, perm, i, k + 1, x)
         <==> HitBefore(place, items, binOf, theirs, perm, i, k, x) || hit == Some(x)
      ensures hit == Some(x) ==> !HitBefore(place, items, binOf, theirs, perm, i, k, x)
    {
      HitGrows(place, items, binOf, theirs, perm, i, k, x);
    }
  }

  lemma HitGrows<T>(place: (T, nat) -> nat, items: seq<T>, binOf: seq<nat>, theirs: seq<T>, perm: seq<nat>, i: nat,
                    k: nat, x: nat)
    requires x < |items| == |binOf| && HasHash(place, items[x], binOf[x])
    requires i < |perm| && Distinct(theirs) && Distinct(perm) && forall r | 0 <= r < |perm| :: perm[r] < |theirs|
    ensures var here := items[x] == theirs[perm[i]] && HashOf(place, items, binOf, x) == k;
      && (HitBefore(place, items, binOf, theirs, perm, i, k + 1, x)
          <==> HitBefore(place, items, binOf, theirs, perm, i, k, x) || here)
      && (here ==> !HitBefore(place, items, binOf, theirs, perm, i, k, x))
  {
    hide HashOf;
  }

  /** After all rows, what has been hit is what the sender holds too. */
  lemma AllRows<T(!new)>(place: (T, nat) -> nat, enc: (nat, T) -> nat, items: seq<T>, bins: seq<Option<nat>>,
                         binOf: seq<nat>,
                         theirs: seq<T>, perm: seq<nat>, cells: seq<seq<nat>>, x: nat)
    requires Matching(place, enc, items, bins, binOf, theirs, perm, cells) && x < |items|
    ensures HitBefore(place, items, binOf, theirs, perm, |perm|, 0, x) <==> items[x] in theirs
  {
    hide FillersMiss, HashOf, CollisionFree;
    if items[x] in theirs {
      var y :| 0 <= y < |theirs| && theirs[y] == items[x];
      var r := PositionOf(perm, y);
      assert items[x] == theirs[perm[r]];
    }
  }

  /**
    The receiver's side: files its masks, and reports the item behind every mask it recognises, row
    by row. What it reports is, without duplicates, exactly the items the sender holds too.
   */
  method Intersect<T(!new)>(place: (T, nat) -> nat, enc: (nat, T) -> nat, items: seq<T>, bins: seq<Option<nat>>,
                            ghost binOf: seq<nat>,
                            ghost theirs: seq<T>, ghost perm: seq<nat>, cells: seq<seq<nat>>)
                                returns (mIntersection: seq<nat>)
    requires Matching(place, enc, items, bins, binOf, theirs, perm, cells)
    ensures Distinct(mIntersection)
    ensures forall x: nat :: x in mIntersection <==> x < |items| && items[x] in theirs
  {
    hide Files, Hit, HashOf, FillersMiss, Reported;
    var localMasks := FileMasks(place, enc, items, bins, binOf, theirs);
    mIntersection := [];
    assert Reported(place, items, binOf, theirs, perm, 0, 0, []) by { NothingYet(place, items, binOf, theirs, perm); }
    for i := 0 to |cells|
      invariant Reported(place, items, binOf, theirs, perm, i, 0, mIntersection)
    {
      for k := 0 to NUM_HASHES
        invariant Reported(place, items, binOf, theirs, perm, i, k, mIntersection)
      {
        var hit := Hit(localMasks[k], cells[i][k]);
        ReportCell(place, enc, items, bins, binOf, theirs, perm, cells, localMasks[k], i, k, mIntersection);
        if hit.Some? {
          mIntersection := mIntersection + [hit.value];
        } else {
          assert mIntersection + [] == mIntersection;
        }
      }
      NextRow(place, items, binOf, theirs, perm, i, mIntersection);
    }
    FinalReport(place, enc, items, bins, binOf, theirs, perm, cells, mIntersection);
  }

  lemma NothingYet<T>(place: (T, nat) -> nat, items: seq<T>, binOf: seq<nat>, theirs: seq<T>, perm: seq<nat>)
    requires |items| == |binOf| && forall x | 0 <= x < |items| :: HasHash(place, items[x], binOf[x])
    requires forall r | 0 <= r < |perm| :: perm[r] < |theirs|
    ensures Reported(place, items, binOf, theirs, perm, 0, 0, [])
  {}

  lemma NextRow<T>(place: (T, nat) -> nat, items: seq<T>, binOf: seq<nat>, theirs: seq<T>, perm: seq<nat>, i: nat,
                   result: seq<nat>)
    requires |items| == |binOf| && forall x | 0 <= x < |items| :: HasHash(place, items[x], binOf[x])
    requires i < |perm| && forall r | 0 <= r < |perm| :: perm[r] < |theirs|
    requires Reported(place, items, binOf, theirs, perm, i, NUM_HASHES, result)
    ensures Reported(place, items, binOf, theirs, perm, i + 1, 0, result)
  {
    forall x: nat | x < |items|
      ensures HitBefore(place, items, binOf, theirs, perm, i, NUM_HASHES, x)
              <==> HitBefore(place, items, binOf, theirs, perm, i + 1, 0, x)
    {
      assert HashOf(place, items, binOf, x) < NUM_HASHES;
    }
  }

  lemma FinalReport<T(!new)>(place: (T, nat) -> nat, enc: (nat, T) -> nat, items: seq<T>, bins: seq<Option<nat>>,
                             binOf: seq<nat>,
                             theirs: seq<T>, perm: seq<nat>, cells: seq<seq<nat>>, result: seq<nat>)
    requires Matching(place, enc, items, bins, binOf, theirs, perm, cells)
    requires Reported(place, items, binOf, theirs, perm, |perm|, 0, result)
    ensures Distinct(result) && forall x: nat :: x in result <==> x < |items| && items[x] in theirs
  {
    hide FillersMiss, CollisionFree, HitBefore;
    forall x: nat | x < |items|
      ensures x in result <==> items[x] in theirs
    {
      AllRows(place, enc, items, bins, binOf, theirs, perm, cells, x);
    }
  }

  // ----- from the items to the report -----

  /** What hashItems leaves for the items. */
  function Kept<T>(place: (T, nat) -> nat, theirs: seq<T>): (r: seq<seq<nat>>)
    ensures |r| == |theirs| && forall x, h | 0 <= x < |r| && 0 <= h < NUM_HASHES ::
              |r[x]| == NUM_HASHES && r[x][h] == KeptBin(place, theirs[x], h)
  {
    seq(|theirs|,
        x requires 0 <= x < |theirs| => seq(NUM_HASHES, h requires 0 <= h < NUM_HASHES => KeptBin(place, theirs[x], h)))
  }

  /** The sender's two threads on these items. */
  function Threads<T>(place: (T, nat) -> nat, enc: (nat, T) -> nat, theirs: seq<T>, perm: seq<nat>,
                      filler: seq<seq<nat>>, numBins: nat, stepSize: nat): Schedule.Setup
  {
    Schedule.Setup(numBins, NUM_HASHES, stepSize, perm, Kept(place, theirs),
                   (b: nat, x: nat) => if x < |theirs| then enc(b, theirs[x]) else 0, filler)
  }

  ghost predicate SenderOk<T(!new)>(place: (T, nat) -> nat, theirs: seq<T>, perm: seq<nat>, filler: seq<seq<nat>>,
                                    numBins: nat, stepSize: nat) {
    && InRange(place, numBins) && numBins < 0xFFFF_FFFF_FFFF_FFFF && stepSize > 0
    && IsPermutation(perm) && |perm| == |theirs| > 0 && Schedule.IsTable(filler, |theirs|, 3)
  }

  lemma ThreadsOk<T(!new)>(place: (T, nat) -> nat, enc: (nat, T) -> nat, theirs: seq<T>, perm: seq<nat>,
                           filler: seq<seq<nat>>, numBins: nat, stepSize: nat)
    requires SenderOk(place, theirs, perm, filler, numBins, stepSize)
    ensures Schedule.SetupOk(Threads(place, enc, theirs, perm, filler, numBins, stepSize))
  {
    hide Repeats;
  }

  /**
    Whatever the interleaving of the sender's two threads, the rows it has sent when it is finished
    are the masks the receiver's matching relies on, and fillers where there is nothing to encode.
   */
  lemma ScheduleSends<T(!new)>(place: (T, nat) -> nat, enc: (nat, T) -> nat, theirs: seq<T>, perm: seq<nat>,
                               filler: seq<seq<nat>>, numBins: nat, stepSize: nat, run: seq<Schedule.State>, k: nat)
    requires SenderOk(place, theirs, perm, filler, numBins, stepSize)
    requires var p := Threads(place, enc, theirs, perm, filler, numBins, stepSize);
             Schedule.SetupOk(p) && Schedule.IsRun(p, run) && k < |run| && run[k].epc.Finished?
    ensures SentRows(place, enc, theirs, perm, run[k].wire) && Distinct(perm)
    ensures forall i, h | 0 <= i < |perm| && 0 <= h < NUM_HASHES && KeptBin(place, theirs[perm[i]], h) == NONE ::
              run[k].wire[i][h] == filler[i][h]
  {
    hide KeptBin, Schedule.IsRun, Schedule.Logged;
    var p := Threads(place, enc, theirs, perm, filler, numBins, stepSize);
    Schedule.FinishedIsComplete(p, run, k, (0, 0));
    forall i: nat, h: nat | i < |perm| && h < NUM_HASHES
      ensures var kept := KeptBin(place, theirs[perm[i]], h);
              run[k].wire[i][h] == if kept != NONE then enc(kept, theirs[perm[i]]) else filler[i][h]
    {
      Schedule.FinishedIsComplete(p, run, k, (i, h));
    }
  }

  /** A cell with nothing to encode starts with a value that is no mask of any of the receiver's items in any bin. */
  ghost predicate FillerMisses<T>(place: (T, nat) -> nat, enc: (nat, T) -> nat, ours: seq<T>, numBins: nat,
                                  theirs: seq<T>, perm: seq<nat>, filler: seq<seq<nat>>)
    requires |perm| == |theirs| && Schedule.IsTable(filler, |theirs|, NUM_HASHES) && forall i | 0 <= i < |perm| ::
             perm[i] < |theirs|
  {
    forall i, h, b: nat, x | 0 <= i < |perm| && 0 <= h < NUM_HASHES && KeptBin(place, theirs[perm[i]], h) == NONE
        && b < numBins && x in ours ::
      filler[i][h] != enc(b, x)
  }

  /**
    The whole protocol: the sender hashes its items, its two threads run in any interleaving until the encoder is
    finished, and the receiver matches what comes over the wire. What it reports is, without duplicates, exactly the
    common items.
   */
  method Run<T(!new)>(place: (T, nat) -> nat, enc: (nat, T) -> nat, items: seq<T>, bins: seq<Option<nat>>,
                      ghost binOf: seq<nat>, theirs: seq<T>, perm: seq<nat>, filler: seq<seq<nat>>, stepSize: nat,
                      ghost run: seq<Schedule.State>, wire: seq<seq<nat>>)
    returns (mIntersection: seq<nat>)
    requires Tabled(place, items, bins, binOf) && CollisionFree(enc, |bins|, items, theirs) && Distinct(theirs)
    requires SenderOk(place, theirs, perm, filler, |bins|, stepSize)
             && FillerMisses(place, enc, items, |bins|, theirs, perm, filler)
    requires var p := Threads(place, enc, theirs, perm, filler, |bins|, stepSize);
             Schedule.SetupOk(p) ==>
                 Schedule.IsRun(p, run) && run[|run| - 1].epc.Finished? && wire == run[|run| - 1].wire
    ensures Distinct(mIntersection)
    ensures forall x: nat :: x in mIntersection <==> x < |items| && items[x] in theirs
  {
    hide KeptBin, Schedule.IsRun, Schedule.SetupOk, CollisionFree, Tabled, HasHash;
    var binIdxs := new nat[|theirs|, NUM_HASHES];
    HashItems(theirs, place, binIdxs);
    ghost var p := Threads(place, enc, theirs, perm, filler, |bins|, stepSize);
    assert forall x, h | 0 <= x < |theirs| && 0 <= h < NUM_HASHES :: binIdxs[x, h] == p.bins[x][h];
    ThreadsOk(place, enc, theirs, perm, filler, |bins|, stepSize);
    RunHasEnd(p, run);
    ScheduleSends(place, enc, theirs, perm, filler, |bins|, stepSize, run, |run| - 1);
    mIntersection := Intersect(place, enc, items, bins, binOf, theirs, perm, wire);
  }

  lemma RunHasEnd(p: Schedule.Setup, run: seq<Schedule.State>)
    requires Schedule.SetupOk(p) && Schedule.IsRun(p, run)
    ensures |run| > 0
  {}
}
