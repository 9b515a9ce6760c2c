/**
  The Bloom-filter protocol: the receiver turns its filter into an assignment of filter positions to
  transfers, the sender checks that assignment, and both sum up the messages behind an item's positions.
 */
module BloomMasks {
  import opened Bits
  import opened Blocks
  import opened Permutations
  import opened Wrappers

  /** Filter position of a 64-bit hash value. */
  function PositionIn(value: nat, bitCount: nat): (r: nat)
    requires bitCount > 0
    ensures r < bitCount
  {
    Rem(value, bitCount)
  }

  function PositionsOf(values: seq<nat>, bitCount: nat): (r: seq<nat>)
    requires bitCount > 0
    ensures |r| == |values| && forall j | 0 <= j < |r| :: r[j] < bitCount
  {
    seq<nat>(|values|, j requires 0 <= j < |values| => PositionIn(values[j], bitCount))
  }

  /** Some hash of one of the first n items falls on position i. */
  ghost predicate Covers(hashes: seq<seq<nat>>, n: nat, bitCount: nat, i: nat)
    requires n <= |hashes| && bitCount > 0
  {
    exists x, j :: 0 <= x < n && 0 <= j < |hashes[x]| && PositionIn(hashes[x][j], bitCount) == i
  }

  ghost predicate IsFilter(bf: seq<bool>, hashes: seq<seq<nat>>, bitCount: nat)
    requires bitCount > 0
  {
    |bf| == bitCount && forall i: nat | i < bitCount :: bf[i] <==> Covers(hashes, |hashes|, bitCount, i)
  }

  lemma OneFilter(bf: seq<bool>, bf': seq<bool>, hashes: seq<seq<nat>>, bitCount: nat)
    requires bitCount > 0 && IsFilter(bf, hashes, bitCount) && IsFilter(bf', hashes, bitCount)
    ensures bf == bf' && |bf| == bitCount
  {}

  /** Sets the filter's bits and keeps the positions for the masks. */
  method BuildFilter(hashes: seq<seq<nat>>, bitCount: nat) returns (bf: seq<bool>, idxs: seq<seq<nat>>)
    requires bitCount > 0
    ensures IsFilter(bf, hashes, bitCount)
    ensures |idxs| == |hashes| && forall x | 0 <= x < |hashes| :: idxs[x] == PositionsOf(hashes[x], bitCount)
    ensures |bf| == bitCount && forall i: nat | i < bitCount ::
              bf[i] <==> exists x, j :: 0 <= x < |hashes| && 0 <= j < |hashes[x]| && hashes[x][j] % bitCount == i
    ensures forall x, j | 0 <= x < |hashes| && 0 <= j < |hashes[x]| ::
              |idxs[x]| == |hashes[x]| && idxs[x][j] == hashes[x][j] % bitCount
  {
    hide PositionIn;
    bf, idxs := seq(bitCount, _ => false), [];
    for x := 0 to |hashes|
      invariant |bf| == bitCount && |idxs| == x
      invariant forall i: nat | i < bitCount :: bf[i] <==> Covers(hashes, x, bitCount, i)
      invariant forall y | 0 <= y < x :: idxs[y] == PositionsOf(hashes[y], bitCount)
    {
      ghost var before := bf;
      for j := 0 to |hashes[x]|
        invariant |bf| == bitCount
        invariant forall i: nat | i < bitCount ::
            bf[i] <==> before[i] || exists k :: 0 <= k < j && PositionIn(hashes[x][k], bitCount) == i
      {
        bf := bf[PositionIn(hashes[x][j], bitCount) := true];
      }
      forall i: nat | i < bitCount ensures bf[i] <==> Covers(hashes, x + 1, bitCount, i) {
        if k :| 0 <= k < |hashes[x]| && PositionIn(hashes[x][k], bitCount) == i {
          assert Covers(hashes, x + 1, bitCount, i);
        }
      }
      idxs := idxs + [PositionsOf(hashes[x], bitCount)];
    }
    forall value: nat ensures PositionIn(value, bitCount) == value % bitCount {
      DivisionAgrees(value, bitCount);
      PositionIs(value, bitCount);
    }
  }

  lemma PositionIs(value: nat, bitCount: nat)
    requires bitCount > 0
    ensures PositionIn(value, bitCount) == Rem(value, bitCount)
  {}

  // ----- filter to assignment -----

  function Count(bf: seq<bool>, bit: bool): (n: nat)
    ensures n <= |bf|
  {
    if bf == [] then 0 else Count(bf[..|bf| - 1], bit) + if bf[|bf| - 1] == bit then 1 else 0
  }

  lemma {:induction false} CountBoth(bf: seq<bool>)
    ensures Count(bf, true) + Count(bf, false) == |bf|
  {
    if bf != [] {
      CountBoth(bf[..|bf| - 1]);
    }
  }

  lemma {:induction false} CountPrefix(bf: seq<bool>, i: nat, bit: bool)
    requires i <= |bf|
    ensures Count(bf[..i], bit) <= Count(bf, bit) <= Count(bf[..i], bit) + |bf| - i
    decreases |bf| - i
  {
    if i < |bf| {
      CountPrefix(bf, i + 1, bit);
      assert bf[..i + 1][..i] == bf[..i];
    } else {
      assert bf[..i] == bf;
    }
  }

  function Larger(a: int, b: int): int {
    if a < b then b else a
  }

  /**
    The transfers with choice 1 the conversion takes: one for every set bit, and one for every position the zeros do
    not reach.
   */
  function OnesNeeded(bf: seq<bool>, zeros: nat): int {
    Larger(Count(bf, true), |bf| - zeros)
  }

  /** The first positions of the assignment: zeros and ones are taken from the front of their lists. */
  ghost predicate Assigned(bf: seq<bool>, zeros: seq<nat>, ones: seq<nat>, permute: seq<nat>, z: nat, o: nat) {
    && |permute| == z + o <= |bf| && z <= |zeros| && o <= |ones|
    && (forall i | 0 <= i < |permute| :: permute[i] in zeros[..z] || permute[i] in ones[..o])
    && (forall i | 0 <= i < |permute| && bf[i] :: permute[i] in ones[..o])
    && Distinct(permute)
  }

  /** The lists of transfers by choice: disjoint, without repetition. */
  ghost predicate ListsOk(zeros: seq<nat>, ones: seq<nat>) {
    Distinct(zeros) && Distinct(ones) && forall x | x in zeros :: x !in ones
  }

  lemma TakeZero(bf: seq<bool>, zeros: seq<nat>, ones: seq<nat>, permute: seq<nat>, z: nat, o: nat)
    requires ListsOk(zeros, ones) && Assigned(bf, zeros, ones, permute, z, o)
    requires z + o < |bf| && z < |zeros| && !bf[z + o]
    ensures Assigned(bf, zeros, ones, permute + [zeros[z]], z + 1, o)
  {
    assert zeros[..z + 1] == zeros[..z] + [zeros[z]];
    forall i | 0 <= i < |permute| ensures permute[i] != zeros[z] {
      assert zeros[z] !in zeros[..z];
      if permute[i] in ones[..o] {
        assert permute[i] in ones;
      }
    }
  }

  lemma TakeOne(bf: seq<bool>, zeros: seq<nat>, ones: seq<nat>, permute: seq<nat>, z: nat, o: nat)
    requires ListsOk(zeros, ones) && Assigned(bf, zeros, ones, permute, z, o)
    requires z + o < |bf| && o < |ones|
    ensures Assigned(bf, zeros, ones, permute + [ones[o]], z, o + 1)
  {
    assert ones[..o + 1] == ones[..o] + [ones[o]];
    forall i | 0 <= i < |permute| ensures permute[i] != ones[o] {
      assert ones[o] !in ones[..o];
      if permute[i] in zeros[..z] {
        assert permute[i] in zeros;
      }
    }
  }

  /**
    Converts the filter. The lists are read to their ends and no further exactly when there are
    enough ones; `None` is the read past the end. What comes out repeats no transfer, and every set
    bit has a transfer with choice 1.
   */
  method ConvertFilter(bf: seq<bool>, zeros: seq<nat>, ones: seq<nat>) returns (permute: Option<seq<nat>>)
    requires ListsOk(zeros, ones)
    ensures permute.Some? <==> |ones| >= OnesNeeded(bf, |zeros|)
    ensures permute.Some? ==> |permute.value| == |bf| && Distinct(permute.value)
    ensures permute.Some? ==> forall i | 0 <= i < |bf| :: permute.value[i] in zeros || permute.value[i] in ones
    ensures permute.Some? ==> forall i | 0 <= i < |bf| && bf[i] :: permute.value[i] in ones
  {
    hide ListsOk, Assigned;
    var vv: seq<nat> := [];
    var i, z, o := 0, 0, 0;
    CountBoth(bf);
    assert bf[..0] == [];
    NothingAssigned(bf, zeros, ones);
    while i < |bf| && z != |zeros|
      invariant i == |vv| == z + o <= |bf| && z <= |zeros| && o <= |ones| && Assigned(bf, zeros, ones, vv, z, o)
      invariant o == Count(bf[..i], true) && z == Count(bf[..i], false)
    {
      assert bf[..i + 1][..i] == bf[..i];
      if bf[i] {
        if o == |ones| {
          CountPrefix(bf, i + 1, true);
          return None;
        }
        TakeOne(bf, zeros, ones, vv, z, o);
        vv, o := vv + [ones[o]], o + 1;
      } else {
        TakeZero(bf, zeros, ones, vv, z, o);
        vv, z := vv + [zeros[z]], z + 1;
      }
      i := i + 1;
    }
    ZerosSpent(bf, i, |zeros|, z, o);
    permute := TakeRest(bf, zeros, ones, vv, z, o);
  }

  lemma NothingAssigned(bf: seq<bool>, zeros: seq<nat>, ones: seq<nat>)
    ensures Assigned(bf, zeros, ones, [], 0, 0)
  {}

  /** Where the first loop ends, one transfer with choice 1 is needed for every position that is left. */
  lemma ZerosSpent(bf: seq<bool>, i: nat, zeros: nat, z: nat, o: nat)
    requires i <= |bf| && i == z + o && z <= zeros && (i == |bf| || z == zeros)
    requires o == Count(bf[..i], true) && z == Count(bf[..i], false)
    ensures OnesNeeded(bf, zeros) == o + |bf| - i
  {
    CountPrefix(bf, i, true);
    CountBoth(bf);
    assert i == |bf| ==> bf[..i] == bf;
  }

  /** The second loop: whatever the bits are, the positions that are left take ones. */
  method TakeRest(bf: seq<bool>, zeros: seq<nat>, ones: seq<nat>, vv0: seq<nat>, z: nat,
                  o0: nat) returns (permute: Option<seq<nat>>)
    requires ListsOk(zeros, ones) && |vv0| == z + o0 <= |bf| && o0 <= |ones| && Assigned(bf, zeros, ones, vv0, z, o0)
    ensures permute.Some? <==> |ones| >= o0 + |bf| - |vv0|
    ensures permute.Some? ==> |permute.value| == |bf| && Distinct(permute.value)
    ensures permute.Some? ==> forall i | 0 <= i < |bf| :: permute.value[i] in zeros || permute.value[i] in ones
    ensures permute.Some? ==> forall i | 0 <= i < |bf| && bf[i] :: permute.value[i] in ones
  {
    hide ListsOk, Assigned;
    var vv, i, o := vv0, |vv0|, o0;
    while i < |bf|
      invariant i == |vv| == z + o <= |bf| && o <= |ones| && Assigned(bf, zeros, ones, vv, z, o)
    {
      if o == |ones| {
        return None;
      }
      TakeOne(bf, zeros, ones, vv, z, o);
      vv, o := vv + [ones[o]], o + 1;
      i := i + 1;
    }
    AllAssigned(bf, zeros, ones, vv, z, o);
    permute := Some(vv);
  }

  lemma AllAssigned(bf: seq<bool>, zeros: seq<nat>, ones: seq<nat>, permute: seq<nat>, z: nat, o: nat)
    requires Assigned(bf, zeros, ones, permute, z, o) && |permute| == |bf|
    ensures Distinct(permute)
    ensures forall i | 0 <= i < |bf| :: permute[i] in zeros || permute[i] in ones
    ensures forall i | 0 <= i < |bf| && bf[i] :: permute[i] in ones
  {}

  // ----- the sender's check -----

  /**
    The sender's scan over the assignment. It marks each transfer as used, and accepts exactly when
    no transfer is named twice and none was opened before, which is what `usedBits` begins with. The
    answer goes to the threads through a promise. A refusal leaves the loop but not the function, which
    then sets the promise a second time: the threads have got their `false`, and this call throws.
   */
  method CheckPermutation(permutes: seq<nat>, usedBits: array<bool>) returns (valid: bool, throws: bool)
    requires forall i | 0 <= i < |permutes| :: permutes[i] < usedBits.Length
    modifies usedBits
    ensures valid <==> Distinct(permutes) && forall i | 0 <= i < |permutes| :: !old(usedBits[permutes[i]])
    ensures throws <==> !valid
    ensures forall k | 0 <= k < usedBits.Length && (valid || k !in permutes) ::
            usedBits[k] <==> old(usedBits[k]) || k in permutes
  {
    var isValidPerm: Option<bool> := None;
    for i := 0 to |permutes|
      invariant isValidPerm == None && Distinct(permutes[..i])
      invariant forall j | 0 <= j < i :: !old(usedBits[permutes[j]])
      invariant forall k | 0 <= k < usedBits.Length :: usedBits[k] <==> old(usedBits[k]) || k in permutes[..i]
    {
      if usedBits[permutes[i]] {
        if permutes[i] in permutes[..i] {
          var j :| 0 <= j < i && permutes[..i][j] == permutes[i];
          assert permutes[j] == permutes[i];
        }
        isValidPerm := Some(false);
        break;
      }
      assert permutes[..i + 1] == permutes[..i] + [permutes[i]];
      usedBits[permutes[i]] := true;
    }
    assert permutes[..|permutes|] == permutes;
    throws := isValidPerm.Some?;
    valid := if isValidPerm.Some? then isValidPerm.value else true;
  }

  // ----- masks -----

  ghost predicate Inside(idxs: seq<nat>, permute: seq<nat>, messages: seq<Block>) {
    forall j | 0 <= j < |idxs| :: idxs[j] < |permute| && permute[idxs[j]] < |messages|
  }

  /** The sum of the messages behind the first n positions of an item. */
  ghost function MaskOf(idxs: seq<nat>, permute: seq<nat>, messages: seq<Block>, n: nat): Block
    requires n <= |idxs| && Inside(idxs, permute, messages)
  {
    if n == 0 then Zero() else Xor(MaskOf(idxs, permute, messages, n - 1), messages[permute[idxs[n - 1]]])
  }

  /** A mask bit by bit: over no positions it is clear, and one position more adds that message's bit. */
  lemma MaskBits(idxs: seq<nat>, permute: seq<nat>, messages: seq<Block>, n: nat, b: nat)
    requires n <= |idxs| && Inside(idxs, permute, messages) && b < 128
    ensures MaskOf(idxs, permute, messages, n)[b]
            == if n == 0 then false else MaskOf(idxs, permute, messages, n - 1)[b] != messages[permute[idxs[n - 1]]][b]
  {}

  /** The receiver's mask, summed up two messages at a time. */
  method ReceiverMask(idxs: seq<nat>, permute: seq<nat>, messages: seq<Block>) returns (mask: Block)
    requires Inside(idxs, permute, messages)
    ensures mask == MaskOf(idxs, permute, messages, |idxs|)
  {
    hide Xor;
    mask := Zero();
    var stepSize := 2;
    var stepCount := |idxs| / stepSize;
    var iter := 0;
    for j := 0 to stepCount
      invariant iter == stepSize * j <= |idxs| && mask == MaskOf(idxs, permute, messages, iter)
    {
      mask := Xor(Xor(mask, messages[permute[idxs[iter]]]), messages[permute[idxs[iter + 1]]]);
      assert MaskOf(idxs, permute, messages, iter + 2)
          == Xor(MaskOf(idxs, permute, messages, iter + 1), messages[permute[idxs[iter + 1]]]);
      iter := iter + 2;
    }
    for j := stepSize * stepCount to |idxs|
      invariant iter == j && mask == MaskOf(idxs, permute, messages, iter)
    {
      mask := Xor(mask, messages[permute[idxs[iter]]]);
      iter := iter + 1;
    }
  }

  /** The sender's mask of an item, from the messages for choice 1. */
  method SenderMask(values: seq<nat>, bitCount: nat, permutes: seq<nat>, messages: seq<Block>) returns (mask: Block)
    requires bitCount > 0 && Inside(PositionsOf(values, bitCount), permutes, messages)
    ensures mask == MaskOf(PositionsOf(values, bitCount), permutes, messages, |values|)
    ensures forall idxs: seq<nat> | |idxs| == |values|
            && (forall j | 0 <= j < |values| :: idxs[j] == values[j] % bitCount)
              :: Inside(idxs, permutes, messages) && mask == MaskOf(idxs, permutes, messages, |values|)
  {
    hide Xor;
    ghost var idxs := PositionsOf(values, bitCount);
    forall j | 0 <= j < |values| ensures idxs[j] == values[j] % bitCount {
      DivisionAgrees(values[j], bitCount);
    }
    assert forall other: seq<nat> | |other| == |values|
        && (forall j | 0 <= j < |values| :: other[j] == values[j] % bitCount)
        :: other == idxs;
    mask := Zero();
    for j := 0 to |values|
      invariant mask == MaskOf(idxs, permutes, messages, j)
    {
      var idx := PositionIn(values[j], bitCount);
      assert idx == idxs[j];
      mask := Xor(mask, messages[permutes[idx]]);
    }
  }

  /** What the transfers guarantee: with choice 1 the receiver holds the sender's message for 1. */
  ghost predicate ChoiceOne(ones: seq<nat>, received: seq<Block>, sent: seq<Block>) {
    |received| == |sent| && forall t | t in ones && t < |sent| :: received[t] == sent[t]
  }

  lemma {:induction false} SameMasks(idxs: seq<nat>, permute: seq<nat>, received: seq<Block>, sent: seq<Block>,
                                     ones: seq<nat>, n: nat)
    requires n <= |idxs| && Inside(idxs, permute, received) && Inside(idxs, permute, sent)
             && ChoiceOne(ones, received, sent)
    requires forall j | 0 <= j < |idxs| :: permute[idxs[j]] in ones
    ensures MaskOf(idxs, permute, received, n) == MaskOf(idxs, permute, sent, n)
  {
    if n > 0 {
      SameMasks(idxs, permute, received, sent, ones, n - 1);
    }
  }

  /** The lists hold transfers that exist and that were not opened. */
  ghost predicate Unopened(list: seq<nat>, usedBits: seq<bool>) {
    forall t | t in list :: t < |usedBits| && !usedBits[t]
  }

  // ----- the lookup -----

  /** The first eight bytes of a mask, which is all that is looked up. */
  function KeyOf(mask: Block): seq<bool> {
    mask[..64]
  }

  lemma SameKeyIff(a: Block, b: Block)
    ensures KeyOf(a) == KeyOf(b) <==> forall i: nat | i < 64 :: a[i] == b[i]
  {
    if KeyOf(a) == KeyOf(b) {
      forall i: nat | i < 64 ensures a[i] == b[i] {
        assert a[i] == KeyOf(a)[i] && b[i] == KeyOf(b)[i];
      }
    }
  }

  predicate HasKey(masks: seq<Block>, key: seq<bool>) {
    exists y :: 0 <= y < |masks| && KeyOf(masks[y]) == key
  }

  /** Mask x is the first of its key. */
  predicate IsFirst(masks: seq<Block>, x: nat) {
    x < |masks| && forall w | 0 <= w < x :: KeyOf(masks[w]) != KeyOf(masks[x])
  }

  ghost predicate TwiceHit(ours: seq<Block>, theirs: seq<Block>) {
    exists y, z :: 0 <= y < z < |theirs| && KeyOf(theirs[y]) == KeyOf(theirs[z]) && HasKey(ours, KeyOf(theirs[y]))
  }

  /** The receiver's map: of two masks with one key the first is filed. */
  method FileMasks(ours: seq<Block>) returns (masks: map<seq<bool>, nat>)
    ensures forall key | key in masks :: IsFirst(ours, masks[key]) && KeyOf(ours[masks[key]]) == key
    ensures forall x | 0 <= x < |ours| :: KeyOf(ours[x]) in masks
  {
    hide KeyOf;
    masks := map[];
    for i := 0 to |ours|
      invariant forall key | key in masks ::
                masks[key] < i && IsFirst(ours, masks[key]) && KeyOf(ours[masks[key]]) == key
      invariant forall x | 0 <= x < i :: KeyOf(ours[x]) in masks
    {
      if KeyOf(ours[i]) !in masks {
        masks := masks[KeyOf(ours[i]) := i];
      }
    }
  }

  /**
    Looks the sender's masks up: reported is every item whose mask is the first of its key and has a received one's.
   */
  method FindCommon(ours: seq<Block>, theirs: seq<Block>) returns (mIntersection: seq<nat>)
    ensures forall x: nat :: x in mIntersection <==> IsFirst(ours, x) && HasKey(theirs, KeyOf(ours[x]))
    ensures Distinct(mIntersection) || TwiceHit(ours, theirs)
  {
    hide KeyOf;
    var masks := FileMasks(ours);
    mIntersection := [];
    for i := 0 to |theirs|
      invariant forall x: nat :: x in mIntersection <==> IsFirst(ours, x) && HasKey(theirs[..i], KeyOf(ours[x]))
      invariant Distinct(mIntersection) || TwiceHit(ours, theirs)
    {
      ghost var before := mIntersection;
      HasNext(theirs, i);
      var key := KeyOf(theirs[i]);
      if key in masks {
        if masks[key] in mIntersection {
          var y :| 0 <= y < i && KeyOf(theirs[..i][y]) == key;
          assert KeyOf(theirs[y]) == KeyOf(theirs[i]) && HasKey(ours, KeyOf(theirs[y]));
        }
        mIntersection := mIntersection + [masks[key]];
      }
      forall x: nat ensures x in mIntersection <==> IsFirst(ours, x) && HasKey(theirs[..i + 1], KeyOf(ours[x])) {
        if IsFirst(ours, x) && KeyOf(ours[x]) == key {
          assert masks[key] == x;
        }
      }
    }
    assert theirs[..|theirs|] == theirs;
  }

  lemma HasNext(theirs: seq<Block>, i: nat)
    requires i < |theirs|
    ensures forall key :: HasKey(theirs[..i + 1], key) <==> HasKey(theirs[..i], key) || KeyOf(theirs[i]) == key
  {
    hide KeyOf;
    var n := i + 1;
    forall key ensures HasKey(theirs[..n], key) <==> HasKey(theirs[..i], key) || KeyOf(theirs[i]) == key {
      if y :| 0 <= y < i && KeyOf(theirs[..i][y]) == key {
        assert KeyOf(theirs[..n][y]) == key;
      }
      if KeyOf(theirs[i]) == key {
        assert KeyOf(theirs[..n][i]) == key;
      }
      if y :| 0 <= y < n && KeyOf(theirs[..n][y]) == key {
        assert y < i ==> KeyOf(theirs[..i][y]) == key;
      }
    }
  }

  // ----- an honest run -----

  /** The receiver's own masks have different keys. */
  ghost predicate KeysDistinct(ours: seq<Block>) {
    forall x, w | 0 <= x < w < |ours| :: KeyOf(ours[x]) != KeyOf(ours[w])
  }

  /** Masks of different items have different keys. */
  ghost predicate NoAccidents(hashes: seq<seq<nat>>, theirs: seq<seq<nat>>, ours: seq<Block>, received: seq<Block>) {
    forall x, y | 0 <= x < |ours| && 0 <= y < |received| && x < |hashes| && y < |theirs| ::
      KeyOf(ours[x]) == KeyOf(received[y]) ==> hashes[x] == theirs[y]
  }

  /** All masks of one side are the sums over its items' positions. */
  ghost predicate AreMasks(masks: seq<Block>, items: seq<seq<nat>>, bitCount: nat, permute: seq<nat>,
                           messages: seq<Block>)
  {
    |masks| == |items| && bitCount > 0
    && forall x | 0 <= x < |items| ::
         Inside(PositionsOf(items[x], bitCount), permute, messages)
         && masks[x] == MaskOf(PositionsOf(items[x], bitCount), permute, messages, |items[x]|)
  }

  /** Only an item that the sender holds twice is hit twice. */
  lemma HitTwice(hashes: seq<seq<nat>>, theirs: seq<seq<nat>>, ours: seq<Block>, received: seq<Block>)
    requires |ours| == |hashes| && |received| == |theirs| && NoAccidents(hashes, theirs, ours, received)
    requires TwiceHit(ours, received)
    ensures !Distinct(theirs)
  {
    hide KeyOf;
    var y, z :| 0 <= y < z < |received| && KeyOf(received[y]) == KeyOf(received[z])
        && HasKey(ours, KeyOf(received[y]));
    var x :| 0 <= x < |ours| && KeyOf(ours[x]) == KeyOf(received[y]);
    assert theirs[y] == hashes[x] == theirs[z];
  }

  /** What the lookup promises when common items have equal masks. */
  lemma LookupPromises(hashes: seq<seq<nat>>, theirs: seq<seq<nat>>, ours: seq<Block>, received: seq<Block>,
                       mIntersection: seq<nat>)
    requires |ours| == |hashes| && |received| == |theirs|
    requires forall x, y | 0 <= x < |ours| && 0 <= y < |received| && hashes[x] == theirs[y] :: ours[x] == received[y]
    requires forall x: nat :: x in mIntersection <==> IsFirst(ours, x) && HasKey(received, KeyOf(ours[x]))
    requires Distinct(mIntersection) || TwiceHit(ours, received)
    ensures Promised(hashes, theirs, ours, received, mIntersection)
  {
    hide KeyOf;
    if KeysDistinct(ours) {
      forall x: nat | x < |hashes| && hashes[x] in theirs ensures x in mIntersection {
        var y :| 0 <= y < |theirs| && theirs[y] == hashes[x];
        assert KeyOf(ours[x]) == KeyOf(received[y]);
      }
      if NoAccidents(hashes, theirs, ours, received) {
        forall x: nat | x in mIntersection ensures x < |hashes| && hashes[x] in theirs {
          var y :| 0 <= y < |received| && KeyOf(received[y]) == KeyOf(ours[x]);
        }
        if TwiceHit(ours, received) {
          HitTwice(hashes, theirs, ours, received);
        }
      }
    }
  }

  /**
    The common items are reported if the receiver's masks have different keys; without accidents nothing else is, and
    nothing twice unless the sender holds an item twice.
   */
  ghost predicate Promised(hashes: seq<seq<nat>>, theirs: seq<seq<nat>>, ours: seq<Block>, received: seq<Block>,
                           mIntersection: seq<nat>) {
    && (KeysDistinct(ours) ==> forall x: nat | x < |hashes| && hashes[x] in theirs :: x in mIntersection)
    && (KeysDistinct(ours) && NoAccidents(hashes, theirs, ours, received) ==>
          forall x: nat :: x in mIntersection <==> x < |hashes| && hashes[x] in theirs)
    && (KeysDistinct(ours) && NoAccidents(hashes, theirs, ours, received) && Distinct(theirs) ==>
        Distinct(mIntersection))
  }

  /** Two masks differ in one of their first 64 bits. */
  ghost predicate Differ(a: Block, b: Block) {
    exists i: nat :: i < 64 && a[i] != b[i]
  }

  /** The same promise in bits. */
  ghost predicate PromisedInBits(hashes: seq<seq<nat>>, theirs: seq<seq<nat>>, ours: seq<Block>, received: seq<Block>,
                                 mIntersection: seq<nat>)
    requires |ours| == |hashes| && |received| == |theirs|
  {
    (forall x, w | 0 <= x < w < |ours| :: Differ(ours[x], ours[w])) ==>
      && (forall x: nat | x < |hashes| && hashes[x] in theirs :: x in mIntersection)
      && ((forall x, y | 0 <= x < |ours| && 0 <= y < |received| && hashes[x] != theirs[y] ::
          Differ(ours[x], received[y]))
          ==> (forall x: nat :: x in mIntersection <==> x < |hashes| && hashes[x] in theirs)
              && (Distinct(theirs) ==> Distinct(mIntersection)))
  }

  lemma PromiseInBits(hashes: seq<seq<nat>>, theirs: seq<seq<nat>>, ours: seq<Block>, received: seq<Block>,
                      mIntersection: seq<nat>)
    requires |ours| == |hashes| && |received| == |theirs| && Promised(hashes, theirs, ours, received, mIntersection)
    ensures PromisedInBits(hashes, theirs, ours, received, mIntersection)
  {
    hide KeyOf;
    forall a: Block, b: Block ensures KeyOf(a) != KeyOf(b) <==> Differ(a, b) {
      SameKeyIff(a, b);
    }
  }

  /**
    An honest run. If there are enough transfers with choice 1 the conversion succeeds, the sender accepts its result,
    items that both sides hash to the same values have equal masks, and the receiver reports the common items.
   */
  method HonestRun(hashes: seq<seq<nat>>, theirs: seq<seq<nat>>, bitCount: nat, zeros: seq<nat>, ones: seq<nat>,
                   received: seq<Block>, sent: seq<Block>, usedBits: array<bool>, ghost filter: seq<bool>)
    returns (permute: seq<nat>, valid: bool, receiverMasks: seq<Block>, senderMasks: seq<Block>,
        mIntersection: seq<nat>)
    requires bitCount > 0 && ListsOk(zeros, ones)
    requires IsFilter(filter, hashes, bitCount) && |ones| >= OnesNeeded(filter, |zeros|)
    requires |received| == |sent| && ChoiceOne(ones, received, sent) && usedBits.Length == |sent|
    requires Unopened(zeros, usedBits[..]) && Unopened(ones, usedBits[..])
    modifies usedBits
    ensures valid && Distinct(permute)
    ensures AreMasks(receiverMasks, hashes, bitCount, permute, received)
    ensures AreMasks(senderMasks, theirs, bitCount, permute, sent)
    ensures forall x, y | 0 <= x < |hashes| && 0 <= y < |theirs| && hashes[x] == theirs[y] ::
            receiverMasks[x] == senderMasks[y]
    ensures Promised(hashes, theirs, receiverMasks, senderMasks, mIntersection)
    ensures |receiverMasks| == |hashes| && |senderMasks| == |theirs|
            && PromisedInBits(hashes, theirs, receiverMasks, senderMasks, mIntersection)
  {
    hide *;
    var bf, idxs := BuildFilter(hashes, bitCount);
    OneFilter(bf, filter, hashes, bitCount);
    var converted := ConvertFilter(bf, zeros, ones);
    permute := converted.value;
    AssignmentInside(zeros, ones, permute, usedBits[..]);
    var throws: bool;
    valid, throws := CheckPermutation(permute, usedBits);
    receiverMasks := AllReceiverMasks(hashes, idxs, bitCount, permute, received);
    senderMasks := AllSenderMasks(theirs, bitCount, permute, sent);
    CommonMasks(hashes, theirs, bitCount, bf, permute, received, sent, ones, receiverMasks, senderMasks);
    mIntersection := FindCommon(receiverMasks, senderMasks);
    LookupPromises(hashes, theirs, receiverMasks, senderMasks, mIntersection);
    PromiseInBits(hashes, theirs, receiverMasks, senderMasks, mIntersection);
  }

  method AllReceiverMasks(hashes: seq<seq<nat>>, idxs: seq<seq<nat>>, bitCount: nat, permute: seq<nat>,
                          messages: seq<Block>) returns (masks: seq<Block>)
    requires bitCount > 0 && |permute| == bitCount && forall i | 0 <= i < |permute| :: permute[i] < |messages|
    requires |idxs| == |hashes| && forall x | 0 <= x < |hashes| :: idxs[x] == PositionsOf(hashes[x], bitCount)
    ensures AreMasks(masks, hashes, bitCount, permute, messages)
  {
    hide Inside, MaskOf, PositionsOf;
    masks := [];
    for x := 0 to |hashes|
      invariant AreMasks(masks, hashes[..x], bitCount, permute, messages)
    {
      PositionsInside(hashes[x], bitCount, permute, messages);
      var mask := ReceiverMask(idxs[x], permute, messages);
      masks := masks + [mask];
    }
    assert hashes[..|hashes|] == hashes;
  }

  method AllSenderMasks(theirs: seq<seq<nat>>, bitCount: nat, permute: seq<nat>,
                        messages: seq<Block>) returns (masks: seq<Block>)
    requires bitCount > 0 && |permute| == bitCount && forall i | 0 <= i < |permute| :: permute[i] < |messages|
    ensures AreMasks(masks, theirs, bitCount, permute, messages)
  {
    hide Inside, MaskOf, PositionsOf;
    masks := [];
    for y := 0 to |theirs|
      invariant AreMasks(masks, theirs[..y], bitCount, permute, messages)
    {
      PositionsInside(theirs[y], bitCount, permute, messages);
      var mask := SenderMask(theirs[y], bitCount, permute, messages);
      masks := masks + [mask];
    }
    assert theirs[..|theirs|] == theirs;
  }

  lemma CommonMasks(hashes: seq<seq<nat>>, theirs: seq<seq<nat>>, bitCount: nat, bf: seq<bool>, permute: seq<nat>,
                    received: seq<Block>, sent: seq<Block>, ones: seq<nat>, ours: seq<Block>, masks: seq<Block>)
    requires bitCount > 0 && IsFilter(bf, hashes, bitCount) && |permute| == |bf| == bitCount
    requires forall i | 0 <= i < |bf| && bf[i] :: permute[i] in ones
    requires ChoiceOne(ones, received, sent)
    requires AreMasks(ours, hashes, bitCount, permute, received) && AreMasks(masks, theirs, bitCount, permute, sent)
    ensures |ours| == |hashes| && |masks| == |theirs|
    ensures forall x, y | 0 <= x < |hashes| && 0 <= y < |theirs| && hashes[x] == theirs[y] :: ours[x] == masks[y]
  {
    hide IsFilter, ChoiceOne, MaskOf;
    forall x: nat, y: nat | x < |hashes| && y < |theirs| && hashes[x] == theirs[y] ensures ours[x] == masks[y] {
      PositionsSet(hashes, bitCount, bf, x);
      SameMasks(PositionsOf(hashes[x], bitCount), permute, received, sent, ones, |hashes[x]|);
    }
  }

  lemma AssignmentInside(zeros: seq<nat>, ones: seq<nat>, permute: seq<nat>, usedBits: seq<bool>)
    requires Unopened(zeros, usedBits) && Unopened(ones, usedBits)
    requires forall i | 0 <= i < |permute| :: permute[i] in zeros || permute[i] in ones
    ensures forall i | 0 <= i < |permute| :: permute[i] < |usedBits| && !usedBits[permute[i]]
  {}

  lemma PositionsInside(values: seq<nat>, bitCount: nat, permute: seq<nat>, messages: seq<Block>)
    requires bitCount > 0 && |permute| == bitCount && forall i | 0 <= i < |permute| :: permute[i] < |messages|
    ensures Inside(PositionsOf(values, bitCount), permute, messages)
  {}

  /** An item's own positions are all set. */
  lemma PositionsSet(hashes: seq<seq<nat>>, bitCount: nat, bf: seq<bool>, x: nat)
    requires bitCount > 0 && x < |hashes| && IsFilter(bf, hashes, bitCount)
    ensures forall j | 0 <= j < |hashes[x]| :: bf[PositionsOf(hashes[x], bitCount)[j]]
  {
    forall j | 0 <= j < |hashes[x]| ensures bf[PositionsOf(hashes[x], bitCount)[j]] {
      var i := PositionIn(hashes[x][j], bitCount);
      assert Covers(hashes, |hashes|, bitCount, i);
    }
  }
}
