/**
  The passes of the hash-to-bins protocol with equal loads: the receiver files its masks through an
  insert buffer, the sender writes its rows at permuted positions, and the receiver looks the rows up.
 */
module Rr17 {
  import opened Bits
  import opened Blocks
  import opened Permutations
  import opened Slots
  import opened MaskMatching
  import opened Wrappers
  import Binning

  datatype Filed = Filed(key: seq<bool>, index: nat, mask: Block)

  type MaskMap = map<seq<bool>, (nat, Block)>

  ghost predicate IsFiled(p: Protocol, f: Filed)
    requires ProtocolOk(p)
  {
    FromEntry(p, f.key, (f.index, f.mask))
  }

  /** Everything in the map is some entry's. */
  ghost predicate MapSound(p: Protocol, maskMap: MaskMap)
    requires ProtocolOk(p)
  {
    forall key | key in maskMap :: IsFiled(p, Filed(key, maskMap[key].0, maskMap[key].1))
  }

  ghost predicate BufferSound(p: Protocol, buffer: seq<Filed>)
    requires ProtocolOk(p)
  {
    forall j | 0 <= j < |buffer| :: IsFiled(p, buffer[j])
  }

  ghost predicate Seen(maskMap: MaskMap, buffer: seq<Filed>, key: seq<bool>) {
    key in maskMap || exists j :: 0 <= j < |buffer| && buffer[j].key == key
  }

  /** Every entry of item x is in the map or waits in the buffer. */
  ghost predicate Covered(p: Protocol, maskMap: MaskMap, buffer: seq<Filed>, x: nat)
    requires ProtocolOk(p)
  {
    forall l: nat | IsEntry(p, x, l) :: Seen(maskMap, buffer, EntryKey(p, x, l))
  }

  /** Moves the waiting entries to the map; a key that is there already keeps what it has. */
  method Flush(ghost p: Protocol, maskMap: MaskMap, insertBuffer: array<Filed>, size: nat) returns (after: MaskMap)
    requires size <= insertBuffer.Length
    requires ProtocolOk(p) && MapSound(p, maskMap) && BufferSound(p, insertBuffer[..size])
    ensures MapSound(p, after)
    ensures forall key :: key in after <==> Seen(maskMap, insertBuffer[..size], key)
  {
    hide IsFiled, ProtocolOk;
    after := maskMap;
    for i := 0 to size
      invariant MapSound(p, after)
      invariant forall key :: key in after <==> Seen(maskMap, insertBuffer[..i], key)
    {
      var f := insertBuffer[i];
      assert f == insertBuffer[..size][i];
      if f.key !in after {
        after := after[f.key := (f.index, f.mask)];
      }
    }
  }

  /** The bins' items are the receiver's, each in the bin it hashes to. */
  ghost predicate BinsMatch(bin: seq<nat>, bins: seq<seq<nat>>) {
    && SplitsBelow(bins, |bin|)
    && forall b, i | 0 <= b < |bins| && 0 <= i < |bins[b]| :: bin[bins[b][i]] == b
  }

  /** What the receiver's pass over its bins runs with: equal loads, at most what the buffer has room for. */
  ghost predicate CollectOk(p: Protocol, bins: seq<seq<nat>>) {
    && ProtocolOk(p) && |bins| == |p.loadS| && BinsMatch(p.r.bin, bins) && p.maxBinSize > 0
    && forall b | 0 <= b < |bins| :: p.loadS[b] == p.maxBinSize
  }

  lemma SizesOf(p: Protocol, bins: seq<seq<nat>>)
    requires CollectOk(p, bins)
    ensures p.maskSize <= 16 && |p.r.bin| == |p.r.code| == |p.r.mask| == |p.r.slot| && p.maxBinSize > 0 && ProtocolOk(p)
    ensures |bins| == |p.loadS|
  {}

  lemma EntriesOf(p: Protocol, bins: seq<seq<nat>>, x: nat)
    requires CollectOk(p, bins) && x < |p.r.bin|
    ensures p.r.bin[x] < |p.loadS|
    ensures forall l: nat :: IsEntry(p, x, l) <==> l < p.maxBinSize
  {
    hide BinsMatch;
    assert p.r.bin[x] < |p.loadR| == |p.loadS|;
  }

  /** The entry for the slot `otIdx`, place l of the other side's range. */
  function FiledAt(p: Protocol, x: nat, otIdx: nat, l: nat): Filed
    requires p.maskSize <= 16 && x < |p.r.code| == |p.r.mask|
  {
    var sendMask := Xor(p.fR(otIdx, p.r.code[x]), p.r.mask[x]);
    Filed(KeyOf(Trunc(sendMask, p.maskSize)), x * p.maxBinSize + l, sendMask)
  }

  lemma FiledIsEntry(p: Protocol, bins: seq<seq<nat>>, x: nat, otIdx: nat, l: nat)
    requires CollectOk(p, bins) && x < |p.r.bin| && l < p.maxBinSize
    requires p.r.bin[x] < |p.loadS| && otIdx == Start(p.loadS, p.r.bin[x]) + l
    ensures p.maskSize <= 16 && x < |p.r.code| == |p.r.mask| && IsEntry(p, x, l)
    ensures FiledAt(p, x, otIdx, l).key == EntryKey(p, x, l) && IsFiled(p, FiledAt(p, x, otIdx, l))
  {
    hide Start, Xor, Trunc, KeyOf, BinsMatch;
    EntriesOf(p, bins, x);
    assert FiledAt(p, x, otIdx, l) == Filed(EntryKey(p, x, l), x * p.maxBinSize + l, EntryMask(p, x, l));
  }

  ghost predicate CoveredBelow(p: Protocol, maskMap: MaskMap, buffer: seq<Filed>, x: nat, n: nat)
    requires ProtocolOk(p)
  {
    forall l: nat | l < n && IsEntry(p, x, l) :: Seen(maskMap, buffer, EntryKey(p, x, l))
  }

  lemma SeenMore(maskMap: MaskMap, buffer: seq<Filed>, f: Filed, key: seq<bool>)
    ensures Seen(maskMap, buffer + [f], key) <==> Seen(maskMap, buffer, key) || key == f.key
  {
    assert (buffer + [f])[|buffer|] == f;
    if j :| 0 <= j < |buffer| && buffer[j].key == key {
      assert (buffer + [f])[j].key == key;
    }
  }

  lemma AddEntry(p: Protocol, maskMap: MaskMap, buffer: seq<Filed>, f: Filed, x: nat, l: nat)
    requires ProtocolOk(p) && BufferSound(p, buffer) && IsFiled(p, f) && IsEntry(p, x, l) && f.key == EntryKey(p, x, l)
    requires CoveredBelow(p, maskMap, buffer, x, l)
    ensures BufferSound(p, buffer + [f]) && CoveredBelow(p, maskMap, buffer + [f], x, l + 1)
  {
    hide ProtocolOk, IsFiled, EntryKey, IsEntry;
    forall m: nat | m < l + 1 && IsEntry(p, x, m) ensures Seen(maskMap, buffer + [f], EntryKey(p, x, m)) {
      SeenMore(maskMap, buffer, f, EntryKey(p, x, m));
    }
  }

  lemma StaysCovered(p: Protocol, maskMap: MaskMap, buffer: seq<Filed>, f: Filed, y: nat)
    requires ProtocolOk(p) && Covered(p, maskMap, buffer, y)
    ensures Covered(p, maskMap, buffer + [f], y)
  {
    hide ProtocolOk, EntryKey, IsEntry;
    forall m: nat | IsEntry(p, y, m) ensures Seen(maskMap, buffer + [f], EntryKey(p, y, m)) {
      SeenMore(maskMap, buffer, f, EntryKey(p, y, m));
    }
  }

  /** All items of a set are covered. */
  ghost predicate AllCovered(p: Protocol, maskMap: MaskMap, buffer: seq<Filed>, xs: set<nat>)
    requires ProtocolOk(p)
  {
    forall x | x in xs :: Covered(p, maskMap, buffer, x)
  }

  /** Appends the entries of item x, whose other side's range begins at `otIdx`. */
  method FileItem(p: Protocol, ghost bins: seq<seq<nat>>, ghost maskMap: MaskMap, ghost xs: set<nat>,
                  x: nat, otIdx: nat, insertBuffer: array<Filed>, insertIter: nat)
    requires CollectOk(p, bins) && x < |p.r.bin| && p.r.bin[x] < |p.loadS| && otIdx == Start(p.loadS, p.r.bin[x])
    requires insertIter + p.maxBinSize <= insertBuffer.Length
    requires BufferSound(p, insertBuffer[..insertIter]) && AllCovered(p, maskMap, insertBuffer[..insertIter], xs)
    modifies insertBuffer
    ensures BufferSound(p, insertBuffer[..insertIter + p.maxBinSize])
    ensures AllCovered(p, maskMap, insertBuffer[..insertIter + p.maxBinSize], xs + {x})
  {
    hide *;
    SizesOf(p, bins);
    var innerOtIdx := otIdx;
    CoveredNone(p, maskMap, insertBuffer[..insertIter], x);
    for l := 0 to p.maxBinSize
      invariant innerOtIdx == otIdx + l
      invariant BufferSound(p, insertBuffer[..insertIter + l])
                && AllCovered(p, maskMap, insertBuffer[..insertIter + l], xs)
      invariant CoveredBelow(p, maskMap, insertBuffer[..insertIter + l], x, l)
    {
      ghost var buffer := insertBuffer[..insertIter + l];
      FiledIsEntry(p, bins, x, innerOtIdx, l);
      var f := FiledAt(p, x, innerOtIdx, l);
      insertBuffer[insertIter + l] := f;
      assert insertBuffer[..insertIter + l + 1] == buffer + [f];
      AddEntry(p, maskMap, buffer, f, x, l);
      StayCovered(p, maskMap, buffer, f, xs);
      innerOtIdx := innerOtIdx + 1;
    }
    CoveredAll(p, bins, maskMap, insertBuffer[..insertIter + p.maxBinSize], x, xs);
  }

  lemma CoveredNone(p: Protocol, maskMap: MaskMap, buffer: seq<Filed>, x: nat)
    requires ProtocolOk(p)
    ensures CoveredBelow(p, maskMap, buffer, x, 0)
  {}

  lemma CoveredAll(p: Protocol, bins: seq<seq<nat>>, maskMap: MaskMap, buffer: seq<Filed>, x: nat, xs: set<nat>)
    requires CollectOk(p, bins) && x < |p.r.bin| && CoveredBelow(p, maskMap, buffer, x, p.maxBinSize)
    requires AllCovered(p, maskMap, buffer, xs)
    ensures AllCovered(p, maskMap, buffer, xs + {x})
  {
    hide Seen, EntryKey, IsEntry, BinsMatch;
    EntriesOf(p, bins, x);
  }

  lemma StayCovered(p: Protocol, maskMap: MaskMap, buffer: seq<Filed>, f: Filed, xs: set<nat>)
    requires ProtocolOk(p) && AllCovered(p, maskMap, buffer, xs)
    ensures AllCovered(p, maskMap, buffer + [f], xs)
  {
    hide ProtocolOk, Covered;
    forall x | x in xs ensures Covered(p, maskMap, buffer + [f], x) {
      StaysCovered(p, maskMap, buffer, f, x);
    }
  }

  /** Flushing loses nothing. */
  lemma FlushCovers(p: Protocol, maskMap: MaskMap, after: MaskMap, buffer: seq<Filed>, xs: set<nat>)
    requires ProtocolOk(p) && AllCovered(p, maskMap, buffer, xs)
    requires forall key :: key in after <==> Seen(maskMap, buffer, key)
    ensures AllCovered(p, after, [], xs)
  {
    hide ProtocolOk, IsEntry, EntryKey;
    forall x | x in xs ensures Covered(p, after, [], x) {
      assert Covered(p, maskMap, buffer, x);
      forall l: nat | IsEntry(p, x, l) ensures Seen(after, [], EntryKey(p, x, l)) {
        assert Seen(maskMap, buffer, EntryKey(p, x, l));
      }
    }
  }

  function ItemsBefore(bins: seq<seq<nat>>, b: nat): (xs: set<nat>)
    requires b <= |bins|
  {
    if b == 0 then {} else ItemsBefore(bins, b - 1) + Elements(bins[b - 1])
  }

  lemma {:induction false} ItemsBeforeHas(bins: seq<seq<nat>>, b: nat, c: nat, i: nat)
    requires c < b <= |bins| && i < |bins[c]|
    ensures bins[c][i] in ItemsBefore(bins, b)
  {
    if c < b - 1 {
      ItemsBeforeHas(bins, b - 1, c, i);
    }
  }

  lemma ItemInMap(p: Protocol, bins: seq<seq<nat>>, maskMap: MaskMap, x: nat, l: nat)
    requires CollectOk(p, bins) && AllCovered(p, maskMap, [], ItemsBefore(bins, |bins|)) && IsEntry(p, x, l)
    ensures EntryKey(p, x, l) in maskMap
  {
    hide EntryKey, ItemsBefore, ProtocolOk;
    assert HasPart(bins, x);
    var b, i :| 0 <= b < |bins| && 0 <= i < |bins[b]| && bins[b][i] == x;
    ItemsBeforeHas(bins, |bins|, b, i);
    assert Covered(p, maskMap, [], x);
  }

  /** All items covered and nothing waiting: the map holds exactly the receiver's entries. */
  lemma MapComplete(p: Protocol, bins: seq<seq<nat>>, maskMap: MaskMap)
    requires CollectOk(p, bins) && MapSound(p, maskMap) && AllCovered(p, maskMap, [], ItemsBefore(bins, |bins|))
    ensures TableOk(p, maskMap, {})
  {
    SizesOf(p, bins);
    hide EntryKey, ItemsBefore, ProtocolOk, AllCovered, IsEntry, CollectOk, FromEntry;
    forall x: nat, l: nat | IsEntry(p, x, l) ensures EntryKey(p, x, l) in maskMap {
      ItemInMap(p, bins, maskMap, x, l);
    }
    forall key | key in maskMap ensures FromEntry(p, key, maskMap[key]) {
      assert IsFiled(p, Filed(key, maskMap[key].0, maskMap[key].1));
    }
  }

  lemma BinItem(p: Protocol, bins: seq<seq<nat>>, b: nat, i: nat)
    requires CollectOk(p, bins) && b < |bins| && i < |bins[b]|
    ensures bins[b][i] < |p.r.bin| && p.r.bin[bins[b][i]] == b < |p.loadS|
  {}

  lemma NothingFiled(p: Protocol, bins: seq<seq<nat>>)
    requires CollectOk(p, bins)
    ensures MapSound(p, map[]) && BufferSound(p, []) && AllCovered(p, map[], [], {})
  {}

  /** The state of the pass: the buffer's used part is a whole number of items, with room for one more. */
  ghost predicate Passing(p: Protocol, maskMap: MaskMap, insertBuffer: seq<Filed>, insertIter: nat, items: nat,
                          xs: set<nat>) {
    && ProtocolOk(p) && insertIter <= |insertBuffer|
    && items < 4096 && insertIter == items * p.maxBinSize && |insertBuffer| == 4096 * p.maxBinSize
    && MapSound(p, maskMap) && BufferSound(p, insertBuffer[..insertIter])
    && AllCovered(p, maskMap, insertBuffer[..insertIter], xs)
  }

  lemma ItemFits(p: Protocol, maskMap: MaskMap, insertBuffer: seq<Filed>, insertIter: nat, items: nat, xs: set<nat>)
    requires Passing(p, maskMap, insertBuffer, insertIter, items, xs)
    ensures ProtocolOk(p) && insertIter + p.maxBinSize <= |insertBuffer|
    ensures MapSound(p, maskMap) && BufferSound(p, insertBuffer[..insertIter])
            && AllCovered(p, maskMap, insertBuffer[..insertIter], xs)
  {
    hide ProtocolOk, MapSound, BufferSound, AllCovered;
    assert 4096 * p.maxBinSize == items * p.maxBinSize + (4096 - items) * p.maxBinSize;
    assert (4096 - items) * p.maxBinSize == p.maxBinSize + (4095 - items) * p.maxBinSize;
  }

  /** One item of the pass, with the flush when the buffer has filled up. */
  method CollectItem(p: Protocol, ghost bins: seq<seq<nat>>, maskMap: MaskMap, x: nat, otIdx: nat,
                     insertBuffer: array<Filed>, insertIter: nat, ghost items: nat, ghost xs: set<nat>)
    returns (maskMap': MaskMap, insertIter': nat, ghost items': nat)
    requires CollectOk(p, bins) && x < |p.r.bin| && p.r.bin[x] < |p.loadS| && otIdx == Start(p.loadS, p.r.bin[x])
    requires Passing(p, maskMap, insertBuffer[..], insertIter, items, xs)
    modifies insertBuffer
    ensures Passing(p, maskMap', insertBuffer[..], insertIter', items', xs + {x})
  {
    hide ProtocolOk, MapSound, BufferSound, AllCovered, CollectOk, Start;
    ItemFits(p, maskMap, insertBuffer[..], insertIter, items, xs);
    assert insertBuffer[..][..insertIter] == insertBuffer[..insertIter];
    FileItem(p, bins, maskMap, xs, x, otIdx, insertBuffer, insertIter);
    maskMap', insertIter', items' := maskMap, insertIter + p.maxBinSize, items + 1;
    assert items' * p.maxBinSize == items * p.maxBinSize + p.maxBinSize;
    SizesOf(p, bins);
    if insertIter' == insertBuffer.Length {
      maskMap' := Flush(p, maskMap, insertBuffer, insertIter');
      FlushCovers(p, maskMap, maskMap', insertBuffer[..insertIter'], xs + {x});
      insertIter', items' := 0, 0;
      NoBuffer(p, insertBuffer[..]);
      assert insertBuffer[..][..0] == [];
    } else {
      BufferNotFull(items', p.maxBinSize);
      assert insertBuffer[..][..insertIter'] == insertBuffer[..insertIter'];
    }
  }

  lemma NoBuffer(p: Protocol, buffer: seq<Filed>)
    requires ProtocolOk(p)
    ensures BufferSound(p, [])
  {}

  lemma BufferNotFull(items: nat, m: nat)
    requires items <= 4096 && items * m != 4096 * m
    ensures items < 4096
  {}

  /**
    The receiver's second pass. Every mask goes through the insert buffer, which is never overrun, and
    the map ends with exactly the receiver's entries, each filed under the first bytes of its mask.
   */
  method CollectMasks(p: Protocol, bins: seq<seq<nat>>) returns (maskMap: MaskMap)
    requires CollectOk(p, bins)
    ensures TableOk(p, maskMap, {})
  {
    hide *;
    SizesOf(p, bins);
    var insertBuffer := new Filed[4096 * p.maxBinSize](_ => Filed([], 0, seq(128, _ => false)));
    var insertIter := 0;
    maskMap := map[];
    ghost var items := 0;
    var otIdx := 0;
    PassStarts(p, bins, insertBuffer[..]);
    for b := 0 to |bins|
      invariant otIdx == Start(p.loadS, b)
      invariant Passing(p, maskMap, insertBuffer[..], insertIter, items, ItemsBefore(bins, b))
    {
      maskMap, insertIter, items := CollectBin(p, bins, b, maskMap, otIdx, insertBuffer, insertIter, items);
      NextStart(p, bins, b);
      otIdx := otIdx + p.maxBinSize;
    }
    ItemFits(p, maskMap, insertBuffer[..], insertIter, items, ItemsBefore(bins, |bins|));
    maskMap := LastFlush(p, bins, maskMap, insertBuffer, insertIter, items);
  }

  lemma PassStarts(p: Protocol, bins: seq<seq<nat>>, buffer: seq<Filed>)
    requires CollectOk(p, bins) && |buffer| == 4096 * p.maxBinSize
    ensures Start(p.loadS, 0) == 0 && Passing(p, map[], buffer, 0, 0, ItemsBefore(bins, 0))
  {
    NothingFiled(p, bins);
    hide ProtocolOk, MapSound, BufferSound, AllCovered;
    SizesOf(p, bins);
    assert buffer[..0] == [];
  }

  lemma NextStart(p: Protocol, bins: seq<seq<nat>>, b: nat)
    requires CollectOk(p, bins) && b < |bins|
    ensures |bins| == |p.loadS| && Start(p.loadS, b + 1) == Start(p.loadS, b) + p.maxBinSize
  {}

  method CollectBin(p: Protocol, bins: seq<seq<nat>>, b: nat, maskMap: MaskMap, otIdx: nat,
                    insertBuffer: array<Filed>, insertIter: nat, ghost items: nat)
    returns (maskMap': MaskMap, insertIter': nat, ghost items': nat)
    requires CollectOk(p, bins) && b < |bins| == |p.loadS| && otIdx == Start(p.loadS, b)
    requires Passing(p, maskMap, insertBuffer[..], insertIter, items, ItemsBefore(bins, b))
    modifies insertBuffer
    ensures Passing(p, maskMap', insertBuffer[..], insertIter', items', ItemsBefore(bins, b + 1))
  {
    hide ProtocolOk, CollectOk, Start, Passing, ItemsBefore, Elements;
    maskMap', insertIter', items' := maskMap, insertIter, items;
    ghost var xs := ItemsBefore(bins, b);
    ElementsNone();
    assert xs + {} == xs;
    for i := 0 to |bins[b]|
      invariant Passing(p, maskMap', insertBuffer[..], insertIter', items', xs + Elements(bins[b][..i]))
    {
      BinItem(p, bins, b, i);
      maskMap', insertIter', items' := CollectItem(p, bins, maskMap', bins[b][i], otIdx, insertBuffer, insertIter',
          items', xs + Elements(bins[b][..i]));
      ElementsMore(bins[b], i);
      assert xs + Elements(bins[b][..i]) + {bins[b][i]} == xs + Elements(bins[b][..i + 1]);
    }
    assert bins[b][..|bins[b]|] == bins[b];
    ItemsBeforeNext(bins, b);
  }

  lemma ElementsNone()
    ensures Elements([]) == {}
  {}

  lemma ElementsMore(s: seq<nat>, i: nat)
    requires i < |s|
    ensures Elements(s[..i + 1]) == Elements(s[..i]) + {s[i]}
  {
    assert s[..i + 1][..i] == s[..i];
  }

  lemma ItemsBeforeNext(bins: seq<seq<nat>>, b: nat)
    requires b < |bins|
    ensures ItemsBefore(bins, b + 1) == ItemsBefore(bins, b) + Elements(bins[b])
  {}

  /** What is still waiting at the end. */
  method LastFlush(ghost p: Protocol, ghost bins: seq<seq<nat>>, maskMap: MaskMap, insertBuffer: array<Filed>,
                   insertIter: nat, ghost items: nat)
    returns (after: MaskMap)
    requires CollectOk(p, bins) && insertIter <= insertBuffer.Length
    requires Passing(p, maskMap, insertBuffer[..], insertIter, items, ItemsBefore(bins, |bins|))
    ensures TableOk(p, after, {})
  {
    hide *;
    ItemFits(p, maskMap, insertBuffer[..], insertIter, items, ItemsBefore(bins, |bins|));
    assert insertBuffer[..][..insertIter] == insertBuffer[..insertIter];
    after := Flush(p, maskMap, insertBuffer, insertIter);
    FlushCovers(p, maskMap, after, insertBuffer[..insertIter], ItemsBefore(bins, |bins|));
    MapComplete(p, bins, after);
  }

  // ----- the sender's rows -----

  /** `out` numbers the sender's items by bin, and within it by position: bin b's begin where `base[b]` says. */
  ghost predicate Numbering(bins: seq<seq<nat>>, base: seq<nat>, out: seq<nat>) {
    && |base| == |bins| && IsPermutation(out) && SplitsBelow(bins, |out|)
    && forall b, i | 0 <= b < |bins| && 0 <= i < |bins[b]| :: out[bins[b][i]] == base[b] + i
  }

  ghost predicate SendOk(p: Protocol, bins: seq<seq<nat>>, base: seq<nat>, out: seq<nat>, maskPerm: seq<nat>) {
    && ProtocolOk(p) && |bins| == |p.loadR| && BinsMatch(p.s.bin, bins) && Numbering(bins, base, out)
    && IsPermutation(maskPerm) && |maskPerm| == |out| == |p.s.bin|
    && forall b | 0 <= b < |bins| :: p.loadR[b] == p.maxBinSize
  }

  /** The row for the slot `otIdx` and item y. */
  function RowAt(p: Protocol, y: nat, otIdx: nat): seq<bool>
    requires p.maskSize <= 16 && y < |p.s.code| == |p.s.mask|
  {
    Trunc(Xor(p.fS(otIdx, p.s.code[y]), p.s.mask[y]), p.maskSize)
  }

  lemma SendSizes(p: Protocol, bins: seq<seq<nat>>, base: seq<nat>, out: seq<nat>, maskPerm: seq<nat>)
    requires SendOk(p, bins, base, out, maskPerm)
    ensures ProtocolOk(p) && p.maskSize <= 16 && |p.s.bin| == |p.s.code| == |p.s.mask| == |out| == |maskPerm|
            && |bins| == |p.loadR|
    ensures forall y | 0 <= y < |out| :: out[y] < |maskPerm| && maskPerm[out[y]] < |out| && p.s.bin[y] < |p.loadR|
  {}

  /** Row l of item y is in place. */
  ghost predicate RowWritten(p: Protocol, out: seq<nat>, maskPerm: seq<nat>, rows: seq<seq<bool>>, y: nat, l: nat) {
    && p.maskSize <= 16 && y < |p.s.bin| == |p.s.code| == |p.s.mask| == |out| && p.s.bin[y] < |p.loadR|
    && out[y] < |maskPerm|
    && Binning.Row(maskPerm, out, p.maxBinSize, y, l) < |rows|
    && rows[Binning.Row(maskPerm, out, p.maxBinSize, y, l)] == RowAt(p, y, Start(p.loadR, p.s.bin[y]) + l)
  }

  /** The rows of all items of a set are in place. */
  ghost predicate AllWritten(p: Protocol, out: seq<nat>, maskPerm: seq<nat>, rows: seq<seq<bool>>, ys: set<nat>) {
    forall y: nat, l: nat | y in ys && l < p.maxBinSize :: RowWritten(p, out, maskPerm, rows, y, l)
  }

  /** Writing another item's row leaves a row alone. */
  lemma KeepsRow(p: Protocol, bins: seq<seq<nat>>, base: seq<nat>, out: seq<nat>, maskPerm: seq<nat>,
                 rows: seq<seq<bool>>,
                 y: nat, l: nat, y': nat, l': nat, row: seq<bool>)
    requires SendOk(p, bins, base, out, maskPerm) && y < |out| && l < p.maxBinSize && l' < p.maxBinSize
             && (y != y' || l != l')
    requires RowWritten(p, out, maskPerm, rows, y', l') && Binning.Row(maskPerm, out, p.maxBinSize, y, l) < |rows|
    ensures RowWritten(p, out, maskPerm, rows[Binning.Row(maskPerm, out, p.maxBinSize, y, l) := row], y', l')
  {
    hide RowAt, ProtocolOk, BinsMatch, Numbering;
    SendSizes(p, bins, base, out, maskPerm);
    assert IsPermutation(out) by { Numbers(bins, base, out); }
    if Binning.Row(maskPerm, out, p.maxBinSize, y, l) == Binning.Row(maskPerm, out, p.maxBinSize, y', l') {
      SameMultiple(maskPerm[out[y]], maskPerm[out[y']], p.maxBinSize, l, l');
    }
  }

  lemma Numbers(bins: seq<seq<nat>>, base: seq<nat>, out: seq<nat>)
    requires Numbering(bins, base, out)
    ensures IsPermutation(out)
  {}

  /** Writes the rows of item y: one for every slot of the other side's range from `otIdx` on. */
  method WriteItem(p: Protocol, ghost bins: seq<seq<nat>>, ghost base: seq<nat>, ghost out: seq<nat>,
                   maskPerm: seq<nat>,
                   y: nat, position: nat, otIdx: nat, rows: array<seq<bool>>, ghost ys: set<nat>)
    requires SendOk(p, bins, base, out, maskPerm) && y < |p.s.bin| && y < |out| && y !in ys
    requires position == out[y] && p.s.bin[y] < |p.loadR| && otIdx == Start(p.loadR, p.s.bin[y])
    requires rows.Length == |out| * p.maxBinSize && AllWritten(p, out, maskPerm, rows[..], ys)
    modifies rows
    ensures AllWritten(p, out, maskPerm, rows[..], ys + {y})
  {
    hide *;
    SendSizes(p, bins, base, out, maskPerm);
    var baseMaskIdx := maskPerm[position] * p.maxBinSize;
    var innerOtIdx := otIdx;
    for l := 0 to p.maxBinSize
      invariant innerOtIdx == otIdx + l
      invariant AllWritten(p, out, maskPerm, rows[..], ys)
      invariant forall m: nat | m < l :: RowWritten(p, out, maskPerm, rows[..], y, m)
    {
      ghost var was := rows[..];
      RowPlace(p, out, maskPerm, y, l, rows.Length);
      rows[baseMaskIdx + l] := RowAt(p, y, innerOtIdx);
      assert rows[..] == was[Binning.Row(maskPerm, out, p.maxBinSize, y, l) := RowAt(p, y, innerOtIdx)];
      OneMoreRow(p, bins, base, out, maskPerm, was, y, l, innerOtIdx, ys);
      innerOtIdx := innerOtIdx + 1;
    }
    AllOfItem(p, out, maskPerm, rows[..], y, ys);
  }

  lemma RowPlace(p: Protocol, out: seq<nat>, maskPerm: seq<nat>, y: nat, l: nat, n: nat)
    requires y < |out| && out[y] < |maskPerm| && maskPerm[out[y]] < |out| && l < p.maxBinSize
             && n == |out| * p.maxBinSize
    ensures Binning.Row(maskPerm, out, p.maxBinSize, y, l) == maskPerm[out[y]] * p.maxBinSize + l < n
  {
    MultiplesApart(maskPerm[out[y]], |out|, p.maxBinSize);
  }

  lemma OneMoreRow(p: Protocol, bins: seq<seq<nat>>, base: seq<nat>, out: seq<nat>, maskPerm: seq<nat>,
                   rows: seq<seq<bool>>,
                   y: nat, l: nat, otIdx: nat, ys: set<nat>)
    requires SendOk(p, bins, base, out, maskPerm) && y < |out| && y !in ys && l < p.maxBinSize
             && |rows| == |out| * p.maxBinSize
    requires y < |p.s.bin| && p.s.bin[y] < |p.loadR| && otIdx == Start(p.loadR, p.s.bin[y]) + l
    requires AllWritten(p, out, maskPerm, rows, ys) && forall m: nat | m < l :: RowWritten(p, out, maskPerm, rows, y, m)
    ensures p.maskSize <= 16 && y < |p.s.code| == |p.s.mask| && out[y] < |maskPerm|
            && Binning.Row(maskPerm, out, p.maxBinSize, y, l) < |rows|
    ensures var rows' := rows[Binning.Row(maskPerm, out, p.maxBinSize, y, l) := RowAt(p, y, otIdx)];
            AllWritten(p, out, maskPerm, rows', ys) && forall m: nat | m < l + 1 ::
                RowWritten(p, out, maskPerm, rows', y, m)
  {
    hide RowWritten, RowAt, ProtocolOk, BinsMatch, Numbering, SendOk, Start, Binning.Row;
    SendSizes(p, bins, base, out, maskPerm);
    RowPlace(p, out, maskPerm, y, l, |rows|);
    var row := RowAt(p, y, otIdx);
    var rows' := rows[Binning.Row(maskPerm, out, p.maxBinSize, y, l) := row];
    forall y': nat, l': nat | (y' in ys && l' < p.maxBinSize) || (y' == y && l' < l)
      ensures RowWritten(p, out, maskPerm, rows', y', l')
    {
      KeepsRow(p, bins, base, out, maskPerm, rows, y, l, y', l', row);
    }
    ThisRow(p, out, maskPerm, rows, y, l, otIdx);
  }

  lemma ThisRow(p: Protocol, out: seq<nat>, maskPerm: seq<nat>, rows: seq<seq<bool>>, y: nat, l: nat, otIdx: nat)
    requires p.maskSize <= 16 && y < |p.s.bin| == |p.s.code| == |p.s.mask| == |out| && p.s.bin[y] < |p.loadR|
             && out[y] < |maskPerm|
    requires otIdx == Start(p.loadR, p.s.bin[y]) + l && Binning.Row(maskPerm, out, p.maxBinSize, y, l) < |rows|
    ensures RowWritten(p, out, maskPerm, rows[Binning.Row(maskPerm, out, p.maxBinSize, y, l) := RowAt(p, y, otIdx)], y,
            l)
  {
    hide RowAt, Start, Binning.Row;
  }

  lemma AllOfItem(p: Protocol, out: seq<nat>, maskPerm: seq<nat>, rows: seq<seq<bool>>, y: nat, ys: set<nat>)
    requires AllWritten(p, out, maskPerm, rows, ys) && forall m: nat | m < p.maxBinSize ::
             RowWritten(p, out, maskPerm, rows, y, m)
    ensures AllWritten(p, out, maskPerm, rows, ys + {y})
  {
    hide RowWritten;
  }

  lemma SendItem(p: Protocol, bins: seq<seq<nat>>, base: seq<nat>, out: seq<nat>, maskPerm: seq<nat>, b: nat, i: nat)
    requires SendOk(p, bins, base, out, maskPerm) && b < |bins| && i < |bins[b]|
    ensures |base| == |bins| && bins[b][i] < |p.s.bin| == |out| && p.s.bin[bins[b][i]] == b < |p.loadR|
            && out[bins[b][i]] == base[b] + i
    ensures bins[b][i] !in ItemsBefore(bins, b) + Elements(bins[b][..i])
  {
    hide ProtocolOk, Elements, ItemsBefore;
    var y := bins[b][i];
    if y in Elements(bins[b][..i]) {
      assert false;
    }
    if y in ItemsBefore(bins, b) {
      ItemsBeforeIs(bins, b, y);
    }
  }

  lemma {:induction false} ItemsBeforeIs(bins: seq<seq<nat>>, b: nat, x: nat)
    requires b <= |bins| && x in ItemsBefore(bins, b)
    ensures exists c, i :: 0 <= c < b && 0 <= i < |bins[c]| && bins[c][i] == x
  {
    if x in Elements(bins[b - 1]) {
      var i :| 0 <= i < |bins[b - 1]| && bins[b - 1][i] == x;
    } else {
      ItemsBeforeIs(bins, b - 1, x);
    }
  }

  /** The sender's second pass. `base[b]` is where the reservation of bin b's output positions begins. */
  method WriteRows(p: Protocol, bins: seq<seq<nat>>, base: seq<nat>, ghost out: seq<nat>, maskPerm: seq<nat>,
                   maskView: array<seq<bool>>)
    requires SendOk(p, bins, base, out, maskPerm) && maskView.Length == |out| * p.maxBinSize
    modifies maskView
    ensures AllWritten(p, out, maskPerm, maskView[..], ItemsBefore(bins, |bins|))
  {
    SendSizes(p, bins, base, out, maskPerm);
    assert AllWritten(p, out, maskPerm, maskView[..], ItemsBefore(bins, 0));
    hide SendOk, AllWritten, ItemsBefore, Elements, Start, ProtocolOk;
    var otIdx := 0;
    StartZero(p.loadR);
    for b := 0 to |bins|
      invariant otIdx == Start(p.loadR, b)
      invariant AllWritten(p, out, maskPerm, maskView[..], ItemsBefore(bins, b))
    {
      WriteBin(p, bins, base, out, maskPerm, maskView, otIdx, b);
      NextSendStart(p, bins, base, out, maskPerm, b);
      otIdx := otIdx + p.maxBinSize;
    }
  }

  lemma StartZero(loads: seq<nat>)
    ensures Start(loads, 0) == 0
  {}

  lemma NextSendStart(p: Protocol, bins: seq<seq<nat>>, base: seq<nat>, out: seq<nat>, maskPerm: seq<nat>, b: nat)
    requires SendOk(p, bins, base, out, maskPerm) && b < |bins|
    ensures |bins| == |p.loadR| == |base| && Start(p.loadR, b + 1) == Start(p.loadR, b) + p.maxBinSize
  {}

  method WriteBin(p: Protocol, bins: seq<seq<nat>>, base: seq<nat>, ghost out: seq<nat>, maskPerm: seq<nat>,
                  maskView: array<seq<bool>>,
                  otIdx: nat, b: nat)
    requires SendOk(p, bins, base, out, maskPerm) && maskView.Length == |out| * p.maxBinSize
    requires b < |bins| == |p.loadR| && otIdx == Start(p.loadR, b)
    requires AllWritten(p, out, maskPerm, maskView[..], ItemsBefore(bins, b))
    modifies maskView
    ensures AllWritten(p, out, maskPerm, maskView[..], ItemsBefore(bins, b + 1))
  {
    hide *;
    ghost var ys := ItemsBefore(bins, b);
    ElementsNone();
    assert bins[b][..0] == [] && ys + {} == ys;
    for i := 0 to |bins[b]|
      invariant AllWritten(p, out, maskPerm, maskView[..], ys + Elements(bins[b][..i]))
    {
      SendItem(p, bins, base, out, maskPerm, b, i);
      WriteItem(p, bins, base, out, maskPerm, bins[b][i], base[b] + i, otIdx, maskView, ys + Elements(bins[b][..i]));
      ElementsMore(bins[b], i);
      assert ys + Elements(bins[b][..i]) + {bins[b][i]} == ys + Elements(bins[b][..i + 1]);
    }
    assert bins[b][..|bins[b]|] == bins[b];
    ItemsBeforeNext(bins, b);
  }

  // ----- all rows sent, none twice -----

  /** The pair whose row is r. */
  ghost function PairOf(maskPerm: seq<nat>, out: seq<nat>, maxSize: nat, r: nat): (pair: (nat, nat))
    requires IsPermutation(maskPerm) && IsPermutation(out) && |maskPerm| == |out| && r < |out| * maxSize
    ensures pair.0 < |out| && pair.1 < maxSize && Binning.Row(maskPerm, out, maxSize, pair.0, pair.1) == r
  {
    Binning.RowsAreABijection(maskPerm, out, maxSize);
    assert Binning.HasRow(maskPerm, out, maxSize, r);
    var y: nat, l: nat :| y < |out| && out[y] < |maskPerm| && l < maxSize
        && Binning.Row(maskPerm, out, maxSize, y, l) == r;
    (y, l)
  }

  /** What the sender has written is every row of every item, once, with nothing else in between. */
  lemma WrittenIsSent(p: Protocol, bins: seq<seq<nat>>, base: seq<nat>, out: seq<nat>, maskPerm: seq<nat>,
                      rows: seq<seq<bool>>)
    returns (which: seq<Option<(nat, nat)>>)
    requires SendOk(p, bins, base, out, maskPerm) && |rows| == |out| * p.maxBinSize
    requires AllWritten(p, out, maskPerm, rows, ItemsBefore(bins, |bins|))
    ensures RowsOk(p, rows, which)
  {
    hide RowAt, PairOf, Binning.Row, AllWritten, BinsMatch, Numbering, ItemsBefore, PartyOk;
    Numbers(bins, base, out);
    SendSizes(p, bins, base, out, maskPerm);
    which := seq(|rows|, r requires 0 <= r < |rows| => Some(PairOf(maskPerm, out, p.maxBinSize, r)));
    forall r | 0 <= r < |rows|
      ensures IsRow(p, which[r].value.0, which[r].value.1)
      ensures rows[r] == Trunc(RowMask(p, which[r].value.0, which[r].value.1), p.maskSize)
    {
      SentRow(p, bins, base, out, maskPerm, rows, which[r].value.0, which[r].value.1);
    }
    forall y: nat, l: nat | IsRow(p, y, l) ensures Some((y, l)) in which {
      RowPlace(p, out, maskPerm, y, l, |rows|);
      var r := Binning.Row(maskPerm, out, p.maxBinSize, y, l);
      Binning.RowsAreABijection(maskPerm, out, p.maxBinSize);
      assert which[r] == Some((y, l));
    }
  }

  lemma SentRow(p: Protocol, bins: seq<seq<nat>>, base: seq<nat>, out: seq<nat>, maskPerm: seq<nat>,
                rows: seq<seq<bool>>, y: nat, l: nat)
    requires SendOk(p, bins, base, out, maskPerm) && y < |out| && l < p.maxBinSize
    requires AllWritten(p, out, maskPerm, rows, ItemsBefore(bins, |bins|))
    ensures out[y] < |maskPerm| && IsRow(p, y, l) && Binning.Row(maskPerm, out, p.maxBinSize, y, l) < |rows|
    ensures rows[Binning.Row(maskPerm, out, p.maxBinSize, y, l)] == Trunc(RowMask(p, y, l), p.maskSize)
  {
    hide Binning.Row, ItemsBefore, Start, Xor, Trunc, PartyOk;
    SendSizes(p, bins, base, out, maskPerm);
    assert HasPart(bins, y);
    var b, i :| 0 <= b < |bins| && 0 <= i < |bins[b]| && bins[b][i] == y;
    ItemsBeforeHas(bins, |bins|, b, i);
    assert RowWritten(p, out, maskPerm, rows, y, l);
  }

  // ----- looking the rows up -----

  method FindMatches(maskMap: MaskMap, rows: seq<seq<bool>>, maskSize: nat,
                     maxBinSize: nat) returns (localIntersection: seq<nat>)
    requires maskSize <= 16 && maxBinSize > 0
    ensures localIntersection == Hits(maskMap, rows, maskSize, maxBinSize)
  {
    hide Hit;
    localIntersection := [];
    for i := 0 to |rows|
      invariant localIntersection == Hits(maskMap, rows[..i], maskSize, maxBinSize)
    {
      assert rows[..i + 1][..i] == rows[..i];
      var hit := Hit(maskMap, rows[i], maskSize, maxBinSize);
      if hit.Some? {
        localIntersection := localIntersection + [hit.value];
      }
    }
    assert rows[..|rows|] == rows;
  }

  /** The second passes: what the receiver files, what the sender writes and what the lookup reports fit together. */
  method Intersect(p: Protocol, binsR: seq<seq<nat>>, binsS: seq<seq<nat>>, base: seq<nat>, ghost out: seq<nat>,
                   maskPerm: seq<nat>, numMasks: nat)
    returns (mIntersection: seq<nat>)
    requires CollectOk(p, binsR) && SendOk(p, binsS, base, out, maskPerm) && numMasks == |out| * p.maxBinSize
    ensures ProtocolOk(p) && Reports(p, mIntersection, {}) && ReportsInBits(p, mIntersection, true)
  {
    hide *;
    SizesOf(p, binsR);
    var maskMap := CollectMasks(p, binsR);
    var maskView := new seq<bool>[numMasks](_ => []);
    WriteRows(p, binsS, base, out, maskPerm, maskView);
    ghost var which := WrittenIsSent(p, binsS, base, out, maskPerm, maskView[..]);
    mIntersection := FindMatches(maskMap, maskView[..], p.maskSize, p.maxBinSize);
    HitsReport(p, maskMap, {}, maskView[..], which);
    ReportInBits(p, mIntersection, true);
  }

  /** The map of this protocol holds every key, so what can be matched is what is common. */
  lemma MatchedIsCommon(p: Protocol, x: nat)
    requires ProtocolOk(p)
    ensures Matched(p, x, {}) <==> exists y: nat :: Same(p, x, y)
  {
    hide Matches, Same, ProtocolOk;
    if y: nat :| Matches(p, x, y, {}) {
      AllMatch(p, x, y);
    }
    if y: nat :| Same(p, x, y) {
      AllMatch(p, x, y);
    }
  }

  /** What the first passes leave behind is what the masks rely on. */
  lemma PartyFromSlots(q: Party, peer: (nat, nat) -> Block, choices: map<nat, Choice>, bins: seq<seq<nat>>,
                       loads: seq<nat>, slots: seq<seq<nat>>)
    requires |q.bin| == |q.code| == |q.slot| == |q.mask| && BinsMatch(q.bin, bins)
    requires Encoded(peer, choices, q.mask, bins, q.code, loads, slots, |bins|)
    requires forall b | 0 <= b < |bins| :: |bins[b]| <= loads[b]
    requires forall b, i | 0 <= b < |bins| && 0 <= i < |bins[b]| :: i < |slots[b]| && q.slot[bins[b][i]] == slots[b][i]
    ensures PartyOk(q, peer, loads)
  {
    hide Start, Filled, BinDone;
    forall x | 0 <= x < |q.bin|
      ensures q.bin[x] < |loads| && q.slot[x] < loads[q.bin[x]]
              && q.mask[x] == peer(Start(loads, q.bin[x]) + q.slot[x], q.code[x])
    {
      assert HasPart(bins, x);
      var b, i :| 0 <= b < |bins| && 0 <= i < |bins[b]| && bins[b][i] == x;
      ItemDone(peer, choices, q.mask, bins[b], q.code, Start(loads, b), slots[b], i);
    }
  }

  lemma ItemDone(peer: (nat, nat) -> Block, choices: map<nat, Choice>, masks: seq<Block>, bin: seq<nat>,
                 codes: seq<nat>,
                 start: nat, slots: seq<nat>, i: nat)
    requires BinDone(peer, choices, masks, bin, codes, start, slots) && i < |bin| && i < |slots|
    ensures |masks| == |codes| && bin[i] < |codes| && slots[i] < |slots|
    ensures masks[bin[i]] == peer(start + slots[i], codes[bin[i]])
  {
    hide Uses, ChoiceAt;
  }

  /** The place of item x's slot in its bin's range. */
  ghost function SlotOf(bins: seq<seq<nat>>, slots: seq<seq<nat>>, x: nat): nat
    requires |bins| == |slots|
  {
    if b, i :| 0 <= b < |bins| && 0 <= i < |bins[b]| && i < |slots[b]| && bins[b][i] == x then slots[b][i] else 0
  }

  ghost function SlotsOf(n: nat, bins: seq<seq<nat>>, slots: seq<seq<nat>>): (r: seq<nat>)
    requires |bins| == |slots|
    ensures |r| == n && forall x | 0 <= x < n :: r[x] == SlotOf(bins, slots, x)
  {
    seq<nat>(n, x requires 0 <= x < n && |bins| == |slots| => SlotOf(bins, slots, x))
  }

  lemma SlotOfItem(n: nat, bins: seq<seq<nat>>, slots: seq<seq<nat>>, b: nat, i: nat)
    requires SplitsBelow(bins, n) && |bins| == |slots| && b < |bins| && i < |bins[b]| && i < |slots[b]|
    ensures bins[b][i] < n && SlotOf(bins, slots, bins[b][i]) == slots[b][i]
  {}

  /** A side's first pass gives it, for every item, the mask of a slot within its bin's range. */
  lemma FirstPassDone(bin: seq<nat>, code: seq<nat>, masks: seq<Block>, peer: (nat, nat) -> Block,
                      choices: map<nat, Choice>,
                      bins: seq<seq<nat>>, loads: seq<nat>, slots: seq<seq<nat>>)
    requires |bin| == |code| == |masks| && BinsMatch(bin, bins) && |slots| == |bins| == |loads|
    requires Encoded(peer, choices, masks, bins, code, loads, slots, |bins|)
    requires forall b | 0 <= b < |bins| :: |bins[b]| <= loads[b]
    ensures PartyOk(Party(bin, code, SlotsOf(|bin|, bins, slots), masks), peer, loads)
  {
    hide BinDone, Filled, PartyOk, SlotOf, SlotsOf, Start;
    var q := Party(bin, code, SlotsOf(|bin|, bins, slots), masks);
    forall b, i | 0 <= b < |bins| && 0 <= i < |bins[b]| ensures i < |slots[b]| && q.slot[bins[b][i]] == slots[b][i] {
      SlotOfItem(|bin|, bins, slots, b, i);
    }
    PartyFromSlots(q, peer, choices, bins, loads, slots);
  }

  lemma SplitBinsOk(bins: seq<seq<nat>>, n: nat)
    requires SplitsBelow(bins, n)
    ensures BinsOk(bins, n)
  {
    forall b, c | 0 <= b < c < |bins| ensures Apart(bins[b], bins[c]) {}
  }

  /** One side's items: the bin and the code of each, and the bins' contents. */
  datatype Input = Input(bin: seq<nat>, code: seq<nat>, bins: seq<seq<nat>>)

  ghost predicate InputOk(q: Input, numBins: nat, maxBinSize: nat) {
    && |q.bin| == |q.code| && BinsMatch(q.bin, q.bins) && |q.bins| == numBins
    && forall b | 0 <= b < numBins :: |q.bins[b]| <= maxBinSize
  }

  /** A party whose items hold the masks of the slots they were given. */
  ghost function WithMasks(q: Input, slots: seq<seq<nat>>, peer: (nat, nat) -> Block, loads: seq<nat>): (party: Party)
    requires |q.bin| == |q.code| && |slots| == |q.bins| == |loads| && forall x | 0 <= x < |q.bin| :: q.bin[x] < |loads|
  {
    var slot := SlotsOf(|q.bin|, q.bins, slots);
    Party(q.bin, q.code, slot,
        seq(|q.bin|, x requires 0 <= x < |q.bin| && |slot| == |q.bin| == |q.code| && q.bin[x] < |loads| =>
      peer(Start(loads, q.bin[x]) + slot[x], q.code[x])))
  }

  lemma MasksGiven(q: Input, slots: seq<seq<nat>>, peer: (nat, nat) -> Block, loads: seq<nat>, masks: seq<Block>)
    requires |q.bin| == |q.code| == |masks| && |slots| == |q.bins| == |loads|
    requires PartyOk(Party(q.bin, q.code, SlotsOf(|q.bin|, q.bins, slots), masks), peer, loads)
    ensures forall x | 0 <= x < |q.bin| :: q.bin[x] < |loads|
    ensures Party(q.bin, q.code, SlotsOf(|q.bin|, q.bins, slots), masks) == WithMasks(q, slots, peer, loads)
  {
    hide Start, SlotsOf, SlotOf;
    assert forall x | 0 <= x < |q.bin| :: q.bin[x] < |loads|;
    assert masks == WithMasks(q, slots, peer, loads).mask;
  }

  function InOrder(n: nat): (r: seq<nat>)
    ensures |r| == n && forall i | 0 <= i < n :: r[i] == i
  {
    seq<nat>(n, i requires 0 <= i < n => i)
  }

  /** The places that the receiver's shuffle and the sender's shuffles give to each bin's items. */
  ghost function ReceiverPlaces(draws: seq<seq<nat>>, maxBinSize: nat): (slots: seq<seq<nat>>)
    requires forall b | 0 <= b < |draws| :: |draws[b]| <= maxBinSize
    ensures |slots| == |draws| && forall b | 0 <= b < |draws| ::
            slots[b] == PlacesDrawn(InOrder(maxBinSize), draws, b + 1)
  {
    seq(|draws|, b requires 0 <= b < |draws| && forall b | 0 <= b < |draws| :: |draws[b]| <= maxBinSize =>
      PlacesDrawn(InOrder(maxBinSize), draws, b + 1))
  }

  ghost function SenderPlaces(perms: seq<seq<nat>>): (slots: seq<seq<nat>>)
    requires forall b | 0 <= b < |perms| :: IsPermutation(perms[b])
    ensures |slots| == |perms| && forall b | 0 <= b < |perms| :: slots[b] == PlacesBySlot(perms[b])
  {
    seq(|perms|, b requires 0 <= b < |perms| && IsPermutation(perms[b]) => PlacesBySlot(perms[b]))
  }

  ghost predicate DrawsOk(r: Input, draws: seq<seq<nat>>, maxBinSize: nat) {
    |draws| == |r.bins| && forall b | 0 <= b < |draws| :: |draws[b]| == |r.bins[b]| <= maxBinSize
  }

  ghost predicate ShufflesOk(s: Input, perms: seq<seq<nat>>, maxBinSize: nat) {
    |perms| == |s.bins| && forall b | 0 <= b < |perms| :: IsPermutation(perms[b]) && |perms[b]| == maxBinSize
  }

  /** The receiver's first pass. */
  method ReceiverFirst(r: Input, numBins: nat, maxBinSize: nat, draws: seq<seq<nat>>,
                       fS: (nat, nat) -> Block) returns (masks: seq<Block>)
    requires InputOk(r, numBins, maxBinSize) && DrawsOk(r, draws, maxBinSize)
    ensures |masks| == |r.bin| && forall x | 0 <= x < |r.bin| :: r.bin[x] < numBins
    ensures var q := WithMasks(r, ReceiverPlaces(draws, maxBinSize), fS, Even(numBins, maxBinSize));
            q.mask == masks && PartyOk(q, fS, Even(numBins, maxBinSize))
  {
    hide BinsMatch, Encoded, PartyOk, BinsOk, SplitsBelow, IsPermutation, Even, PlacesDrawn, WithMasks;
    Splits(r.bin, r.bins);
    SplitBinsOk(r.bins, |r.code|);
    var ot := new OtReceiver(numBins * maxBinSize, fS);
    var perm := new nat[maxBinSize](i => i);
    assert perm[..] == InOrder(maxBinSize);
    InOrderPermutes(maxBinSize);
    var recvMasks := new Block[|r.code|](_ => seq(128, _ => false));
    ghost var slots := EncodeAll(ot, perm, r.bins, r.code, recvMasks, draws);
    assert slots == ReceiverPlaces(draws, maxBinSize);
    FirstPassDone(r.bin, r.code, recvMasks[..], fS, ot.choices, r.bins, Even(numBins, maxBinSize), slots);
    MasksGiven(r, slots, fS, Even(numBins, maxBinSize), recvMasks[..]);
    masks := recvMasks[..];
  }

  lemma Splits(bin: seq<nat>, bins: seq<seq<nat>>)
    requires BinsMatch(bin, bins)
    ensures SplitsBelow(bins, |bin|)
  {}

  lemma InOrderPermutes(n: nat)
    ensures IsPermutation(InOrder(n))
  {}

  /** The sender's first pass. */
  method SenderFirst(s: Input, numBins: nat, maxBinSize: nat, perms: seq<seq<nat>>,
                     fR: (nat, nat) -> Block) returns (masks: seq<Block>)
    requires InputOk(s, numBins, maxBinSize) && ShufflesOk(s, perms, maxBinSize)
    ensures |masks| == |s.bin| && forall x | 0 <= x < |s.bin| :: s.bin[x] < numBins
    ensures var q := WithMasks(s, SenderPlaces(perms), fR, Even(numBins, maxBinSize));
            q.mask == masks && PartyOk(q, fR, Even(numBins, maxBinSize))
  {
    hide BinsMatch, Encoded, PartyOk, BinsOk, SplitsBelow, IsPermutation, Even, PlacesBySlot, WithMasks;
    Splits(s.bin, s.bins);
    SplitBinsOk(s.bins, |s.code|);
    EvenStart(numBins, maxBinSize, numBins);
    var ot := new OtReceiver(numBins * maxBinSize, fR);
    var recvMasks := new Block[|s.code|](_ => seq(128, _ => false));
    ghost var slots := EncodeBySlot(ot, perms, s.bins, s.code, recvMasks, Even(numBins, maxBinSize));
    assert slots == SenderPlaces(perms);
    FirstPassDone(s.bin, s.code, recvMasks[..], fR, ot.choices, s.bins, Even(numBins, maxBinSize), slots);
    MasksGiven(s, slots, fR, Even(numBins, maxBinSize), recvMasks[..]);
    masks := recvMasks[..];
  }

  /** The run that the two inputs, the shuffles and the encoders determine. */
  ghost function Session(r: Input, s: Input, numBins: nat, maxBinSize: nat, maskSize: nat, draws: seq<seq<nat>>,
                         perms: seq<seq<nat>>, fR: (nat, nat) -> Block, fS: (nat, nat) -> Block): Protocol
    requires InputOk(r, numBins, maxBinSize) && DrawsOk(r, draws, maxBinSize)
    requires InputOk(s, numBins, maxBinSize) && ShufflesOk(s, perms, maxBinSize)
  {
    BinsInRange(r.bin, r.bins);
    BinsInRange(s.bin, s.bins);
    var loads := Even(numBins, maxBinSize);
    Protocol(WithMasks(r, ReceiverPlaces(draws, maxBinSize), fS, loads), WithMasks(s, SenderPlaces(perms), fR, loads),
             fR, fS, loads, loads, maskSize, maxBinSize)
  }

  lemma BinsInRange(bin: seq<nat>, bins: seq<seq<nat>>)
    requires BinsMatch(bin, bins)
    ensures forall x | 0 <= x < |bin| :: bin[x] < |bins|
  {
    forall x | 0 <= x < |bin| ensures bin[x] < |bins| {
      assert HasPart(bins, x);
    }
  }

  /**
    One channel, end to end, from binned items to the report, for any shuffles and any order in
    which the bins reserved their output rows. The assumptions are about the run's own finitely many masks.
   */
  method Run(r: Input, s: Input, numBins: nat, maxBinSize: nat, maskSize: nat, draws: seq<seq<nat>>,
             perms: seq<seq<nat>>,
             base: seq<nat>, ghost out: seq<nat>, maskPerm: seq<nat>, fR: (nat, nat) -> Block, fS: (nat, nat) -> Block)
    returns (mIntersection: seq<nat>)
    requires InputOk(r, numBins, maxBinSize) && InputOk(s, numBins, maxBinSize) && maxBinSize > 0 && maskSize <= 16
    requires DrawsOk(r, draws, maxBinSize) && ShufflesOk(s, perms, maxBinSize)
    requires Numbering(s.bins, base, out) && IsPermutation(maskPerm) && |maskPerm| == |out| == |s.bin|
    ensures var p := Session(r, s, numBins, maxBinSize, maskSize, draws, perms, fR, fS);
            ProtocolOk(p) && Reports(p, mIntersection, {}) && ReportsInBits(p, mIntersection, true)
  {
    hide BinsMatch, PartyOk, IsPermutation, Reports, ReportsInBits, Numbering;
    var masksR := ReceiverFirst(r, numBins, maxBinSize, draws, fS);
    var masksS := SenderFirst(s, numBins, maxBinSize, perms, fR);
    var loads := Even(numBins, maxBinSize);
    var session := Protocol(Party(r.bin, r.code, SlotsOf(|r.bin|, r.bins, ReceiverPlaces(draws, maxBinSize)), masksR),
                            Party(s.bin, s.code, SlotsOf(|s.bin|, s.bins, SenderPlaces(perms)), masksS),
                            fR, fS, loads, loads, maskSize, maxBinSize);
    mIntersection := Intersect(session, r.bins, s.bins, base, out, maskPerm, |maskPerm| * maxBinSize);
  }

  // ----- from the threads that bin the items -----

  /** The bins as they are after the threads have finished. */
  function BinsOf(p: Binning.Setup, s: Binning.State): (bins: seq<seq<nat>>)
    requires |s.sizes| == p.numBins
    ensures |bins| == p.numBins && forall b | 0 <= b < |bins| :: |bins[b]| == s.sizes[b]
  {
    seq(p.numBins, b requires 0 <= b < p.numBins == |s.sizes| =>
      seq(s.sizes[b], pos requires 0 <= pos < s.sizes[b] => if (b, pos) in s.slots then s.slots[(b, pos)] else 0))
  }

  /** Where each bin's output positions begin. */
  function BaseOf(p: Binning.Setup, s: Binning.State): (base: seq<nat>)
    ensures |base| == p.numBins && forall b: nat | b < |base| && b in s.base :: base[b] == s.base[b]
  {
    seq(p.numBins, b requires 0 <= b < p.numBins => if b in s.base then s.base[b] else 0)
  }

  ghost predicate Binned(p: Binning.Setup, run: seq<Binning.State>, s: Binning.State) {
    && Binning.SetupOk(p) && Binning.IsRun(p, run) && |run| > 0 && s == run[|run| - 1] && Binning.AllFinished(s)
    && |s.sizes| == p.numBins
  }

  lemma BinIs(p: Binning.Setup, run: seq<Binning.State>, s: Binning.State, b: nat)
    requires Binned(p, run, s) && b < p.numBins
    ensures Binning.BinHoldsExactly(p, s, b) && b in s.base && s.sizes[b] <= p.maxSize
    ensures forall x: nat :: x in Binning.ItemsOf(p, b) <==> x < |p.addr| && p.addr[x] == b
  {
    hide Binning.Inv, Binning.IsRun, Binning.BinHoldsExactly;
    Binning.RunKeeps(p, run);
    Binning.EveryBinTaken(p, s, b);
    Binning.FullBin(p, s, b);
    assert s.sizes[b] == |Binning.ItemsOf(p, b)| by { Binning.SizesFinal(p, s, b); }
  }

  /** Every slot of a bin below its size holds an item of the bin, and every item is in one. */
  lemma BinItems(p: Binning.Setup, run: seq<Binning.State>, s: Binning.State)
    requires Binned(p, run, s)
    ensures forall b: nat, i: nat | b < p.numBins && i < s.sizes[b] ::
              var x := BinsOf(p, s)[b][i]; x < |p.addr| && p.addr[x] == b && x in s.at && s.at[x] == i
    ensures forall x: nat | x < |p.addr| ::
              p.addr[x] < p.numBins && x in s.at && s.at[x] < s.sizes[p.addr[x]]
                  && BinsOf(p, s)[p.addr[x]][s.at[x]] == x
  {
    hide Binning.IsRun, Binning.AllFinished;
    forall b: nat, i: nat | b < p.numBins && i < s.sizes[b]
      ensures var x := BinsOf(p, s)[b][i]; x < |p.addr| && p.addr[x] == b && x in s.at && s.at[x] == i
    {
      BinIs(p, run, s, b);
    }
    forall x: nat | x < |p.addr|
      ensures p.addr[x] < p.numBins && x in s.at && s.at[x] < s.sizes[p.addr[x]]
              && BinsOf(p, s)[p.addr[x]][s.at[x]] == x
    {
      BinIs(p, run, s, p.addr[x]);
      assert x in Binning.ItemsOf(p, p.addr[x]);
    }
  }

  /**
    A finished run of the binning threads leaves what the protocol starts from: the bins, and a numbering of the
    items.
   */
  lemma BinnedItems(p: Binning.Setup, run: seq<Binning.State>, s: Binning.State) returns (out: seq<nat>)
    requires Binned(p, run, s)
    ensures BinsMatch(p.addr, BinsOf(p, s)) && forall b | 0 <= b < p.numBins :: |BinsOf(p, s)[b]| <= p.maxSize
    ensures Numbering(BinsOf(p, s), BaseOf(p, s), out) && |out| == |p.addr|
  {
    hide Binning.SetupOk, Binning.IsRun, Binning.AllFinished, Binning.BinHoldsExactly, BinsOf, BaseOf;
    BinItems(p, run, s);
    forall b: nat | b < p.numBins ensures s.sizes[b] <= p.maxSize && b in s.base {
      BinIs(p, run, s, b);
    }
    var bins := BinsOf(p, s);
    forall x: nat | x < |p.addr| ensures HasPart(bins, x) {
      assert bins[p.addr[x]][s.at[x]] == x;
    }
    out := Binning.PositionsPermute(p, run);
    forall b: nat, i: nat | b < |bins| && i < |bins[b]| ensures out[bins[b][i]] == BaseOf(p, s)[b] + i {
      assert out[bins[b][i]] == Binning.Position(p, s, bins[b][i]);
    }
  }

  /** One channel again, this time from the finished runs of both sides' binning threads. */
  method RunBinned(pR: Binning.Setup, sR: Binning.State, ghost runR: seq<Binning.State>, codeR: seq<nat>,
                   pS: Binning.Setup, sS: Binning.State, ghost runS: seq<Binning.State>, codeS: seq<nat>,
                   maskSize: nat, draws: seq<seq<nat>>, perms: seq<seq<nat>>, maskPerm: seq<nat>,
                   fR: (nat, nat) -> Block, fS: (nat, nat) -> Block)
    returns (mIntersection: seq<nat>)
    requires Binned(pR, runR, sR) && Binned(pS, runS, sS) && |codeR| == |pR.addr| && |codeS| == |pS.addr|
    requires pR.numBins == pS.numBins && pR.maxSize == pS.maxSize > 0 && maskSize <= 16
    requires DrawsOk(Input(pR.addr, codeR, BinsOf(pR, sR)), draws, pR.maxSize)
    requires ShufflesOk(Input(pS.addr, codeS, BinsOf(pS, sS)), perms, pS.maxSize)
    requires IsPermutation(maskPerm) && |maskPerm| == |pS.addr|
    ensures var r, s := Input(pR.addr, codeR, BinsOf(pR, sR)), Input(pS.addr, codeS, BinsOf(pS, sS));
            InputOk(r, pR.numBins, pR.maxSize) && InputOk(s, pR.numBins, pR.maxSize)
            && var p := Session(r, s, pR.numBins, pR.maxSize, maskSize, draws, perms, fR, fS);
            ProtocolOk(p) && Reports(p, mIntersection, {}) && ReportsInBits(p, mIntersection, true)
  {
    hide Binned, BinsMatch, IsPermutation, Numbering, Reports, ReportsInBits, ProtocolOk, BinsOf, BaseOf, Session,
      DrawsOk, ShufflesOk;
    assert |sR.sizes| == pR.numBins
        && |sS.sizes| == pS.numBins by { SizesKnown(pR, runR, sR); SizesKnown(pS, runS, sS); }
    ghost var outR := BinnedItems(pR, runR, sR);
    ghost var out := BinnedItems(pS, runS, sS);
    mIntersection := Run(Input(pR.addr, codeR, BinsOf(pR, sR)), Input(pS.addr, codeS, BinsOf(pS, sS)), pR.numBins,
        pR.maxSize, maskSize,
                         draws, perms, BaseOf(pS, sS), out, maskPerm, fR, fS);
  }

  lemma SizesKnown(p: Binning.Setup, run: seq<Binning.State>, s: Binning.State)
    requires Binned(p, run, s)
    ensures |s.sizes| == p.numBins
  {}
}
