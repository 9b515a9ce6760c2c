/**
  The variable-load protocol end to end: any number of threads on either side, in any interleaving, with any loads up to
  the size of a row of the receiver's matrix. The slots of a side's threads are numbered one thread behind the other.
 */
module Grr18 {
  import opened Bits
  import opened Blocks
  import opened Permutations
  import opened Slots
  import opened MaskMatching
  import opened Tasks
  import opened Wrappers
  import Rr17
  import Sender = Grr18Sender
  import Receiver = Grr18Receiver

  // ----- the first passes -----

  ghost predicate Loaded(q: Rr17.Input, loads: seq<nat>, perms: seq<seq<nat>>) {
    && |q.bin| == |q.code| && Rr17.BinsMatch(q.bin, q.bins) && |q.bins| == |loads| == |perms|
    && forall b | 0 <= b < |loads| :: |q.bins[b]| <= loads[b] == |perms[b]| && IsPermutation(perms[b])
  }

  /** The party that a side's items, loads and shuffles determine. */
  ghost function PartyOf(q: Rr17.Input, loads: seq<nat>, perms: seq<seq<nat>>, peer: (nat, nat) -> Block): Party
    requires Loaded(q, loads, perms)
  {
    Rr17.BinsInRange(q.bin, q.bins);
    Rr17.WithMasks(q, Rr17.SenderPlaces(perms), peer, loads)
  }

  /** A side's first pass, the threads' bins one behind the other. */
  method FirstPass(q: Rr17.Input, loads: seq<nat>, perms: seq<seq<nat>>,
                   peer: (nat, nat) -> Block) returns (masks: seq<Block>)
    requires Loaded(q, loads, perms)
    ensures PartyOf(q, loads, perms, peer).mask == masks && PartyOk(PartyOf(q, loads, perms, peer), peer, loads)
  {
    hide Rr17.BinsMatch, Encoded, PartyOk, BinsOk, SplitsBelow, IsPermutation, PlacesBySlot, Rr17.WithMasks, Start;
    Rr17.Splits(q.bin, q.bins);
    Rr17.SplitBinsOk(q.bins, |q.code|);
    var ot := new OtReceiver(Start(loads, |loads|), peer);
    var recvMasks := new Block[|q.code|](_ => seq(128, _ => false));
    ghost var slots := EncodeBySlot(ot, perms, q.bins, q.code, recvMasks, loads);
    assert slots == Rr17.SenderPlaces(perms);
    Rr17.FirstPassDone(q.bin, q.code, recvMasks[..], peer, ot.choices, q.bins, loads, slots);
    Rr17.MasksGiven(q, slots, peer, loads, recvMasks[..]);
    masks := recvMasks[..];
  }

  lemma PartyOfOk(q: Rr17.Input, loads: seq<nat>, perms: seq<seq<nat>>, peer: (nat, nat) -> Block)
    requires Loaded(q, loads, perms)
    ensures PartyOk(PartyOf(q, loads, perms, peer), peer, loads)
  {
    hide PlacesBySlot, IsPermutation, Start, Rr17.SlotOf, SplitsBelow;
    Rr17.BinsInRange(q.bin, q.bins);
    var slots := Rr17.SenderPlaces(perms);
    forall x | 0 <= x < |q.bin| ensures q.bin[x] < |loads| && Rr17.SlotOf(q.bins, slots, x) < loads[q.bin[x]] {
      Rr17.Splits(q.bin, q.bins);
      InOneBin(q.bins, |q.bin|, x);
      var b: nat, i: nat :| b < |q.bins| && i < |q.bins[b]| && q.bins[b][i] == x;
      Rr17.SlotOfItem(|q.bin|, q.bins, slots, b, i);
    }
  }

  lemma InOneBin(bins: seq<seq<nat>>, n: nat, x: nat)
    requires SplitsBelow(bins, n) && x < n
    ensures exists b: nat, i: nat :: b < |bins| && i < |bins[b]| && bins[b][i] == x
  {
    assert HasPart(bins, x);
    var b, i :| 0 <= b < |bins| && 0 <= i < |bins[b]| && bins[b][i] == x;
  }

  // ----- the two sides' second passes -----

  /** A protocol with both sides' bins. */
  ghost predicate BinsOk(p: Protocol, binsR: seq<seq<nat>>, binsS: seq<seq<nat>>) {
    && ProtocolOk(p) && p.maxBinSize > 0
    && Rr17.BinsMatch(p.r.bin, binsR) && Rr17.BinsMatch(p.s.bin, binsS) && |binsR| == |p.loadS| && |binsS| == |p.loadR|
  }

  /** The bytes of the receiver's mask of item x for a slot, and of the sender's mask of item y. */
  function EntryBytes(p: Protocol, x: nat, slot: nat): seq<bool> {
    if p.maskSize <= 16 && x < |p.r.code| && x < |p.r.mask|
        then Trunc(Xor(p.fR(slot, p.r.code[x]), p.r.mask[x]), p.maskSize) else []
  }

  function RowBytes(p: Protocol, y: nat, slot: nat): seq<bool> {
    if p.maskSize <= 16 && y < |p.s.code| && y < |p.s.mask|
        then Trunc(Xor(p.fS(slot, p.s.code[y]), p.s.mask[y]), p.maskSize) else []
  }

  /** The key that marks an unused bucket of the receiver's map. */
  function EmptyKey(p: Protocol): seq<bool> {
    ZeroKey(p.maskSize)
  }

  function ReceiverSetup(p: Protocol, binsR: seq<seq<nat>>, threads: nat, capacity: nat,
                         rows: seq<seq<bool>>): Receiver.Setup
    requires |binsR| == |p.loadS| && threads > 0 && p.maskSize <= 16
  {
    Receiver.Setup(WorkOf(binsR, p.loadS, threads), (x: nat, slot: nat) => EntryBytes(p, x, slot), p.maxBinSize,
                   capacity, EmptyKey(p), rows)
  }

  function Counts(bins: seq<seq<nat>>, loads: seq<nat>, threads: nat): (r: seq<nat>)
    requires |bins| == |loads| && threads > 0
    ensures |r| == threads
  {
    seq(threads, t requires 0 <= t < threads =>
      CutsCover(|bins|, threads, t);
      CountOf(bins, loads, Cut(|bins|, threads, t), Cut(|bins|, threads, t + 1)))
  }

  function SenderSetup(p: Protocol, binsS: seq<seq<nat>>, threads: nat, padding: int, junk: nat -> seq<bool>,
                       maxSend: nat): Sender.Setup
    requires |binsS| == |p.loadR| && threads > 0
  {
    Sender.Setup(WorkOf(binsS, p.loadR, threads), Counts(binsS, p.loadR, threads),
                 (y: nat, slot: nat) => RowBytes(p, y, slot), padding, junk, maxSend)
  }

  // ----- the sender -----

  lemma SenderOk(p: Protocol, binsR: seq<seq<nat>>, binsS: seq<seq<nat>>, threads: nat, padding: int,
                 junk: nat -> seq<bool>, maxSend: nat)
    requires BinsOk(p, binsR, binsS) && threads > 0 && maxSend > 0
    ensures Sender.SetupOk(SenderSetup(p, binsS, threads, padding, junk, maxSend))
    ensures WorkOk(SenderSetup(p, binsS, threads, padding, junk, maxSend).work, p.s.bin, p.loadR)
  {
    hide TasksOf, Cut, CountOf, RowsBefore, ProtocolOk;
    var q := SenderSetup(p, binsS, threads, padding, junk, maxSend);
    forall t: nat | t < threads ensures q.count[t] == RowsBefore(q.work[t], |q.work[t]|) {
      CutsCover(|binsS|, threads, t);
      var lo, hi := Cut(|binsS|, threads, t), Cut(|binsS|, threads, t + 1);
      CountIsRows(binsS, p.loadR, lo, hi, Start(p.loadR, lo));
    }
    WorkIsOk(p.s.bin, binsS, p.loadR, threads);
  }

  /** The threads have the sender's items between them, and write the rows of its masks. */
  ghost predicate SendsFor(p: Protocol, q: Sender.Setup) {
    && ProtocolOk(p) && Sender.SetupOk(q) && WorkOk(q.work, p.s.bin, p.loadR)
    && forall y: nat, slot: nat :: q.row(y, slot) == RowBytes(p, y, slot)
  }

  /** The pair that a row of a task stands for. */
  lemma RowOfTask(p: Protocol, q: Sender.Setup, t: nat, k: nat, l: nat)
    requires SendsFor(p, q) && Sender.EntryNo(q, t, k, l)
    ensures IsRow(p, q.work[t][k].item, l)
    ensures Sender.Bytes(q, t, k, l) == Trunc(RowMask(p, q.work[t][k].item, l), p.maskSize)
  {
    hide Start, Xor, Trunc, Sender.SetupOk;
    assert TaskOk(q.work[t][k], p.s.bin, p.loadR);
  }

  lemma TaskOfRow(p: Protocol, q: Sender.Setup, y: nat, l: nat) returns (t: nat, k: nat)
    requires SendsFor(p, q) && IsRow(p, y, l)
    ensures Sender.EntryNo(q, t, k, l) && q.work[t][k].item == y
  {
    hide Start, ProtocolOk, Sender.SetupOk;
    assert HasTask(q.work, y);
    t, k :| t < |q.work| && k < |q.work[t]| && q.work[t][k].item == y;
    assert TaskOk(q.work[t][k], p.s.bin, p.loadR);
  }

  ghost predicate IsPairAt(q: Sender.Setup, s: Sender.State, r: nat, t: nat, k: nat, l: nat)
    ensures IsPairAt(q, s, r, t, k, l) ==> t < |q.work| && k < |q.work[t]|
  {
    Sender.EntryNo(q, t, k, l) && t < |s.threads| && Sender.Place(q, s, t, k, l) == r
  }

  /** Which pair each row of the finished matrix is. */
  ghost function PairAt(q: Sender.Setup, s: Sender.State, r: nat): Option<(nat, nat)> {
    if t: nat, k: nat, l: nat :| IsPairAt(q, s, r, t, k, l)
    then Some((q.work[t][k].item, l)) else None
  }

  lemma PairIs(q: Sender.Setup, s: Sender.State, r: nat) returns (t: nat, k: nat, l: nat)
    requires PairAt(q, s, r).Some?
    ensures IsPairAt(q, s, r, t, k, l)
    ensures PairAt(q, s, r) == Some((q.work[t][k].item, l))
  {
    hide Sender.Place, Sender.EntryNo;
    assert exists t: nat, k: nat, l: nat ::
        IsPairAt(q, s, r, t, k, l) && PairAt(q, s, r) == Some((q.work[t][k].item, l));
    t, k, l :| IsPairAt(q, s, r, t, k, l) && PairAt(q, s, r) == Some((q.work[t][k].item, l));
  }

  /** What a finished run of the sender's threads has sent, by the pair that each row is. */
  ghost predicate Finished(q: Sender.Setup, run: seq<Sender.State>) {
    |run| > 0 && Sender.SetupOk(q) && Sender.IsRun(q, run) && Sender.AllDone(run[|run| - 1])
  }

  lemma RowIs(p: Protocol, q: Sender.Setup, run: seq<Sender.State>, r: nat)
    requires SendsFor(p, q) && Finished(q, run)
    requires forall i: nat | Sender.Total(q) <= i < Sender.Total(q) + q.padding :: IsFiller(p, q.junk(i))
    ensures var s := run[|run| - 1];
            r < |s.rows| ==>
              var pair := PairAt(q, s, r);
              if pair.Some? then IsRow(p, pair.value.0, pair.value.1)
                  && s.rows[r] == Trunc(RowMask(p, pair.value.0, pair.value.1), p.maskSize)
              else IsFiller(p, s.rows[r])
  {
    hide SendsFor, Sender.SetupOk, Sender.IsRun, Sender.Total, RowMask, IsFiller, PairAt, Trunc;
    var s := run[|run| - 1];
    Sender.AllRowsSent(q, run);
    if r < |s.rows| {
      if PairAt(q, s, r).Some? {
        var t, k, l := PairIs(q, s, r);
        RowOfTask(p, q, t, k, l);
      } else if r < Sender.Total(q) {
        assert Sender.HasPlace(q, s, r);
        var t: nat, k: nat, l: nat :| Sender.EntryNo(q, t, k, l) && t < |s.threads| && Sender.Place(q, s, t, k, l) == r;
        PairThere(q, s, r, t, k, l);
      }
    }
  }

  lemma PairThere(q: Sender.Setup, s: Sender.State, r: nat, t: nat, k: nat, l: nat)
    requires IsPairAt(q, s, r, t, k, l)
    ensures PairAt(q, s, r).Some?
  {}

  /** No two rows are the same pair, and every pair is some row. */
  lemma PairsOnce(p: Protocol, q: Sender.Setup, run: seq<Sender.State>, r: nat, r': nat)
    requires SendsFor(p, q) && Finished(q, run)
    requires var s := run[|run| - 1]; PairAt(q, s, r).Some? && PairAt(q, s, r) == PairAt(q, s, r')
    ensures r == r'
  {
    hide Sender.SetupOk, Sender.IsRun, Sender.Total, PairAt, ProtocolOk;
    var s := run[|run| - 1];
    var t, k, l := PairIs(q, s, r);
    var t', k', l' := PairIs(q, s, r');
  }

  lemma PairSent(p: Protocol, q: Sender.Setup, run: seq<Sender.State>, y: nat, l: nat) returns (r: nat)
    requires SendsFor(p, q) && Finished(q, run) && IsRow(p, y, l)
    ensures r < |run[|run| - 1].rows| && PairAt(q, run[|run| - 1], r) == Some((y, l))
  {
    hide SendsFor, Sender.SetupOk, Sender.IsRun, Sender.Total, PairAt, Sender.InPlace, Sender.Place, Sender.EntryNo;
    var s := run[|run| - 1];
    var t, k := TaskOfRow(p, q, y, l);
    Sender.AllRowsSent(q, run);
    Sender.EntryBound(q);
    r := Sender.Place(q, s, t, k, l);
    PairThere(q, s, r, t, k, l);
    var t', k', l' := PairIs(q, s, r);
  }

  /** What the sender's threads send between them is every pair's row, once, and fillers. */
  lemma SentIsOk(p: Protocol, q: Sender.Setup, run: seq<Sender.State>) returns (which: seq<Option<(nat, nat)>>)
    requires SendsFor(p, q) && Finished(q, run)
    requires forall i: nat | Sender.Total(q) <= i < Sender.Total(q) + q.padding :: IsFiller(p, q.junk(i))
    ensures ProtocolOk(p) && RowsOk(p, Sender.AllSent(run[|run| - 1].threads), which)
  {
    hide SendsFor, Sender.SetupOk, Sender.IsRun, Sender.Total, PairAt, RowMask, IsFiller, Trunc, Finished, IsRow,
      ProtocolOk;
    IsProtocol(p, q);
    SentRows(q, run);
    var s := run[|run| - 1];
    which := seq(|s.rows|, r requires 0 <= r < |s.rows| => PairAt(q, s, r));
    forall r | 0 <= r < |s.rows|
      ensures which[r].Some? ==>
                IsRow(p, which[r].value.0, which[r].value.1)
                && s.rows[r] == Trunc(RowMask(p, which[r].value.0, which[r].value.1), p.maskSize)
      ensures which[r].None? ==> IsFiller(p, s.rows[r])
    {
      RowIs(p, q, run, r);
    }
    forall r, r' | 0 <= r < r' < |s.rows| && which[r].Some? ensures which[r] != which[r'] {
      if which[r] == which[r'] {
        PairsOnce(p, q, run, r, r');
      }
    }
    forall y: nat, l: nat | IsRow(p, y, l) ensures Some((y, l)) in which {
      var r := PairSent(p, q, run, y, l);
      assert which[r] == Some((y, l));
    }
  }

  lemma IsProtocol(p: Protocol, q: Sender.Setup)
    requires SendsFor(p, q)
    ensures ProtocolOk(p) && p.maskSize <= 16
  {}

  lemma SentRows(q: Sender.Setup, run: seq<Sender.State>)
    requires Finished(q, run)
    ensures |run| > 0 && Sender.AllSent(run[|run| - 1].threads) == run[|run| - 1].rows
  {
    hide Sender.SetupOk, Sender.IsRun, Sender.Total, Sender.InPlace, Sender.Place, Sender.EntryNo;
    Sender.AllRowsSent(q, run);
  }

  // ----- the receiver -----

  /** The threads have the receiver's items between them, and compute the bytes of its masks. */
  ghost predicate ReceivesFor(p: Protocol, q: Receiver.Setup) {
    && ProtocolOk(p) && Receiver.SetupOk(q) && WorkOk(q.work, p.r.bin, p.loadS) && q.maxBinSize == p.maxBinSize > 0
    && q.emptyKey == EmptyKey(p) && forall x: nat, slot: nat :: q.mask(x, slot) == EntryBytes(p, x, slot)
  }

  lemma ReceiverOk(p: Protocol, binsR: seq<seq<nat>>, binsS: seq<seq<nat>>, threads: nat, capacity: nat,
                   rows: seq<seq<bool>>)
    requires BinsOk(p, binsR, binsS) && threads > 0 && capacity >= p.maxBinSize
    ensures p.maskSize <= 16 && |binsR| == |p.loadS| && ReceivesFor(p, ReceiverSetup(p, binsR, threads, capacity, rows))
  {
    hide TasksOf, Cut, PartyOk, Start, EmptyKey, EntryBytes;
    var q := ReceiverSetup(p, binsR, threads, capacity, rows);
    WorkIsOk(p.r.bin, binsR, p.loadS, threads);
    forall t: nat, k: nat | t < |q.work| && k < |q.work[t]| ensures q.work[t][k].load <= p.maxBinSize {
      assert TaskOk(q.work[t][k], p.r.bin, p.loadS);
    }
  }

  /** The entry that a task's place stands for. */
  lemma EntryOfTask(p: Protocol, q: Receiver.Setup, t: nat, k: nat, l: nat)
    requires ReceivesFor(p, q) && Receiver.EntryNo(q, t, k, l)
    ensures var x := q.work[t][k].item;
            && IsEntry(p, x, l) && Receiver.IndexOf(q, q.work[t][k], l) == x * p.maxBinSize + l && l < p.maxBinSize
            && Receiver.Bytes(q, q.work[t][k], l) == Trunc(EntryMask(p, x, l), p.maskSize)
            && Receiver.KeyAt(q, t, k, l) == EntryKey(p, x, l)
  {
    hide Start, Xor, Trunc, KeyOf, Receiver.SetupOk, EmptyKey;
    assert TaskOk(q.work[t][k], p.r.bin, p.loadS);
  }

  lemma TaskOfEntry(p: Protocol, q: Receiver.Setup, x: nat, l: nat) returns (t: nat, k: nat)
    requires ReceivesFor(p, q) && IsEntry(p, x, l)
    ensures Receiver.EntryNo(q, t, k, l) && q.work[t][k].item == x
  {
    hide Start, ProtocolOk, Receiver.SetupOk, EmptyKey, EntryBytes;
    assert HasTask(q.work, x);
    t, k :| t < |q.work| && k < |q.work[t]| && q.work[t][k].item == x;
    assert TaskOk(q.work[t][k], p.r.bin, p.loadS);
  }

  /** The whole mask whose bytes are in the matrix at an index. */
  ghost function BlockAt(p: Protocol, index: nat): Block
    requires ProtocolOk(p)
  {
    if x: nat, l: nat :| IsEntry(p, x, l) && index == x * p.maxBinSize + l then EntryMask(p, x, l) else Zero()
  }

  lemma EntryBelow(p: Protocol, x: nat, l: nat)
    requires ProtocolOk(p) && IsEntry(p, x, l)
    ensures l < p.maxBinSize
  {
    hide PartyOk;
  }

  lemma BlockOfEntry(p: Protocol, x: nat, l: nat)
    requires ProtocolOk(p) && IsEntry(p, x, l)
    ensures BlockAt(p, x * p.maxBinSize + l) == EntryMask(p, x, l)
  {
    hide EntryMask, ProtocolOk, IsEntry;
    var index: nat := x * p.maxBinSize + l;
    EntryBelow(p, x, l);
    var x': nat, l': nat :| IsEntry(p, x', l') && index == x' * p.maxBinSize + l'
        && BlockAt(p, index) == EntryMask(p, x', l');
    EntryBelow(p, x', l');
    SameMultiple(x, x', p.maxBinSize, l, l');
  }

  /** The receiver's map with, in place of an index only, the index and the mask there. */
  ghost function Joined(p: Protocol, maskMap: map<seq<bool>, nat>): (table: map<seq<bool>, (nat, Block)>)
    requires ProtocolOk(p)
    ensures forall key :: key in table <==> key in maskMap
    ensures forall key | key in maskMap :: table[key] == (maskMap[key], BlockAt(p, maskMap[key]))
  {
    map key | key in maskMap :: (maskMap[key], BlockAt(p, maskMap[key]))
  }

  /** What is in the map under a key is an entry, and its bytes are in the matrix. */
  lemma FiledEntry(p: Protocol, q: Receiver.Setup, masks: map<nat, seq<bool>>, maskMap: map<seq<bool>, nat>,
                   key: seq<bool>)
    returns (x: nat, l: nat)
    requires ReceivesFor(p, q) && Receiver.MapSound(q, masks, maskMap) && key in maskMap
    ensures key != EmptyKey(p) && ProtocolOk(p) && IsEntry(p, x, l) && l < p.maxBinSize
    ensures EntryKey(p, x, l) == key && maskMap[key] == x * p.maxBinSize + l
            && BlockAt(p, maskMap[key]) == EntryMask(p, x, l)
    ensures maskMap[key] in masks && masks[maskMap[key]] == Trunc(EntryMask(p, x, l), p.maskSize)
  {
    hide EntryMask, EntryKey, Trunc, EmptyKey, Receiver.SetupOk, WorkOk, BlockAt, Receiver.Bytes, Receiver.IndexOf,
      IsEntry, EntryBytes, ProtocolOk;
    var e := Receiver.Entry(key, maskMap[key]);
    assert Receiver.IsEntryOf(q, masks, e);
    var t: nat, k: nat, l0: nat :| Receiver.EntryAt(q, masks, e, t, k, l0);
    x, l := q.work[t][k].item, l0;
    EntryOfTask(p, q, t, k, l);
    BlockOfEntry(p, x, l);
  }

  /** Behind the barrier the map is the table that the matching needs, but for an entry with the empty key. */
  lemma MapIsTable(p: Protocol, q: Receiver.Setup, run: seq<Receiver.State>)
    requires ReceivesFor(p, q) && Receiver.IsRun(q, run) && |run| > 0 && run[|run| - 1].open
    ensures ProtocolOk(p) && TableOk(p, Joined(p, run[|run| - 1].maskMap), {EmptyKey(p)})
  {
    hide EntryMask, EntryKey, EmptyKey, Receiver.SetupOk, WorkOk, BlockAt, Joined, Receiver.IsRun, Receiver.MapSound,
      IsEntry, Receiver.EntryNo,
      Receiver.KeyAt, EntryBytes, ProtocolOk;
    var s := run[|run| - 1];
    Receiver.MapComplete(q, run);
    forall x: nat, l: nat | IsEntry(p, x, l) && EntryKey(p, x, l) !in {EmptyKey(p)}
      ensures EntryKey(p, x, l) in s.maskMap
    {
      var t, k := TaskOfEntry(p, q, x, l);
      EntryOfTask(p, q, t, k, l);
    }
    forall key | key in s.maskMap ensures key !in {EmptyKey(p)} && FromEntry(p, key, Joined(p, s.maskMap)[key]) {
      var x, l := FiledEntry(p, q, s.masks, s.maskMap, key);
    }
  }

  lemma SameHit(p: Protocol, q: Receiver.Setup, masks: map<nat, seq<bool>>, maskMap: map<seq<bool>, nat>,
                row: seq<bool>)
    requires ReceivesFor(p, q) && Receiver.MapSound(q, masks, maskMap)
    ensures ProtocolOk(p) && p.maskSize <= 16 && q.maxBinSize == p.maxBinSize > 0
    ensures Receiver.Lookup(maskMap, masks, row, q.maxBinSize) == Hit(Joined(p, maskMap), row, p.maskSize, p.maxBinSize)
  {
    hide EntryMask, EntryKey, EmptyKey, Receiver.SetupOk, WorkOk, BlockAt, Joined, Receiver.MapSound, IsEntry,
      EntryBytes, Trunc, KeyOf, PartyOk;
    if KeyOf(row) in maskMap {
      var x, l := FiledEntry(p, q, masks, maskMap, KeyOf(row));
    }
  }

  lemma {:induction false} SameHits(p: Protocol, q: Receiver.Setup, masks: map<nat, seq<bool>>,
                                    maskMap: map<seq<bool>, nat>, rows: seq<seq<bool>>)
    requires ReceivesFor(p, q) && Receiver.MapSound(q, masks, maskMap)
    ensures ProtocolOk(p) && p.maskSize <= 16 && q.maxBinSize == p.maxBinSize > 0
    ensures Receiver.Found(maskMap, masks, rows, q.maxBinSize)
            == Hits(Joined(p, maskMap), rows, p.maskSize, p.maxBinSize)
  {
    hide ReceivesFor, Receiver.MapSound, Joined, Receiver.Lookup, Hit, ProtocolOk;
    SameHit(p, q, masks, maskMap, []);
    if rows != [] {
      var n := |rows| - 1;
      SameHits(p, q, masks, maskMap, rows[..n]);
      SameHit(p, q, masks, maskMap, rows[n]);
    }
  }

  // ----- both sides -----

  ghost predicate AllReceived(q: Receiver.Setup, run: seq<Receiver.State>) {
    |run| > 0 && Receiver.SetupOk(q) && Receiver.IsRun(q, run) && Receiver.AllDone(run[|run| - 1])
  }

  /**
    Two finished runs, the receiver's on the rows that the sender's threads have sent: the merged report promises
    what the protocol does. The spare rows are assumed to match no entry.
   */
  lemma BothSides(p: Protocol, qS: Sender.Setup, runS: seq<Sender.State>, qR: Receiver.Setup, runR: seq<Receiver.State>)
    requires SendsFor(p, qS) && Finished(qS, runS)
    requires forall i: nat | Sender.Total(qS) <= i < Sender.Total(qS) + qS.padding :: IsFiller(p, qS.junk(i))
    requires ReceivesFor(p, qR) && AllReceived(qR, runR) && qR.rows == Sender.AllSent(runS[|runS| - 1].threads)
    ensures ProtocolOk(p) && p.maskSize <= 16 && Reports(p, runR[|runR| - 1].report, {EmptyKey(p)})
  {
    hide SendsFor, ReceivesFor, Finished, IsFiller, Sender.Total, Sender.AllSent, Receiver.SetupOk, Receiver.IsRun,
      Receiver.Found, Hits,
      TableOk, RowsOk, Reports, ProtocolOk, EmptyKey, Receiver.MapSound, Receiver.KeyAt, Receiver.EntryNo, Joined;
    IsProtocol(p, qS);
    var s := runR[|runR| - 1];
    var which := SentIsOk(p, qS, runS);
    Receiver.AllFound(qR, runR);
    Receiver.MapComplete(qR, runR);
    MapIsTable(p, qR, runR);
    SameHits(p, qR, s.masks, s.maskMap, qR.rows);
    var table := Joined(p, s.maskMap);
    HitsReport(p, table, {EmptyKey(p)}, qR.rows, which);
    SameReport(p, Hits(table, qR.rows, p.maskSize, p.maxBinSize), s.report, {EmptyKey(p)});
  }

  // ----- from the items to the report -----

  /** What the two sides bring along: items in bins, loads and shuffles, and the encoders of the two directions. */
  datatype Sides = Sides(r: Rr17.Input, s: Rr17.Input, loadR: seq<nat>, loadS: seq<nat>, permsR: seq<seq<nat>>,
                         permsS: seq<seq<nat>>, maskSize: nat, maxBinSize: nat, fR: (nat, nat) -> Block,
                             fS: (nat, nat) -> Block)

  ghost predicate SidesOk(i: Sides) {
    && Loaded(i.r, i.loadR, i.permsR) && Loaded(i.s, i.loadS, i.permsS) && |i.loadR| == |i.loadS|
    && (forall b | 0 <= b < |i.loadS| :: i.loadS[b] <= i.maxBinSize) && i.maxBinSize > 0 && i.maskSize <= 16
  }

  ghost function Session(i: Sides): (p: Protocol)
    requires SidesOk(i)
    ensures BinsOk(p, i.r.bins, i.s.bins) && p.maskSize <= 16 && p.maxBinSize == i.maxBinSize
  {
    SessionOk(i);
    Protocol(PartyOf(i.r, i.loadR, i.permsR, i.fS), PartyOf(i.s, i.loadS, i.permsS, i.fR), i.fR, i.fS, i.loadR, i.loadS,
             i.maskSize, i.maxBinSize)
  }

  lemma SessionOk(i: Sides)
    requires SidesOk(i)
    ensures BinsOk(Protocol(PartyOf(i.r, i.loadR, i.permsR, i.fS), PartyOf(i.s, i.loadS, i.permsS, i.fR), i.fR, i.fS,
            i.loadR,
                            i.loadS, i.maskSize, i.maxBinSize), i.r.bins, i.s.bins)
  {
    hide PartyOk, Rr17.WithMasks, Rr17.BinsMatch, IsPermutation;
    PartyOfOk(i.r, i.loadR, i.permsR, i.fS);
    PartyOfOk(i.s, i.loadS, i.permsS, i.fR);
    PartyBins(i.r, i.loadR, i.permsR, i.fS);
    PartyBins(i.s, i.loadS, i.permsS, i.fR);
  }

  lemma PartyBins(q: Rr17.Input, loads: seq<nat>, perms: seq<seq<nat>>, peer: (nat, nat) -> Block)
    requires Loaded(q, loads, perms)
    ensures PartyOf(q, loads, perms, peer).bin == q.bin
  {}

  /** Both sides' settings, and what the memory of the sender's spare rows holds. */
  datatype Config = Config(threads: nat, capacity: nat, padding: int, junk: nat -> seq<bool>, maxSend: nat)

  function SendersOf(p: Protocol, binsS: seq<seq<nat>>, c: Config): Sender.Setup
    requires |binsS| == |p.loadR| && c.threads > 0
  {
    SenderSetup(p, binsS, c.threads, c.padding, c.junk, c.maxSend)
  }

  /** A finished run of the sender's threads, and one of the receiver's on what those have sent. */
  ghost predicate RunsOk(i: Sides, c: Config, runS: seq<Sender.State>, runR: seq<Receiver.State>)
    requires SidesOk(i)
  {
    && c.threads > 0 && c.maxSend > 0 && c.capacity >= i.maxBinSize
    && Finished(SendersOf(Session(i), i.s.bins, c), runS)
    && AllReceived(ReceiverSetup(Session(i), i.r.bins, c.threads, c.capacity,
        Sender.AllSent(runS[|runS| - 1].threads)), runR)
  }

  /** The spare rows match no entry. */
  ghost predicate SpareOk(i: Sides, c: Config)
    requires SidesOk(i) && c.threads > 0
  {
    var n := Sender.Total(SendersOf(Session(i), i.s.bins, c));
    forall r: nat | n <= r < n + c.padding :: IsFiller(Session(i), c.junk(r))
  }

  /**
    Any items, loads and shuffles, any number of threads, and any two finished interleavings of their steps: the merged
    report has the common items, and if nothing matches by accident it has no others and each of them once.
    The exception is an item whose shared mask has the key that marks an unused bucket: all of its first 64 bits, as far
    as they are sent, are clear.
   */
  lemma EndToEnd(i: Sides, c: Config, runS: seq<Sender.State>, runR: seq<Receiver.State>)
    requires SidesOk(i) && RunsOk(i, c, runS, runR) && SpareOk(i, c)
    ensures |runR| > 0 && Reports(Session(i), runR[|runR| - 1].report, {EmptyKey(Session(i))})
    ensures ReportsInBits(Session(i), runR[|runR| - 1].report, false)
  {
    hide ReportsInBits, ProtocolOk, Loaded, Session, IsFiller, Sender.Total, Sender.AllSent, Sender.SetupOk,
      Receiver.SetupOk,
      Sender.IsRun, Receiver.IsRun,
      WorkOk, Reports, EmptyKey, Rr17.BinsMatch, WorkOf, Counts, EntryBytes, RowBytes, ReceivesFor;
    var p := Session(i);
    SenderOk(p, i.r.bins, i.s.bins, c.threads, c.padding, c.junk, c.maxSend);
    var rows := Sender.AllSent(runS[|runS| - 1].threads);
    ReceiverOk(p, i.r.bins, i.s.bins, c.threads, c.capacity, rows);
    BothSides(p, SendersOf(p, i.s.bins, c), runS, ReceiverSetup(p, i.r.bins, c.threads, c.capacity, rows), runR);
    EmptyInBits(p, runR[|runR| - 1].report);
  }

  lemma EmptyInBits(p: Protocol, report: seq<nat>)
    requires ProtocolOk(p) && p.maskSize <= 16 && Reports(p, report, {EmptyKey(p)})
    ensures ReportsInBits(p, report, false)
  {
    hide ProtocolOk, ReportsInBits, Reports, ZeroKey;
    ReportInBits(p, report, false);
  }

  /** Such runs exist, and every one that has begun can be finished, if the noise leaves the matrix large enough. */
  lemma RunsExist(i: Sides, c: Config) returns (runS: seq<Sender.State>, runR: seq<Receiver.State>)
    requires SidesOk(i) && c.threads > 0 && c.maxSend > 0 && c.capacity >= i.maxBinSize && c.padding >= 0
    ensures RunsOk(i, c, runS, runR)
  {
    hide ProtocolOk, Loaded, Session, IsFiller, Sender.Total, Sender.AllSent, Sender.SetupOk, Receiver.SetupOk,
      Sender.Step, Receiver.Step, Sender.AllDone, Receiver.AllDone, Sender.Init, Receiver.Init,
      WorkOk, Reports, EmptyKey, Rr17.BinsMatch, WorkOf, Counts, EntryBytes, RowBytes;
    var p := Session(i);
    SenderOk(p, i.r.bins, i.s.bins, c.threads, c.padding, c.junk, c.maxSend);
    var qS := SendersOf(p, i.s.bins, c);
    runS := Sender.EveryRunEnds(qS, [Sender.Init(qS)]);
    var rows := Sender.AllSent(runS[|runS| - 1].threads);
    ReceiverOk(p, i.r.bins, i.s.bins, c.threads, c.capacity, rows);
    var qR := ReceiverSetup(p, i.r.bins, c.threads, c.capacity, rows);
    runR := Receiver.EveryRunEnds(qR, [Receiver.Init(qR)]);
  }

  // ----- the exception -----

  /** One item on each side, the same one, with encoders for which its shared mask is all zero. */
  ghost function ZeroSides(): (i: Sides)
    ensures SidesOk(i)
  {
    var q := Rr17.Input([0], [0], [[0]]);
    assert q.bins[0][0] == 0 && HasPart(q.bins, 0);
    var zero := (slot: nat, code: nat) => Zero();
    Sides(q, q, [1], [1], [[0]], [[0]], 8, 1, zero, zero)
  }

  lemma ZeroParty(p: Protocol)
    requires p == Session(ZeroSides())
    ensures ProtocolOk(p) && p.maskSize == 8 && p.loadR == p.loadS == [1]
    ensures p.r.bin == p.s.bin == [0] && p.r.code == p.s.code == [0]
    ensures p.r.mask == p.s.mask == [Zero()] && p.r.slot == p.s.slot == [0]
    ensures forall slot: nat, code: nat :: p.fR(slot, code) == p.fS(slot, code) == Zero()
  {
    hide BinsOk, Start, Rr17.SlotOf, PlacesBySlot, Zero, SidesOk;
    assert ProtocolOk(p) by { ZeroBins(p); }
    assert p.r.slot[0] < 1 && p.s.slot[0] < 1;
  }

  lemma ZeroBins(p: Protocol)
    requires p == Session(ZeroSides())
    ensures ProtocolOk(p)
  {
    hide Session, ZeroSides;
  }

  lemma ZeroEntries(p: Protocol, x: nat, l: nat)
    requires p == Session(ZeroSides()) && ProtocolOk(p) && IsEntry(p, x, l)
    ensures x == 0 && l == 0 && EntryKey(p, x, l) == EmptyKey(p)
  {
    hide ProtocolOk, Session, ZeroSides;
    ZeroParty(p);
    XorSelf(Zero());
    assert Trunc(Zero(), 8) == seq(64, _ => false);
  }

  lemma HasFirst(s: seq<nat>)
    requires s != []
    ensures s[0] in s
  {}

  /**
    The exception is real: in this session keys are distinct, nothing matches by accident and the item is common, and
    yet the report of any two finished runs is empty.
   */
  lemma ZeroMaskMissed(c: Config, runS: seq<Sender.State>, runR: seq<Receiver.State>)
    requires RunsOk(ZeroSides(), c, runS, runR) && SpareOk(ZeroSides(), c)
    ensures var p := Session(ZeroSides()); KeysDistinct(p) && NoAccidents(p) && ItemsDistinct(p.s) && Same(p, 0, 0)
    ensures |runR| > 0 && runR[|runR| - 1].report == []
  {
    hide RunsOk, SpareOk, Session, ZeroSides;
    EndToEnd(ZeroSides(), c, runS, runR);
    ZeroReport(Session(ZeroSides()), runR[|runR| - 1].report);
  }

  lemma ZeroReport(p: Protocol, report: seq<nat>)
    requires p == Session(ZeroSides()) && p.maskSize <= 16 && ProtocolOk(p) && Reports(p, report, {EmptyKey(p)})
    ensures KeysDistinct(p) && NoAccidents(p) && ItemsDistinct(p.s) && Same(p, 0, 0) && report == []
  {
    hide ProtocolOk, EntryKey, EntryMask, RowMask, Trunc, EmptyKey, Session, ZeroSides;
    ZeroParty(p);
    forall x: nat, l: nat | IsEntry(p, x, l) ensures x == 0 && l == 0 && EntryKey(p, x, l) == EmptyKey(p) {
      ZeroEntries(p, x, l);
    }
    assert forall x: nat :: !Matched(p, x, {EmptyKey(p)});
    if report != [] {
      HasFirst(report);
    }
  }
}
