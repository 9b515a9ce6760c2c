/**
  How the two sides of the hash-to-bins protocol use up their oblivious-transfer slots. Bin b owns
  `loads[b]` consecutive slots; each of its items gets one at a secret place, the others get zero.
 */
module Slots {
  import opened Blocks
  import opened Permutations

  datatype Choice = Item(code: nat) | ZeroInput

  /** The receiving end of a batch of transfers. `peer` is what the sending end computes for a slot and an input. */
  class OtReceiver {
    const count: nat
    const peer: (nat, nat) -> Block
    var choices: map<nat, Choice>

    constructor (count: nat, peer: (nat, nat) -> Block)
      ensures this.count == count && this.peer == peer && choices == map[]
    {
      this.count, this.peer, choices := count, peer, map[];
    }

    /** A slot is good for one input. */
    method Encode(slot: nat, code: nat) returns (mask: Block)
      requires slot < count && slot !in choices
      modifies this
      ensures choices == old(choices)[slot := Item(code)] && mask == peer(slot, code)
    {
      choices := choices[slot := Item(code)];
      mask := peer(slot, code);
    }

    method ZeroEncode(slot: nat)
      requires slot < count && slot !in choices
      modifies this
      ensures choices == old(choices)[slot := ZeroInput]
    {
      choices := choices[slot := ZeroInput];
    }
  }

  /** The first slot of bin b. */
  function Start(loads: seq<nat>, b: nat): nat
    requires b <= |loads|
  {
    if b == 0 then 0 else Start(loads, b - 1) + loads[b - 1]
  }

  lemma {:induction false} StartGrows(loads: seq<nat>, b: nat, c: nat)
    requires b < c <= |loads|
    ensures Start(loads, b) + loads[b] <= Start(loads, c)
    decreases c
  {
    if b < c - 1 {
      StartGrows(loads, b, c - 1);
    }
  }

  /** The choice made for place k of a bin: its item, or zero past the last item. */
  function ChoiceAt(bin: seq<nat>, codes: seq<nat>, k: nat): Choice
    requires BinOk(bin, |codes|)
  {
    if k < |bin| then Item(codes[bin[k]]) else ZeroInput
  }

  /** The first n places of the bin sit at the slots `slots[..n]` behind `start`. */
  ghost predicate Uses(choices: map<nat, Choice>, bin: seq<nat>, codes: seq<nat>, start: nat, slots: seq<nat>, n: nat)
    requires n <= |slots| && BinOk(bin, |codes|)
  {
    forall k | 0 <= k < n :: var s := slots[k]; start + s in choices && choices[start + s] == ChoiceAt(bin, codes, k)
  }

  /** The items among the first n places hold the mask of their slot. */
  ghost predicate HoldsMasks(peer: (nat, nat) -> Block, masks: seq<Block>, bin: seq<nat>, codes: seq<nat>, start: nat,
                             slots: seq<nat>, n: nat)
    requires n <= |slots| && |masks| == |codes| && BinOk(bin, |codes|)
  {
    forall k | 0 <= k < n && k < |bin| :: masks[bin[k]] == peer(start + slots[k], codes[bin[k]])
  }

  /** The slots behind `start` that are used once the first n places are done: exactly theirs. */
  ghost predicate UsedExactly(was: map<nat, Choice>, choices: map<nat, Choice>, start: nat, slots: seq<nat>, n: nat)
    requires n <= |slots|
  {
    && (forall s | s in was :: s < start && s in choices && choices[s] == was[s])
    && forall s | s in choices :: s in was || exists k :: 0 <= k < n && s == start + slots[k]
  }

  /** Only the masks of the bin's items have changed. */
  ghost predicate SameOff(masks: seq<Block>, masks': seq<Block>, bin: seq<nat>) {
    |masks| == |masks'| && forall x | 0 <= x < |masks| && x !in bin :: masks'[x] == masks[x]
  }

  ghost predicate BinOk(bin: seq<nat>, n: nat) {
    Distinct(bin) && forall i | 0 <= i < |bin| :: bin[i] < n
  }

  /** Changing the order of places not yet used keeps all of the above. */
  lemma SameUses(choices: map<nat, Choice>, bin: seq<nat>, codes: seq<nat>, start: nat, slots: seq<nat>,
                 slots': seq<nat>, n: nat)
    requires n <= |slots| == |slots'| && slots[..n] == slots'[..n] && BinOk(bin, |codes|)
    requires Uses(choices, bin, codes, start, slots, n)
    ensures Uses(choices, bin, codes, start, slots', n)
  {
    hide ChoiceAt, BinOk;
    forall k | 0 <= k < n ensures slots'[k] == slots[k] {
      assert slots[k] == slots[..n][k];
    }
  }

  lemma SameMasks(peer: (nat, nat) -> Block, masks: seq<Block>, bin: seq<nat>, codes: seq<nat>,
                  start: nat, slots: seq<nat>, slots': seq<nat>, n: nat)
    requires n <= |slots| == |slots'| && slots[..n] == slots'[..n] && |masks| == |codes| && BinOk(bin, |codes|)
    requires HoldsMasks(peer, masks, bin, codes, start, slots, n)
    ensures HoldsMasks(peer, masks, bin, codes, start, slots', n)
  {
    forall k | 0 <= k < n ensures slots'[k] == slots[k] {
      assert slots[k] == slots[..n][k];
    }
  }

  lemma SameUsed(was: map<nat, Choice>, choices: map<nat, Choice>, start: nat, slots: seq<nat>, slots': seq<nat>,
                 n: nat)
    requires n <= |slots| == |slots'| && slots[..n] == slots'[..n]
    requires UsedExactly(was, choices, start, slots, n)
    ensures UsedExactly(was, choices, start, slots', n)
  {
    forall s | s in choices && s !in was ensures exists k :: 0 <= k < n && s == start + slots'[k] {
      var k :| 0 <= k < n && s == start + slots[k];
      assert slots[k] == slots[..n][k] == slots'[k];
    }
  }

  lemma SwapPermutes(s: seq<nat>, i: nat, j: nat)
    requires IsPermutation(s) && i < |s| && j < |s|
    ensures IsPermutation(s[i := s[j]][j := s[i]])
  {}

  /** The slot of place n is still free when the places before it are done. */
  lemma NextIsFree(was: map<nat, Choice>, choices: map<nat, Choice>, start: nat, slots: seq<nat>, n: nat,
                   choice: Choice)
    requires n < |slots| && IsPermutation(slots)
    requires UsedExactly(was, choices, start, slots, n)
    ensures start + slots[n] !in choices
    ensures UsedExactly(was, choices[start + slots[n] := choice], start, slots, n + 1)
  {
    if start + slots[n] in choices {
      var k :| 0 <= k < n && start + slots[n] == start + slots[k];
      assert false;
    }
    var choices' := choices[start + slots[n] := choice];
    forall s | s in choices' && s !in was ensures exists k :: 0 <= k < n + 1 && s == start + slots[k] {
      if s != start + slots[n] {
        var k :| 0 <= k < n && s == start + slots[k];
      }
    }
  }

  lemma UseNext(choices: map<nat, Choice>, bin: seq<nat>, codes: seq<nat>, start: nat, slots: seq<nat>, n: nat)
    requires n < |slots| && IsPermutation(slots) && BinOk(bin, |codes|)
    requires Uses(choices, bin, codes, start, slots, n)
    ensures Uses(choices[start + slots[n] := ChoiceAt(bin, codes, n)], bin, codes, start, slots, n + 1)
  {
    hide ChoiceAt, BinOk;
    var choices' := choices[start + slots[n] := ChoiceAt(bin, codes, n)];
    forall k | 0 <= k < n + 1
      ensures start + slots[k] in choices' && choices'[start + slots[k]] == ChoiceAt(bin, codes, k)
    {
      if k < n {
        assert slots[k] != slots[n];
        var s := slots[k];
        assert start + s in choices && choices[start + s] == ChoiceAt(bin, codes, k);
      }
    }
  }

  lemma HoldNext(peer: (nat, nat) -> Block, masks: seq<Block>, bin: seq<nat>, codes: seq<nat>, start: nat,
                 slots: seq<nat>, n: nat)
    requires n < |slots| && |masks| == |codes| && BinOk(bin, |codes|)
    requires HoldsMasks(peer, masks, bin, codes, start, slots, n)
    ensures n < |bin| ==>
              HoldsMasks(peer, masks[bin[n] := peer(start + slots[n], codes[bin[n]])], bin, codes, start, slots, n + 1)
    ensures n >= |bin| ==> HoldsMasks(peer, masks, bin, codes, start, slots, n + 1)
  {
  }

  /** The first n places are done. */
  ghost predicate SoFar(peer: (nat, nat) -> Block, was: map<nat, Choice>, choices: map<nat, Choice>, masks: seq<Block>,
                        bin: seq<nat>, codes: seq<nat>, start: nat, slots: seq<nat>, n: nat) {
    && n <= |slots| && IsPermutation(slots) && |masks| == |codes| && BinOk(bin, |codes|)
    && Uses(choices, bin, codes, start, slots, n)
    && HoldsMasks(peer, masks, bin, codes, start, slots, n)
    && UsedExactly(was, choices, start, slots, n)
  }

  lemma SoFarStart(peer: (nat, nat) -> Block, was: map<nat, Choice>, masks: seq<Block>, bin: seq<nat>, codes: seq<nat>,
                   start: nat, slots: seq<nat>)
    requires IsPermutation(slots) && |masks| == |codes| && BinOk(bin, |codes|) && forall s | s in was :: s < start
    ensures SoFar(peer, was, was, masks, bin, codes, start, slots, 0)
  {}

  lemma SoFarSwap(peer: (nat, nat) -> Block, was: map<nat, Choice>, choices: map<nat, Choice>, masks: seq<Block>,
                  bin: seq<nat>, codes: seq<nat>, start: nat, slots: seq<nat>, n: nat, j: nat)
    requires SoFar(peer, was, choices, masks, bin, codes, start, slots, n) && n <= j < |slots|
    ensures SoFar(peer, was, choices, masks, bin, codes, start, slots[n := slots[j]][j := slots[n]], n)
  {
    hide IsPermutation, BinOk, Uses, HoldsMasks, UsedExactly;
    var slots' := slots[n := slots[j]][j := slots[n]];
    assert slots'[..n] == slots[..n];
    SwapPermutes(slots, n, j);
    SameUses(choices, bin, codes, start, slots, slots', n);
    SameMasks(peer, masks, bin, codes, start, slots, slots', n);
    SameUsed(was, choices, start, slots, slots', n);
  }

  /** Place n is free, and done once its choice is made and its item has the mask. */
  lemma SoFarNext(peer: (nat, nat) -> Block, was: map<nat, Choice>, choices: map<nat, Choice>, masks: seq<Block>,
                  bin: seq<nat>, codes: seq<nat>, start: nat, slots: seq<nat>, n: nat)
    requires SoFar(peer, was, choices, masks, bin, codes, start, slots, n) && n < |slots|
    ensures slots[n] < |slots| && start + slots[n] !in choices
    ensures n < |bin| ==>
              bin[n] < |codes| &&
              SoFar(peer, was, choices[start + slots[n] := Item(codes[bin[n]])], masks[bin[n] := peer(start + slots[n],
              codes[bin[n]])],
                    bin, codes, start, slots, n + 1)
    ensures n >= |bin| ==>
            SoFar(peer, was, choices[start + slots[n] := ZeroInput], masks, bin, codes, start, slots, n + 1)
  {
    hide Uses, HoldsMasks, UsedExactly;
    NextIsFree(was, choices, start, slots, n, ChoiceAt(bin, codes, n));
    UseNext(choices, bin, codes, start, slots, n);
    HoldNext(peer, masks, bin, codes, start, slots, n);
  }

  /** The first n steps of a shuffle: step i swaps position i with one drawn from i on. */
  function Shuffled(perm: seq<nat>, draws: seq<nat>, n: nat): (r: seq<nat>)
    requires n <= |draws| && n <= |perm|
    ensures |r| == |perm|
  {
    if n == 0 then perm
    else
      var before := Shuffled(perm, draws, n - 1);
      var swapIdx := draws[n - 1] % (|perm| - (n - 1)) + (n - 1);
      before[n - 1 := before[swapIdx]][swapIdx := before[n - 1]]
  }

  /** The receiver draws a place for item i by one more step of a shuffle, and encodes the item there. */
  method EncodeItem(ot: OtReceiver, perm: array<nat>, bin: seq<nat>, codes: seq<nat>, recvMasks: array<Block>,
                    otIdx: nat,
                    draw: nat, i: nat, ghost was: map<nat, Choice>)
    requires i < |bin| && i < perm.Length && otIdx + perm.Length <= ot.count
    requires SoFar(ot.peer, was, ot.choices, recvMasks[..], bin, codes, otIdx, perm[..], i)
    modifies ot, perm, recvMasks
    ensures SoFar(ot.peer, was, ot.choices, recvMasks[..], bin, codes, otIdx, perm[..], i + 1)
    ensures bin[i] < recvMasks.Length && recvMasks[..] == old(recvMasks[..])[bin[i] := recvMasks[bin[i]]]
    ensures var swapIdx := draw % (perm.Length - i) + i;
            perm[..] == old(perm[..])[i := old(perm[swapIdx])][swapIdx := old(perm[i])]
  {
    hide SoFar;
    var swapIdx := draw % (perm.Length - i) + i;
    ghost var before := perm[..];
    ghost var masks := recvMasks[..];
    SoFarSwap(ot.peer, was, ot.choices, masks, bin, codes, otIdx, before, i, swapIdx);
    perm[i], perm[swapIdx] := perm[swapIdx], perm[i];
    ghost var places := before[i := before[swapIdx]][swapIdx := before[i]];
    assert perm[..] == places;
    SoFarNext(ot.peer, was, ot.choices, masks, bin, codes, otIdx, places, i);
    InMasks(ot.peer, was, ot.choices, masks, bin, codes, otIdx, places, i);
    var mask := ot.Encode(otIdx + perm[i], codes[bin[i]]);
    recvMasks[bin[i]] := mask;
    assert recvMasks[..] == masks[bin[i] := mask];
  }

  lemma InMasks(peer: (nat, nat) -> Block, was: map<nat, Choice>, choices: map<nat, Choice>, masks: seq<Block>,
                bin: seq<nat>, codes: seq<nat>, start: nat, slots: seq<nat>, n: nat)
    requires SoFar(peer, was, choices, masks, bin, codes, start, slots, n)
    ensures |masks| == |codes| && forall i | 0 <= i < |bin| :: bin[i] < |codes|
  {}

  method EncodeItems(ot: OtReceiver, perm: array<nat>, bin: seq<nat>, codes: seq<nat>, recvMasks: array<Block>,
                     otIdx: nat, draws: seq<nat>)
    requires |bin| <= perm.Length && |draws| == |bin| && otIdx + perm.Length <= ot.count
    requires SoFar(ot.peer, ot.choices, ot.choices, recvMasks[..], bin, codes, otIdx, perm[..], 0)
    modifies ot, perm, recvMasks
    ensures SoFar(ot.peer, old(ot.choices), ot.choices, recvMasks[..], bin, codes, otIdx, perm[..], |bin|)
    ensures SameOff(old(recvMasks[..]), recvMasks[..], bin) && perm[..] == Shuffled(old(perm[..]), draws, |bin|)
  {
    hide SoFar;
    ghost var was := ot.choices;
    for i := 0 to |bin|
      invariant SoFar(ot.peer, was, ot.choices, recvMasks[..], bin, codes, otIdx, perm[..], i)
      invariant SameOff(old(recvMasks[..]), recvMasks[..], bin) && perm[..] == Shuffled(old(perm[..]), draws, i)
    {
      EncodeItem(ot, perm, bin, codes, recvMasks, otIdx, draws[i], i, was);
    }
  }

  method ZeroRest(ot: OtReceiver, perm: array<nat>, bin: seq<nat>, ghost codes: seq<nat>, ghost masks: seq<Block>,
                  otIdx: nat, ghost was: map<nat, Choice>)
    requires |bin| <= perm.Length && otIdx + perm.Length <= ot.count
    requires SoFar(ot.peer, was, ot.choices, masks, bin, codes, otIdx, perm[..], |bin|)
    modifies ot
    ensures SoFar(ot.peer, was, ot.choices, masks, bin, codes, otIdx, perm[..], perm.Length)
  {
    hide SoFar;
    ghost var places := perm[..];
    for i := |bin| to perm.Length
      modifies ot
      invariant SoFar(ot.peer, was, ot.choices, masks, bin, codes, otIdx, places, i)
    {
      SoFarNext(ot.peer, was, ot.choices, masks, bin, codes, otIdx, places, i);
      assert perm[i] == places[i];
      ot.ZeroEncode(otIdx + perm[i]);
    }
  }

  /**
    The receiver's side of a bin: its items go to fresh drawn places, the places left over get
    zero. `perm` stays a permutation from bin to bin.
   */
  method EncodeBin(ot: OtReceiver, perm: array<nat>, bin: seq<nat>, codes: seq<nat>, recvMasks: array<Block>,
                   otIdx: nat, draws: seq<nat>)
    requires IsPermutation(perm[..]) && |bin| <= perm.Length && |draws| == |bin|
    requires recvMasks.Length == |codes| && BinOk(bin, |codes|)
    requires otIdx + perm.Length <= ot.count && forall s | s in ot.choices :: s < otIdx
    modifies ot, perm, recvMasks
    ensures SoFar(ot.peer, old(ot.choices), ot.choices, recvMasks[..], bin, codes, otIdx, perm[..], perm.Length)
    ensures SameOff(old(recvMasks[..]), recvMasks[..], bin) && perm[..] == Shuffled(old(perm[..]), draws, |bin|)
  {
    ghost var was := ot.choices;
    SoFarStart(ot.peer, was, recvMasks[..], bin, codes, otIdx, perm[..]);
    hide SoFar, IsPermutation, BinOk;
    EncodeItems(ot, perm, bin, codes, recvMasks, otIdx, draws);
    ZeroRest(ot, perm, bin, codes, recvMasks[..], otIdx, was);
  }

  // ----- all bins -----

  ghost predicate BinDone(peer: (nat, nat) -> Block, choices: map<nat, Choice>, masks: seq<Block>, bin: seq<nat>,
                          codes: seq<nat>,
                          start: nat, slots: seq<nat>) {
    && IsPermutation(slots) && |masks| == |codes| && BinOk(bin, |codes|)
    && Uses(choices, bin, codes, start, slots, |slots|) && HoldsMasks(peer, masks, bin, codes, start, slots, |slots|)
  }

  /** Items sit in one bin only, once. */
  ghost predicate BinsOk(bins: seq<seq<nat>>, n: nat) {
    && (forall b | 0 <= b < |bins| :: BinOk(bins[b], n))
    && forall b, c | 0 <= b < c < |bins| :: Apart(bins[b], bins[c])
  }

  ghost predicate Apart(s: seq<nat>, t: seq<nat>) {
    forall x | x in s :: x !in t
  }

  /** The first m bins are done: every slot before bin m is used, and none from there on. */
  ghost predicate Encoded(peer: (nat, nat) -> Block, choices: map<nat, Choice>, masks: seq<Block>, bins: seq<seq<nat>>,
                          codes: seq<nat>,
                          loads: seq<nat>, slots: seq<seq<nat>>, m: nat) {
    && m <= |bins| == |loads| && m <= |slots|
    && (forall b | 0 <= b < m ::
        |slots[b]| == loads[b] && BinDone(peer, choices, masks, bins[b], codes, Start(loads, b), slots[b]))
    && Filled(choices, Start(loads, m))
  }

  /** Exactly the slots below n are used. */
  ghost predicate Filled(choices: map<nat, Choice>, n: nat) {
    forall s: nat :: s in choices <==> s < n
  }

  ghost predicate Extends(choices: map<nat, Choice>, was: map<nat, Choice>) {
    forall s | s in was :: s in choices && choices[s] == was[s]
  }

  lemma SlotIsUsed(choices: map<nat, Choice>, bin: seq<nat>, codes: seq<nat>, start: nat, slots: seq<nat>, s: nat)
    requires IsPermutation(slots) && BinOk(bin, |codes|) && Uses(choices, bin, codes, start, slots, |slots|)
    requires start <= s < start + |slots|
    ensures s in choices
  {
    hide ChoiceAt, BinOk, IsPermutation;
    var k := PositionOf(slots, s - start);
    assert slots[k] == s - start;
  }

  lemma UsedIsBelow(was: map<nat, Choice>, choices: map<nat, Choice>, start: nat, slots: seq<nat>, s: nat)
    requires IsPermutation(slots) && UsedExactly(was, choices, start, slots, |slots|) && s in choices
    ensures s < start + |slots|
  {
    hide IsPermutation;
    if s !in was {
      var k :| 0 <= k < |slots| && s == start + slots[k];
      InRange(slots, k);
    }
  }

  /** A finished bin uses its whole range of slots. */
  lemma RangeUsed(was: map<nat, Choice>, choices: map<nat, Choice>, bin: seq<nat>, codes: seq<nat>, start: nat,
                  slots: seq<nat>)
    requires IsPermutation(slots) && BinOk(bin, |codes|)
    requires Uses(choices, bin, codes, start, slots, |slots|) && UsedExactly(was, choices, start, slots, |slots|)
    requires Filled(was, start) && Extends(choices, was)
    ensures Filled(choices, start + |slots|)
  {
    hide ChoiceAt, BinOk, Uses, UsedExactly, IsPermutation;
    forall s: nat ensures s in choices <==> s < start + |slots| {
      if start <= s < start + |slots| {
        SlotIsUsed(choices, bin, codes, start, slots, s);
      } else if s in choices {
        UsedIsBelow(was, choices, start, slots, s);
      }
    }
  }

  lemma InRange(s: seq<nat>, i: nat)
    requires IsPermutation(s) && i < |s|
    ensures s[i] < |s|
  {}

  /** Later bins leave finished ones alone. */
  lemma KeepDone(peer: (nat, nat) -> Block, was: map<nat, Choice>, choices: map<nat, Choice>, masks: seq<Block>,
                 masks': seq<Block>,
                 bin: seq<nat>, codes: seq<nat>, start: nat, slots: seq<nat>, other: seq<nat>)
    requires BinDone(peer, was, masks, bin, codes, start, slots) && Extends(choices, was)
    requires SameOff(masks, masks', other) && Apart(bin, other)
    ensures BinDone(peer, choices, masks', bin, codes, start, slots)
  {
    hide IsPermutation, ChoiceAt;
  }

  /** What a finished bin leaves behind. */
  lemma BinFinished(peer: (nat, nat) -> Block, was: map<nat, Choice>, choices: map<nat, Choice>, masks: seq<Block>,
                    bin: seq<nat>, codes: seq<nat>, start: nat, slots: seq<nat>)
    requires SoFar(peer, was, choices, masks, bin, codes, start, slots, |slots|) && Filled(was, start)
    ensures BinDone(peer, choices, masks, bin, codes, start, slots) && IsPermutation(slots)
    ensures Filled(choices, start + |slots|) && Extends(choices, was)
  {
    assert Extends(choices, was);
    hide IsPermutation, ChoiceAt, BinOk, Uses, UsedExactly, Filled, HoldsMasks, Extends;
    RangeUsed(was, choices, bin, codes, start, slots);
  }

  lemma EncodedMore(peer: (nat, nat) -> Block, was: map<nat, Choice>, choices: map<nat, Choice>, masks: seq<Block>,
                    masks': seq<Block>,
                    bins: seq<seq<nat>>, codes: seq<nat>, loads: seq<nat>, slots: seq<seq<nat>>, m: nat,
                        places: seq<nat>)
    requires BinsOk(bins, |codes|) && m < |bins| && |slots| == m
    requires Encoded(peer, was, masks, bins, codes, loads, slots, m) && |masks| == |masks'| == |codes|
    requires BinDone(peer, choices, masks', bins[m], codes, Start(loads, m), places) && |places| == loads[m]
    requires Filled(choices, Start(loads, m) + |places|) && Extends(choices, was)
    requires SameOff(masks, masks', bins[m])
    ensures Encoded(peer, choices, masks', bins, codes, loads, slots + [places], m + 1)
  {
    hide Filled, Extends, BinOk, BinDone, Start;
    StartFits(loads, m);
    var slots' := slots + [places];
    forall b | 0 <= b < m
      ensures slots'[b] == slots[b] && BinDone(peer, choices, masks', bins[b], codes, Start(loads, b), slots[b])
    {
      assert Apart(bins[b], bins[m]);
      KeepDone(peer, was, choices, masks, masks', bins[b], codes, Start(loads, b), slots[b], bins[m]);
    }
  }

  lemma EncodedNext(peer: (nat, nat) -> Block, was: map<nat, Choice>, choices: map<nat, Choice>, masks: seq<Block>,
                    masks': seq<Block>,
                    bins: seq<seq<nat>>, codes: seq<nat>, loads: seq<nat>, slots: seq<seq<nat>>, m: nat,
                        places: seq<nat>)
    requires BinsOk(bins, |codes|) && m < |bins| && |slots| == m
    requires Encoded(peer, was, masks, bins, codes, loads, slots, m) && |masks| == |masks'| == |codes|
    requires SoFar(peer, was, choices, masks', bins[m], codes, Start(loads, m), places, |places|)
             && |places| == loads[m]
    requires SameOff(masks, masks', bins[m])
    ensures Encoded(peer, choices, masks', bins, codes, loads, slots + [places], m + 1)
    ensures IsPermutation(places)
  {
    hide Filled, Extends, SoFar, IsPermutation, BinOk, BinDone, Start;
    BinFinished(peer, was, choices, masks', bins[m], codes, Start(loads, m), places);
    EncodedMore(peer, was, choices, masks, masks', bins, codes, loads, slots, m, places);
  }

  /** Loads that are the same for all bins. */
  function Even(n: nat, load: nat): (r: seq<nat>)
    ensures |r| == n && forall b | 0 <= b < n :: r[b] == load
  {
    seq(n, _ => load)
  }

  lemma {:induction false} EvenStart(n: nat, load: nat, b: nat)
    requires b <= n
    ensures Start(Even(n, load), b) == b * load
  {
    if b > 0 {
      EvenStart(n, load, b - 1);
      assert b * load == (b - 1) * load + load;
    }
  }

  /** The shuffled array after m bins: each bin goes on where the last one stopped. */
  function PlacesDrawn(perm: seq<nat>, draws: seq<seq<nat>>, m: nat): (r: seq<nat>)
    requires m <= |draws| && forall b | 0 <= b < |draws| :: |draws[b]| <= |perm|
    ensures |r| == |perm|
  {
    if m == 0 then perm else Shuffled(PlacesDrawn(perm, draws, m - 1), draws[m - 1], |draws[m - 1]|)
  }

  /** The receiver's whole pass: every slot of every bin is used exactly once, its items with their masks. */
  method EncodeAll(ot: OtReceiver, perm: array<nat>, bins: seq<seq<nat>>, codes: seq<nat>, recvMasks: array<Block>,
                   draws: seq<seq<nat>>)
    returns (ghost slots: seq<seq<nat>>)
    requires IsPermutation(perm[..]) && recvMasks.Length == |codes| && BinsOk(bins, |codes|)
    requires ot.choices == map[] && ot.count == |bins| * perm.Length
    requires |draws| == |bins| && forall b | 0 <= b < |bins| :: |bins[b]| <= perm.Length && |draws[b]| == |bins[b]|
    modifies ot, perm, recvMasks
    ensures Encoded(ot.peer, ot.choices, recvMasks[..], bins, codes, Even(|bins|, perm.Length), slots, |bins|)
            && |slots| == |bins|
    ensures forall b | 0 <= b < |bins| :: slots[b] == PlacesDrawn(old(perm[..]), draws, b + 1)
  {
    hide *;
    var otIdx := 0;
    slots := [];
    ghost var loads, first := Even(|bins|, perm.Length), perm[..];
    EvenStart(|bins|, perm.Length, |bins|);
    PassBegins(ot.peer, recvMasks[..], bins, codes, loads, first, draws);
    for b := 0 to |bins|
      invariant IsPermutation(perm[..]) && |slots| == b && otIdx == Start(loads, b)
                && perm[..] == PlacesDrawn(first, draws, b)
      invariant forall d | 0 <= d < b :: slots[d] == PlacesDrawn(first, draws, d + 1)
      invariant Encoded(ot.peer, ot.choices, recvMasks[..], bins, codes, loads, slots, b)
    {
      slots := EncodeNextBin(ot, perm, bins, codes, recvMasks, draws[b], otIdx, b, loads, slots);
      StartFits(loads, b);
      PlacesNext(first, draws, b);
      otIdx := otIdx + perm.Length;
    }
  }

  lemma PassBegins(peer: (nat, nat) -> Block, masks: seq<Block>, bins: seq<seq<nat>>, codes: seq<nat>, loads: seq<nat>,
                   perm: seq<nat>, draws: seq<seq<nat>>)
    requires |bins| == |loads| && forall b | 0 <= b < |draws| :: |draws[b]| <= |perm|
    ensures Encoded(peer, map[], masks, bins, codes, loads, [], 0) && Start(loads, 0) == 0
            && PlacesDrawn(perm, draws, 0) == perm
  {}

  lemma PlacesNext(perm: seq<nat>, draws: seq<seq<nat>>, b: nat)
    requires b < |draws| && forall c | 0 <= c < |draws| :: |draws[c]| <= |perm|
    ensures PlacesDrawn(perm, draws, b + 1) == Shuffled(PlacesDrawn(perm, draws, b), draws[b], |draws[b]|)
  {}

  method EncodeNextBin(ot: OtReceiver, perm: array<nat>, bins: seq<seq<nat>>, codes: seq<nat>, recvMasks: array<Block>,
                       draws: seq<nat>,
                       otIdx: nat, b: nat, ghost loads: seq<nat>, ghost slots: seq<seq<nat>>)
                           returns (ghost slots': seq<seq<nat>>)
    requires IsPermutation(perm[..]) && recvMasks.Length == |codes| && BinsOk(bins, |codes|)
    requires b < |bins| == |loads| && loads[b] == perm.Length && |slots| == b && otIdx == Start(loads, b)
             && ot.count == Start(loads, |loads|)
    requires |bins[b]| <= perm.Length && |draws| == |bins[b]|
    requires Encoded(ot.peer, ot.choices, recvMasks[..], bins, codes, loads, slots, b)
    modifies ot, perm, recvMasks
    ensures IsPermutation(perm[..]) && slots' == slots + [perm[..]]
            && perm[..] == Shuffled(old(perm[..]), draws, |draws|)
    ensures Encoded(ot.peer, ot.choices, recvMasks[..], bins, codes, loads, slots', b + 1)
  {
    ghost var was, masks := ot.choices, recvMasks[..];
    StartFits(loads, b);
    EncodedFilled(ot.peer, was, masks, bins, codes, loads, slots, b);
    hide *;
    EncodeBin(ot, perm, bins[b], codes, recvMasks, otIdx, draws);
    slots' := slots + [perm[..]];
    EncodedNext(ot.peer, was, ot.choices, masks, recvMasks[..], bins, codes, loads, slots, b, perm[..]);
  }

  lemma EncodedFilled(peer: (nat, nat) -> Block, choices: map<nat, Choice>, masks: seq<Block>, bins: seq<seq<nat>>,
                      codes: seq<nat>,
                      loads: seq<nat>, slots: seq<seq<nat>>, m: nat)
    requires Encoded(peer, choices, masks, bins, codes, loads, slots, m) && m < |bins| && BinsOk(bins, |codes|)
    ensures Filled(choices, Start(loads, m)) && (forall s | s in choices :: s < Start(loads, m))
            && BinOk(bins[m], |codes|)
  {}

  lemma StartFits(loads: seq<nat>, b: nat)
    requires b < |loads|
    ensures Start(loads, b + 1) == Start(loads, b) + loads[b] <= Start(loads, |loads|)
  {
    StartGrows(loads, b, |loads|);
  }

  // ----- a bin in the order of its slots -----

  /** The place of each item when slot j of the bin is given to place `perm[j]`. */
  ghost function PlacesBySlot(perm: seq<nat>): (slots: seq<nat>)
    requires IsPermutation(perm)
    ensures |slots| == |perm| && forall k | 0 <= k < |perm| :: slots[k] < |perm| && perm[slots[k]] == k
  {
    seq<nat>(|perm|, k requires 0 <= k < |perm| => PositionOf(perm, k))
  }

  lemma PlacesPermute(perm: seq<nat>)
    requires IsPermutation(perm)
    ensures IsPermutation(PlacesBySlot(perm))
    ensures forall j | 0 <= j < |perm| :: PlacesBySlot(perm)[perm[j]] == j
  {
    hide PlacesBySlot;
    var slots := PlacesBySlot(perm);
    forall i, j | 0 <= i < j < |slots| ensures slots[i] != slots[j] {
      assert perm[slots[i]] == i && perm[slots[j]] == j;
    }
  }

  ghost predicate SlotDone(choices: map<nat, Choice>, bin: seq<nat>, codes: seq<nat>, start: nat, perm: seq<nat>,
                           j: nat)
    requires j < |perm| && BinOk(bin, |codes|)
  {
    start + j in choices && choices[start + j] == ChoiceAt(bin, codes, perm[j])
  }

  /** The first n slots of the bin are done, slot j with place `perm[j]`. */
  ghost predicate SlotsDone(peer: (nat, nat) -> Block, choices: map<nat, Choice>, masks: seq<Block>, bin: seq<nat>,
                            codes: seq<nat>,
                            start: nat, perm: seq<nat>, n: nat) {
    && n <= |perm| && IsPermutation(perm) && |masks| == |codes| && BinOk(bin, |codes|)
    && (forall j | 0 <= j < n :: SlotDone(choices, bin, codes, start, perm, j))
    && forall j | 0 <= j < n && perm[j] < |bin| :: masks[bin[perm[j]]] == peer(start + j, codes[bin[perm[j]]])
  }

  lemma SlotsNext(peer: (nat, nat) -> Block, choices: map<nat, Choice>, masks: seq<Block>, bin: seq<nat>,
                  codes: seq<nat>,
                  start: nat, perm: seq<nat>, n: nat)
    requires SlotsDone(peer, choices, masks, bin, codes, start, perm, n) && n < |perm|
    ensures perm[n] < |bin| ==>
              SlotsDone(peer, choices[start + n := Item(codes[bin[perm[n]]])],
                        masks[bin[perm[n]] := peer(start + n, codes[bin[perm[n]]])], bin, codes, start, perm, n + 1)
    ensures perm[n] >= |bin| ==> SlotsDone(peer, choices[start + n := ZeroInput], masks, bin, codes, start, perm, n + 1)
  {
    var choices' := choices[start + n := ChoiceAt(bin, codes, perm[n])];
    forall j | 0 <= j < n + 1 ensures SlotDone(choices', bin, codes, start, perm, j) {
      if j < n {
        assert SlotDone(choices, bin, codes, start, perm, j);
      }
    }
    if perm[n] < |bin| {
      assert choices' == choices[start + n := Item(codes[bin[perm[n]]])];
    } else {
      assert choices' == choices[start + n := ZeroInput];
    }
  }

  lemma SlotsToPlaces(peer: (nat, nat) -> Block, choices: map<nat, Choice>, masks: seq<Block>, bin: seq<nat>,
                      codes: seq<nat>,
                      start: nat, perm: seq<nat>)
    requires SlotsDone(peer, choices, masks, bin, codes, start, perm, |perm|)
    ensures BinDone(peer, choices, masks, bin, codes, start, PlacesBySlot(perm))
  {
    hide PlacesBySlot, ChoiceAt;
    PlacesPermute(perm);
    var slots := PlacesBySlot(perm);
    forall k | 0 <= k < |slots|
      ensures start + slots[k] in choices && choices[start + slots[k]] == ChoiceAt(bin, codes, k)
      ensures k < |bin| ==> masks[bin[k]] == peer(start + slots[k], codes[bin[k]])
    {
      var j := slots[k];
      assert perm[j] == k && SlotDone(choices, bin, codes, start, perm, j);
    }
  }

  /** A pass over the slots of a bin in order, behind a shuffle of its places. Items past the load are left out. */
  method EncodeBinBySlot(ot: OtReceiver, perm: seq<nat>, bin: seq<nat>, codes: seq<nat>, recvMasks: array<Block>,
                         start: nat)
    requires IsPermutation(perm) && recvMasks.Length == |codes| && BinOk(bin, |codes|)
    requires start + |perm| <= ot.count && Filled(ot.choices, start)
    modifies ot, recvMasks
    ensures BinDone(ot.peer, ot.choices, recvMasks[..], bin, codes, start, PlacesBySlot(perm))
    ensures Filled(ot.choices, start + |perm|) && Extends(ot.choices, old(ot.choices))
    ensures SameOff(old(recvMasks[..]), recvMasks[..], bin)
  {
    hide IsPermutation, BinOk;
    ghost var was := ot.choices;
    var otIdx := start;
    assert SlotsDone(ot.peer, ot.choices, recvMasks[..], bin, codes, start, perm, 0);
    for i := 0 to |perm|
      invariant otIdx == start + i && Filled(ot.choices, otIdx) && Extends(ot.choices, was)
      invariant SlotsDone(ot.peer, ot.choices, recvMasks[..], bin, codes, start, perm, i)
      invariant SameOff(old(recvMasks[..]), recvMasks[..], bin)
    {
      EncodeSlot(ot, perm, bin, codes, recvMasks, start, otIdx, i);
      otIdx := otIdx + 1;
    }
    SlotsToPlaces(ot.peer, ot.choices, recvMasks[..], bin, codes, start, perm);
  }

  method EncodeSlot(ot: OtReceiver, perm: seq<nat>, bin: seq<nat>, codes: seq<nat>, recvMasks: array<Block>,
                    ghost start: nat, otIdx: nat, i: nat)
    requires i < |perm| && otIdx == start + i < ot.count && Filled(ot.choices, otIdx)
    requires recvMasks.Length == |codes| && SlotsDone(ot.peer, ot.choices, recvMasks[..], bin, codes, start, perm, i)
    modifies ot, recvMasks
    ensures SlotsDone(ot.peer, ot.choices, recvMasks[..], bin, codes, start, perm, i + 1)
    ensures Filled(ot.choices, otIdx + 1) && Extends(ot.choices, old(ot.choices))
    ensures SameOff(old(recvMasks[..]), recvMasks[..], bin)
  {
    ghost var masks := recvMasks[..];
    SlotsNext(ot.peer, ot.choices, masks, bin, codes, start, perm, i);
    BinInside(ot.peer, ot.choices, masks, bin, codes, start, perm, i);
    hide SlotsDone;
    if perm[i] < |bin| {
      var inputIdx := bin[perm[i]];
      var mask := ot.Encode(otIdx, codes[inputIdx]);
      recvMasks[inputIdx] := mask;
      assert recvMasks[..] == masks[inputIdx := mask];
    } else {
      ot.ZeroEncode(otIdx);
    }
  }

  lemma BinInside(peer: (nat, nat) -> Block, choices: map<nat, Choice>, masks: seq<Block>, bin: seq<nat>,
                  codes: seq<nat>,
                  start: nat, perm: seq<nat>, n: nat)
    requires SlotsDone(peer, choices, masks, bin, codes, start, perm, n)
    ensures forall i | 0 <= i < |bin| :: bin[i] < |codes|
  {}

  /** The sender's whole pass, and with loads that vary both sides' pass of the variable-load protocol. */
  method EncodeBySlot(ot: OtReceiver, perms: seq<seq<nat>>, bins: seq<seq<nat>>, codes: seq<nat>,
                      recvMasks: array<Block>, loads: seq<nat>)
    returns (ghost slots: seq<seq<nat>>)
    requires recvMasks.Length == |codes| && BinsOk(bins, |codes|)
    requires |loads| == |bins| == |perms| && forall b | 0 <= b < |perms| ::
             IsPermutation(perms[b]) && |perms[b]| == loads[b]
    requires ot.choices == map[] && ot.count == Start(loads, |loads|)
    modifies ot, recvMasks
    ensures |slots| == |bins| && Encoded(ot.peer, ot.choices, recvMasks[..], bins, codes, loads, slots, |bins|)
    ensures forall b | 0 <= b < |bins| :: slots[b] == PlacesBySlot(perms[b])
  {
    hide IsPermutation, PlacesBySlot, Encoded, Start, BinsOk;
    var otIdx := 0;
    slots := [];
    NothingEncoded(ot.peer, recvMasks[..], bins, codes, loads);
    for b := 0 to |bins|
      invariant otIdx == Start(loads, b) && |slots| == b
      invariant forall c | 0 <= c < b :: slots[c] == PlacesBySlot(perms[c])
      invariant Encoded(ot.peer, ot.choices, recvMasks[..], bins, codes, loads, slots, b)
    {
      EncodeNextBySlot(ot, perms[b], bins, codes, recvMasks, otIdx, b, loads, slots);
      StartFits(loads, b);
      slots := slots + [PlacesBySlot(perms[b])];
      otIdx := otIdx + |perms[b]|;
    }
  }

  lemma NothingEncoded(peer: (nat, nat) -> Block, masks: seq<Block>, bins: seq<seq<nat>>, codes: seq<nat>,
                       loads: seq<nat>)
    requires |bins| == |loads|
    ensures Encoded(peer, map[], masks, bins, codes, loads, [], 0) && Start(loads, 0) == 0
  {}

  method EncodeNextBySlot(ot: OtReceiver, perm: seq<nat>, bins: seq<seq<nat>>, codes: seq<nat>, recvMasks: array<Block>,
                          otIdx: nat, b: nat, ghost loads: seq<nat>, ghost slots: seq<seq<nat>>)
    requires recvMasks.Length == |codes| && BinsOk(bins, |codes|)
    requires b < |bins| == |loads| && IsPermutation(perm) && |perm| == loads[b] && |slots| == b
    requires otIdx == Start(loads, b) && ot.count == Start(loads, |loads|)
    requires Encoded(ot.peer, ot.choices, recvMasks[..], bins, codes, loads, slots, b)
    modifies ot, recvMasks
    ensures Encoded(ot.peer, ot.choices, recvMasks[..], bins, codes, loads, slots + [PlacesBySlot(perm)], b + 1)
  {
    hide *;
    ghost var was, masks, places := ot.choices, recvMasks[..], PlacesBySlot(perm);
    StartFits(loads, b);
    EncodedFilled(ot.peer, was, masks, bins, codes, loads, slots, b);
    EncodeBinBySlot(ot, perm, bins[b], codes, recvMasks, otIdx);
    EncodedMore(ot.peer, was, ot.choices, masks, recvMasks[..], bins, codes, loads, slots, b, places);
  }
}
