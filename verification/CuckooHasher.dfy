/** The cuckoo hash table with a stash of fixed size. */
module CuckooHasher {
  import opened CuckooChain
  import opened CuckooTable
  import opened CuckooRounds
  import opened Wrappers

  /** AlreadyInserted and StashOverflow are where the source throws or runs off the stash. */
  datatype Outcome = Done | AlreadyInserted | StashOverflow

  class CuckooHasher {
    const nh: nat
    const mHashes: array<seq<nat>>
    const mBins: array<nat>
    const mStash: array<nat>
    /** The items in the slots, each as often as it is there, and those that a lookup finds. */
    ghost var held: multiset<nat>
    ghost var live: set<nat>

    ghost predicate Valid()
      reads this, mHashes, mBins, mStash
    {
      && mHashes as object != mBins && mHashes as object != mStash && mBins != mStash
      && Holds(mHashes[..], nh, mBins[..], mStash[..], held, live)
    }

    /** Every item is in the table once, and lookups find all of them. */
    ghost predicate Once()
      reads this
    {
      held == multiset(live)
    }

    constructor (n: nat, numHashes: nat, binCount: nat, stashSize: nat)
      requires 0 < numHashes < 255 && n < SHIFT && binCount > 0
      ensures Valid() && Once() && live == {} && nh == numHashes && mHashes.Length == n
      ensures mBins.Length == binCount && mStash.Length == stashSize
      ensures forall x | 0 <= x < n :: |mHashes[x]| == nh && mHashes[x][0] == EMPTY
      ensures (forall b | 0 <= b < binCount :: mBins[b] == EMPTY) && forall i | 0 <= i < stashSize :: mStash[i] == EMPTY
      ensures fresh(mHashes) && fresh(mBins) && fresh(mStash)
    {
      nh := numHashes;
      mHashes := new seq<nat>[n](_ => seq<nat>(numHashes, _ => EMPTY));
      mBins := new nat[binCount](_ => EMPTY);
      mStash := new nat[stashSize](_ => EMPTY);
      held, live := multiset{}, {};
      new;
      hide Occupants, Homed, Address;
      var none: multiset<nat> := multiset{};
      assert none + none + none == none;
      assert mBins[..] == seq(binCount, _ => EMPTY) && mStash[..] == seq(stashSize, _ => EMPTY);
      OccupantsEmpty(binCount);
      OccupantsEmpty(stashSize);
    }

    /** The account with the packed entry `v` in hand, if there is one. */
    ghost predicate Missing(v: nat)
      reads this, mHashes, mBins, mStash
    {
      && mHashes as object != mBins && mHashes as object != mStash && mBins != mStash
      && Account(mHashes[..], nh, mBins[..], mStash[..], One(v) + multiset{}, held, live)
      && SlotOk(mHashes[..], nh, v)
    }

    lemma NothingMissing()
      requires Missing(EMPTY)
      ensures Valid()
    {
      hide Account;
      NobodyInEmpty();
      var none: multiset<nat> := multiset{};
      assert none + none == none;
    }

    lemma TakeInHand(x: nat)
      requires Holds(mHashes[..], nh, mBins[..], mStash[..], held, live - {x}) && x < mHashes.Length
      ensures Filled(mHashes[..], nh, Pack(x, 0))
      ensures Account(mHashes[..], nh, mBins[..], mStash[..], One(Pack(x, 0)) + multiset{}, held + multiset{x},
              live + {x})
    {
      assert Sized(mHashes[..], nh);
      hide Account;
      OnePacked(x, 0);
      PackRoundTrip(x, 0);
      AccountJoin(mHashes[..], nh, mBins[..], mStash[..], multiset{}, held, live - {x}, multiset{x}, {x});
      assert multiset{} + multiset{x} == One(Pack(x, 0)) + multiset{} && live - {x} + {x} == live + {x};
    }

    /** What an overflow does: somebody who was held is lost, and only who was lost may be missed by lookups. */
    ghost predicate Lost(held0: multiset<nat>, live0: set<nat>, lost: multiset<nat>)
      reads this
    {
      held + lost == held0 && live <= live0 && forall x | x in live0 && x !in lost :: x in live
    }

    ghost predicate LostSome(held0: multiset<nat>, live0: set<nat>)
      reads this
    {
      exists lost :: lost != multiset{} && Lost(held0, live0, lost)
    }

    /** Losing the entry in hand leaves a table that holds everybody else. */
    ghost method Drop(v: nat)
      requires Missing(v) && v != EMPTY
      modifies `held, `live
      ensures Valid() && Lost(old(held), old(live), multiset{IdxOf(v)})
    {
      hide Account, Homed, Occupants, StillFound, IdxOf;
      AccountLoseOne(mHashes[..], nh, mBins[..], mStash[..], v, held, live);
      held, live := held - multiset{IdxOf(v)}, StillFound(mHashes[..], nh, mBins[..], mStash[..], live);
    }

    /**
      Inserts one item. The guard looks at the first hash value recorded for the item: unless that is the
      empty mark the item is refused, and nothing changes. Otherwise the item joins the table, once more
      if it was there before, and its hash values are the new ones. The chain of evictions it starts is followed
      for 101 exchanges: if it ends within them the stash is left alone, and if not the last one evicted goes
      to the stash, which overflows if and only if it is full.
     */
    method Insert(inputIdx: nat, hashs: seq<nat>) returns (r: Outcome)
      requires Valid() && inputIdx < mHashes.Length && |hashs| >= nh
      modifies mHashes, mBins, mStash, `held, `live
      ensures Valid()
      ensures r == AlreadyInserted <==> old(mHashes[inputIdx][0]) != EMPTY
      ensures r == AlreadyInserted ==> held == old(held) && live == old(live) && mHashes[..] == old(mHashes[..])
      ensures r == AlreadyInserted ==> mBins[..] == old(mBins[..]) && mStash[..] == old(mStash[..])
      ensures r != AlreadyInserted ==> mHashes[..] == old(mHashes[..])[inputIdx := hashs[..nh]]
      ensures r == Done ==> held == old(held) + multiset{inputIdx} && live == old(live) + {inputIdx}
      ensures r == StashOverflow ==> exists lost ::
              Lost(old(held) + multiset{inputIdx}, old(live) + {inputIdx}, multiset{lost})
      ensures old(Once()) && inputIdx !in old(live) ==> Once()
      ensures r != AlreadyInserted ==>
                var (bins, hand) := Rounds(mHashes[..], nh, old(mBins[..]), [inputIdx], 101);
                mBins[..] == bins && ChainEnd(nh, hand, old(mStash[..]), mStash[..], r == Done)
    {
      hide Account, Homed, Occupants, Rounds, ChainEnd;
      SomeHash(inputIdx);
      SomeBins();
      if mHashes[inputIdx][0] != EMPTY {
        return AlreadyInserted;
      }
      AccountRow(mHashes[..], nh, mBins[..], mStash[..], multiset{}, held, live, inputIdx, hashs[..nh]);
      ghost var rows := mHashes[..];
      mHashes[inputIdx] := hashs[..nh];
      assert mHashes[..] == rows[inputIdx := hashs[..nh]];
      TakeInHand(inputIdx);
      held, live := held + multiset{inputIdx}, live + {inputIdx};
      assert Missing(Pack(inputIdx, 0)) && Pack(inputIdx, 0) == inputIdx;
      var left := InsertHelper(inputIdx, 0, 0);
      assert mHashes[..] == rows[inputIdx := hashs[..nh]];
      if left == EMPTY {
        NothingMissing();
        r := Done;
      } else {
        Drop(left);
        r := StashOverflow;
        if old(Once()) && inputIdx !in old(live) {
          assert multiset(old(live) + {inputIdx}) == multiset(old(live)) + multiset{inputIdx};
          OnceLess(old(live) + {inputIdx}, multiset{IdxOf(left)});
        }
      }
    }

    /**
      How a chain ends: with nothing in hand and the stash as it was, or with the last one evicted, who would go on to
      its next hash function, pushed into the stash. `done` if nobody fell off its end.
     */
    static ghost predicate ChainEnd(nh: nat, hand: seq<nat>, stash: seq<nat>, stash': seq<nat>, done: bool)
      requires nh > 0
    {
      && (hand == [] ==> done && stash' == stash)
      && (hand != [] ==> (done <==> HasRoom(stash, 1)) && exists v: nat :: LastEvicted(nh, hand, stash, stash', v))
    }

    static ghost predicate LastEvicted(nh: nat, hand: seq<nat>, stash: seq<nat>, stash': seq<nat>, v: nat)
      requires nh > 0
    {
      v != EMPTY && hand == [Advance(v, nh)] && Pushed(stash, [v], stash')
    }

    static lemma ChainSettled(nh: nat, stash: seq<nat>)
      requires nh > 0
      ensures ChainEnd(nh, [], stash, stash, true)
    {}

    static lemma ChainStashed(nh: nat, stash: seq<nat>, stash': seq<nat>, v: nat)
      requires nh > 0 && v != EMPTY && Pushed(stash, [v], stash')
      ensures ChainEnd(nh, [Advance(v, nh)], stash, stash', HasRoom(stash, 1))
    {
      assert LastEvicted(nh, [Advance(v, nh)], stash, stash', v);
    }

    /** A table that held everybody once and lost somebody holds the others once. */
    lemma OnceLess(live0: set<nat>, lost: multiset<nat>)
      requires Valid() && Lost(multiset(live0), live0, lost)
      ensures Once()
    {
      hide Account;
      forall x ensures held[x] == multiset(live)[x] {
        assert (held + lost)[x] == multiset(live0)[x];
        if x in live {
          LiveIsHeld(mHashes[..], nh, mBins[..], mStash[..], held, live, x);
        }
      }
    }

    /**
      Every repeat of an item just inserted, whatever the hash values are: it is refused if and only if
      the first value recorded is not the empty mark. A repeat that is not refused is in the table twice.
     */
    method InsertTwice(inputIdx: nat, hashs: seq<nat>, again: seq<nat>) returns (first: Outcome, second: Outcome)
      requires Valid() && inputIdx < mHashes.Length && |hashs| >= nh && |again| >= nh && mHashes[inputIdx][0] == EMPTY
      modifies mHashes, mBins, mStash, `held, `live
      ensures Valid() && first != AlreadyInserted && |hashs| > 0
      ensures second == AlreadyInserted <==> hashs[0] != EMPTY
      ensures first == Done && second == Done ==>
                held == old(held) + multiset{inputIdx, inputIdx} && live == old(live) + {inputIdx}
                    && mHashes[inputIdx] == again[..nh]
    {
      hide Account;
      SomeHash(inputIdx);
      first := Insert(inputIdx, hashs);
      assert mHashes[inputIdx] == mHashes[..][inputIdx];
      second := Insert(inputIdx, again);
      assert second != AlreadyInserted ==> mHashes[..][inputIdx] == again[..nh];
    }

    lemma SomeHash(x: nat)
      requires Valid() && x < mHashes.Length
      ensures |mHashes[x]| == nh > 0
    {
      assert mHashes[..][x] == mHashes[x];
    }

    /** Puts an entry in its bin and its victim in the victim's next bin, a hundred times over at most. */
    method InsertHelper(inputIdx: nat, hashIdx: nat, numTries: nat) returns (left: nat)
      requires Missing(Pack(inputIdx, hashIdx)) && inputIdx < mHashes.Length && hashIdx < nh && numTries <= MAX_TRIES
      modifies mBins, mStash
      ensures Missing(left)
      ensures 101 - numTries >= 0
      ensures var (bins, hand) := Rounds(mHashes[..], nh, old(mBins[..]), [Pack(inputIdx, hashIdx)], 101 - numTries);
              mBins[..] == bins && ChainEnd(nh, hand, old(mStash[..]), mStash[..], left == EMPTY)
      decreases MAX_TRIES - numTries
    {
      hide Occupants, FilledPrefix, SlotsOk, IdxOf, HashIdxOf, Pack, Reachable, Rounds, Exchanged, Evicted, Home,
        Advance, Pushed, HasRoom, ChainEnd, LastEvicted;
      PackRoundTrip(inputIdx, hashIdx);
      var addr := mHashes[inputIdx][hashIdx] % mBins.Length;
      var newVal := Pack(inputIdx, hashIdx);
      assert Address(mHashes[..], nh, mBins.Length, newVal) == addr;
      AccountBin(mHashes[..], nh, mBins[..], mStash[..], newVal, multiset{}, held, live);
      ghost var before := mBins[..];
      var oldVal := mBins[addr];
      mBins[addr] := newVal;
      assert mBins[..] == before[addr := newVal];
      assert Missing(oldVal);
      AddressOf(mHashes[..], nh, mBins.Length, inputIdx, hashIdx);
      ExchangeOnly(mHashes[..], before, newVal);
      EvictedOne(oldVal, nh);
      NextRound(mHashes[..], nh, before, [newVal], 101 - numTries);
      if oldVal == EMPTY {
        NoRounds(mHashes[..], nh, mBins[..], [], 100 - numTries);
        ChainSettled(nh, mStash[..]);
        return EMPTY;
      }
      var idx, h := IdxOf(oldVal), HashIdxOf(oldVal);
      if numTries < MAX_TRIES {
        AdvanceFilled(mHashes[..], nh, oldVal);
        AdvanceIs(oldVal, nh);
        left := InsertHelper(idx, (h + 1) % nh, numTries + 1);
      } else {
        NoRounds(mHashes[..], nh, mBins[..], [Advance(oldVal, nh)], 0);
        left := StashOne(oldVal);
        ChainStashed(nh, old(mStash[..]), mStash[..], oldVal);
      }
    }

    static lemma AdvanceIs(v: nat, nh: nat)
      requires nh > 0
      ensures Advance(v, nh) == Pack(IdxOf(v), (HashIdxOf(v) + 1) % nh)
    {}

    lemma StashFilledUpTo(v: nat) returns (f: nat)
      requires Missing(v)
      ensures f <= mStash.Length && forall i | 0 <= i < mStash.Length :: mStash[i] == EMPTY <==> f <= i
    {
      hide Homed, Occupants;
      f := FilledUpTo(mStash[..]);
    }

    /** Shifts an entry into the front of the stash; what falls off the end is left in hand. */
    method StashOne(v: nat) returns (left: nat)
      requires Missing(v) && v != EMPTY
      modifies mStash
      ensures Missing(left)
      ensures left != EMPTY ==> forall i | 0 <= i < mStash.Length :: mStash[i] != EMPTY
      ensures Pushed(old(mStash[..]), [v], mStash[..]) && (left == EMPTY <==> HasRoom(old(mStash[..]), 1))
    {
      hide Account, PushedSoFar, PushedValue, Pushed, HasRoom;
      ghost var was := mStash[..];
      ghost var f := StashFilledUpTo(v);
      NonePushed(was, v, f);
      left := v;
      var i := 0;
      while left != EMPTY && i < mStash.Length
        invariant Missing(left) && i <= mStash.Length
        invariant PushedSoFar(was, [v], mStash[..], f, i) && i <= f + 1
        invariant left == if i == f + 1 then EMPTY else PushedValue(was, [v], f, i)
        decreases mStash.Length - i
      {
        ghost var before := mStash[..];
        FrontFilled(was, v, before, f, i);
        AccountStash(mHashes[..], nh, mBins[..], before, i, left, multiset{}, held, live);
        PushMore(was, [v], before, f, i);
        left, mStash[i] := mStash[i], left;
        assert mStash[..] == before[i := mStash[i]];
        i := i + 1;
      }
      AllPushed(was, v, mStash[..], f, i, left);
    }

    static lemma NonePushed(was: seq<nat>, v: nat, f: nat)
      requires f <= |was|
      ensures PushedSoFar(was, [v], was, f, 0) && PushedValue(was, [v], f, 0) == v
    {}

    static lemma FrontFilled(was: seq<nat>, v: nat, now: seq<nat>, f: nat, i: nat)
      requires v != EMPTY && f <= |was| && (forall j | 0 <= j < |was| :: was[j] == EMPTY <==> f <= j)
      requires PushedSoFar(was, [v], now, f, i) && i <= f
      ensures forall j | 0 <= j < i :: now[j] != EMPTY
      ensures i < |was| ==> now[i] == was[i] == if i == f then EMPTY else PushedValue(was, [v], f, i + 1)
    {
      forall j: nat | j < i ensures now[j] != EMPTY {
        assert now[j] == PushedValue(was, [v], f, j);
      }
    }

    static lemma AllPushed(was: seq<nat>, v: nat, now: seq<nat>, f: nat, i: nat, left: nat)
      requires v != EMPTY && f <= |was| && (forall j | 0 <= j < |was| :: was[j] == EMPTY <==> f <= j)
      requires PushedSoFar(was, [v], now, f, i) && i <= f + 1
      requires left == if i == f + 1 then EMPTY else PushedValue(was, [v], f, i)
      requires left == EMPTY || i >= |was|
      ensures Pushed(was, [v], now) && (left == EMPTY <==> HasRoom(was, 1))
      ensures left != EMPTY ==> forall j | 0 <= j < |was| :: now[j] != EMPTY
    {
      if left != EMPTY {
        FrontFilled(was, v, now, f, i);
      }
      assert PushedAt(was, [v], now, f);
    }

    // ----- batches -----

    /**
      Inserts a batch, whose items may repeat and may be in the table already. On a stash overflow,
      where the source throws, the entries still in hand are lost and the table holds the others.
     */
    method InsertBatch(inputIdxs: array<nat>, hashs: seq<seq<nat>>, w: Workspace) returns (ok: bool)
      requires Valid() && BatchOk(mHashes.Length, nh, inputIdxs[..], hashs)
      requires Fits(w, inputIdxs.Length) && Separate(mHashes, mBins, inputIdxs, w)
      requires mStash != inputIdxs && mStash != w.curAddrs && mStash != w.curHashIdxs && mStash != w.oldVals
      modifies mHashes, mBins, mStash, `held, `live, inputIdxs, w.curAddrs, w.curHashIdxs, w.oldVals
      ensures Valid() && RowsRecorded(old(mHashes[..]), mHashes[..], old(inputIdxs[..]), hashs)
      ensures ok ==> held == old(held) + multiset(old(inputIdxs[..])) && live == old(live) + Members(old(inputIdxs[..]))
      ensures !ok ==> LostSome(old(held) + multiset(old(inputIdxs[..])), old(live) + Members(old(inputIdxs[..])))
      ensures old(Once()) && Fresh(old(live), old(inputIdxs[..])) ==> Once()
      ensures var (bins, hand) := Rounds(mHashes[..], nh, old(mBins[..]), old(inputIdxs[..]), 100);
              && mBins[..] == bins && (ok <==> HasRoom(old(mStash[..]), |hand|))
              && (hand == [] ==> mStash[..] == old(mStash[..]))
              && (hand != [] ==> Pushed(old(mStash[..]), hand, mStash[..]))
    {
      hide Holds, InProgress, Occupants, RowsRecorded, Members, Fresh, Rounds, HandSeq, Pushed, HasRoom;
      ghost var items := inputIdxs[..];
      RecordBatch(mHashes, nh, mBins[..], mStash[..], held, live, inputIdxs, hashs, w.curHashIdxs);
      BatchInHand(mHashes[..], nh, mBins[..], mStash[..], held, live, items, hashs, w.curHashIdxs[..]);
      held, live := held + multiset(items), live + Members(items);
      ghost var rows := mHashes[..];
      AtFirstHash(items, w.curHashIdxs[..]);
      BinsThere(rows, nh, mBins[..], mStash[..], held, live, items, w.curHashIdxs[..], |items|);
      var remaining := PushThrough(mHashes, nh, mBins, mStash[..], held, live, inputIdxs, w, inputIdxs.Length);
      assert mHashes[..] == rows;
      ok := StashAll(inputIdxs, w.curHashIdxs, remaining);
      assert mHashes[..] == rows;
      if old(Once()) && Fresh(old(live), items) {
        FreshOnce(old(live), items);
        if !ok {
          var lost :| lost != multiset{} && Lost(old(held) + multiset(items), old(live) + Members(items), lost);
          OnceLess(old(live) + Members(items), lost);
        }
      }
    }

    /** Puts what remains in hand into the stash, each entry after the slots the last one filled. */
    method StashAll(idxs: array<nat>, hs: array<nat>, remaining: nat) returns (ok: bool)
      requires mHashes as object != mBins && mHashes as object != mStash && mBins != mStash
      requires idxs != hs && idxs != mStash && hs != mStash && idxs != mBins && hs != mBins
      requires mHashes as object != idxs && mHashes as object != hs
      requires remaining <= idxs.Length && remaining <= hs.Length
      requires InProgress(mHashes[..], nh, mBins[..], mStash[..], held, live, idxs[..], hs[..], remaining)
      modifies mStash, idxs, hs, `held, `live
      ensures Valid() && (ok ==> held == old(held) && live == old(live))
      ensures !ok ==> LostSome(old(held), old(live))
      ensures ok <==> HasRoom(old(mStash[..]), remaining)
      ensures remaining == 0 ==> mStash[..] == old(mStash[..])
      ensures remaining > 0 ==> Pushed(old(mStash[..]), old(HandSeq(idxs[..], hs[..], 0, remaining)), mStash[..])
    {
      hide Occupants, Rest, IdxOf, HashIdxOf, Pack, HandSeq, PushedSoFar, StillInHand, Pushed, HasRoom;
      RestStart(mStash[..], idxs[..], hs[..], remaining);
      ghost var start, e := mStash[..], HandSeq(idxs[..], hs[..], 0, remaining);
      ghost var f := RestFilledUpTo(mStash[..], idxs[..], hs[..], 0, remaining, 0);
      AllInHand(start, idxs[..], hs[..], remaining, f);
      ok := true;
      var i, j := 0, 0;
      while i < remaining
        invariant i <= remaining && j <= mStash.Length && held == old(held) && live == old(live)
        invariant Rest(mStash[..], idxs[..], hs[..], i, remaining, j)
        invariant remaining > 0 ==> PushedSoFar(start, e, mStash[..], f, j)
        invariant remaining > 0 ==> StillInHand(start, e, idxs[..], hs[..], i, f, j)
        invariant remaining == 0 ==> mStash[..] == start
        decreases mStash.Length - j, remaining - i
      {
        if j >= mStash.Length {
          NoRoomLeft(start, e, mStash[..], idxs[..], hs[..], i, f, j);
          LoseHand(idxs[..], hs[..], i, remaining, j);
          return false;
        }
        ghost var before, idxs0, hs0 := mStash[..], idxs[..], hs[..];
        var was := mStash[j];
        mStash[j] := Pack(idxs[i], hs[i]);
        assert mStash[..] == before[j := Pack(idxs0[i], hs0[i])];
        PushNext(start, e, before, idxs0, hs0, i, f, j);
        if was == EMPTY {
          RestStep(before, idxs0, hs0, i, remaining, j);
          idxs[i], hs[i] := EMPTY, EMPTY;
          RestTail(mStash[..], idxs0, hs0, idxs[..], hs[..], i + 1, remaining, j + 1);
          NextAfterEmpty(start, e, idxs0, hs0, idxs[..], hs[..], i, f, j);
          i := i + 1;
        } else {
          RestSwap(before, idxs0, hs0, i, remaining, j);
          idxs[i], hs[i] := IdxOf(was), HashIdxOf(was);
          assert idxs[..] == idxs0[i := IdxOf(was)] && hs[..] == hs0[i := HashIdxOf(was)];
          NextAfterFilled(start, e, idxs0, hs0, i, f, j);
        }
        j := j + 1;
      }
      RestDone(mStash[..], idxs[..], hs[..], remaining, j);
      RoomFor(start, e, mStash[..], idxs[..], hs[..], remaining, f, j);
    }

    /** The next slot gets what is due there. It is empty if it is past the filled ones. */
    static lemma PushNext(was: seq<nat>, e: seq<nat>, now: seq<nat>, idxs: seq<nat>, hs: seq<nat>, i: nat, f: nat,
                          j: nat)
      requires f <= |was| && forall m | 0 <= m < |was| :: was[m] == EMPTY <==> f <= m
      requires i < |e| && j < |was| && PushedSoFar(was, e, now, f, j) && StillInHand(was, e, idxs, hs, i, f, j)
      ensures now[j] == was[j] && (was[j] == EMPTY <==> f <= j)
      ensures i < |idxs| && i < |hs| && PushedSoFar(was, e, now[j := Pack(idxs[i], hs[i])], f, j + 1)
    {
      hide Pack, PushedValue;
      PushMore(was, e, now, f, j);
    }

    static lemma NoRoomLeft(was: seq<nat>, e: seq<nat>, now: seq<nat>, idxs: seq<nat>, hs: seq<nat>, i: nat, f: nat,
                            j: nat)
      requires f <= |was| && forall m | 0 <= m < |was| :: was[m] == EMPTY <==> f <= m
      requires i < |e| && j == |was| && PushedSoFar(was, e, now, f, j) && StillInHand(was, e, idxs, hs, i, f, j)
      ensures Pushed(was, e, now) && !HasRoom(was, |e|)
    {
      hide Pack;
      assert PushedAt(was, e, now, f);
    }

    static lemma RoomFor(was: seq<nat>, e: seq<nat>, now: seq<nat>, idxs: seq<nat>, hs: seq<nat>, n: nat, f: nat,
                         j: nat)
      requires f <= |was| && |e| == n && forall m | 0 <= m < |was| :: was[m] == EMPTY <==> f <= m
      requires n > 0 ==> j <= |was| && PushedSoFar(was, e, now, f, j) && StillInHand(was, e, idxs, hs, n, f, j)
      ensures HasRoom(was, n) && (n > 0 ==> Pushed(was, e, now))
    {
      hide Pack;
      assert n > 0 ==> PushedAt(was, e, now, f);
    }

    lemma RestFilledUpTo(stash: seq<nat>, idxs: seq<nat>, hs: seq<nat>, i: nat, n: nat, j: nat) returns (f: nat)
      requires i <= n <= |idxs| && n <= |hs| && Rest(stash, idxs, hs, i, n, j)
      ensures f <= |stash| && forall m | 0 <= m < |stash| :: stash[m] == EMPTY <==> f <= m
    {
      hide Homed, Occupants, HandSeq;
      f := FilledUpTo(stash);
    }

    /** In hand is what goes to slot j next, at position i, and behind it the entries not yet begun. */
    static ghost predicate StillInHand(was: seq<nat>, e: seq<nat>, idxs: seq<nat>, hs: seq<nat>, i: nat, f: nat,
                                       j: nat) {
      && e != [] && f <= |was| && i <= |e| <= |idxs| && |e| <= |hs| && i == (if j <= f then 0 else j - f)
      && (i < |e| ==> Pack(idxs[i], hs[i]) == PushedValue(was, e, f, j))
      && forall m | i < m < |e| :: Pack(idxs[m], hs[m]) == e[m]
    }

    static lemma AllInHand(was: seq<nat>, idxs: seq<nat>, hs: seq<nat>, n: nat, f: nat)
      requires n <= |idxs| && n <= |hs| && f <= |was|
      ensures n > 0 ==> PushedSoFar(was, HandSeq(idxs, hs, 0, n), was, f, 0)
      ensures n > 0 ==> StillInHand(was, HandSeq(idxs, hs, 0, n), idxs, hs, 0, f, 0)
    {
      hide Pack;
    }

    static lemma NextAfterEmpty(was: seq<nat>, e: seq<nat>, idxs: seq<nat>, hs: seq<nat>, idxs': seq<nat>,
                                hs': seq<nat>,
                         i: nat, f: nat, j: nat)
      requires StillInHand(was, e, idxs, hs, i, f, j) && i < |e| && f <= j
      requires |idxs'| == |idxs| && |hs'| == |hs|
      requires forall m | i < m < |e| :: idxs'[m] == idxs[m] && hs'[m] == hs[m]
      ensures StillInHand(was, e, idxs', hs', i + 1, f, j + 1)
    {
      hide Pack;
    }

    static lemma NextAfterFilled(was: seq<nat>, e: seq<nat>, idxs: seq<nat>, hs: seq<nat>, i: nat, f: nat, j: nat)
      requires StillInHand(was, e, idxs, hs, i, f, j) && i < |e| && j < f
      ensures StillInHand(was, e, idxs[i := IdxOf(was[j])], hs[i := HashIdxOf(was[j])], i, f, j + 1)
    {
      assert Pack(IdxOf(was[j]), HashIdxOf(was[j])) == was[j];
      hide Pack, IdxOf, HashIdxOf;
    }

    /** The account with entries i to n - 1 in hand; the first j slots of `stash` are filled. */
    ghost predicate Rest(stash: seq<nat>, idxs: seq<nat>, hs: seq<nat>, i: nat, n: nat, j: nat)
      requires i <= n <= |idxs| && n <= |hs|
      reads this, mHashes, mBins
    {
      && Account(mHashes[..], nh, mBins[..], stash, Occupants(HandSeq(idxs, hs, i, n)), held, live)
      && j <= |stash| && (forall m | 0 <= m < j :: stash[m] != EMPTY)
      && forall m | i <= m < n :: idxs[m] < mHashes.Length && hs[m] < nh
    }

    lemma RestStart(stash: seq<nat>, idxs: seq<nat>, hs: seq<nat>, n: nat)
      requires n <= |idxs| && n <= |hs| && InProgress(mHashes[..], nh, mBins[..], stash, held, live, idxs, hs, n)
      ensures Rest(stash, idxs, hs, 0, n, 0)
    {
      hide Account;
    }

    static lemma HandHead(idxs: seq<nat>, hs: seq<nat>, i: nat, n: nat)
      requires i < n <= |idxs| && n <= |hs|
      ensures Occupants(HandSeq(idxs, hs, i, n)) == One(Pack(idxs[i], hs[i])) + Occupants(HandSeq(idxs, hs, i + 1, n))
    {
      hide Occupants, One, Pack;
      var rest := HandSeq(idxs, hs, i + 1, n);
      assert HandSeq(idxs, hs, i, n) == [Pack(idxs[i], hs[i])] + rest;
      OccupantsAppend([Pack(idxs[i], hs[i])], rest);
      OccupantsOne(Pack(idxs[i], hs[i]));
    }

    lemma HeadFilled(stash: seq<nat>, idxs: seq<nat>, hs: seq<nat>, i: nat, n: nat, j: nat)
      requires i < n <= |idxs| && n <= |hs| && Rest(stash, idxs, hs, i, n, j)
      ensures Filled(mHashes[..], nh, Pack(idxs[i], hs[i])) && Pack(idxs[i], hs[i]) != EMPTY
    {
      hide Occupants, HandSeq;
      PackRoundTrip(idxs[i], hs[i]);
    }

    /** The head of the hand fills an empty slot. */
    lemma RestStep(stash: seq<nat>, idxs: seq<nat>, hs: seq<nat>, i: nat, n: nat, j: nat)
      requires i < n <= |idxs| && n <= |hs| && j < |stash| && Rest(stash, idxs, hs, i, n, j) && stash[j] == EMPTY
      ensures Rest(stash[j := Pack(idxs[i], hs[i])], idxs, hs, i + 1, n, j + 1)
    {
      hide Occupants, One, Pack, HandSeq, Account;
      var v, rest := Pack(idxs[i], hs[i]), Occupants(HandSeq(idxs, hs, i + 1, n));
      HeadFilled(stash, idxs, hs, i, n, j);
      HandHead(idxs, hs, i, n);
      AccountStash(mHashes[..], nh, mBins[..], stash, j, v, rest, held, live);
      NobodyInEmpty();
      assert One(EMPTY) + rest == rest;
    }

    /** The head of the hand changes places with a filled slot. */
    lemma RestSwap(stash: seq<nat>, idxs: seq<nat>, hs: seq<nat>, i: nat, n: nat, j: nat)
      requires i < n <= |idxs| && n <= |hs| && j < |stash| && Rest(stash, idxs, hs, i, n, j) && stash[j] != EMPTY
      ensures Rest(stash[j := Pack(idxs[i], hs[i])], idxs[i := IdxOf(stash[j])], hs[i := HashIdxOf(stash[j])], i, n,
              j + 1)
    {
      hide Occupants, One, HandSeq, Account;
      var v, was, rest := Pack(idxs[i], hs[i]), stash[j], Occupants(HandSeq(idxs, hs, i + 1, n));
      var idxs', hs' := idxs[i := IdxOf(was)], hs[i := HashIdxOf(was)];
      HeadFilled(stash, idxs, hs, i, n, j);
      HandHead(idxs, hs, i, n);
      AccountStash(mHashes[..], nh, mBins[..], stash, j, v, rest, held, live);
      HandHead(idxs', hs', i, n);
      SameHand(idxs, hs, idxs', hs', i + 1, n);
      assert Pack(idxs'[i], hs'[i]) == was;
    }

    static lemma SameHand(idxs: seq<nat>, hs: seq<nat>, idxs': seq<nat>, hs': seq<nat>, i: nat, n: nat)
      requires i <= n <= |idxs| && n <= |hs| && n <= |idxs'| && n <= |hs'|
      requires forall m | i <= m < n :: idxs[m] == idxs'[m] && hs[m] == hs'[m]
      ensures HandSeq(idxs, hs, i, n) == HandSeq(idxs', hs', i, n)
    {}

    lemma RestTail(stash: seq<nat>, idxs: seq<nat>, hs: seq<nat>, idxs': seq<nat>, hs': seq<nat>, i: nat, n: nat,
                   j: nat)
      requires i <= n <= |idxs| && n <= |hs| && n <= |idxs'| && n <= |hs'| && Rest(stash, idxs, hs, i, n, j)
      requires forall m | i <= m < n :: idxs[m] == idxs'[m] && hs[m] == hs'[m]
      ensures Rest(stash, idxs', hs', i, n, j)
    {
      hide Occupants, Account, HandSeq;
      SameHand(idxs, hs, idxs', hs', i, n);
    }

    lemma RestDone(stash: seq<nat>, idxs: seq<nat>, hs: seq<nat>, n: nat, j: nat)
      requires n <= |idxs| && n <= |hs| && Rest(stash, idxs, hs, n, n, j)
      ensures Holds(mHashes[..], nh, mBins[..], stash, held, live)
    {
      hide Account;
      assert HandSeq(idxs, hs, n, n) == [];
      OccupantsNone();
    }

    /** Losing what is in hand leaves a table that holds everybody else. */
    ghost method LoseHand(idxs: seq<nat>, hs: seq<nat>, i: nat, n: nat, j: nat)
      requires i < n <= |idxs| && n <= |hs| && Rest(mStash[..], idxs, hs, i, n, j)
      requires mHashes as object != mBins && mHashes as object != mStash && mBins != mStash
      modifies `held, `live
      ensures Valid() && LostSome(old(held), old(live))
    {
      hide Rest, Occupants, HandSeq, StillFound, Account, Homed;
      var hand := Occupants(HandSeq(idxs, hs, i, n));
      SomebodyInHand(idxs, hs, i, n, j);
      var found := StillFound(mHashes[..], nh, mBins[..], mStash[..], live);
      AccountLose(mHashes[..], nh, mBins[..], mStash[..], hand, held, live);
      held, live := held - hand, found;
      assert Lost(old(held), old(live), hand);
    }

    lemma SomebodyInHand(idxs: seq<nat>, hs: seq<nat>, i: nat, n: nat, j: nat)
      requires i < n <= |idxs| && n <= |hs| && Rest(mStash[..], idxs, hs, i, n, j)
      ensures Occupants(HandSeq(idxs, hs, i, n)) != multiset{} && Sized(mHashes[..], nh)
      ensures Account(mHashes[..], nh, mBins[..], mStash[..], Occupants(HandSeq(idxs, hs, i, n)), held, live)
    {
      hide Occupants, HandSeq, Pack, Homed;
      HeadFilled(mStash[..], idxs, hs, i, n, j);
      HandHead(idxs, hs, i, n);
      assert IdxOf(Pack(idxs[i], hs[i])) in Occupants(HandSeq(idxs, hs, i, n));
    }

    // ----- lookup -----

    /** Scans the stash up to its first empty slot. */
    method FindInStash(q: seq<nat>) returns (r: nat)
      requires Valid() && |q| == nh && NotInBins(mHashes[..], mBins[..], q, nh)
      ensures Answers(mHashes[..], held, live, q, r)
    {
      hide Holds, IdxOf, NoMatch, NotInBins;
      var i := 0;
      while i < mStash.Length && mStash[i] != EMPTY
        invariant i <= mStash.Length && NotInStash(mHashes[..], mStash[..], q, i)
      {
        SlotIsHeld(mHashes[..], nh, mBins[..], mStash[..], held, live, mStash[..], i);
        var m := Matches(mHashes, nh, mStash[i], q);
        if m {
          return IdxOf(mStash[i]);
        }
        Missed(mStash[i], q);
        i := i + 1;
      }
      AbsentAnswers(mHashes[..], nh, mBins[..], mStash[..], held, live, q, i);
      r := EMPTY;
    }

    lemma Missed(v: nat, q: seq<nat>)
      requires IdxOf(v) < mHashes.Length && mHashes[IdxOf(v)] != q
      ensures NoMatch(mHashes[..], v, q)
    {}

    /** The item in bin `b` if it has vector `q`, and EMPTY otherwise. */
    method LookInBin(b: nat, q: seq<nat>) returns (r: nat)
      requires Valid() && b < mBins.Length && |q| == nh
      ensures HeldMatch(mHashes[..], held, q, r) && (r == EMPTY ==> NoMatch(mHashes[..], mBins[b], q))
    {
      hide Holds, IdxOf;
      if mBins[b] != EMPTY {
        SlotIsHeld(mHashes[..], nh, mBins[..], mStash[..], held, live, mBins[..], b);
        var m := Matches(mHashes, nh, mBins[b], q);
        if m {
          return IdxOf(mBins[b]);
        }
      }
      r := EMPTY;
    }

    lemma SomeBins()
      requires Valid()
      ensures mBins.Length > 0 && nh > 0
    {}

    /**
      Lookup by hash vector: the answer is an item in the table that has the vector, or EMPTY when
      there is none.
     */
    method Find(hashes: seq<nat>) returns (r: nat)
      requires Valid() && |hashes| >= nh
      ensures Answers(mHashes[..], held, live, hashes[..nh], r)
      ensures Once() ==> (r == EMPTY <==> forall x | x in live && x < mHashes.Length :: mHashes[x] != hashes[..nh])
    {
      hide Holds, NoMatch;
      var q := hashes[..nh];
      SomeBins();
      if nh == 2 {
        var r0 := LookInBin(q[0] % mBins.Length, q);
        if r0 != EMPTY {
          return r0;
        }
        var r1 := LookInBin(q[1] % mBins.Length, q);
        if r1 != EMPTY {
          return r1;
        }
      } else {
        for h := 0 to nh
          invariant NotInBins(mHashes[..], mBins[..], q, h)
        {
          r := LookInBin(q[h] % mBins.Length, q);
          if r != EMPTY {
            return r;
          }
        }
      }
      r := FindInStash(q);
    }

    /** After the bins and `s` stash slots, `r` is a match or EMPTY with no match so far. */
    ghost predicate Scanned(q: seq<nat>, r: nat, s: nat)
      requires |q| == nh && mBins.Length > 0 && s <= mStash.Length
      reads this, mHashes, mBins, mStash
    {
      && HeldMatch(mHashes[..], held, q, r)
      && (r == EMPTY ==> NotInBins(mHashes[..], mBins[..], q, nh) && NotInStash(mHashes[..], mStash[..], q, s))
    }

    /**
      Looks up many vectors at once, two hash functions only: false where the source throws.
      A later match overrides an earlier one, in the bins and then along the stash.
     */
    method FindBatch(hashes: seq<seq<nat>>, idxs: array<nat>) returns (ok: bool)
      requires Valid() && idxs.Length == |hashes| && forall i | 0 <= i < |hashes| :: |hashes[i]| == nh
      requires idxs != mBins && idxs != mStash && idxs as object != mHashes
      modifies idxs
      ensures ok == (nh == 2)
      ensures ok ==> forall i | 0 <= i < |hashes| :: Answers(mHashes[..], held, live, hashes[i], idxs[i])
    {
      hide Holds, NoMatch, Answers;
      if nh != 2 {
        return false;
      }
      SomeBins();
      for i := 0 to |hashes|
        invariant Valid() && forall m | 0 <= m < i :: Scanned(hashes[m], idxs[m], 0)
      {
        var r0 := LookInBin(hashes[i][0] % mBins.Length, hashes[i]);
        var r1 := LookInBin(hashes[i][1] % mBins.Length, hashes[i]);
        idxs[i] := if r1 != EMPTY then r1 else r0;
      }
      var s := 0;
      while s < mStash.Length && mStash[s] != EMPTY
        invariant Valid() && s <= mStash.Length
        invariant forall m | 0 <= m < |hashes| :: Scanned(hashes[m], idxs[m], s)
      {
        MatchStash(hashes, idxs, s);
        s := s + 1;
      }
      forall m | 0 <= m < |hashes|
        ensures Answers(mHashes[..], held, live, hashes[m], idxs[m])
      {
        ScannedAnswers(hashes[m], idxs[m], s);
      }
      ok := true;
    }

    /** Compares stash slot `s` with every query. */
    method MatchStash(hashes: seq<seq<nat>>, idxs: array<nat>, s: nat)
      requires Valid() && idxs.Length == |hashes| && forall i | 0 <= i < |hashes| :: |hashes[i]| == nh
      requires idxs != mBins && idxs != mStash && idxs as object != mHashes
      requires mBins.Length > 0 && s < mStash.Length && mStash[s] != EMPTY
      requires forall m | 0 <= m < |hashes| :: Scanned(hashes[m], idxs[m], s)
      modifies idxs
      ensures forall m | 0 <= m < |hashes| :: Scanned(hashes[m], idxs[m], s + 1)
    {
      hide Holds, IdxOf, NoMatch, NotInBins, Scanned;
      SlotIsHeld(mHashes[..], nh, mBins[..], mStash[..], held, live, mStash[..], s);
      var itemIdx, next := IdxOf(mStash[s]), s + 1;
      for j := 0 to |hashes|
        invariant forall m | 0 <= m < j :: Scanned(hashes[m], idxs[m], next)
        invariant forall m | j <= m < |hashes| :: Scanned(hashes[m], idxs[m], s)
      {
        var m := Matches(mHashes, nh, mStash[s], hashes[j]);
        ScanStep(hashes[j], idxs[j], s, itemIdx, m);
        if m {
          idxs[j] := itemIdx;
        }
      }
    }

    lemma ScanStep(q: seq<nat>, r: nat, s: nat, itemIdx: nat, m: bool)
      requires |q| == nh && mBins.Length > 0 && s < mStash.Length && Scanned(q, r, s)
      requires itemIdx == IdxOf(mStash[s]) < mHashes.Length && itemIdx in held && itemIdx != EMPTY
               && m == (mHashes[itemIdx] == q)
      ensures Scanned(q, if m then itemIdx else r, s + 1)
    {}

    lemma ScannedAnswers(q: seq<nat>, r: nat, s: nat)
      requires Valid() && |q| == nh && mBins.Length > 0 && s <= mStash.Length
               && (s < mStash.Length ==> mStash[s] == EMPTY)
      requires Scanned(q, r, s)
      ensures Answers(mHashes[..], held, live, q, r)
    {
      hide Holds, IdxOf, NoMatch, NotInBins, NotInStash;
      if r == EMPTY {
        AbsentAnswers(mHashes[..], nh, mBins[..], mStash[..], held, live, q, s);
      }
    }
  }

  /** The repeat that the guard misses: an item whose first hash value is the empty mark. */
  method MissedRepeat(binCount: nat, stashSize: nat) returns (second: Outcome)
    requires binCount > 0
    ensures second != AlreadyInserted
  {
    var table := new CuckooHasher(1, 2, binCount, stashSize);
    var hashs := [EMPTY, 0];
    assert hashs[0] == EMPTY;
    var first: Outcome;
    first, second := table.InsertTwice(0, hashs, hashs);
  }

  /** Two items that meet in one bin: without a stash the batch of them has room, after two rounds. */
  method MeetInOneBin() returns (ok: bool, bins: seq<nat>)
    ensures ok && bins == [1, SHIFT]
  {
    hide CuckooHasher.Once, Rounds, Pushed, CuckooHasher.LostSome, Fresh, Holds;
    var table := new CuckooHasher(2, 2, 2, 0);
    var items := new nat[] [0, 1];
    var w := new Workspace(2);
    var hashs := [[0, 1], [0, 1]];
    assert items[..] == [0, 1] && table.mBins[..] == [EMPTY, EMPTY];
    ok := table.InsertBatch(items, hashs, w);
    assert table.mHashes[..] == hashs;
    TwoRounds(table.mHashes[..], [EMPTY, EMPTY], [0, 1]);
    bins := table.mBins[..];
  }

  lemma TwoRounds(rows: Rows, start: seq<nat>, items: seq<nat>)
    requires rows == [[0, 1], [0, 1]] && start == [EMPTY, EMPTY] && items == [0, 1]
    ensures Rounds(rows, 2, start, items, 100) == ([1, SHIFT], [])
  {
    hide Rounds, Exchanged, Evicted;
    var olds: seq<nat>, last: seq<nat> := [EMPTY, 0], [EMPTY];
    RoundIs(rows, [start, [0, EMPTY], [1, EMPTY]], items, olds, 2);
    EvictedNone(2);
    EvictedMore([], EMPTY, 2);
    EvictedMore(last, 0, 2);
    assert items[..2] == items && olds[..2] == olds == last + [0] && last == [] + [EMPTY];
    assert Exchanged(rows, start, items) == ([1, EMPTY], olds);
    assert Evicted(last, 2) == [];
    assert Evicted(olds, 2) == [SHIFT];
    NextRound(rows, 2, start, items, 100);
    assert Rounds(rows, 2, start, items, 100) == Rounds(rows, 2, [1, EMPTY], [SHIFT], 99);
    RoundIs(rows, [[1, EMPTY], [1, SHIFT]], [SHIFT], last, 1);
    assert [SHIFT][..1] == [SHIFT] && last[..1] == last;
    assert Exchanged(rows, [1, EMPTY], [SHIFT]) == ([1, SHIFT], last);
    NextRound(rows, 2, [1, EMPTY], [SHIFT], 99);
    NoRounds(rows, 2, [1, SHIFT], [], 98);
  }

  /** The third of three items moves the other two on and finds the last bin: no stash is needed for that. */
  method ThirdMovesOn() returns (r: Outcome, bins: seq<nat>)
    ensures r == Done && bins == [2, SHIFT, SHIFT + 1]
  {
    hide CuckooHasher.Valid, CuckooHasher.Once, Rounds, HasRoom, Pushed, CuckooHasher.Lost;
    var table := new CuckooHasher(3, 2, 3, 0);
    var a, b := [0, 1], [1, 2];
    var none: seq<nat> := [EMPTY, EMPTY, EMPTY];
    assert table.mBins[..] == none;
    r := table.Insert(0, a);
    ThreeChains(table.mHashes[..]);
    r := table.Insert(1, b);
    ThreeChains(table.mHashes[..]);
    r := table.Insert(2, a);
    ThreeChains(table.mHashes[..]);
    bins := table.mBins[..];
  }

  lemma ThreeChains(rows: Rows)
    requires |rows| == 3 && rows[0] == [0, 1]
    ensures Rounds(rows, 2, [EMPTY, EMPTY, EMPTY], [0], 101) == ([0, EMPTY, EMPTY], [])
    ensures rows[1] == [1, 2] ==> Rounds(rows, 2, [0, EMPTY, EMPTY], [1], 101) == ([0, 1, EMPTY], [])
    ensures rows[1] == [1, 2] && rows[2] == [0, 1] ==>
              Rounds(rows, 2, [0, 1, EMPTY], [2], 101) == ([2, SHIFT, SHIFT + 1], [])
  {
    hide Rounds;
    ChainFits(rows, 2, [[EMPTY, EMPTY, EMPTY]], [0], [0, EMPTY, EMPTY]);
    if rows[1] == [1, 2] {
      ChainFits(rows, 2, [[0, EMPTY, EMPTY]], [1], [0, 1, EMPTY]);
      if rows[2] == [0, 1] {
        ChainFits(rows, 2, [[0, 1, EMPTY], [2, 1, EMPTY], [2, SHIFT, EMPTY]], [2, SHIFT, SHIFT + 1],
                  [2, SHIFT, SHIFT + 1]);
      }
    }
  }
}
