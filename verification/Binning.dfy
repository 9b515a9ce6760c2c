/**
  Threads that hash items into shared bins and then, behind a barrier, hand out output rows. A
  push reserves a slot of its bin by an atomic increment of the bin's 8-bit size and then writes
  it. The last thread to finish pushing opens the barrier; behind it each thread takes its bins
  one by one and reserves as many output positions as the bin has items.
 */
module Binning {
  import opened Bits
  import opened Permutations

  /**
    Thread t pushes the items work[t] and later reads the bins own[t]; item x hashes to bin addr[x].
    Between them the threads have every item and every bin exactly once, and no bin gets more items
    than its `maxSize` slots.
   */
  datatype Setup = Setup(numBins: nat, maxSize: nat, addr: seq<nat>, work: seq<seq<nat>>, own: seq<seq<nat>>)

  function ItemsOf(p: Setup, b: nat): (s: set<nat>)
    ensures forall x: nat :: x in s <==> x < |p.addr| && p.addr[x] == b
  {
    set x | x in Below(|p.addr|) && p.addr[x] == b
  }

  ghost predicate SetupOk(p: Setup) {
    && p.maxSize <= 255 && |p.work| == |p.own| > 0
    && SplitsBelow(p.work, |p.addr|) && SplitsBelow(p.own, p.numBins)
    && (forall x | 0 <= x < |p.addr| :: p.addr[x] < p.numBins)
    && forall b | 0 <= b < p.numBins :: |ItemsOf(p, b)| <= p.maxSize
  }

  datatype Phase =
    | Reserve(k: nat)          // about to increment the size of the bin of item k of its work
    | Write(k: nat, pos: nat)  // slot reserved, not yet written
    | Arrive                   // about to decrement the barrier's counter
    | Wait
    | Open                     // the last to have decremented it, about to open the barrier
    | Read(k: nat)             // behind the barrier, about to take bin k of its own
    | Finished

  /** `slots` is what has been written; `base` maps a bin to the first of its output positions. */
  datatype State = State(sizes: seq<nat>, slots: map<(nat, nat), nat>, remaining: nat, open: bool,
                         maskIdx: nat, base: map<nat, nat>, threads: seq<Phase>, at: map<nat, nat>)

  function NextItem(p: Setup, t: nat, k: nat): Phase
    requires t < |p.work|
  {
    if k < |p.work[t]| then Reserve(k) else Arrive
  }

  function NextBin(p: Setup, t: nat, k: nat): Phase
    requires t < |p.own|
  {
    if k < |p.own[t]| then Read(k) else Finished
  }

  function Init(p: Setup): State {
    State(seq(p.numBins, _ => 0), map[], |p.work|, false, 0, map[],
          seq(|p.work|, t requires 0 <= t < |p.work| => NextItem(p, t, 0)), map[])
  }

  /** The item that thread t handles at index k. */
  function WorkItem(p: Setup, t: nat, k: nat): nat
    requires t < |p.work| && k < |p.work[t]|
  {
    p.work[t][k]
  }

  /** A step of thread t. */
  ghost predicate StepOf(p: Setup, s: State, s': State, t: nat)
    requires SetupOk(p)
  {
    && t < |s.threads| == |p.work|
    && match s.threads[t]
       case Reserve(k) =>
         && k < |p.work[t]| && |s.sizes| == p.numBins
         && var x := p.work[t][k];
         && var pos := s.sizes[p.addr[x]];
         s' == s.(sizes := s.sizes[p.addr[x] := (pos + 1) % 256], threads := s.threads[t := Write(k, pos)],
             at := s.at[x := pos])
       case Write(k, pos) =>
         && k < |p.work[t]|
         && var x := p.work[t][k];
         s' == s.(slots := s.slots[(p.addr[x], pos) := x], threads := s.threads[t := NextItem(p, t, k + 1)])
       case Arrive =>
         && s.remaining > 0
         && s' == s.(remaining := s.remaining - 1,
             threads := s.threads[t := if s.remaining - 1 != 0 then Wait else Open])
       case Open => s' == s.(open := true, threads := s.threads[t := NextBin(p, t, 0)])
       case Wait => s.open && s' == s.(threads := s.threads[t := NextBin(p, t, 0)])
       case Read(k) =>
         && k < |p.own[t]| && |s.sizes| == p.numBins
         && var b := p.own[t][k];
         s' == s.(maskIdx := s.maskIdx + s.sizes[b], base := s.base[b := s.maskIdx],
             threads := s.threads[t := NextBin(p, t, k + 1)])
       case Finished => false
  }

  ghost predicate Step(p: Setup, s: State, s': State)
    requires SetupOk(p)
  {
    exists t: nat :: StepOf(p, s, s', t)
  }

  ghost predicate IsRun(p: Setup, run: seq<State>)
    requires SetupOk(p)
  {
    |run| > 0 && run[0] == Init(p) && forall i | 0 < i < |run| :: Step(p, run[i - 1], run[i])
  }

  /** Whether a thread has reserved the slot of item k of its work, and whether it has written it. */
  predicate HasReserved(ph: Phase, k: nat) {
    match ph
    case Reserve(j) => k < j
    case Write(j, _) => k <= j
    case _ => true
  }

  predicate HasWritten(ph: Phase, k: nat) {
    match ph
    case Reserve(j) => k < j
    case Write(j, _) => k < j
    case _ => true
  }

  /** Whether a thread has taken bin k of its own. */
  predicate HasTaken(ph: Phase, k: nat) {
    match ph
    case Read(j) => k < j
    case Finished => true
    case _ => false
  }

  predicate Pushing(ph: Phase) {
    ph.Reserve? || ph.Write? || ph.Arrive?
  }

  predicate Behind(ph: Phase) {
    ph.Read? || ph.Finished?
  }

  /** Item `x` is in its slot. */
  predicate Stored(p: Setup, s: State, x: nat) {
    && x in s.at && x < |p.addr|
    && (p.addr[x], s.at[x]) in s.slots && s.slots[(p.addr[x], s.at[x])] == x
  }

  ghost predicate Shape(p: Setup, s: State) {
    && |s.sizes| == p.numBins && |s.threads| == |p.work|
    && forall t | 0 <= t < |s.threads| :: PhaseOk(p, s, t)
  }

  ghost predicate PhaseOk(p: Setup, s: State, t: nat)
    requires t < |s.threads| == |p.work|
  {
    match s.threads[t]
    case Reserve(k) => k < |p.work[t]|
    case Write(k, pos) => k < |p.work[t]| && WorkItem(p, t, k) in s.at && s.at[WorkItem(p, t, k)] == pos
    case Read(k) => t < |p.own| && k < |p.own[t]|
    case _ => true
  }

  /** The items with a reserved slot in bin b. */
  function Placed(p: Setup, at: map<nat, nat>, b: nat): (r: set<nat>)
    ensures forall x: nat :: x in r <==> x in at && x < |p.addr| && p.addr[x] == b
    ensures r <= ItemsOf(p, b)
  {
    set x | x in at.Keys && x < |p.addr| && p.addr[x] == b
  }

  /** A bin's size counts its reserved slots, which lie below it, no two items at the same one. */
  ghost predicate SizesCount(p: Setup, s: State) {
    && |s.sizes| == p.numBins
    && (forall b | 0 <= b < p.numBins :: s.sizes[b] == |Placed(p, s.at, b)|)
    && (forall x | x in s.at :: x < |p.addr| && p.addr[x] < p.numBins && s.at[x] < s.sizes[p.addr[x]])
    && forall x, y | x in s.at && y in s.at && p.addr[x] == p.addr[y] && s.at[x] == s.at[y] :: x == y
  }

  ghost predicate ReservedSoFar(p: Setup, s: State) {
    && |s.threads| == |p.work|
    && forall t: nat, k: nat | t < |p.work| && k < |p.work[t]| ::
        HasReserved(s.threads[t], k) <==> WorkItem(p, t, k) in s.at
  }

  ghost predicate StoredSoFar(p: Setup, s: State) {
    && |s.threads| == |p.work|
    && forall t: nat, k: nat | t < |p.work| && k < |p.work[t]| ::
         HasWritten(s.threads[t], k) <==> Stored(p, s, WorkItem(p, t, k))
  }

  ghost predicate SlotsHoldItems(p: Setup, s: State) {
    forall c | c in s.slots :: Stored(p, s, s.slots[c]) && c == (p.addr[s.slots[c]], s.at[s.slots[c]])
  }

  function StillPushing(threads: seq<Phase>): (r: set<nat>)
    ensures forall t: nat :: t in r <==> t < |threads| && Pushing(threads[t])
  {
    set t | t in Below(|threads|) && Pushing(threads[t])
  }

  function Opening(threads: seq<Phase>): (r: set<nat>)
    ensures forall t: nat :: t in r <==> t < |threads| && threads[t].Open?
  {
    set t | t in Below(|threads|) && threads[t].Open?
  }

  /** One thread is on the way from the counter to the barrier once the counter is zero, until the barrier is open. */
  ghost predicate BarrierCounts(p: Setup, s: State) {
    && s.remaining == |StillPushing(s.threads)|
    && (s.open ==> s.remaining == 0)
    && |Opening(s.threads)| == (if s.remaining == 0 && !s.open then 1 else 0)
    && (s.base != map[] || s.maskIdx != 0 ==> s.open)
    && forall t | 0 <= t < |s.threads| && Behind(s.threads[t]) :: s.open
  }

  /** The items of the bins taken so far. */
  function TakenItems(p: Setup, base: map<nat, nat>): (r: set<nat>)
    ensures forall x: nat :: x in r <==> x < |p.addr| && p.addr[x] in base
  {
    set x | x in Below(|p.addr|) && p.addr[x] in base
  }

  /** The bins taken have disjoint intervals of output positions below `maskIdx`, one for each of their items. */
  ghost predicate Intervals(p: Setup, s: State) {
    && |s.sizes| == p.numBins
    && s.maskIdx == |TakenItems(p, s.base)|
    && (forall b | b in s.base :: b < p.numBins && s.base[b] + s.sizes[b] <= s.maskIdx)
    && forall b, c | b in s.base && c in s.base && b != c ::
         s.base[b] + s.sizes[b] <= s.base[c] || s.base[c] + s.sizes[c] <= s.base[b]
  }

  ghost predicate TakenSoFar(p: Setup, s: State) {
    && |s.threads| == |p.own|
    && forall t: nat, k: nat | t < |p.own| && k < |p.own[t]| :: HasTaken(s.threads[t], k) <==> OwnBin(p, t, k) in s.base
  }

  function OwnBin(p: Setup, t: nat, k: nat): nat
    requires t < |p.own| && k < |p.own[t]|
  {
    p.own[t][k]
  }

  ghost predicate Inv(p: Setup, s: State) {
    && Shape(p, s) && SizesCount(p, s) && ReservedSoFar(p, s) && StoredSoFar(p, s) && SlotsHoldItems(p, s)
    && BarrierCounts(p, s) && Intervals(p, s) && TakenSoFar(p, s)
  }

  lemma InitHolds(p: Setup)
    requires SetupOk(p)
    ensures Inv(p, Init(p))
  {
    hide SplitsBelow;
    var s := Init(p);
    InitCounts(p);
    assert TakenItems(p, s.base) == {};
    forall b | 0 <= b < p.numBins ensures s.sizes[b] == |Placed(p, s.at, b)| {
      assert Placed(p, s.at, b) == {};
    }
  }

  lemma InitCounts(p: Setup)
    requires SetupOk(p)
    ensures BarrierCounts(p, Init(p))
  {
    hide SplitsBelow;
    var s := Init(p);
    BelowSize(|p.work|);
    assert StillPushing(s.threads) == Below(|p.work|);
    assert Opening(s.threads) == {};
  }

  /** When the barrier is open nobody is pushing any more, so every item is in its slot. */
  lemma AllStored(p: Setup, s: State)
    requires SetupOk(p) && Inv(p, s) && s.open
    ensures forall t: nat | t < |s.threads| :: !Pushing(s.threads[t])
    ensures forall x: nat | x < |p.addr| :: Stored(p, s, x)
  {
    hide SizesCount, ReservedSoFar, SlotsHoldItems, Intervals, TakenSoFar;
    forall t: nat | t < |s.threads| ensures !Pushing(s.threads[t]) {
      assert StillPushing(s.threads) == {};
    }
    forall x: nat | x < |p.addr| ensures Stored(p, s, x) {
      assert HasPart(p.work, x);
      var t, k :| 0 <= t < |p.work| && 0 <= k < |p.work[t]| && p.work[t][k] == x;
      assert HasWritten(s.threads[t], k) && WorkItem(p, t, k) == x;
    }
  }

  /** Behind the barrier every bin's size is its load. */
  lemma SizesFinal(p: Setup, s: State, b: nat)
    requires SetupOk(p) && Inv(p, s) && s.open && b < p.numBins
    ensures s.sizes[b] == |ItemsOf(p, b)|
  {
    hide ReservedSoFar, SlotsHoldItems, Intervals, TakenSoFar, StoredSoFar, BarrierCounts, SplitsBelow;
    AllStored(p, s);
    forall x | x in ItemsOf(p, b) ensures x in Placed(p, s.at, b) {
      assert Stored(p, s, x);
    }
    assert Placed(p, s.at, b) == ItemsOf(p, b);
  }

  /** A bin with an item still to come has reserved fewer slots than it will. */
  lemma RoomLeft(p: Setup, s: State, x: nat)
    requires SizesCount(p, s) && x < |p.addr| && x !in s.at && p.addr[x] < p.numBins
    ensures s.sizes[p.addr[x]] < |ItemsOf(p, p.addr[x])|
  {
    hide Placed, ItemsOf;
    var b := p.addr[x];
    assert x !in Placed(p, s.at, b);
    assert |Placed(p, s.at, b) + {x}| == |Placed(p, s.at, b)| + 1;
    SubsetSize(Placed(p, s.at, b) + {x}, ItemsOf(p, b));
  }

  /** Reserving: the bin's size is below its true load, so the 8-bit counter does not wrap. */
  lemma ReserveFits(p: Setup, s: State, s': State, t: nat)
    requires SetupOk(p) && Inv(p, s) && StepOf(p, s, s', t) && s.threads[t].Reserve?
    ensures var b := p.addr[WorkItem(p, t, s.threads[t].k)];
            s.sizes[b] < |ItemsOf(p, b)| <= p.maxSize && s'.sizes == s.sizes[b := s.sizes[b] + 1]
  {
    hide SplitsBelow, StoredSoFar, SlotsHoldItems, BarrierCounts, Intervals, TakenSoFar, ReservedSoFar, ItemsOf,
      Placed, SizesCount;
    WorkItemIsFresh(p, s, t);
    RoomLeft(p, s, WorkItem(p, t, s.threads[t].k));
  }

  lemma ReserveCounts(p: Setup, s: State, x: nat, b: nat, pos: nat)
    requires SizesCount(p, s) && x < |p.addr| && x !in s.at && b < p.numBins && p.addr[x] < p.numBins
    ensures |Placed(p, s.at[x := pos], b)| == (if b == p.addr[x] then s.sizes[b] + 1 else s.sizes[b])
  {
    hide ItemsOf, Placed;
    if b == p.addr[x] {
      assert Placed(p, s.at[x := pos], b) == Placed(p, s.at, b) + {x};
    } else {
      assert Placed(p, s.at[x := pos], b) == Placed(p, s.at, b);
    }
  }

  lemma ReserveKeepsSizes(p: Setup, s: State, s': State, t: nat)
    requires SetupOk(p) && Inv(p, s) && StepOf(p, s, s', t) && s.threads[t].Reserve?
    ensures SizesCount(p, s')
  {
    hide SplitsBelow, StoredSoFar, SlotsHoldItems, BarrierCounts, Intervals, TakenSoFar, ReservedSoFar, ItemsOf, Placed;
    var x := WorkItem(p, t, s.threads[t].k);
    WorkItemIsFresh(p, s, t);
    ReserveFits(p, s, s', t);
    var pos := s.sizes[p.addr[x]];
    assert s'.at == s.at[x := pos];
    forall b: nat | b < p.numBins ensures s'.sizes[b] == |Placed(p, s'.at, b)| {
      ReserveCounts(p, s, x, b, pos);
    }
  }

  /** An item about to be reserved has no slot yet. */
  lemma WorkItemIsFresh(p: Setup, s: State, t: nat)
    requires SetupOk(p) && Inv(p, s) && t < |s.threads| && s.threads[t].Reserve?
    ensures s.threads[t].k < |p.work[t]|
    ensures WorkItem(p, t, s.threads[t].k) < |p.addr| && WorkItem(p, t, s.threads[t].k) !in s.at
  {
    var k := s.threads[t].k;
    assert PhaseOk(p, s, t);
    assert HasReserved(s.threads[t], k) <==> WorkItem(p, t, k) in s.at;
  }

  /** Items of different places in the threads' work are different. */
  lemma WorkItemsDiffer(p: Setup, t: nat, k: nat, t': nat, k': nat)
    requires SetupOk(p) && t < |p.work| && k < |p.work[t]| && t' < |p.work| && k' < |p.work[t']|
    ensures WorkItem(p, t, k) == WorkItem(p, t', k') <==> t == t' && k == k'
    ensures WorkItem(p, t, k) < |p.addr| && p.addr[WorkItem(p, t, k)] < p.numBins
  {
  }

  lemma OwnBinsDiffer(p: Setup, t: nat, k: nat, t': nat, k': nat)
    requires SetupOk(p) && t < |p.own| && k < |p.own[t]| && t' < |p.own| && k' < |p.own[t']|
    ensures OwnBin(p, t, k) == OwnBin(p, t', k') <==> t == t' && k == k'
    ensures OwnBin(p, t, k) < p.numBins
  {
  }

  lemma ReserveKeepsShape(p: Setup, s: State, s': State, t: nat)
    requires SetupOk(p) && Inv(p, s) && StepOf(p, s, s', t) && s.threads[t].Reserve?
    ensures Shape(p, s')
  {
    hide SplitsBelow, SizesCount, BarrierCounts, Intervals, TakenSoFar, ReservedSoFar, StoredSoFar, SlotsHoldItems,
      ItemsOf;
    WorkItemsDiffer(p, t, s.threads[t].k, t, s.threads[t].k);
    forall t': nat | t' < |s'.threads| ensures PhaseOk(p, s', t') {
      assert PhaseOk(p, s, t');
      if s.threads[t'].Write? {
        WorkItemsDiffer(p, t, s.threads[t].k, t', s.threads[t'].k);
      }
    }
  }

  lemma OthersLeaveSlots(p: Setup, s: State, s': State, t: nat)
    requires SetupOk(p) && Shape(p, s) && StepOf(p, s, s', t) && !s.threads[t].Reserve?
    ensures t < |s.threads| == |s'.threads| && s'.threads == s.threads[t := s'.threads[t]]
    ensures s'.at == s.at && s'.sizes == s.sizes && PhaseOk(p, s', t)
  {
    hide SplitsBelow, ItemsOf;
    assert PhaseOk(p, s, t);
  }

  lemma OthersKeepShape(p: Setup, s: State, s': State, t: nat)
    requires SetupOk(p) && Inv(p, s) && StepOf(p, s, s', t) && !s.threads[t].Reserve?
    ensures Shape(p, s')
  {
    hide SetupOk, StepOf, SizesCount, BarrierCounts, Intervals, TakenSoFar, ReservedSoFar, StoredSoFar, SlotsHoldItems;
    OthersLeaveSlots(p, s, s', t);
    forall t': nat | t' < |s'.threads| ensures PhaseOk(p, s', t') {
      assert PhaseOk(p, s, t');
    }
  }

  lemma ReserveKeepsPlaces(p: Setup, s: State, s': State, t: nat)
    requires SetupOk(p) && Inv(p, s) && StepOf(p, s, s', t) && s.threads[t].Reserve?
    ensures ReservedSoFar(p, s') && StoredSoFar(p, s') && SlotsHoldItems(p, s')
  {
    hide SplitsBelow, SizesCount, BarrierCounts, Intervals, TakenSoFar, ReservedSoFar, StoredSoFar;
    var k := s.threads[t].k;
    var x := WorkItem(p, t, k);
    WorkItemIsFresh(p, s, t);
    forall t': nat, k': nat | t' < |p.work| && k' < |p.work[t']|
      ensures HasReserved(s'.threads[t'], k') <==> WorkItem(p, t', k') in s'.at
      ensures HasWritten(s'.threads[t'], k') <==> Stored(p, s', WorkItem(p, t', k'))
    {
      PlacesOf(p, s, t', k');
      WorkItemsDiffer(p, t, k, t', k');
    }
    PlacesIntro(p, s');
  }

  /** What the invariant says of one item of a thread's work. */
  lemma PlacesOf(p: Setup, s: State, t: nat, k: nat)
    requires ReservedSoFar(p, s) && StoredSoFar(p, s) && t < |p.work| && k < |p.work[t]|
    ensures HasReserved(s.threads[t], k) <==> WorkItem(p, t, k) in s.at
    ensures HasWritten(s.threads[t], k) <==> Stored(p, s, WorkItem(p, t, k))
  {
  }

  lemma PlacesIntro(p: Setup, s: State)
    requires |s.threads| == |p.work|
    requires forall t: nat, k: nat | t < |p.work| && k < |p.work[t]| ::
             HasReserved(s.threads[t], k) <==> WorkItem(p, t, k) in s.at
    requires forall t: nat, k: nat | t < |p.work| && k < |p.work[t]| ::
             HasWritten(s.threads[t], k) <==> Stored(p, s, WorkItem(p, t, k))
    ensures ReservedSoFar(p, s) && StoredSoFar(p, s)
  {
  }

  /** The slot about to be written is inside the bin's row and nothing was ever written to it. */
  lemma WriteIsFresh(p: Setup, s: State, t: nat)
    requires SetupOk(p) && Inv(p, s) && t < |s.threads| && s.threads[t].Write?
    ensures var k := s.threads[t].k;
            k < |p.work[t]| && s.threads[t].pos < p.maxSize && (p.addr[WorkItem(p, t, k)], s.threads[t].pos) !in s.slots
  {
    hide SplitsBelow, BarrierCounts, Intervals, TakenSoFar, ReservedSoFar, StoredSoFar;
    var k := s.threads[t].k;
    assert PhaseOk(p, s, t);
    var x := WorkItem(p, t, k);
    PlacesOf(p, s, t, k);
    var b := p.addr[x];
    SubsetSize(Placed(p, s.at, b), ItemsOf(p, b));
    var c := (b, s.threads[t].pos);
    if c in s.slots {
      assert false;
    }
  }

  lemma WriteKeepsPlaces(p: Setup, s: State, s': State, t: nat)
    requires SetupOk(p) && Inv(p, s) && StepOf(p, s, s', t) && s.threads[t].Write?
    ensures ReservedSoFar(p, s') && StoredSoFar(p, s') && SlotsHoldItems(p, s')
  {
    hide SplitsBelow, SizesCount, BarrierCounts, Intervals, TakenSoFar, ReservedSoFar, StoredSoFar;
    var k, pos := s.threads[t].k, s.threads[t].pos;
    WriteIsFresh(p, s, t);
    assert PhaseOk(p, s, t);
    PlacesOf(p, s, t, k);
    var x := WorkItem(p, t, k);
    forall t': nat, k': nat | t' < |p.work| && k' < |p.work[t']|
      ensures HasReserved(s'.threads[t'], k') <==> WorkItem(p, t', k') in s'.at
      ensures HasWritten(s'.threads[t'], k') <==> Stored(p, s', WorkItem(p, t', k'))
    {
      PlacesOf(p, s, t', k');
      WorkItemsDiffer(p, t', k', t, k);
    }
    PlacesIntro(p, s');
  }

  /** A step behind the barrier or at it leaves items and slots alone. */
  lemma OthersKeepPlaces(p: Setup, s: State, s': State, t: nat)
    requires SetupOk(p) && Inv(p, s) && StepOf(p, s, s', t) && !s.threads[t].Reserve? && !s.threads[t].Write?
    ensures ReservedSoFar(p, s') && StoredSoFar(p, s') && SlotsHoldItems(p, s')
  {
    hide SplitsBelow, BarrierCounts, Intervals, TakenSoFar, ReservedSoFar, StoredSoFar, SizesCount;
    forall t': nat, k': nat | t' < |p.work| && k' < |p.work[t']|
      ensures HasReserved(s'.threads[t'], k') <==> WorkItem(p, t', k') in s'.at
      ensures HasWritten(s'.threads[t'], k') <==> Stored(p, s', WorkItem(p, t', k'))
    {
      PlacesOf(p, s, t', k');
    }
    PlacesIntro(p, s');
  }

  /** What a step of thread t does to the barrier. */
  lemma StepPasses(p: Setup, s: State, s': State, t: nat)
    requires SetupOk(p) && StepOf(p, s, s', t)
    ensures t < |s.threads| == |s'.threads| && s'.threads == s.threads[t := s'.threads[t]]
    ensures if s.threads[t].Arrive?
            then s.remaining > 0 && s'.remaining == s.remaining - 1 && s'.open == s.open
                 && s'.threads[t] == if s'.remaining == 0 then Open else Wait
            else s'.remaining == s.remaining && s'.open == (s.open || s.threads[t].Open?) && !s'.threads[t].Open?
                 && Pushing(s'.threads[t]) == Pushing(s.threads[t])
                 && (Behind(s'.threads[t]) ==> Behind(s.threads[t]) || s'.open)
    ensures s'.base != s.base || s'.maskIdx != s.maskIdx ==> s.threads[t].Read?
  {
    hide SetupOk, SplitsBelow;
  }

  lemma PushersChange(s: State, s': State, t: nat)
    requires t < |s.threads| == |s'.threads| && s'.threads == s.threads[t := s'.threads[t]]
    ensures Pushing(s'.threads[t]) == Pushing(s.threads[t]) ==> StillPushing(s'.threads) == StillPushing(s.threads)
    ensures Pushing(s.threads[t]) && !Pushing(s'.threads[t]) ==>
              |StillPushing(s'.threads)| == |StillPushing(s.threads)| - 1
  {
    hide Pushing;
    if Pushing(s.threads[t]) && !Pushing(s'.threads[t]) {
      assert StillPushing(s'.threads) == StillPushing(s.threads) - {t};
    } else if Pushing(s'.threads[t]) == Pushing(s.threads[t]) {
      assert StillPushing(s'.threads) == StillPushing(s.threads);
    }
  }

  lemma OpenersChange(s: State, s': State, t: nat)
    requires t < |s.threads| == |s'.threads| && s'.threads == s.threads[t := s'.threads[t]]
    ensures t in Opening(s.threads) <==> s.threads[t].Open?
    ensures |Opening(s'.threads)|
            == |Opening(s.threads)| + (if s'.threads[t].Open? then 1 else 0) - (if s.threads[t].Open? then 1 else 0)
  {
    if s'.threads[t].Open? == s.threads[t].Open? {
      assert Opening(s'.threads) == Opening(s.threads);
    } else if s'.threads[t].Open? {
      assert Opening(s'.threads) == Opening(s.threads) + {t};
    } else {
      assert Opening(s'.threads) == Opening(s.threads) - {t};
    }
  }

  lemma StepKeepsBarrier(p: Setup, s: State, s': State, t: nat)
    requires SetupOk(p) && BarrierCounts(p, s) && StepOf(p, s, s', t)
    ensures BarrierCounts(p, s')
  {
    hide SetupOk, StepOf, StillPushing, Opening;
    StepPasses(p, s, s', t);
    PushersChange(s, s', t);
    OpenersChange(s, s', t);
  }

  /** Only a thread behind the barrier changes the reservations of output positions. */
  lemma BeforeKeepsTaken(p: Setup, s: State, s': State, t: nat)
    requires SetupOk(p) && Inv(p, s) && StepOf(p, s, s', t) && !s.threads[t].Read?
    ensures TakenSoFar(p, s')
  {
    hide SplitsBelow, SizesCount, ReservedSoFar, StoredSoFar, SlotsHoldItems, BarrierCounts, Intervals, TakenSoFar,
      ItemsOf;
    assert PhaseOk(p, s, t);
    forall t': nat, k': nat | t' < |p.own| && k' < |p.own[t']|
      ensures HasTaken(s'.threads[t'], k') <==> OwnBin(p, t', k') in s'.base
    {
      TakenOf(p, s, t', k');
    }
    TakenIntro(p, s');
  }

  lemma BeforeKeepsIntervals(p: Setup, s: State, s': State, t: nat)
    requires SetupOk(p) && Inv(p, s) && StepOf(p, s, s', t) && !s.threads[t].Read?
    ensures Intervals(p, s')
  {
    hide SplitsBelow, SizesCount, ReservedSoFar, StoredSoFar, SlotsHoldItems, Shape, TakenSoFar, ItemsOf, TakenItems;
    if s.threads[t].Reserve? {
      assert t in StillPushing(s.threads);
      assert s.base == map[];
      WorkItemsDiffer(p, t, s.threads[t].k, t, s.threads[t].k);
    }
    assert s'.base == s.base && s'.maskIdx == s.maskIdx;
  }

  lemma ReadKeepsTaken(p: Setup, s: State, s': State, t: nat)
    requires SetupOk(p) && Inv(p, s) && StepOf(p, s, s', t) && s.threads[t].Read?
    ensures TakenSoFar(p, s')
  {
    hide SplitsBelow, SizesCount, ReservedSoFar, StoredSoFar, SlotsHoldItems, Shape, Intervals, BarrierCounts,
      TakenSoFar;
    var k := s.threads[t].k;
    forall t': nat, k': nat | t' < |p.own| && k' < |p.own[t']|
      ensures HasTaken(s'.threads[t'], k') <==> OwnBin(p, t', k') in s'.base
    {
      OwnBinsDiffer(p, t, k, t', k');
      TakenOf(p, s, t', k');
    }
    TakenIntro(p, s');
  }

  lemma TakenOf(p: Setup, s: State, t: nat, k: nat)
    requires TakenSoFar(p, s) && t < |p.own| && k < |p.own[t]|
    ensures HasTaken(s.threads[t], k) <==> OwnBin(p, t, k) in s.base
  {
  }

  lemma TakenIntro(p: Setup, s: State)
    requires |s.threads| == |p.own|
    requires forall t: nat, k: nat | t < |p.own| && k < |p.own[t]| ::
             HasTaken(s.threads[t], k) <==> OwnBin(p, t, k) in s.base
    ensures TakenSoFar(p, s)
  {
  }

  /** Taking a bin counts its items and no others. */
  lemma TakenCount(p: Setup, base: map<nat, nat>, b: nat, m: nat)
    requires b !in base
    ensures |TakenItems(p, base[b := m])| == |TakenItems(p, base)| + |ItemsOf(p, b)|
  {
    assert TakenItems(p, base[b := m]) == TakenItems(p, base) + ItemsOf(p, b);
    assert TakenItems(p, base) !! ItemsOf(p, b);
  }

  lemma ReadKeepsIntervals(p: Setup, s: State, s': State, t: nat)
    requires SetupOk(p) && Inv(p, s) && StepOf(p, s, s', t) && s.threads[t].Read?
    ensures Intervals(p, s')
  {
    hide SplitsBelow, SizesCount, ReservedSoFar, StoredSoFar, SlotsHoldItems, Shape, TakenSoFar, TakenItems, ItemsOf;
    var k := s.threads[t].k;
    var b := OwnBin(p, t, k);
    TakenOf(p, s, t, k);
    OwnBinsDiffer(p, t, k, t, k);
    SizesFinal(p, s, b);
    TakenCount(p, s.base, b, s.maskIdx);
  }

  lemma OthersKeepSizes(p: Setup, s: State, s': State, t: nat)
    requires SetupOk(p) && Inv(p, s) && StepOf(p, s, s', t) && !s.threads[t].Reserve?
    ensures SizesCount(p, s')
  {
    hide SplitsBelow, BarrierCounts, Intervals, TakenSoFar, ReservedSoFar, StoredSoFar, SlotsHoldItems, SizesCount,
      ItemsOf;
    assert s'.at == s.at && s'.sizes == s.sizes;
    SameSizes(p, s, s');
  }

  lemma SameSizes(p: Setup, s: State, s': State)
    requires SizesCount(p, s) && s'.at == s.at && s'.sizes == s.sizes
    ensures SizesCount(p, s')
  {}

  /** Every step of every thread keeps the invariant. */
  lemma StepKeeps(p: Setup, s: State, s': State)
    requires SetupOk(p) && Inv(p, s) && Step(p, s, s')
    ensures Inv(p, s')
  {
    hide SplitsBelow, SizesCount, ReservedSoFar, StoredSoFar, SlotsHoldItems, Shape, BarrierCounts, Intervals,
      TakenSoFar;
    var t: nat :| StepOf(p, s, s', t);
    StepKeepsBarrier(p, s, s', t);
    if s.threads[t].Reserve? {
      ReserveKeepsShape(p, s, s', t);
      ReserveKeepsSizes(p, s, s', t);
    } else {
      OthersKeepShape(p, s, s', t);
      OthersKeepSizes(p, s, s', t);
    }
    if s.threads[t].Reserve? {
      ReserveKeepsPlaces(p, s, s', t);
    } else if s.threads[t].Write? {
      WriteKeepsPlaces(p, s, s', t);
    } else {
      OthersKeepPlaces(p, s, s', t);
    }
    if s.threads[t].Read? {
      ReadKeepsTaken(p, s, s', t);
      ReadKeepsIntervals(p, s, s', t);
    } else {
      BeforeKeepsTaken(p, s, s', t);
      BeforeKeepsIntervals(p, s, s', t);
    }
  }

  lemma {:induction false} RunKeeps(p: Setup, run: seq<State>)
    requires SetupOk(p) && IsRun(p, run)
    ensures Inv(p, run[|run| - 1])
  {
    hide Inv;
    if |run| == 1 {
      InitHolds(p);
    } else {
      RunKeeps(p, run[..|run| - 1]);
      StepKeeps(p, run[|run| - 2], run[|run| - 1]);
    }
  }

  /** The contents of bin b as a reader gets them: the slots below its size. */
  ghost predicate BinHoldsExactly(p: Setup, s: State, b: nat)
    requires b < |s.sizes|
  {
    && s.sizes[b] == |ItemsOf(p, b)|
    && (forall x | x in ItemsOf(p, b) :: x in s.at && s.at[x] < s.sizes[b] && Stored(p, s, x))
    && forall pos: nat | pos < s.sizes[b] ::
        (b, pos) in s.slots && s.slots[(b, pos)] in ItemsOf(p, b) && s.at[s.slots[(b, pos)]] == pos
  }

  lemma FullBin(p: Setup, s: State, b: nat)
    requires SetupOk(p) && Inv(p, s) && s.open && b < p.numBins
    ensures BinHoldsExactly(p, s, b)
  {
    hide SplitsBelow, ReservedSoFar, StoredSoFar, BarrierCounts, Intervals, TakenSoFar, SlotsHoldItems;
    AllStored(p, s);
    SizesFinal(p, s, b);
    forall x | x in ItemsOf(p, b) ensures x in s.at && s.at[x] < s.sizes[b] {
      assert Stored(p, s, x);
    }
    forall pos: nat | pos < s.sizes[b]
      ensures (b, pos) in s.slots && s.slots[(b, pos)] in ItemsOf(p, b) && s.at[s.slots[(b, pos)]] == pos
    {
      FillAll(ItemsOf(p, b), s.at, pos);
      var x :| x in ItemsOf(p, b) && s.at[x] == pos;
      assert Stored(p, s, x);
    }
  }

  /** On every run: a thread past the barrier finds every bin complete, whatever the interleaving was. */
  lemma ReadersSeeAll(p: Setup, run: seq<State>, t: nat, b: nat)
    requires SetupOk(p) && IsRun(p, run) && b < p.numBins
    requires t < |run[|run| - 1].threads| && Behind(run[|run| - 1].threads[t])
    ensures b < |run[|run| - 1].sizes| && BinHoldsExactly(p, run[|run| - 1], b)
  {
    hide SplitsBelow, SizesCount, ReservedSoFar, StoredSoFar, SlotsHoldItems, Intervals, TakenSoFar, BinHoldsExactly;
    RunKeeps(p, run);
    FullBin(p, run[|run| - 1], b);
  }

  /** On every run: a slot about to be written lies inside its bin's row and was never written before. */
  lemma WritersNeverClash(p: Setup, run: seq<State>, t: nat)
    requires SetupOk(p) && IsRun(p, run)
    requires t < |run[|run| - 1].threads| && run[|run| - 1].threads[t].Write?
    ensures var s := run[|run| - 1];
            var k := s.threads[t].k;
            t < |p.work| && k < |p.work[t]| && s.threads[t].pos < p.maxSize
            && (p.addr[WorkItem(p, t, k)], s.threads[t].pos) !in s.slots
  {
    hide SplitsBelow, SizesCount, ReservedSoFar, StoredSoFar, SlotsHoldItems, Intervals, TakenSoFar, BarrierCounts;
    RunKeeps(p, run);
    WriteIsFresh(p, run[|run| - 1], t);
  }

  ghost predicate AllFinished(s: State) {
    forall t | 0 <= t < |s.threads| :: s.threads[t] == Finished
  }

  /** The output position that thread reading item x's bin reserved for it. */
  function Position(p: Setup, s: State, x: nat): nat
    requires x < |p.addr| && x in s.at && p.addr[x] in s.base
  {
    s.base[p.addr[x]] + s.at[x]
  }

  lemma EveryBinTaken(p: Setup, s: State, b: nat)
    requires SetupOk(p) && Inv(p, s) && AllFinished(s) && b < p.numBins
    ensures b in s.base && s.open
  {
    hide SizesCount, ReservedSoFar, StoredSoFar, SlotsHoldItems, Intervals;
    assert s.threads[0] == Finished;
    assert HasPart(p.own, b);
    var t, k :| 0 <= t < |p.own| && 0 <= k < |p.own[t]| && p.own[t][k] == b;
    assert HasTaken(s.threads[t], k) && OwnBin(p, t, k) == b;
  }

  /** When all threads have finished, the items' output positions are a permutation of 0..n-1. */
  lemma PositionsPermute(p: Setup, run: seq<State>) returns (out: seq<nat>)
    requires SetupOk(p) && IsRun(p, run) && AllFinished(run[|run| - 1])
    ensures |out| == |p.addr| && IsPermutation(out)
    ensures forall x: nat | x < |p.addr| ::
              x in run[|run| - 1].at && p.addr[x] in run[|run| - 1].base && out[x] == Position(p, run[|run| - 1], x)
  {
    hide Inv;
    RunKeeps(p, run);
    var s := run[|run| - 1];
    PositionsBelow(p, s);
    out := seq<nat>(|p.addr|, x requires 0 <= x < |p.addr| => Position(p, s, x));
    forall x, y | 0 <= x < y < |out| ensures out[x] != out[y] {
      PositionsDiffer(p, s, x, y);
    }
  }

  lemma PositionsBelow(p: Setup, s: State)
    requires SetupOk(p) && Inv(p, s) && AllFinished(s)
    ensures forall x: nat | x < |p.addr| :: x in s.at && p.addr[x] in s.base && Position(p, s, x) < |p.addr|
  {
    hide ReservedSoFar, StoredSoFar, SlotsHoldItems, TakenSoFar, BarrierCounts, SplitsBelow;
    forall x: nat | x < |p.addr|
      ensures x in s.at && p.addr[x] in s.base && Position(p, s, x) < |p.addr|
    {
      EveryBinTaken(p, s, p.addr[x]);
      AllStored(p, s);
      assert Stored(p, s, x);
      BelowSize(|p.addr|);
      SubsetSize(TakenItems(p, s.base), Below(|p.addr|));
    }
  }

  lemma PositionsDiffer(p: Setup, s: State, x: nat, y: nat)
    requires SetupOk(p) && Inv(p, s) && x < |p.addr| && y < |p.addr| && x != y
    requires x in s.at && y in s.at && p.addr[x] in s.base && p.addr[y] in s.base
    ensures Position(p, s, x) != Position(p, s, y)
  {
    hide ReservedSoFar, StoredSoFar, SlotsHoldItems, TakenSoFar, BarrierCounts, SplitsBelow;
  }

  /** Output row l of item x: `maxSize` consecutive rows at the item's permuted position. */
  function Row(maskPerm: seq<nat>, out: seq<nat>, maxSize: nat, x: nat, l: nat): nat
    requires x < |out| && out[x] < |maskPerm|
  {
    maskPerm[out[x]] * maxSize + l
  }

  ghost predicate HasRow(maskPerm: seq<nat>, out: seq<nat>, maxSize: nat, r: nat) {
    exists x: nat, l: nat :: x < |out| && out[x] < |maskPerm| && l < maxSize && Row(maskPerm, out, maxSize, x, l) == r
  }

  lemma RowSplits(r: nat, n: nat, m: nat) returns (q: nat, l: nat)
    requires r < n * m
    ensures q < n && l < m && r == q * m + l
    decreases n
  {
    if r < m {
      q, l := 0, r;
    } else {
      assert (n - 1) * m == n * m - m;
      q, l := RowSplits(r - m, n - 1, m);
      assert (q + 1) * m == q * m + m;
      q := q + 1;
    }
  }

  /** With permuted positions, (item, l) -> row is a bijection onto the rows of the mask matrix. */
  lemma RowsAreABijection(maskPerm: seq<nat>, out: seq<nat>, maxSize: nat)
    requires IsPermutation(maskPerm) && IsPermutation(out) && |maskPerm| == |out|
    ensures forall x: nat, l: nat | x < |out| && l < maxSize :: Row(maskPerm, out, maxSize, x, l) < |out| * maxSize
    ensures forall x: nat, l: nat, y: nat, m: nat | x < |out| && l < maxSize && y < |out| && m < maxSize
              && Row(maskPerm, out, maxSize, x, l) == Row(maskPerm, out, maxSize, y, m) :: x == y && l == m
    ensures forall r: nat | r < |out| * maxSize :: HasRow(maskPerm, out, maxSize, r)
  {
    forall x: nat, l: nat | x < |out| && l < maxSize ensures Row(maskPerm, out, maxSize, x, l) < |out| * maxSize {
      MultiplesApart(maskPerm[out[x]], |out|, maxSize);
    }
    forall x: nat, l: nat, y: nat, m: nat | x < |out| && l < maxSize && y < |out| && m < maxSize
        && Row(maskPerm, out, maxSize, x, l) == Row(maskPerm, out, maxSize, y, m)
      ensures x == y && l == m
    {
      SameMultiple(maskPerm[out[x]], maskPerm[out[y]], maxSize, l, m);
    }
    forall r: nat | r < |out| * maxSize
      ensures HasRow(maskPerm, out, maxSize, r)
    {
      var q, l := RowSplits(r, |out|, maxSize);
      var x := PositionOf(out, PositionOf(maskPerm, q));
      assert Row(maskPerm, out, maxSize, x, l) == r;
    }
  }

  /** Nobody is stuck: while some thread has not finished, some thread can move. */
  lemma NoDeadlock(p: Setup, run: seq<State>) returns (s': State)
    requires SetupOk(p) && IsRun(p, run) && !AllFinished(run[|run| - 1])
    ensures Step(p, run[|run| - 1], s')
  {
    hide SplitsBelow, SizesCount, ReservedSoFar, StoredSoFar, SlotsHoldItems, Intervals, TakenSoFar;
    RunKeeps(p, run);
    var s := run[|run| - 1];
    var t: nat :| t < |s.threads| && s.threads[t] != Finished;
    if s.threads[t].Wait? && !s.open {
      assert StillPushing(s.threads) + Opening(s.threads) != {};
      t :| t in StillPushing(s.threads) + Opening(s.threads);
    }
    assert PhaseOk(p, s, t);
    s' := Move(p, s, t);
  }

  /** The step a thread can take. */
  lemma Move(p: Setup, s: State, t: nat) returns (s': State)
    requires SetupOk(p) && Inv(p, s) && t < |s.threads| && s.threads[t] != Finished && (s.threads[t].Wait? ==> s.open)
    ensures StepOf(p, s, s', t)
  {
    hide SplitsBelow, ReservedSoFar, StoredSoFar, SlotsHoldItems, Intervals, TakenSoFar, SizesCount;
    assert PhaseOk(p, s, t);
    match s.threads[t]
    case Reserve(k) =>
      var x := p.work[t][k];
      WorkItemsDiffer(p, t, k, t, k);
      var pos := s.sizes[p.addr[x]];
      s' := s.(sizes := s.sizes[p.addr[x] := (pos + 1) % 256], threads := s.threads[t := Write(k, pos)],
          at := s.at[x := pos]);
    case Write(k, pos) =>
      var x := p.work[t][k];
      WorkItemsDiffer(p, t, k, t, k);
      s' := s.(slots := s.slots[(p.addr[x], pos) := x], threads := s.threads[t := NextItem(p, t, k + 1)]);
    case Arrive =>
      assert t in StillPushing(s.threads);
      s' := s.(remaining := s.remaining - 1, threads := s.threads[t := if s.remaining - 1 != 0 then Wait else Open]);
    case Open => s' := s.(open := true, threads := s.threads[t := NextBin(p, t, 0)]);
    case Wait => s' := s.(threads := s.threads[t := NextBin(p, t, 0)]);
    case Read(k) =>
      var b := p.own[t][k];
      OwnBinsDiffer(p, t, k, t, k);
      s' := s.(maskIdx := s.maskIdx + s.sizes[b], base := s.base[b := s.maskIdx],
          threads := s.threads[t := NextBin(p, t, k + 1)]);
  }

  /** The steps a thread still has to take. */
  function Left(p: Setup, t: nat, ph: Phase): (r: int)
    requires t < |p.work| == |p.own|
  {
    match ph
    case Reserve(k) => 2 * (|p.work[t]| - k) + 2 + |p.own[t]|
    case Write(k, _) => 2 * (|p.work[t]| - k) + 1 + |p.own[t]|
    case Arrive => 2 + |p.own[t]|
    case Open => 1 + |p.own[t]|
    case Wait => 1 + |p.own[t]|
    case Read(k) => |p.own[t]| - k
    case Finished => 0
  }

  function TotalLeft(p: Setup, threads: seq<Phase>): int
    requires |threads| <= |p.work| == |p.own|
  {
    if threads == [] then 0
    else TotalLeft(p, threads[..|threads| - 1]) + Left(p, |threads| - 1, threads[|threads| - 1])
  }

  lemma {:induction false} TotalLeftUpdate(p: Setup, threads: seq<Phase>, t: nat, ph: Phase)
    requires t < |threads| <= |p.work| == |p.own|
    ensures TotalLeft(p, threads[t := ph]) == TotalLeft(p, threads) - Left(p, t, threads[t]) + Left(p, t, ph)
  {
    var n := |threads| - 1;
    if t < n {
      TotalLeftUpdate(p, threads[..n], t, ph);
      assert threads[t := ph][..n] == threads[..n][t := ph];
    } else {
      assert threads[t := ph][..n] == threads[..n];
    }
  }

  lemma {:induction false} TotalLeftIsNat(p: Setup, threads: seq<Phase>)
    requires |threads| <= |p.work| == |p.own|
    requires forall t: nat | t < |threads| :: Left(p, t, threads[t]) >= 0
    ensures TotalLeft(p, threads) >= 0
  {
    if threads != [] {
      TotalLeftIsNat(p, threads[..|threads| - 1]);
    }
  }

  /** Every step leaves less to do, so with `NoDeadlock` every run can only end with all threads finished. */
  lemma StepsRunOut(p: Setup, s: State, s': State)
    requires SetupOk(p) && Inv(p, s) && Step(p, s, s')
    ensures |s.threads| == |s'.threads| == |p.work| == |p.own|
    ensures 0 <= TotalLeft(p, s'.threads) < TotalLeft(p, s.threads)
  {
    hide SplitsBelow, SizesCount, ReservedSoFar, StoredSoFar, SlotsHoldItems, Intervals, TakenSoFar, BarrierCounts,
      TotalLeft;
    var t: nat :| StepOf(p, s, s', t);
    assert PhaseOk(p, s, t);
    StepKeeps(p, s, s');
    TotalLeftUpdate(p, s.threads, t, s'.threads[t]);
    assert s'.threads == s.threads[t := s'.threads[t]];
    forall u: nat | u < |s'.threads| ensures Left(p, u, s'.threads[u]) >= 0 {
      assert PhaseOk(p, s', u);
    }
    TotalLeftIsNat(p, s'.threads);
  }

  ghost function Measure(p: Setup, s: State): nat {
    if |s.threads| == |p.work| == |p.own| && TotalLeft(p, s.threads) >= 0 then TotalLeft(p, s.threads) else 0
  }

  /** Every run, however far it got, goes on to one that ends with all threads finished. */
  lemma {:induction false} EveryRunEnds(p: Setup, run: seq<State>) returns (more: seq<State>)
    requires SetupOk(p) && IsRun(p, run)
    ensures IsRun(p, more) && AllFinished(more[|more| - 1]) && run <= more
    decreases Measure(p, run[|run| - 1])
  {
    hide SetupOk, Step, Inv, TotalLeft;
    more := run;
    if !AllFinished(run[|run| - 1]) {
      var s' := NoDeadlock(p, run);
      RunKeeps(p, run);
      StepsRunOut(p, run[|run| - 1], s');
      more := EveryRunEnds(p, run + [s']);
    }
  }
}
