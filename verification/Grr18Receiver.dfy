/**
  The receiver's threads in the variable-load protocol. Each thread encodes its items into a bounded
  buffer of its own and empties the buffer into one shared map, under a lock, before an item that
  might not fit. Behind a countdown barrier every thread looks its share of the received rows up.
 */
module Grr18Receiver {
  import opened Bits
  import opened Permutations
  import opened MaskMatching
  import opened Tasks
  import opened Wrappers

  /**
    `mask` gives the bytes of an item's combined mask for a slot, `rows` are the rows that come in.
    A thread's buffer has room for `capacity` entries. The map marks an unused bucket by `emptyKey`.
   */
  datatype Setup = Setup(work: seq<seq<Task>>, mask: (nat, nat) -> seq<bool>, maxBinSize: nat, capacity: nat,
                         emptyKey: seq<bool>, rows: seq<seq<bool>>)

  ghost predicate SetupOk(p: Setup) {
    && |p.work| > 0 && p.maxBinSize > 0
    && (forall t, k | 0 <= t < |p.work| && 0 <= k < |p.work[t]| ::
        p.work[t][k].load <= p.maxBinSize && p.work[t][k].load <= p.capacity)
    && forall t, k, t', k' | 0 <= t < |p.work| && 0 <= k < |p.work[t]| && 0 <= t' < |p.work|
        && 0 <= k' < |p.work[t']| ::
         p.work[t][k].item == p.work[t'][k'].item ==> t == t' && k == k'
  }

  datatype Phase =
    | Item(k: nat)           // about to look for room for task k, or past the last one
    | Write(k: nat, l: nat)  // about to encode task k in place l of its slots
    | Arrive                 // about to decrement the barrier's counter
    | Wait
    | Open                   // the last to have decremented it, about to open the barrier
    | Look(r: nat)           // behind the barrier, about to look row r up
    | Merge                  // about to append what it found to the report
    | Done

  datatype Entry = Entry(key: seq<bool>, index: nat)

  datatype Thread = Thread(pc: Phase, buffer: seq<Entry>, found: seq<nat>)

  /** `maskMap` is the shared map, `masks` the shared matrix of masks by item and place. */
  datatype State = State(maskMap: map<seq<bool>, nat>, masks: map<nat, seq<bool>>, remaining: nat, open: bool,
                         report: seq<nat>, threads: seq<Thread>)

  /**
    Inserting the buffer into the map; a key that is there already keeps what it has. An entry with the
    empty key goes into an unused bucket, which counts as unused just as before.
   */
  function Inserted(m: map<seq<bool>, nat>, buffer: seq<Entry>, emptyKey: seq<bool>): (r: map<seq<bool>, nat>) {
    if buffer == [] then m
    else
      var before := Inserted(m, buffer[..|buffer| - 1], emptyKey);
      var e := buffer[|buffer| - 1];
      if e.key == emptyKey || e.key in before then before else before[e.key := e.index]
  }

  /** What a received row says: the item whose mask has the row's bytes, if it is filed under their first ones. */
  function Lookup(maskMap: map<seq<bool>, nat>, masks: map<nat, seq<bool>>, row: seq<bool>,
                  maxBinSize: nat): Option<nat>
    requires maxBinSize > 0
  {
    var key := KeyOf(row);
    if key in maskMap && maskMap[key] in masks && masks[maskMap[key]] == row then Some(maskMap[key] / maxBinSize)
        else None
  }

  function RangeStart(p: Setup, t: nat): nat
    requires |p.work| > 0
  {
    Cut(|p.rows|, |p.work|, t)
  }

  function Init(p: Setup): State {
    State(map[], map[], |p.work|, false, [], seq(|p.work|, _ => Thread(Item(0), [], [])))
  }

  function Bytes(p: Setup, task: Task, l: nat): seq<bool> {
    p.mask(task.item, task.otIdx + l)
  }

  function IndexOf(p: Setup, task: Task, l: nat): nat {
    task.item * p.maxBinSize + l
  }

  /** A step of thread t. */
  ghost predicate StepOf(p: Setup, s: State, s': State, t: nat)
    requires SetupOk(p)
  {
    && t < |s.threads| == |p.work|
    && match s.threads[t].pc
       case Item(k) => k <= |p.work[t]| && if k < |p.work[t]| then RoomStep(p, s, s', t, k) else LastFlush(p, s, s', t)
       case Write(k, l) => k < |p.work[t]| && if l < p.work[t][k].load then WriteStep(p, s, s', t, k, l)
           else Goto(s, s', t, Item(k + 1))
       case Arrive =>
         && s.remaining > 0
         && Goto(s.(remaining := s.remaining - 1), s', t, if s.remaining - 1 != 0 then Wait else Open)
       case Open => Goto(s.(open := true), s', t, Look(RangeStart(p, t)))
       case Wait => s.open && Goto(s, s', t, Look(RangeStart(p, t)))
       case Look(r) =>
         if r < RangeStart(p, t + 1) then r < |p.rows| && LookStep(p, s, s', t, r) else Goto(s, s', t, Merge)
       case Merge => Goto(s.(report := s.report + s.threads[t].found), s', t, Done)
       case Done => false
  }

  ghost predicate Goto(s: State, s': State, t: nat, pc: Phase)
    requires t < |s.threads|
  {
    s' == s.(threads := s.threads[t := s.threads[t].(pc := pc)])
  }

  /** Before an item that may not fit the buffer is emptied into the map. */
  ghost predicate RoomStep(p: Setup, s: State, s': State, t: nat, k: nat)
    requires t < |s.threads| == |p.work| && k < |p.work[t]|
  {
    var buffer := s.threads[t].buffer;
    if |buffer| + p.work[t][k].load > p.capacity
    then s' == s.(maskMap := Inserted(s.maskMap, buffer, p.emptyKey),
                  threads := s.threads[t := s.threads[t].(pc := Write(k, 0), buffer := [])])
    else Goto(s, s', t, Write(k, 0))
  }

  ghost predicate LastFlush(p: Setup, s: State, s': State, t: nat)
    requires t < |s.threads|
  {
    s' == s.(maskMap := Inserted(s.maskMap, s.threads[t].buffer, p.emptyKey),
             threads := s.threads[t := s.threads[t].(pc := Arrive, buffer := [])])
  }

  ghost predicate WriteStep(p: Setup, s: State, s': State, t: nat, k: nat, l: nat)
    requires t < |s.threads| == |p.work| && k < |p.work[t]|
  {
    var task, th := p.work[t][k], s.threads[t];
    var entry := Entry(KeyOf(Bytes(p, task, l)), IndexOf(p, task, l));
    s' == s.(masks := s.masks[IndexOf(p, task, l) := Bytes(p, task, l)],
             threads := s.threads[t := th.(pc := Write(k, l + 1), buffer := th.buffer + [entry])])
  }

  ghost predicate LookStep(p: Setup, s: State, s': State, t: nat, r: nat)
    requires t < |s.threads| && r < |p.rows| && p.maxBinSize > 0
  {
    var hit, th := Lookup(s.maskMap, s.masks, p.rows[r], p.maxBinSize), s.threads[t];
    s' == s.(threads :=
        s.threads[t := th.(pc := Look(r + 1), found := if hit.Some? then th.found + [hit.value] else th.found)])
  }

  ghost predicate Step(p: Setup, s: State, s': State)
    requires SetupOk(p)
  {
    exists t: nat :: StepOf(p, s, s', t)
  }

  ghost predicate IsRun(p: Setup, run: seq<State>)
    requires SetupOk(p)
  {
    |run| > 0 && run[0] == Init(p) && forall i | 0 < i < |run| :: Step(p, run[i - 1], run[i])
  }

  // ----- the invariant -----

  predicate Pushing(pc: Phase) {
    pc.Item? || pc.Write? || pc.Arrive?
  }

  predicate Behind(pc: Phase) {
    pc.Look? || pc.Merge? || pc.Done?
  }

  /** Whether entry l of task k has been written. */
  predicate HasWritten(pc: Phase, k: nat, l: nat) {
    match pc
    case Item(j) => k < j
    case Write(j, m) => k < j || (k == j && l < m)
    case _ => true
  }

  /** `e` is entry l of task k of thread t, and its mask is in the matrix. */
  ghost predicate IsEntryOf(p: Setup, masks: map<nat, seq<bool>>, e: Entry) {
    exists t: nat, k: nat, l: nat :: EntryAt(p, masks, e, t, k, l)
  }

  ghost predicate EntryAt(p: Setup, masks: map<nat, seq<bool>>, e: Entry, t: nat, k: nat, l: nat) {
    && t < |p.work| && k < |p.work[t]| && l < p.work[t][k].load
    && e == Entry(KeyOf(Bytes(p, p.work[t][k], l)), IndexOf(p, p.work[t][k], l))
    && e.index in masks && masks[e.index] == Bytes(p, p.work[t][k], l)
  }

  /** Sizes, and the room that a thread has made sure of before it writes. */
  ghost predicate ThreadOk(p: Setup, th: Thread, t: nat)
    requires t < |p.work|
  {
    match th.pc
    case Item(k) => k <= |p.work[t]| && th.found == []
    case Write(k, l) =>
      && k < |p.work[t]| && l <= p.work[t][k].load && th.found == []
      && |th.buffer| + p.work[t][k].load - l <= p.capacity
    case Arrive => th.buffer == [] && th.found == []
    case Wait => th.buffer == [] && th.found == []
    case Open => th.buffer == [] && th.found == []
    case _ => th.buffer == []
  }

  ghost predicate Shape(p: Setup, s: State) {
    |s.threads| == |p.work| && forall t | 0 <= t < |s.threads| :: ThreadOk(p, s.threads[t], t)
  }

  ghost predicate BufferSound(p: Setup, masks: map<nat, seq<bool>>, buffer: seq<Entry>) {
    forall j | 0 <= j < |buffer| :: IsEntryOf(p, masks, buffer[j])
  }

  ghost predicate MapSound(p: Setup, masks: map<nat, seq<bool>>, maskMap: map<seq<bool>, nat>) {
    forall key | key in maskMap :: key != p.emptyKey && IsEntryOf(p, masks, Entry(key, maskMap[key]))
  }

  ghost predicate Sound(p: Setup, s: State) {
    && MapSound(p, s.masks, s.maskMap)
    && forall t | 0 <= t < |s.threads| :: BufferSound(p, s.masks, s.threads[t].buffer)
  }

  ghost predicate Seen(maskMap: map<seq<bool>, nat>, buffer: seq<Entry>, key: seq<bool>) {
    key in maskMap || exists j :: 0 <= j < |buffer| && buffer[j].key == key
  }

  /** Every entry written so far is in the map or waits in its thread's buffer. */
  ghost predicate CoveredSoFar(p: Setup, s: State) {
    && |s.threads| == |p.work|
    && forall t: nat, k: nat, l: nat | EntryNo(p, t, k, l) && HasWritten(s.threads[t].pc, k, l)
        && KeyAt(p, t, k, l) != p.emptyKey ::
         Seen(s.maskMap, s.threads[t].buffer, KeyAt(p, t, k, l))
  }

  predicate EntryNo(p: Setup, t: nat, k: nat, l: nat) {
    t < |p.work| && k < |p.work[t]| && l < p.work[t][k].load
  }

  function KeyAt(p: Setup, t: nat, k: nat, l: nat): seq<bool>
    requires EntryNo(p, t, k, l)
  {
    KeyOf(Bytes(p, p.work[t][k], l))
  }

  function StillPushing(threads: seq<Thread>): (r: set<nat>)
    ensures forall t: nat :: t in r <==> t < |threads| && Pushing(threads[t].pc)
  {
    set t | t in Below(|threads|) && Pushing(threads[t].pc)
  }

  function Opening(threads: seq<Thread>): (r: set<nat>)
    ensures forall t: nat :: t in r <==> t < |threads| && threads[t].pc.Open?
  {
    set t | t in Below(|threads|) && threads[t].pc.Open?
  }

  /** One thread is on the way from the counter to the barrier once the counter is zero, until the barrier is open. */
  ghost predicate BarrierCounts(p: Setup, s: State) {
    && s.remaining == |StillPushing(s.threads)|
    && (s.open ==> s.remaining == 0)
    && |Opening(s.threads)| == (if s.remaining == 0 && !s.open then 1 else 0)
    && forall t | 0 <= t < |s.threads| && Behind(s.threads[t].pc) :: s.open
  }

  /** What looking up a list of rows finds, in order. */
  function Found(maskMap: map<seq<bool>, nat>, masks: map<nat, seq<bool>>, rows: seq<seq<bool>>,
                 maxBinSize: nat): seq<nat>
    requires maxBinSize > 0
  {
    if rows == [] then []
    else
      var before := Found(maskMap, masks, rows[..|rows| - 1], maxBinSize);
      var hit := Lookup(maskMap, masks, rows[|rows| - 1], maxBinSize);
      if hit.Some? then before + [hit.value] else before
  }

  /** The rows of thread t's share that it has looked up. */
  function RowsSeen(p: Setup, pc: Phase, t: nat): nat
    requires |p.work| > 0
  {
    match pc
    case Look(r) => r
    case _ => RangeStart(p, t + 1)
  }

  ghost predicate SearchedBy(p: Setup, s: State, t: nat)
    requires SetupOk(p) && t < |s.threads|
  {
    && RangeStart(p, t) <= RowsSeen(p, s.threads[t].pc, t) <= RangeStart(p, t + 1) <= |p.rows|
    && s.threads[t].found
         == Found(s.maskMap, s.masks, p.rows[RangeStart(p, t)..RowsSeen(p, s.threads[t].pc, t)], p.maxBinSize)
  }

  /** A thread behind the barrier has found what the rows it looked up hold. */
  ghost predicate Searched(p: Setup, s: State)
    requires SetupOk(p)
  {
    forall t | 0 <= t < |s.threads| && Behind(s.threads[t].pc) :: SearchedBy(p, s, t)
  }

  function MergedBy(th: Thread): multiset<nat> {
    if th.pc.Done? then multiset(th.found) else multiset{}
  }

  function Merged(threads: seq<Thread>): multiset<nat> {
    if threads == [] then multiset{} else Merged(threads[..|threads| - 1]) + MergedBy(threads[|threads| - 1])
  }

  ghost predicate Inv(p: Setup, s: State)
    requires SetupOk(p)
  {
    && Shape(p, s) && Sound(p, s) && CoveredSoFar(p, s) && BarrierCounts(p, s) && Searched(p, s)
    && multiset(s.report) == Merged(s.threads)
  }

  lemma InitHolds(p: Setup)
    requires SetupOk(p)
    ensures Inv(p, Init(p))
  {
    hide SetupOk, BarrierCounts, IsEntryOf, Searched, Merged, Seen, KeyAt;
    InitCounts(p);
    NothingMerged(Init(p).threads);
  }

  lemma InitCounts(p: Setup)
    requires SetupOk(p)
    ensures BarrierCounts(p, Init(p)) && Searched(p, Init(p))
  {
    hide SetupOk, Cut, Found, SearchedBy;
    BelowSize(|p.work|);
    SomeThreads(p);
    assert StillPushing(Init(p).threads) == Below(|p.work|);
    assert Opening(Init(p).threads) == {};
  }

  lemma SomeThreads(p: Setup)
    requires SetupOk(p)
    ensures |p.work| > 0 && p.maxBinSize > 0
  {}

  lemma {:induction false} NothingMerged(threads: seq<Thread>)
    requires forall t | 0 <= t < |threads| :: !threads[t].pc.Done?
    ensures Merged(threads) == multiset{}
  {
    if threads != [] {
      NothingMerged(threads[..|threads| - 1]);
    }
  }

  // ----- inserting a buffer -----

  lemma {:induction false} InsertedKeys(m: map<seq<bool>, nat>, buffer: seq<Entry>, emptyKey: seq<bool>, key: seq<bool>)
    requires emptyKey !in m
    ensures key in Inserted(m, buffer, emptyKey) <==> key != emptyKey && Seen(m, buffer, key)
  {
    if buffer != [] {
      var n := |buffer| - 1;
      InsertedKeys(m, buffer[..n], emptyKey, key);
      if key in Inserted(m, buffer[..n], emptyKey) && key !in m {
        var j :| 0 <= j < n && buffer[..n][j].key == key;
        assert buffer[j].key == key;
      }
      if j :| 0 <= j < |buffer| && buffer[j].key == key {
        assert j < n ==> buffer[..n][j].key == key;
      }
    }
  }

  lemma {:induction false} InsertedSound(p: Setup, masks: map<nat, seq<bool>>, m: map<seq<bool>, nat>,
                                         buffer: seq<Entry>)
    requires MapSound(p, masks, m) && BufferSound(p, masks, buffer)
    ensures MapSound(p, masks, Inserted(m, buffer, p.emptyKey))
  {
    hide IsEntryOf;
    if buffer != [] {
      var n := |buffer| - 1;
      assert forall j | 0 <= j < n :: buffer[..n][j] == buffer[j];
      InsertedSound(p, masks, m, buffer[..n]);
      var e := buffer[n];
      assert IsEntryOf(p, masks, Entry(e.key, e.index));
    }
  }

  /** A new mask leaves every other index alone, and its own has only one value. */
  lemma MaskWritten(p: Setup, masks: map<nat, seq<bool>>, t: nat, k: nat, l: nat, e: Entry)
    requires SetupOk(p) && EntryNo(p, t, k, l) && IsEntryOf(p, masks, e)
    ensures IsEntryOf(p, masks[IndexOf(p, p.work[t][k], l) := Bytes(p, p.work[t][k], l)], e)
  {
    var t': nat, k': nat, l': nat :| EntryAt(p, masks, e, t', k', l');
    var masks' := masks[IndexOf(p, p.work[t][k], l) := Bytes(p, p.work[t][k], l)];
    if e.index == IndexOf(p, p.work[t][k], l) {
      SameMultiple(p.work[t][k].item, p.work[t'][k'].item, p.maxBinSize, l, l');
    }
    assert EntryAt(p, masks', e, t', k', l');
  }

  // ----- what a step does -----

  /** Thread t empties its buffer into the map. */
  ghost predicate Flushes(p: Setup, s: State, s': State, t: nat) {
    && t < |s.threads| == |s'.threads|
    && s'.maskMap == Inserted(s.maskMap, s.threads[t].buffer, p.emptyKey) && s'.masks == s.masks
    && s'.threads[t].buffer == []
  }

  /** Map, matrix and buffers stay as they are. */
  ghost predicate KeepsMasks(s: State, s': State, t: nat) {
    && t < |s.threads| == |s'.threads|
    && s'.maskMap == s.maskMap && s'.masks == s.masks && s'.threads[t].buffer == s.threads[t].buffer
  }

  predicate Writes(p: Setup, s: State, t: nat) {
    t < |s.threads| == |p.work| && s.threads[t].pc.Write? && EntryNo(p, t, s.threads[t].pc.k, s.threads[t].pc.l)
  }

  ghost predicate SameOthers(s: State, s': State, t: nat) {
    && t < |s.threads| == |s'.threads|
    && forall u | 0 <= u < |s.threads| && u != t :: s'.threads[u] == s.threads[u]
  }

  /** A step concerns one thread; it writes an entry, or flushes, or leaves the masks alone. */
  lemma StepKinds(p: Setup, s: State, s': State, t: nat)
    requires SetupOk(p) && StepOf(p, s, s', t)
    ensures |s.threads| == |p.work| && SameOthers(s, s', t)
    ensures Writes(p, s, t) || Flushes(p, s, s', t) || KeepsMasks(s, s', t)
    ensures Writes(p, s, t) ==> WriteStep(p, s, s', t, s.threads[t].pc.k, s.threads[t].pc.l)
    ensures !Pushing(s.threads[t].pc) ==> KeepsMasks(s, s', t)
  {
    hide SetupOk, Inserted, Lookup, Cut, Bytes, IndexOf, KeyOf;
  }

  /** A thread has written no more entries after a step than before, but for the one it writes. */
  lemma StepWrites(p: Setup, s: State, s': State, t: nat, k: nat, l: nat)
    requires SetupOk(p) && StepOf(p, s, s', t) && EntryNo(p, t, k, l)
    ensures |s'.threads| == |s.threads| == |p.work|
    ensures HasWritten(s'.threads[t].pc, k, l) ==>
              HasWritten(s.threads[t].pc, k, l) || (Writes(p, s, t) && s.threads[t].pc == Write(k, l))
  {
    hide SetupOk, Inserted, Lookup, Cut, Bytes, IndexOf, KeyOf;
  }

  lemma ThreadKeepsOk(p: Setup, s: State, s': State, t: nat)
    requires SetupOk(p) && StepOf(p, s, s', t) && ThreadOk(p, s.threads[t], t)
    ensures t < |s'.threads| && ThreadOk(p, s'.threads[t], t)
  {
    hide Inserted, Lookup, Cut, Bytes, IndexOf, KeyOf, SetupOk;
    RoomForTask(p, t);
  }

  lemma StepKeepsShape(p: Setup, s: State, s': State, t: nat)
    requires SetupOk(p) && Inv(p, s) && StepOf(p, s, s', t)
    ensures Shape(p, s')
  {
    hide Sound, CoveredSoFar, BarrierCounts, Searched, Merged, StepOf, SetupOk, ThreadOk;
    StepKinds(p, s, s', t);
    assert ThreadOk(p, s.threads[t], t);
    ThreadKeepsOk(p, s, s', t);
    forall u: nat | u < |s'.threads| ensures ThreadOk(p, s'.threads[u], u) {
      assert ThreadOk(p, s.threads[u], u);
    }
  }

  /** An empty buffer has room for every task. */
  lemma RoomForTask(p: Setup, t: nat)
    requires SetupOk(p) && t < |p.work|
    ensures forall k | 0 <= k < |p.work[t]| :: p.work[t][k].load <= p.capacity
  {}

  // ----- masks, map and buffers -----

  lemma SoundOf(p: Setup, s: State, u: nat)
    requires Sound(p, s) && u < |s.threads|
    ensures MapSound(p, s.masks, s.maskMap) && BufferSound(p, s.masks, s.threads[u].buffer)
  {}

  lemma SoundIntro(p: Setup, s: State)
    requires MapSound(p, s.masks, s.maskMap)
    requires forall u: nat | u < |s.threads| :: BufferSound(p, s.masks, s.threads[u].buffer)
    ensures Sound(p, s)
  {}

  lemma EmptyIsSound(p: Setup, masks: map<nat, seq<bool>>)
    ensures BufferSound(p, masks, [])
  {}

  lemma FlushKeepsSound(p: Setup, s: State, s': State, t: nat)
    requires SetupOk(p) && Sound(p, s) && SameOthers(s, s', t) && Flushes(p, s, s', t)
    ensures Sound(p, s')
  {
    hide Sound, SetupOk, MapSound, BufferSound, Inserted;
    SoundOf(p, s, t);
    InsertedSound(p, s.masks, s.maskMap, s.threads[t].buffer);
    EmptyIsSound(p, s.masks);
    forall u: nat | u < |s'.threads| ensures BufferSound(p, s'.masks, s'.threads[u].buffer) {
      SoundOf(p, s, u);
    }
    SoundIntro(p, s');
  }

  lemma OthersKeepSound(p: Setup, s: State, s': State, t: nat)
    requires Sound(p, s) && SameOthers(s, s', t) && KeepsMasks(s, s', t)
    ensures Sound(p, s')
  {
    hide Sound, MapSound, BufferSound;
    SoundOf(p, s, t);
    forall u: nat | u < |s'.threads| ensures BufferSound(p, s'.masks, s'.threads[u].buffer) {
      SoundOf(p, s, u);
    }
    SoundIntro(p, s');
  }

  function Masked(p: Setup, masks: map<nat, seq<bool>>, t: nat, k: nat, l: nat): map<nat, seq<bool>>
    requires EntryNo(p, t, k, l)
  {
    masks[IndexOf(p, p.work[t][k], l) := Bytes(p, p.work[t][k], l)]
  }

  function EntryOf(p: Setup, t: nat, k: nat, l: nat): Entry
    requires EntryNo(p, t, k, l)
  {
    Entry(KeyAt(p, t, k, l), IndexOf(p, p.work[t][k], l))
  }

  lemma BufferMasked(p: Setup, masks: map<nat, seq<bool>>, t: nat, k: nat, l: nat, buffer: seq<Entry>)
    requires SetupOk(p) && EntryNo(p, t, k, l) && BufferSound(p, masks, buffer)
    ensures BufferSound(p, Masked(p, masks, t, k, l), buffer)
  {
    hide SetupOk, IsEntryOf, Bytes, IndexOf;
    forall j | 0 <= j < |buffer| ensures IsEntryOf(p, Masked(p, masks, t, k, l), buffer[j]) {
      MaskWritten(p, masks, t, k, l, buffer[j]);
    }
  }

  lemma MapMasked(p: Setup, masks: map<nat, seq<bool>>, t: nat, k: nat, l: nat, maskMap: map<seq<bool>, nat>)
    requires SetupOk(p) && EntryNo(p, t, k, l) && MapSound(p, masks, maskMap)
    ensures MapSound(p, Masked(p, masks, t, k, l), maskMap)
  {
    hide SetupOk, IsEntryOf, Bytes, IndexOf;
    forall key | key in maskMap ensures IsEntryOf(p, Masked(p, masks, t, k, l), Entry(key, maskMap[key])) {
      MaskWritten(p, masks, t, k, l, Entry(key, maskMap[key]));
    }
  }

  lemma NewEntrySound(p: Setup, masks: map<nat, seq<bool>>, t: nat, k: nat, l: nat, buffer: seq<Entry>)
    requires EntryNo(p, t, k, l) && BufferSound(p, Masked(p, masks, t, k, l), buffer)
    ensures BufferSound(p, Masked(p, masks, t, k, l), buffer + [EntryOf(p, t, k, l)])
  {
    hide Bytes, IndexOf, KeyOf;
    assert EntryAt(p, Masked(p, masks, t, k, l), EntryOf(p, t, k, l), t, k, l);
  }

  lemma WriteOf(p: Setup, s: State, s': State, t: nat)
    requires Writes(p, s, t) && WriteStep(p, s, s', t, s.threads[t].pc.k, s.threads[t].pc.l)
    ensures var k, l := s.threads[t].pc.k, s.threads[t].pc.l;
            && s'.maskMap == s.maskMap && s'.masks == Masked(p, s.masks, t, k, l)
            && |s'.threads| == |s.threads| && s'.threads[t].buffer == s.threads[t].buffer + [EntryOf(p, t, k, l)]
  {
    hide Bytes, IndexOf, KeyOf;
  }

  lemma WriteKeepsSound(p: Setup, s: State, s': State, t: nat)
    requires SetupOk(p) && Sound(p, s) && SameOthers(s, s', t)
    requires Writes(p, s, t) && WriteStep(p, s, s', t, s.threads[t].pc.k, s.threads[t].pc.l)
    ensures Sound(p, s')
  {
    hide Sound, MapSound, BufferSound, WriteStep, SetupOk, Masked, EntryOf;
    var k, l := s.threads[t].pc.k, s.threads[t].pc.l;
    WriteOf(p, s, s', t);
    SoundOf(p, s, t);
    MapMasked(p, s.masks, t, k, l, s.maskMap);
    forall u: nat | u < |s'.threads| ensures BufferSound(p, s'.masks, s'.threads[u].buffer) {
      SoundOf(p, s, u);
      BufferMasked(p, s.masks, t, k, l, s.threads[u].buffer);
      NewEntrySound(p, s.masks, t, k, l, s.threads[u].buffer);
    }
    SoundIntro(p, s');
  }

  // ----- nothing written is lost -----

  ghost predicate CoveredAt(p: Setup, s: State, t: nat, k: nat, l: nat)
    requires EntryNo(p, t, k, l) && t < |s.threads|
  {
    HasWritten(s.threads[t].pc, k, l) && KeyAt(p, t, k, l) != p.emptyKey ==>
        Seen(s.maskMap, s.threads[t].buffer, KeyAt(p, t, k, l))
  }

  lemma CoveredOf(p: Setup, s: State, t: nat, k: nat, l: nat)
    requires CoveredSoFar(p, s) && EntryNo(p, t, k, l)
    ensures t < |s.threads| && CoveredAt(p, s, t, k, l)
  {}

  lemma CoveredIntro(p: Setup, s: State)
    requires |s.threads| == |p.work|
    requires forall t: nat, k: nat, l: nat | EntryNo(p, t, k, l) :: CoveredAt(p, s, t, k, l)
    ensures CoveredSoFar(p, s)
  {}

  lemma SeenMore(m: map<seq<bool>, nat>, buffer: seq<Entry>, e: Entry, key: seq<bool>)
    requires Seen(m, buffer, key) || key == e.key
    ensures Seen(m, buffer + [e], key)
  {
    assert (buffer + [e])[|buffer|] == e;
    if j :| 0 <= j < |buffer| && buffer[j].key == key {
      assert (buffer + [e])[j].key == key;
    }
  }

  /** Flushing one thread's buffer loses none of its entries, and none of any other thread's. */
  lemma SeenFlushed(m: map<seq<bool>, nat>, flushed: seq<Entry>, emptyKey: seq<bool>, buffer: seq<Entry>,
                    key: seq<bool>)
    requires emptyKey !in m && key != emptyKey && Seen(m, buffer, key)
    ensures Seen(Inserted(m, flushed, emptyKey), buffer, key)
    ensures flushed == buffer ==> Seen(Inserted(m, flushed, emptyKey), [], key)
  {
    hide Inserted;
    InsertedKeys(m, flushed, emptyKey, key);
  }

  lemma StepCovers(p: Setup, s: State, s': State, t: nat, u: nat, k: nat, l: nat)
    requires SetupOk(p) && CoveredSoFar(p, s) && p.emptyKey !in s.maskMap && StepOf(p, s, s', t) && EntryNo(p, u, k, l)
    ensures u < |s'.threads| && CoveredAt(p, s', u, k, l)
  {
    hide StepOf, SetupOk, CoveredSoFar, EntryNo, HasWritten, KeyAt, Seen, Inserted, Masked, WriteStep;
    StepKinds(p, s, s', t);
    CoveredOf(p, s, u, k, l);
    if u == t {
      StepWrites(p, s, s', t, k, l);
    }
    var key := KeyAt(p, u, k, l);
    if HasWritten(s'.threads[u].pc, k, l) && key != p.emptyKey {
      if Writes(p, s, t) {
        WriteOf(p, s, s', t);
        if u == t {
          SeenMore(s.maskMap, s.threads[t].buffer, EntryOf(p, t, s.threads[t].pc.k, s.threads[t].pc.l), key);
        }
      } else if Flushes(p, s, s', t) {
        SeenFlushed(s.maskMap, s.threads[t].buffer, p.emptyKey, s.threads[u].buffer, key);
      }
    }
  }

  lemma NoEmptyKey(p: Setup, s: State)
    requires Sound(p, s)
    ensures p.emptyKey !in s.maskMap
  {}

  lemma StepKeepsCovered(p: Setup, s: State, s': State, t: nat)
    requires SetupOk(p) && CoveredSoFar(p, s) && p.emptyKey !in s.maskMap && StepOf(p, s, s', t)
    ensures CoveredSoFar(p, s')
  {
    hide StepOf, SetupOk, CoveredSoFar, CoveredAt;
    StepKinds(p, s, s', t);
    forall u: nat, k: nat, l: nat | EntryNo(p, u, k, l) ensures CoveredAt(p, s', u, k, l) {
      StepCovers(p, s, s', t, u, k, l);
    }
    CoveredIntro(p, s');
  }

  // ----- the barrier -----

  /** What a step of thread t does to the barrier. */
  lemma StepPasses(p: Setup, s: State, s': State, t: nat)
    requires SetupOk(p) && StepOf(p, s, s', t)
    ensures SameOthers(s, s', t)
    ensures if s.threads[t].pc.Arrive?
            then s.remaining > 0 && s'.remaining == s.remaining - 1 && s'.open == s.open
                 && s'.threads[t].pc == if s'.remaining == 0 then Open else Wait
            else s'.remaining == s.remaining && s'.open == (s.open || s.threads[t].pc.Open?)
                 && !s'.threads[t].pc.Open? && Pushing(s'.threads[t].pc) == Pushing(s.threads[t].pc)
                 && (Behind(s'.threads[t].pc) ==> Behind(s.threads[t].pc) || s'.open)
  {
    hide SetupOk, Inserted, Lookup, Cut, Bytes, IndexOf, KeyOf;
  }

  lemma PushersChange(s: State, s': State, t: nat)
    requires SameOthers(s, s', t)
    ensures t in StillPushing(s.threads) <==> Pushing(s.threads[t].pc)
    ensures Pushing(s'.threads[t].pc) == Pushing(s.threads[t].pc) ==>
            StillPushing(s'.threads) == StillPushing(s.threads)
    ensures Pushing(s.threads[t].pc) && !Pushing(s'.threads[t].pc) ==>
              |StillPushing(s'.threads)| == |StillPushing(s.threads)| - 1
    ensures forall u: nat | u < |s.threads| && u != t :: s'.threads[u] == s.threads[u]
  {
    hide Pushing;
    if Pushing(s.threads[t].pc) && !Pushing(s'.threads[t].pc) {
      assert StillPushing(s'.threads) == StillPushing(s.threads) - {t};
    } else if Pushing(s'.threads[t].pc) == Pushing(s.threads[t].pc) {
      assert StillPushing(s'.threads) == StillPushing(s.threads);
    }
  }

  lemma OpenersChange(s: State, s': State, t: nat)
    requires SameOthers(s, s', t)
    ensures t in Opening(s.threads) <==> s.threads[t].pc.Open?
    ensures |Opening(s'.threads)| == |Opening(s.threads)| + (if s'.threads[t].pc.Open? then 1 else 0)
            - (if s.threads[t].pc.Open? then 1 else 0)
  {
    if s'.threads[t].pc.Open? == s.threads[t].pc.Open? {
      assert Opening(s'.threads) == Opening(s.threads);
    } else if s'.threads[t].pc.Open? {
      assert Opening(s'.threads) == Opening(s.threads) + {t};
    } else {
      assert Opening(s'.threads) == Opening(s.threads) - {t};
    }
  }

  lemma StepKeepsBarrier(p: Setup, s: State, s': State, t: nat)
    requires SetupOk(p) && BarrierCounts(p, s) && StepOf(p, s, s', t)
    ensures BarrierCounts(p, s')
  {
    hide StepOf, SetupOk, SameOthers, StillPushing, Opening;
    StepPasses(p, s, s', t);
    AtThread(p, s, s', t);
    PushersChange(s, s', t);
    OpenersChange(s, s', t);
  }

  lemma AtThread(p: Setup, s: State, s': State, t: nat)
    requires SetupOk(p) && StepOf(p, s, s', t)
    ensures t < |s.threads| == |s'.threads| == |p.work|
  {
    hide SetupOk, StepOf;
    StepKinds(p, s, s', t);
  }

  /** Behind the barrier nobody is pushing any more. */
  lemma NobodyPushes(p: Setup, s: State)
    requires BarrierCounts(p, s) && s.open
    ensures forall t: nat | t < |s.threads| :: !Pushing(s.threads[t].pc)
  {
    assert StillPushing(s.threads) == {};
  }

  // ----- the lookup -----

  /** One more row. */
  lemma FoundNext(maskMap: map<seq<bool>, nat>, masks: map<nat, seq<bool>>, rows: seq<seq<bool>>, lo: nat, r: nat,
                  maxBinSize: nat)
    requires maxBinSize > 0 && lo <= r < |rows|
    ensures var before, hit := Found(maskMap, masks, rows[lo..r], maxBinSize),
            Lookup(maskMap, masks, rows[r], maxBinSize);
            Found(maskMap, masks, rows[lo..r + 1], maxBinSize) == if hit.Some? then before + [hit.value] else before
  {
    hide Lookup;
    var here := rows[lo..r + 1];
    assert here[..|here| - 1] == rows[lo..r];
  }

  lemma RangeOk(p: Setup, t: nat)
    requires SetupOk(p) && t < |p.work|
    ensures RangeStart(p, t) <= RangeStart(p, t + 1) <= |p.rows|
  {
    hide Cut;
    SomeThreads(p);
    CutsCover(|p.rows|, |p.work|, t);
  }

  lemma NoRows(p: Setup, s: State, t: nat)
    requires SetupOk(p) && t < |s.threads| == |p.work| && s.threads[t].found == []
    requires s.threads[t].pc == Look(RangeStart(p, t))
    ensures SearchedBy(p, s, t)
  {
    hide Cut, SetupOk, RangeStart;
    RangeOk(p, t);
    SomeThreads(p);
    assert p.rows[RangeStart(p, t)..RangeStart(p, t)] == [];
  }

  lemma MoreRows(p: Setup, s: State, s': State, t: nat)
    requires SetupOk(p) && t < |s.threads| == |p.work| && SearchedBy(p, s, t) && StepOf(p, s, s', t)
             && Behind(s.threads[t].pc)
    ensures |s'.threads| == |p.work| && SearchedBy(p, s', t)
  {
    hide Cut, SetupOk, RangeStart, Lookup, Found;
    SomeThreads(p);
    RangeOk(p, t);
    if s.threads[t].pc.Look? && s.threads[t].pc.r < RangeStart(p, t + 1) {
      FoundNext(s.maskMap, s.masks, p.rows, RangeStart(p, t), s.threads[t].pc.r, p.maxBinSize);
    }
  }

  lemma StepKeepsSearched(p: Setup, s: State, s': State, t: nat)
    requires SetupOk(p) && Inv(p, s) && StepOf(p, s, s', t)
    ensures Searched(p, s')
  {
    hide SetupOk, Sound, CoveredSoFar, Merged, SearchedBy, StepOf;
    StepKinds(p, s, s', t);
    Passing(p, s, s', t);
    if s.open {
      NobodyPushes(p, s);
    }
    forall u: nat | u < |s'.threads| && Behind(s'.threads[u].pc) ensures SearchedBy(p, s', u) {
      if u == t {
        if Behind(s.threads[t].pc) {
          MoreRows(p, s, s', t);
        } else {
          NoRows(p, s', t);
        }
      } else {
        SameSearch(p, s, s', u);
      }
    }
  }

  /** The moment a thread gets behind the barrier it has found nothing yet. */
  lemma Passing(p: Setup, s: State, s': State, t: nat)
    requires SetupOk(p) && Shape(p, s) && StepOf(p, s, s', t)
    ensures |s'.threads| == |s.threads| == |p.work|
    ensures !Behind(s.threads[t].pc) && Behind(s'.threads[t].pc) ==>
              s'.threads[t].found == [] && s'.threads[t].pc == Look(RangeStart(p, t)) && KeepsMasks(s, s', t)
    ensures Pushing(s.threads[t].pc) && !s.threads[t].pc.Arrive? ==> s'.open == s.open && Pushing(s'.threads[t].pc)
  {
    hide SetupOk, Inserted, Lookup, Cut, Bytes, IndexOf, KeyOf;
    assert ThreadOk(p, s.threads[t], t);
  }

  lemma SameSearch(p: Setup, s: State, s': State, u: nat)
    requires SetupOk(p) && u < |s.threads| == |s'.threads| && SearchedBy(p, s, u)
    requires s'.threads[u] == s.threads[u] && s'.maskMap == s.maskMap && s'.masks == s.masks
    ensures SearchedBy(p, s', u)
  {
    hide Cut, Found;
  }

  // ----- merging -----

  lemma MergedLast(threads: seq<Thread>, n: nat)
    requires |threads| == n + 1
    ensures Merged(threads) == Merged(threads[..n]) + MergedBy(threads[n])
  {}

  lemma {:induction false} MergedUpdate(threads: seq<Thread>, t: nat, th: Thread, x: nat)
    requires t < |threads|
    ensures Merged(threads[t := th])[x] + MergedBy(threads[t])[x] == Merged(threads)[x] + MergedBy(th)[x]
  {
    hide *;
    var n := |threads| - 1;
    MergedLast(threads, n);
    MergedLast(threads[t := th], n);
    if t < n {
      MergedUpdate(threads[..n], t, th, x);
      assert threads[t := th][..n] == threads[..n][t := th];
    } else {
      assert threads[t := th][..n] == threads[..n];
    }
  }

  lemma StepReports(p: Setup, s: State, s': State, t: nat)
    requires SetupOk(p) && StepOf(p, s, s', t)
    ensures t < |s.threads| == |s'.threads| && s'.threads == s.threads[t := s'.threads[t]]
    ensures !s.threads[t].pc.Done?
    ensures if s'.threads[t].pc.Done? then s'.report == s.report + s'.threads[t].found else s'.report == s.report
  {
    hide SetupOk, Inserted, Lookup, Cut, Bytes, IndexOf, KeyOf;
  }

  lemma StepKeepsMerged(p: Setup, s: State, s': State, t: nat)
    requires SetupOk(p) && multiset(s.report) == Merged(s.threads) && StepOf(p, s, s', t)
    ensures multiset(s'.report) == Merged(s'.threads)
  {
    hide SetupOk, StepOf, Merged;
    StepReports(p, s, s', t);
    forall x ensures multiset(s'.report)[x] == Merged(s'.threads)[x] {
      MergedUpdate(s.threads, t, s'.threads[t], x);
    }
  }

  // ----- every run -----

  /** Every step of every thread keeps the invariant. */
  lemma StepKeeps(p: Setup, s: State, s': State)
    requires SetupOk(p) && Inv(p, s) && Step(p, s, s')
    ensures Inv(p, s')
  {
    hide SetupOk, StepOf, Shape, Sound, CoveredSoFar, BarrierCounts, Searched, Merged, WriteStep;
    var t: nat :| StepOf(p, s, s', t);
    StepKinds(p, s, s', t);
    StepKeepsShape(p, s, s', t);
    if Writes(p, s, t) {
      WriteKeepsSound(p, s, s', t);
    } else if Flushes(p, s, s', t) {
      FlushKeepsSound(p, s, s', t);
    } else {
      OthersKeepSound(p, s, s', t);
    }
    NoEmptyKey(p, s);
    StepKeepsCovered(p, s, s', t);
    StepKeepsBarrier(p, s, s', t);
    StepKeepsSearched(p, s, s', t);
    StepKeepsMerged(p, s, s', t);
  }

  lemma {:induction false} RunKeeps(p: Setup, run: seq<State>)
    requires SetupOk(p) && IsRun(p, run)
    ensures Inv(p, run[|run| - 1])
  {
    hide Inv;
    if |run| == 1 {
      InitHolds(p);
    } else {
      RunKeeps(p, run[..|run| - 1]);
      StepKeeps(p, run[|run| - 2], run[|run| - 1]);
    }
  }

  /** On every run: a thread about to write an entry has room for it in its buffer. */
  lemma NeverOverrun(p: Setup, run: seq<State>, t: nat)
    requires SetupOk(p) && IsRun(p, run) && Writes(p, run[|run| - 1], t)
    ensures |run[|run| - 1].threads[t].buffer| < p.capacity
  {
    hide Sound, CoveredSoFar, BarrierCounts, Searched, Merged;
    RunKeeps(p, run);
    assert ThreadOk(p, run[|run| - 1].threads[t], t);
  }

  /**
    On every run: once the barrier is open the map has every thread's every entry, unless the entry's key is
    the empty one, and nothing else.
   */
  lemma MapComplete(p: Setup, run: seq<State>)
    requires SetupOk(p) && IsRun(p, run) && run[|run| - 1].open
    ensures forall t: nat, k: nat, l: nat | EntryNo(p, t, k, l) ::
              KeyAt(p, t, k, l) in run[|run| - 1].maskMap <==> KeyAt(p, t, k, l) != p.emptyKey
    ensures MapSound(p, run[|run| - 1].masks, run[|run| - 1].maskMap)
  {
    hide Searched, Merged, KeyAt, MapSound;
    RunKeeps(p, run);
    var s := run[|run| - 1];
    NobodyPushes(p, s);
    NoEmptyKey(p, s);
    forall t: nat, k: nat, l: nat | EntryNo(p, t, k, l)
      ensures KeyAt(p, t, k, l) in s.maskMap <==> KeyAt(p, t, k, l) != p.emptyKey
    {
      CoveredOf(p, s, t, k, l);
      assert ThreadOk(p, s.threads[t], t);
    }
  }

  ghost predicate AllDone(s: State) {
    forall t | 0 <= t < |s.threads| :: s.threads[t].pc.Done?
  }

  lemma {:induction false} FoundSplits(maskMap: map<seq<bool>, nat>, masks: map<nat, seq<bool>>, rows: seq<seq<bool>>,
                                       more: seq<seq<bool>>, maxBinSize: nat)
    requires maxBinSize > 0
    ensures Found(maskMap, masks, rows + more, maxBinSize)
         == Found(maskMap, masks, rows, maxBinSize) + Found(maskMap, masks, more, maxBinSize)
  {
    hide Lookup;
    if more == [] {
      assert rows + more == rows;
    } else {
      var n := |more| - 1;
      FoundSplits(maskMap, masks, rows, more[..n], maxBinSize);
      assert (rows + more)[..|rows| + n] == rows + more[..n];
    }
  }

  /** A finished thread's finds are what its share of the rows holds. */
  lemma FoundByThread(p: Setup, s: State, t: nat)
    requires SetupOk(p) && AllDone(s) && Searched(p, s) && t < |s.threads| == |p.work|
    ensures p.maxBinSize > 0 && RangeStart(p, t) <= RangeStart(p, t + 1) <= |p.rows|
    ensures MergedBy(s.threads[t])
         == multiset(Found(s.maskMap, s.masks, p.rows[RangeStart(p, t)..RangeStart(p, t + 1)], p.maxBinSize))
  {
    hide SetupOk, Cut, Found, RangeStart;
    SomeThreads(p);
    assert Behind(s.threads[t].pc) && SearchedBy(p, s, t);
  }

  lemma NoneYet(p: Setup, s: State)
    requires p.maxBinSize > 0
    ensures Merged(s.threads[..0]) == multiset(Found(s.maskMap, s.masks, p.rows[..0], p.maxBinSize))
  {
    hide Lookup, MergedBy;
    assert s.threads[..0] == [] && p.rows[..0] == [];
  }

  lemma {:induction false} MergedIsFound(p: Setup, s: State, m: nat)
    requires SetupOk(p) && AllDone(s) && Searched(p, s) && m <= |s.threads| == |p.work|
    ensures RangeStart(p, m) <= |p.rows|
    ensures Merged(s.threads[..m]) == multiset(Found(s.maskMap, s.masks, p.rows[..RangeStart(p, m)], p.maxBinSize))
  {
    hide *;
    SomeThreads(p);
    RangesBegin(p);
    if m == 0 {
      NoneYet(p, s);
    } else {
      var n := m - 1;
      MergedIsFound(p, s, n);
      FoundByThread(p, s, n);
      var lo, hi := RangeStart(p, n), RangeStart(p, m);
      FoundSplits(s.maskMap, s.masks, p.rows[..lo], p.rows[lo..hi], p.maxBinSize);
      assert p.rows[..lo] + p.rows[lo..hi] == p.rows[..hi];
      MergedLast(s.threads[..m], n);
      assert s.threads[..m][..n] == s.threads[..n] && s.threads[..m][n] == s.threads[n];
    }
  }

  lemma RangesBegin(p: Setup)
    requires SetupOk(p)
    ensures |p.work| > 0 && RangeStart(p, 0) == 0 && RangeStart(p, |p.work|) == |p.rows|
  {
    hide Cut;
    CutsCover(|p.rows|, |p.work|, 0);
  }

  /** When all threads are done the barrier is open, and together they have found what all the rows hold. */
  lemma AllFound(p: Setup, run: seq<State>)
    requires SetupOk(p) && IsRun(p, run) && AllDone(run[|run| - 1])
    ensures var s := run[|run| - 1];
            s.open && multiset(s.report) == multiset(Found(s.maskMap, s.masks, p.rows, p.maxBinSize))
  {
    hide SetupOk, Sound, CoveredSoFar, Merged, Found, RangeStart, Searched;
    RunKeeps(p, run);
    var s := run[|run| - 1];
    SomeThreads(p);
    assert s.threads[0].pc.Done?;
    MergedIsFound(p, s, |p.work|);
    RangesBegin(p);
    assert s.threads[..|p.work|] == s.threads && p.rows[..|p.rows|] == p.rows;
  }

  // ----- every run ends -----

  /** What the steps need is there. */
  lemma CanMove(p: Setup, s: State, t: nat)
    requires SetupOk(p) && Inv(p, s) && t < |s.threads|
    ensures |s.threads| == |p.work| > 0 && p.maxBinSize > 0 && ThreadOk(p, s.threads[t], t)
    ensures s.threads[t].pc.Arrive? ==> s.remaining > 0
    ensures s.threads[t].pc.Look? ==> s.threads[t].pc.r <= RangeStart(p, t + 1) <= |p.rows|
  {
    hide SetupOk, Sound, CoveredSoFar, RangeStart, Merged;
    SomeThreads(p);
    assert t in StillPushing(s.threads) <==> Pushing(s.threads[t].pc);
    if s.threads[t].pc.Look? {
      assert SearchedBy(p, s, t);
    }
  }

  /** The step a thread can take. */
  lemma Move(p: Setup, s: State, t: nat) returns (s': State)
    requires SetupOk(p) && Inv(p, s) && t < |s.threads| && !s.threads[t].pc.Done? && (s.threads[t].pc.Wait? ==> s.open)
    ensures StepOf(p, s, s', t)
  {
    hide SetupOk, Inv, Inserted, Lookup, Cut, Bytes, IndexOf, KeyOf;
    CanMove(p, s, t);
    var th := s.threads[t];
    var flushed := Inserted(s.maskMap, th.buffer, p.emptyKey);
    match th.pc
    case Item(k) =>
      s' := if k == |p.work[t]| then s.(maskMap := flushed, threads := s.threads[t := th.(pc := Arrive, buffer := [])])
            else if |th.buffer| + p.work[t][k].load > p.capacity
            then s.(maskMap := flushed, threads := s.threads[t := th.(pc := Write(k, 0), buffer := [])])
            else s.(threads := s.threads[t := th.(pc := Write(k, 0))]);
    case Write(k, l) =>
      var task := p.work[t][k];
      var entry := Entry(KeyOf(Bytes(p, task, l)), IndexOf(p, task, l));
      s' := if l < task.load
            then s.(masks := s.masks[IndexOf(p, task, l) := Bytes(p, task, l)],
                    threads := s.threads[t := th.(pc := Write(k, l + 1), buffer := th.buffer + [entry])])
            else s.(threads := s.threads[t := th.(pc := Item(k + 1))]);
    case Arrive =>
      s' := s.(remaining := s.remaining - 1,
          threads := s.threads[t := th.(pc := if s.remaining - 1 != 0 then Wait else Open)]);
    case Open => s' := s.(open := true, threads := s.threads[t := th.(pc := Look(RangeStart(p, t)))]);
    case Wait => s' := s.(threads := s.threads[t := th.(pc := Look(RangeStart(p, t)))]);
    case Look(r) =>
      if r < RangeStart(p, t + 1) {
        var hit := Lookup(s.maskMap, s.masks, p.rows[r], p.maxBinSize);
        s' := s.(threads :=
            s.threads[t := th.(pc := Look(r + 1), found := if hit.Some? then th.found + [hit.value] else th.found)]);
      } else {
        s' := s.(threads := s.threads[t := th.(pc := Merge)]);
      }
    case Merge => s' := s.(report := s.report + th.found, threads := s.threads[t := th.(pc := Done)]);
  }

  /** Nobody is stuck: while some thread is not done, some thread can move. */
  lemma NoDeadlock(p: Setup, run: seq<State>) returns (s': State)
    requires SetupOk(p) && IsRun(p, run) && !AllDone(run[|run| - 1])
    ensures Step(p, run[|run| - 1], s')
  {
    hide SetupOk, StepOf, Shape, Sound, CoveredSoFar, Searched, Merged;
    RunKeeps(p, run);
    var s := run[|run| - 1];
    var t: nat :| t < |s.threads| && !s.threads[t].pc.Done?;
    if s.threads[t].pc.Wait? && !s.open {
      assert StillPushing(s.threads) + Opening(s.threads) != {};
      t :| t in StillPushing(s.threads) + Opening(s.threads);
    }
    s' := Move(p, s, t);
  }

  /** The steps a thread still has to take, at most. */
  function Left(p: Setup, t: nat, pc: Phase): int
    requires t < |p.work|
  {
    var n, rows := |p.work[t]|, |p.rows|;
    match pc
    case Item(k) => if k <= n then rows + 5 + 2 * (n - k) + RowsBefore(p.work[t], n) - RowsBefore(p.work[t], k) else 0
    case Write(k, l) => if k <= n then rows + 4 + 2 * (n - k) + RowsBefore(p.work[t], n) - RowsBefore(p.work[t], k) - l
        else 0
    case Arrive => rows + 4
    case Wait => rows + 3
    case Open => rows + 3
    case Look(r) => rows - r + 2
    case Merge => 1
    case Done => 0
  }

  lemma LeftDrops(p: Setup, s: State, s': State, t: nat)
    requires SetupOk(p) && Inv(p, s) && StepOf(p, s, s', t)
    ensures |s'.threads| == |s.threads| == |p.work|
    ensures Left(p, t, s'.threads[t].pc) < Left(p, t, s.threads[t].pc)
  {
    hide SetupOk, Inv, Inserted, Lookup, Cut, Bytes, IndexOf, KeyOf, RowsBefore;
    CanMove(p, s, t);
    var pc := s.threads[t].pc;
    if pc.Write? {
      NextTask(p.work[t], pc.k);
    }
  }

  lemma LeftIsNat(p: Setup, s: State, t: nat)
    requires SetupOk(p) && Inv(p, s) && t < |s.threads|
    ensures |s.threads| == |p.work| && Left(p, t, s.threads[t].pc) >= 0
  {
    hide SetupOk, Inv, RowsBefore, RangeStart;
    CanMove(p, s, t);
    var pc := s.threads[t].pc;
    if (pc.Item? || pc.Write?) && pc.k < |p.work[t]| {
      RowsGrow(p.work[t], pc.k, |p.work[t]|);
    }
  }

  function Lefts(p: Setup, threads: seq<Thread>): (r: seq<int>)
    requires |threads| == |p.work|
    ensures |r| == |threads| && forall t | 0 <= t < |r| :: r[t] == Left(p, t, threads[t].pc)
  {
    seq(|threads|, t requires 0 <= t < |threads| == |p.work| => Left(p, t, threads[t].pc))
  }

  /** Every step leaves less to do, so with `NoDeadlock` every run can only end with all threads done. */
  lemma StepsRunOut(p: Setup, s: State, s': State)
    requires SetupOk(p) && Inv(p, s) && Step(p, s, s')
    ensures |s.threads| == |s'.threads| == |p.work|
    ensures 0 <= Sum(Lefts(p, s'.threads)) < Sum(Lefts(p, s.threads))
  {
    hide SetupOk, Inv, StepOf, Left, Sum;
    StepKeeps(p, s, s');
    var t: nat :| StepOf(p, s, s', t);
    LeftDrops(p, s, s', t);
    StepKinds(p, s, s', t);
    assert Lefts(p, s'.threads) == Lefts(p, s.threads)[t := Left(p, t, s'.threads[t].pc)];
    SumUpdate(Lefts(p, s.threads), t, Left(p, t, s'.threads[t].pc));
    forall u: nat | u < |s'.threads| ensures Lefts(p, s'.threads)[u] >= 0 {
      LeftIsNat(p, s', u);
    }
    SumIsNat(Lefts(p, s'.threads));
  }

  ghost function Measure(p: Setup, s: State): nat {
    if |s.threads| == |p.work| && Sum(Lefts(p, s.threads)) >= 0 then Sum(Lefts(p, s.threads)) else 0
  }

  /** Every run, however far it got, goes on to one that ends with all threads done. */
  lemma {:induction false} EveryRunEnds(p: Setup, run: seq<State>) returns (more: seq<State>)
    requires SetupOk(p) && IsRun(p, run)
    ensures IsRun(p, more) && AllDone(more[|more| - 1]) && run <= more
    decreases Measure(p, run[|run| - 1])
  {
    hide SetupOk, Step, Inv, Lefts, Sum;
    more := run;
    if !AllDone(run[|run| - 1]) {
      var s' := NoDeadlock(p, run);
      RunKeeps(p, run);
      StepsRunOut(p, run[|run| - 1], s');
      more := EveryRunEnds(p, run + [s']);
    }
  }
}
