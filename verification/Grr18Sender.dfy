/**
  The sender's threads in the variable-load protocol. They add up how many rows there will be; the last to
  do so makes the matrix, with some rows to spare. Each thread reserves as many rows as it has
  by one atomic addition and fills them; behind a second barrier each sends its share of the matrix.
 */
module Grr18Sender {
  import opened Bits
  import opened Permutations
  import opened Tasks

  /**
    `count[t]` is the number of rows that thread t announces, `row` gives the bytes of an item's row for a slot.
    The matrix has `padding` spare rows, drawn as an offset plus noise and so perhaps fewer than none. Nothing
    initialises it: row r starts as `junk(r)`.
    At most `maxSend` rows are sent at a time.
   */
  datatype Setup = Setup(work: seq<seq<Task>>, count: seq<nat>, row: (nat, nat) -> seq<bool>, padding: int,
                         junk: nat -> seq<bool>, maxSend: nat)

  ghost predicate SetupOk(p: Setup) {
    && |p.work| == |p.count| > 0 && p.maxSend > 0
    && forall t | 0 <= t < |p.work| :: p.count[t] == RowsBefore(p.work[t], |p.work[t]|)
  }

  datatype Phase =
    | Count                           // about to add its rows to the total
    | Arrive                          // about to decrement the first barrier's counter
    | Wait
    | Size                            // the last to have decremented it, about to make the matrix and say so
    | Reserve                         // the matrix is there, about to reserve rows of it
    | Write(k: nat, l: nat, pos: nat) // about to write row l of task k to row `pos`, or past the last one
    | ArriveWritten
    | WaitWritten
    | OpenWritten                     // the last to have written, about to open the second barrier
    | Send(row: nat)                  // behind the second barrier, about to send from this row on
    | Done

  /** `base` is where the thread's reserved rows begin. */
  datatype Thread = Thread(pc: Phase, base: nat, sent: seq<seq<bool>>)

  datatype State = State(total: int, counting: nat, sized: bool, rows: seq<seq<bool>>, maskIdx: nat,
                         writing: nat, written: bool, threads: seq<Thread>)

  function Init(p: Setup): State {
    State(0, |p.work|, false, [], 0, |p.work|, false, seq(|p.work|, _ => Thread(Count, 0, [])))
  }

  function Bytes(p: Setup, t: nat, k: nat, l: nat): seq<bool>
    requires t < |p.work| && k < |p.work[t]|
  {
    p.row(p.work[t][k].item, p.work[t][k].otIdx + l)
  }

  function Fresh(n: nat, junk: nat -> seq<bool>): (r: seq<seq<bool>>)
    ensures |r| == n && forall i: nat | i < n :: r[i] == junk(i)
  {
    seq(n, i requires 0 <= i < n => junk(i))
  }

  function AtLeastZero(x: int): nat {
    if x < 0 then 0 else x
  }

  ghost predicate Goto(s: State, s': State, t: nat, pc: Phase)
    requires t < |s.threads|
  {
    s' == s.(threads := s.threads[t := s.threads[t].(pc := pc)])
  }

  /** A step of thread t. */
  ghost predicate StepOf(p: Setup, s: State, s': State, t: nat)
    requires SetupOk(p)
  {
    && t < |s.threads| == |p.work|
    && match s.threads[t].pc
       case Count => Goto(s.(total := s.total + p.count[t]), s', t, Arrive)
       case Arrive =>
         s.counting > 0 && Goto(s.(counting := s.counting - 1), s', t, if s.counting - 1 != 0 then Wait else Size)
       case Size => SizeStep(p, s, s', t)
       case Wait => s.sized && Goto(s, s', t, Reserve)
       case Reserve => ReserveStep(p, s, s', t)
       case Write(k, l, pos) =>
         if k == |p.work[t]| then Goto(s, s', t, ArriveWritten)
         else k < |p.work[t]| && if l == p.work[t][k].load then Goto(s, s', t, Write(k + 1, 0, pos))
             else WriteStep(p, s, s', t)
       case ArriveWritten =>
         && s.writing > 0
         && Goto(s.(writing := s.writing - 1), s', t, if s.writing - 1 != 0 then WaitWritten else OpenWritten)
       case OpenWritten => Goto(s.(written := true), s', t, Send(RangeStart(p, s, t)))
       case WaitWritten => s.written && Goto(s, s', t, Send(RangeStart(p, s, t)))
       case Send(row) => if row == RangeStart(p, s, t + 1) then Goto(s, s', t, Done) else SendStep(p, s, s', t)
       case Done => false
  }

  function RangeStart(p: Setup, s: State, t: nat): nat
    requires |p.work| > 0
  {
    Cut(|s.rows|, |p.work|, t)
  }

  /** The last thread to have counted makes the matrix. */
  ghost predicate SizeStep(p: Setup, s: State, s': State, t: nat)
    requires t < |s.threads|
  {
    Goto(s.(sized := true, total := s.total + p.padding,
            rows := Fresh(AtLeastZero(s.total + p.padding), p.junk)), s', t, Reserve)
  }

  ghost predicate ReserveStep(p: Setup, s: State, s': State, t: nat)
    requires t < |s.threads| && t < |p.count|
  {
    s' == s.(maskIdx := s.maskIdx + p.count[t],
             threads := s.threads[t := s.threads[t].(pc := Write(0, 0, s.maskIdx), base := s.maskIdx)])
  }

  ghost predicate WriteStep(p: Setup, s: State, s': State, t: nat)
    requires t < |s.threads| && t < |p.work| && s.threads[t].pc.Write? && s.threads[t].pc.k < |p.work[t]|
  {
    var k, l, pos := s.threads[t].pc.k, s.threads[t].pc.l, s.threads[t].pc.pos;
    && pos < |s.rows|
    && Goto(s.(rows := s.rows[pos := Bytes(p, t, k, l)]), s', t, Write(k, l + 1, pos + 1))
  }

  ghost predicate SendStep(p: Setup, s: State, s': State, t: nat)
    requires t < |s.threads| && s.threads[t].pc.Send? && |p.work| > 0
  {
    var row, end := s.threads[t].pc.row, RangeStart(p, s, t + 1);
    && row < end <= |s.rows|
    && var step := if p.maxSend < end - row then p.maxSend else end - row;
       s' == s.(threads :=
           s.threads[t := s.threads[t].(pc := Send(row + step), sent := s.threads[t].sent + s.rows[row..row + step])])
  }

  ghost predicate Step(p: Setup, s: State, s': State)
    requires SetupOk(p)
  {
    exists t: nat :: StepOf(p, s, s', t)
  }

  ghost predicate IsRun(p: Setup, run: seq<State>)
    requires SetupOk(p)
  {
    |run| > 0 && run[0] == Init(p) && forall i | 0 < i < |run| :: Step(p, run[i - 1], run[i])
  }

  // ----- sums over some of the threads -----

  /** The counts of the threads that are `in`. */
  function Tally(count: seq<nat>, ins: seq<bool>): nat
    requires |count| == |ins|
  {
    if ins == [] then 0
    else
      var n := |ins| - 1;
      Tally(count[..n], ins[..n]) + if ins[n] then count[n] else 0
  }

  lemma {:induction false} TallySet(count: seq<nat>, ins: seq<bool>, t: nat)
    requires t < |count| == |ins| && !ins[t]
    ensures Tally(count, ins[t := true]) == Tally(count, ins) + count[t]
  {
    var n := |ins| - 1;
    if t < n {
      TallySet(count[..n], ins[..n], t);
      assert ins[t := true][..n] == ins[..n][t := true];
    } else {
      assert ins[t := true][..n] == ins[..n];
    }
  }

  /** More threads have at least as many rows. */
  lemma {:induction false} TallyGrows(count: seq<nat>, ins: seq<bool>, ins': seq<bool>)
    requires |count| == |ins| == |ins'| && forall t | 0 <= t < |ins| && ins[t] :: ins'[t]
    ensures Tally(count, ins) <= Tally(count, ins')
  {
    if ins != [] {
      var n := |ins| - 1;
      TallyGrows(count[..n], ins[..n], ins'[..n]);
    }
  }

  lemma {:induction false} TallyNone(count: seq<nat>, ins: seq<bool>)
    requires |count| == |ins| && forall t | 0 <= t < |ins| :: !ins[t]
    ensures Tally(count, ins) == 0
  {
    if ins != [] {
      TallyNone(count[..|ins| - 1], ins[..|ins| - 1]);
    }
  }

  function All(n: nat): (r: seq<bool>)
    ensures |r| == n && forall i | 0 <= i < n :: r[i]
  {
    seq(n, _ => true)
  }

  /** The rows of all threads. */
  function Total(p: Setup): nat {
    Tally(p.count, All(|p.count|))
  }

  // ----- phases -----

  predicate Counted(pc: Phase) {
    !pc.Count?
  }

  /** Past the first barrier. */
  predicate Past(pc: Phase) {
    !Uncounted(pc) && !pc.Wait? && !pc.Size?
  }

  /** Before the first barrier's counter. */
  predicate Uncounted(pc: Phase) {
    pc.Count? || pc.Arrive?
  }

  predicate Holding(pc: Phase) {
    Past(pc) && !pc.Reserve?
  }

  predicate StillWriting(pc: Phase) {
    !pc.WaitWritten? && !pc.OpenWritten? && !Sending(pc)
  }

  predicate Sending(pc: Phase) {
    pc.Send? || pc.Done?
  }

  /** Whether row l of task k has been written. */
  predicate HasWritten(pc: Phase, k: nat, l: nat) {
    match pc
    case Write(j, m, _) => k < j || (k == j && l < m)
    case _ => Holding(pc)
  }

  predicate EntryNo(p: Setup, t: nat, k: nat, l: nat) {
    t < |p.work| && k < |p.work[t]| && l < p.work[t][k].load
  }

  // ----- the invariant -----

  ghost predicate ThreadOk(p: Setup, th: Thread, t: nat)
    requires t < |p.work|
  {
    match th.pc
    case Write(k, l, pos) =>
      && k <= |p.work[t]| && (if k < |p.work[t]| then l <= p.work[t][k].load else l == 0)
      && pos == th.base + RowsBefore(p.work[t], k) + l && th.sent == []
    case Send(_) => true
    case Done => true
    case _ => th.sent == []
  }

  ghost predicate Shape(p: Setup, s: State) {
    |s.threads| == |p.work| && forall t | 0 <= t < |s.threads| :: ThreadOk(p, s.threads[t], t)
  }

  function HoldingOf(threads: seq<Thread>): (r: seq<bool>)
    ensures |r| == |threads| && forall t | 0 <= t < |r| :: r[t] == Holding(threads[t].pc)
  {
    seq(|threads|, t requires 0 <= t < |threads| => Holding(threads[t].pc))
  }

  function CountedOf(threads: seq<Thread>): (r: seq<bool>)
    ensures |r| == |threads| && forall t | 0 <= t < |r| :: r[t] == Counted(threads[t].pc)
  {
    seq(|threads|, t requires 0 <= t < |threads| => Counted(threads[t].pc))
  }

  /** Row r lies in the rows that thread t has reserved. */
  predicate InRegion(p: Setup, s: State, t: nat, r: nat) {
    t < |s.threads| && t < |p.count| && Holding(s.threads[t].pc)
        && s.threads[t].base <= r < s.threads[t].base + p.count[t]
  }

  ghost predicate Reserved(p: Setup, s: State, r: nat) {
    exists t: nat :: InRegion(p, s, t, r)
  }

  /** The threads' reservations lie below `maskIdx`, apart from each other, and leave no row out. */
  ghost predicate Regions(p: Setup, s: State) {
    && |s.threads| == |p.count| && s.maskIdx == Tally(p.count, HoldingOf(s.threads))
    && (forall t | 0 <= t < |s.threads| && Holding(s.threads[t].pc) :: s.threads[t].base + p.count[t] <= s.maskIdx)
    && (forall t, u | 0 <= t < |s.threads| && 0 <= u < |s.threads| && t != u
          && Holding(s.threads[t].pc) && Holding(s.threads[u].pc) ::
          s.threads[t].base + p.count[t] <= s.threads[u].base || s.threads[u].base + p.count[u] <= s.threads[t].base)
    && forall r: nat | r < s.maskIdx :: Reserved(p, s, r)
  }

  /** Before the matrix is made the total adds up; afterwards the matrix has that many rows and the spare ones. */
  ghost predicate Sized(p: Setup, s: State) {
    && |s.threads| == |p.count|
    && (s.sized ==> |s.rows| == AtLeastZero(Total(p) + p.padding))
    && (!s.sized ==> s.rows == [] && s.total == Tally(p.count, CountedOf(s.threads)))
  }

  function Before(threads: seq<Thread>): (r: set<nat>)
    ensures forall t: nat :: t in r <==> t < |threads| && Uncounted(threads[t].pc)
  {
    set t | t in Below(|threads|) && Uncounted(threads[t].pc)
  }

  function Sizing(threads: seq<Thread>): (r: set<nat>)
    ensures forall t: nat :: t in r <==> t < |threads| && threads[t].pc.Size?
  {
    set t | t in Below(|threads|) && threads[t].pc.Size?
  }

  function Writers(threads: seq<Thread>): (r: set<nat>)
    ensures forall t: nat :: t in r <==> t < |threads| && StillWriting(threads[t].pc)
  {
    set t | t in Below(|threads|) && StillWriting(threads[t].pc)
  }

  function Opening(threads: seq<Thread>): (r: set<nat>)
    ensures forall t: nat :: t in r <==> t < |threads| && threads[t].pc.OpenWritten?
  {
    set t | t in Below(|threads|) && threads[t].pc.OpenWritten?
  }

  /** At each barrier one thread is on the way from the counter, once that is zero, to the opening of the barrier. */
  ghost predicate FirstBarrier(s: State) {
    && s.counting == |Before(s.threads)| && (s.sized ==> s.counting == 0)
    && |Sizing(s.threads)| == (if s.counting == 0 && !s.sized then 1 else 0)
    && forall t | 0 <= t < |s.threads| && Past(s.threads[t].pc) :: s.sized
  }

  ghost predicate SecondBarrier(s: State) {
    && s.writing == |Writers(s.threads)| && (s.written ==> s.writing == 0)
    && |Opening(s.threads)| == (if s.writing == 0 && !s.written then 1 else 0)
    && forall t | 0 <= t < |s.threads| && Sending(s.threads[t].pc) :: s.written
  }

  /** The row in which row l of task k of thread t goes. */
  function Place(p: Setup, s: State, t: nat, k: nat, l: nat): nat
    requires EntryNo(p, t, k, l) && t < |s.threads|
  {
    s.threads[t].base + RowsBefore(p.work[t], k) + l
  }

  ghost predicate InPlace(p: Setup, s: State, t: nat, k: nat, l: nat)
    requires EntryNo(p, t, k, l) && t < |s.threads|
  {
    Place(p, s, t, k, l) < |s.rows| && s.rows[Place(p, s, t, k, l)] == Bytes(p, t, k, l)
  }

  /** What has been written is in place, and rows that nobody has reserved are as they were. */
  ghost predicate Contents(p: Setup, s: State) {
    && |s.threads| == |p.work|
    && (forall t: nat, k: nat, l: nat | EntryNo(p, t, k, l) && HasWritten(s.threads[t].pc, k, l) ::
        InPlace(p, s, t, k, l))
    && forall r: nat | s.maskIdx <= r < |s.rows| :: s.rows[r] == p.junk(r)
  }

  function SentUpTo(p: Setup, s: State, t: nat): nat
    requires t < |s.threads| && |p.work| > 0
  {
    match s.threads[t].pc
    case Send(row) => row
    case _ => RangeStart(p, s, t + 1)
  }

  ghost predicate SentBy(p: Setup, s: State, t: nat)
    requires t < |s.threads| && |p.work| > 0
  {
    && RangeStart(p, s, t) <= SentUpTo(p, s, t) <= RangeStart(p, s, t + 1) <= |s.rows|
    && s.threads[t].sent == s.rows[RangeStart(p, s, t)..SentUpTo(p, s, t)]
  }

  /** A thread behind the second barrier has sent its share as far as it says. */
  ghost predicate Sent(p: Setup, s: State)
    requires |p.work| > 0
  {
    forall t | 0 <= t < |s.threads| && Sending(s.threads[t].pc) :: SentBy(p, s, t)
  }

  ghost predicate Inv(p: Setup, s: State)
    requires |p.work| > 0
  {
    && Shape(p, s) && Regions(p, s) && Sized(p, s) && FirstBarrier(s) && SecondBarrier(s) && Contents(p, s)
    && Sent(p, s)
  }

  lemma SomeThreads(p: Setup)
    requires SetupOk(p)
    ensures |p.work| == |p.count| > 0 && p.maxSend > 0
  {}

  lemma InitHolds(p: Setup)
    requires SetupOk(p)
    ensures |p.work| > 0 && Inv(p, Init(p))
  {
    hide SetupOk, FirstBarrier, SecondBarrier, Regions, Sized, InPlace, Sent;
    SomeThreads(p);
    InitCounts(p);
    InitBarriers(p);
  }

  lemma InitCounts(p: Setup)
    requires SetupOk(p)
    ensures |p.work| > 0 && Regions(p, Init(p)) && Sized(p, Init(p)) && Sent(p, Init(p))
  {
    hide SetupOk, Tally, SentBy;
    SomeThreads(p);
    TallyNone(p.count, HoldingOf(Init(p).threads));
    TallyNone(p.count, CountedOf(Init(p).threads));
  }

  lemma InitBarriers(p: Setup)
    requires SetupOk(p)
    ensures FirstBarrier(Init(p)) && SecondBarrier(Init(p))
  {
    hide SetupOk;
    SomeThreads(p);
    BelowSize(|p.work|);
    assert Before(Init(p).threads) == Below(|p.work|);
    assert Writers(Init(p).threads) == Below(|p.work|);
    assert Sizing(Init(p).threads) == {} == Opening(Init(p).threads);
  }

  // ----- what a step does -----

  ghost predicate SameOthers(s: State, s': State, t: nat) {
    && t < |s.threads| == |s'.threads|
    && forall u | 0 <= u < |s.threads| && u != t :: s'.threads[u] == s.threads[u]
  }

  predicate Sizes(s: State, t: nat) {
    t < |s.threads| && s.threads[t].pc.Size?
  }

  predicate Writes(p: Setup, s: State, t: nat) {
    t < |s.threads| && s.threads[t].pc.Write? && EntryNo(p, t, s.threads[t].pc.k, s.threads[t].pc.l)
  }

  lemma StepOthers(p: Setup, s: State, s': State, t: nat)
    requires SetupOk(p) && StepOf(p, s, s', t)
    ensures |s.threads| == |p.work| == |p.count| && SameOthers(s, s', t)
  {
    hide SetupOk, Bytes, Fresh, Cut, RowsBefore;
    SomeThreads(p);
  }

  lemma ReserveKinds(p: Setup, s: State, s': State, t: nat)
    requires SetupOk(p) && ShapeAt(p, s, t) && StepOf(p, s, s', t)
    ensures |s.threads| == |p.work| == |p.count| && |s'.threads| == |s.threads|
    ensures if s.threads[t].pc.Reserve? then ReserveStep(p, s, s', t)
            else s'.maskIdx == s.maskIdx && s'.threads[t].base == s.threads[t].base
                 && Holding(s'.threads[t].pc) == Holding(s.threads[t].pc)
  {
    hide SetupOk, Bytes, Fresh, Cut, RowsBefore;
    SomeThreads(p);
  }

  lemma RowKinds(p: Setup, s: State, s': State, t: nat)
    requires SetupOk(p) && ShapeAt(p, s, t) && StepOf(p, s, s', t)
    ensures |s.threads| == |p.work| == |p.count|
    ensures if Sizes(s, t) then SizeStep(p, s, s', t) else s'.sized == s.sized && |s'.rows| == |s.rows|
    ensures if Writes(p, s, t) then WriteStep(p, s, s', t) else Sizes(s, t) || s'.rows == s.rows
  {
    hide SetupOk, Bytes, Fresh, Cut, RowsBefore;
    SomeThreads(p);
  }

  /** A step concerns one thread, and few of them change the matrix or the reservations. */
  lemma StepKinds(p: Setup, s: State, s': State, t: nat)
    requires SetupOk(p) && ShapeAt(p, s, t) && StepOf(p, s, s', t)
    ensures |s.threads| == |p.work| == |p.count| && SameOthers(s, s', t)
    ensures if s.threads[t].pc.Reserve? then ReserveStep(p, s, s', t)
            else s'.maskIdx == s.maskIdx && s'.threads[t].base == s.threads[t].base
                 && Holding(s'.threads[t].pc) == Holding(s.threads[t].pc)
    ensures if Sizes(s, t) then SizeStep(p, s, s', t) else s'.sized == s.sized && |s'.rows| == |s.rows|
    ensures if Writes(p, s, t) then WriteStep(p, s, s', t) else Sizes(s, t) || s'.rows == s.rows
  {
    hide *;
    StepOthers(p, s, s', t);
    ReserveKinds(p, s, s', t);
    RowKinds(p, s, s', t);
  }

  ghost predicate ShapeAt(p: Setup, s: State, t: nat) {
    t < |s.threads| == |p.work| && ThreadOk(p, s.threads[t], t)
  }

  lemma ShapeOf(p: Setup, s: State, t: nat)
    requires Shape(p, s) && t < |s.threads|
    ensures ShapeAt(p, s, t)
  {}

  lemma StepKeepsThread(p: Setup, s: State, s': State, t: nat)
    requires SetupOk(p) && ShapeAt(p, s, t) && StepOf(p, s, s', t)
    ensures ShapeAt(p, s', t)
  {
    hide SetupOk, Bytes, Fresh, Cut, RowsBefore;
    SomeThreads(p);
    if s.threads[t].pc.Write? && s.threads[t].pc.k < |p.work[t]| {
      NextTask(p.work[t], s.threads[t].pc.k);
    }
    NothingBefore(p.work[t]);
  }

  lemma NothingBefore(tasks: seq<Task>)
    ensures RowsBefore(tasks, 0) == 0
  {}

  lemma StepKeepsShape(p: Setup, s: State, s': State, t: nat)
    requires SetupOk(p) && Shape(p, s) && StepOf(p, s, s', t)
    ensures Shape(p, s')
  {
    hide SetupOk, StepOf, ThreadOk;
    AtThread(p, s, s', t);
    ShapeOf(p, s, t);
    StepKinds(p, s, s', t);
    StepKeepsThread(p, s, s', t);
    forall u: nat | u < |s'.threads| ensures ThreadOk(p, s'.threads[u], u) {
      ShapeOf(p, s, u);
    }
  }

  lemma AtThread(p: Setup, s: State, s': State, t: nat)
    requires SetupOk(p) && StepOf(p, s, s', t)
    ensures t < |s.threads| == |p.work| == |p.count| && p.count[t] == RowsBefore(p.work[t], |p.work[t]|)
  {
    hide Cut, RowsBefore;
  }

  // ----- the reservations -----

  lemma SameRegions(p: Setup, s: State, s': State, t: nat)
    requires Regions(p, s) && SameOthers(s, s', t) && s'.maskIdx == s.maskIdx && s'.threads[t].base == s.threads[t].base
    requires Holding(s'.threads[t].pc) == Holding(s.threads[t].pc)
    ensures Regions(p, s')
  {
    hide Tally, Holding;
    assert HoldingOf(s'.threads) == HoldingOf(s.threads);
    forall r: nat | r < s'.maskIdx ensures Reserved(p, s', r) {
      assert Reserved(p, s, r);
      var u: nat :| InRegion(p, s, u, r);
      assert InRegion(p, s', u, r);
    }
  }

  lemma ReserveKeepsRegions(p: Setup, s: State, s': State, t: nat)
    requires Regions(p, s) && SameOthers(s, s', t) && s.threads[t].pc.Reserve? && t < |p.count|
             && ReserveStep(p, s, s', t)
    ensures Regions(p, s')
  {
    hide Tally;
    assert HoldingOf(s'.threads) == HoldingOf(s.threads)[t := true];
    TallySet(p.count, HoldingOf(s.threads), t);
    forall r: nat | r < s'.maskIdx ensures Reserved(p, s', r) {
      if r < s.maskIdx {
        assert Reserved(p, s, r);
        var u: nat :| InRegion(p, s, u, r);
        assert InRegion(p, s', u, r);
      } else {
        assert InRegion(p, s', t, r);
      }
    }
  }

  // ----- the size of the matrix -----

  lemma CountSums(p: Setup, s: State, s': State, t: nat)
    requires SetupOk(p) && Sized(p, s) && FirstBarrier(s) && StepOf(p, s, s', t) && s.threads[t].pc.Count?
    ensures Sized(p, s')
  {
    hide SetupOk, Tally, Total, Fresh, Cut, RowsBefore;
    assert t in Before(s.threads);
    assert CountedOf(s'.threads) == CountedOf(s.threads)[t := true];
    TallySet(p.count, CountedOf(s.threads), t);
  }

  /** The matrix is made when all have counted. */
  lemma SizeSums(p: Setup, s: State, s': State, t: nat)
    requires Sized(p, s) && FirstBarrier(s) && SameOthers(s, s', t) && Sizes(s, t) && SizeStep(p, s, s', t)
    ensures Sized(p, s')
  {
    hide Tally, Fresh;
    OnlyOneLeft(s, t);
    assert CountedOf(s.threads) == All(|p.count|);
  }

  lemma OnlyOneLeft(s: State, t: nat)
    requires FirstBarrier(s) && Sizes(s, t)
    ensures forall u: nat | u < |s.threads| && u != t :: s.threads[u].pc.Wait?
    ensures !s.sized
  {
    assert t in Sizing(s.threads);
    assert |Sizing(s.threads) - {t}| == 0;
    forall u: nat | u < |s.threads| && u != t ensures s.threads[u].pc.Wait? {
      assert u !in Sizing(s.threads) - {t} && u !in Before(s.threads);
    }
  }

  lemma OthersKeepSized(p: Setup, s: State, s': State, t: nat)
    requires SetupOk(p) && ShapeAt(p, s, t) && Sized(p, s) && StepOf(p, s, s', t) && !Sizes(s, t)
             && !s.threads[t].pc.Count?
    ensures Sized(p, s')
  {
    hide SetupOk, StepOf, Tally, Total;
    StepKinds(p, s, s', t);
    SameTotal(p, s, s', t);
    assert CountedOf(s'.threads) == CountedOf(s.threads);
  }

  lemma SameTotal(p: Setup, s: State, s': State, t: nat)
    requires SetupOk(p) && StepOf(p, s, s', t) && !Sizes(s, t) && !s.threads[t].pc.Count?
    ensures |s'.threads| == |s.threads| && s'.total == s.total && Counted(s'.threads[t].pc)
  {
    hide SetupOk, Bytes, Fresh, Cut, RowsBefore;
    SomeThreads(p);
  }

  // ----- the barriers -----

  /** What a step of thread t does to the first barrier's counter. */
  lemma Counts(p: Setup, s: State, s': State, t: nat)
    requires SetupOk(p) && StepOf(p, s, s', t)
    ensures |s'.threads| == |s.threads|
    ensures s.threads[t].pc.Arrive? ==>
              s.counting > 0 && s'.counting == s.counting - 1 && s'.sized == s.sized
              && s'.threads[t].pc == if s'.counting == 0 then Size else Wait
    ensures !s.threads[t].pc.Arrive? ==> s'.counting == s.counting && s'.sized == (s.sized || s.threads[t].pc.Size?)
  {
    hide SetupOk, Bytes, Fresh, Cut, RowsBefore;
    SomeThreads(p);
  }

  /** And to the first barrier. */
  lemma PassesFirst(p: Setup, s: State, s': State, t: nat)
    requires SetupOk(p) && StepOf(p, s, s', t) && !s.threads[t].pc.Arrive?
    ensures |s'.threads| == |s.threads|
    ensures !s'.threads[t].pc.Size? && Uncounted(s'.threads[t].pc) == Uncounted(s.threads[t].pc)
    ensures Past(s'.threads[t].pc) ==> Past(s.threads[t].pc) || s'.sized
  {
    hide SetupOk, Bytes, Fresh, Cut, RowsBefore;
    SomeThreads(p);
  }

  /** What it does to the second barrier's counter. */
  lemma CountsWritten(p: Setup, s: State, s': State, t: nat)
    requires SetupOk(p) && StepOf(p, s, s', t)
    ensures |s'.threads| == |s.threads|
    ensures s.threads[t].pc.ArriveWritten? ==>
              s.writing > 0 && s'.writing == s.writing - 1 && s'.written == s.written
              && s'.threads[t].pc == if s'.writing == 0 then OpenWritten else WaitWritten
    ensures !s.threads[t].pc.ArriveWritten? ==>
              s'.writing == s.writing && s'.written == (s.written || s.threads[t].pc.OpenWritten?)
  {
    hide SetupOk, Bytes, Fresh, Cut, RowsBefore;
    SomeThreads(p);
  }

  /** And to the second barrier. */
  lemma PassesSecond(p: Setup, s: State, s': State, t: nat)
    requires SetupOk(p) && StepOf(p, s, s', t) && !s.threads[t].pc.ArriveWritten?
    ensures |s'.threads| == |s.threads|
    ensures !s'.threads[t].pc.OpenWritten? && StillWriting(s'.threads[t].pc) == StillWriting(s.threads[t].pc)
    ensures Sending(s'.threads[t].pc) ==> Sending(s.threads[t].pc) || s'.written
  {
    hide SetupOk, Bytes, Fresh, Cut, RowsBefore;
    SomeThreads(p);
  }

  lemma BeforeChanges(s: State, s': State, t: nat)
    requires SameOthers(s, s', t)
    ensures (t in Before(s'.threads) <==> t in Before(s.threads)) ==> Before(s'.threads) == Before(s.threads)
    ensures t in Before(s.threads) && t !in Before(s'.threads) ==> |Before(s'.threads)| == |Before(s.threads)| - 1
    ensures forall u: nat | u < |s.threads| && u != t :: s'.threads[u] == s.threads[u]
  {
    hide Uncounted;
    if t in Before(s.threads) && t !in Before(s'.threads) {
      assert Before(s'.threads) == Before(s.threads) - {t};
    } else if t in Before(s.threads) <==> t in Before(s'.threads) {
      assert Before(s'.threads) == Before(s.threads);
    }
  }

  lemma SizersChange(s: State, s': State, t: nat)
    requires SameOthers(s, s', t)
    ensures t in Sizing(s.threads) <==> s.threads[t].pc.Size?
    ensures |Sizing(s'.threads)| == |Sizing(s.threads)| + (if s'.threads[t].pc.Size? then 1 else 0)
            - (if s.threads[t].pc.Size? then 1 else 0)
  {
    if s'.threads[t].pc.Size? == s.threads[t].pc.Size? {
      assert Sizing(s'.threads) == Sizing(s.threads);
    } else if s'.threads[t].pc.Size? {
      assert Sizing(s'.threads) == Sizing(s.threads) + {t};
    } else {
      assert Sizing(s'.threads) == Sizing(s.threads) - {t};
    }
  }

  lemma OpenersChange(s: State, s': State, t: nat)
    requires SameOthers(s, s', t)
    ensures t in Opening(s.threads) <==> s.threads[t].pc.OpenWritten?
    ensures |Opening(s'.threads)| == |Opening(s.threads)| + (if s'.threads[t].pc.OpenWritten? then 1 else 0)
            - (if s.threads[t].pc.OpenWritten? then 1 else 0)
  {
    if s'.threads[t].pc.OpenWritten? == s.threads[t].pc.OpenWritten? {
      assert Opening(s'.threads) == Opening(s.threads);
    } else if s'.threads[t].pc.OpenWritten? {
      assert Opening(s'.threads) == Opening(s.threads) + {t};
    } else {
      assert Opening(s'.threads) == Opening(s.threads) - {t};
    }
  }

  lemma StepKeepsFirst(p: Setup, s: State, s': State, t: nat)
    requires SetupOk(p) && ShapeAt(p, s, t) && FirstBarrier(s) && StepOf(p, s, s', t)
    ensures FirstBarrier(s')
  {
    hide SetupOk, StepOf, ShapeAt, SameOthers, Before, Sizing;
    AtThread(p, s, s', t);
    Counts(p, s, s', t);
    if !s.threads[t].pc.Arrive? {
      PassesFirst(p, s, s', t);
    }
    StepOthers(p, s, s', t);
    BeforeChanges(s, s', t);
    SizersChange(s, s', t);
  }

  lemma WritersChange(s: State, s': State, t: nat)
    requires SameOthers(s, s', t)
    ensures (t in Writers(s'.threads) <==> t in Writers(s.threads)) ==> Writers(s'.threads) == Writers(s.threads)
    ensures t in Writers(s.threads) && t !in Writers(s'.threads) ==> |Writers(s'.threads)| == |Writers(s.threads)| - 1
    ensures forall u: nat | u < |s.threads| && u != t :: s'.threads[u] == s.threads[u]
  {
    hide StillWriting;
    if t in Writers(s.threads) && t !in Writers(s'.threads) {
      assert Writers(s'.threads) == Writers(s.threads) - {t};
    } else if t in Writers(s.threads) <==> t in Writers(s'.threads) {
      assert Writers(s'.threads) == Writers(s.threads);
    }
  }

  lemma StepKeepsSecond(p: Setup, s: State, s': State, t: nat)
    requires SetupOk(p) && ShapeAt(p, s, t) && SecondBarrier(s) && StepOf(p, s, s', t)
    ensures SecondBarrier(s')
  {
    hide SetupOk, StepOf, ShapeAt, SameOthers, Writers, Opening;
    AtThread(p, s, s', t);
    CountsWritten(p, s, s', t);
    if !s.threads[t].pc.ArriveWritten? {
      PassesSecond(p, s, s', t);
    }
    StepOthers(p, s, s', t);
    WritersChange(s, s', t);
    OpenersChange(s, s', t);
  }

  // ----- the rows -----

  lemma ContentsOf(p: Setup, s: State, t: nat, k: nat, l: nat)
    requires Contents(p, s) && EntryNo(p, t, k, l)
    ensures |s.threads| == |p.work| && (HasWritten(s.threads[t].pc, k, l) ==> InPlace(p, s, t, k, l))
  {}

  lemma ContentsIntro(p: Setup, s: State)
    requires |s.threads| == |p.work|
    requires forall t: nat, k: nat, l: nat | EntryNo(p, t, k, l) && HasWritten(s.threads[t].pc, k, l) ::
             InPlace(p, s, t, k, l)
    requires forall r: nat | s.maskIdx <= r < |s.rows| :: s.rows[r] == p.junk(r)
    ensures Contents(p, s)
  {}

  /** A row of a thread that has reserved its rows is one of them. */
  lemma PlaceInRegion(p: Setup, s: State, t: nat, k: nat, l: nat)
    requires SetupOk(p) && Regions(p, s) && EntryNo(p, t, k, l) && Holding(s.threads[t].pc)
    ensures InRegion(p, s, t, Place(p, s, t, k, l)) && Place(p, s, t, k, l) < s.maskIdx
  {
    hide RowsBefore, Tally, Reserved;
    RowsGrow(p.work[t], k, |p.work[t]|);
  }

  /** Different rows go in different places. */
  lemma PlacesDiffer(p: Setup, s: State, t: nat, k: nat, l: nat, t': nat, k': nat, l': nat)
    requires SetupOk(p) && Regions(p, s) && EntryNo(p, t, k, l) && EntryNo(p, t', k', l')
    requires Holding(s.threads[t].pc) && Holding(s.threads[t'].pc)
    requires Place(p, s, t, k, l) == Place(p, s, t', k', l')
    ensures t == t' && k == k' && l == l'
  {
    hide RowsBefore, Tally, Reserved, SetupOk;
    PlaceInRegion(p, s, t, k, l);
    PlaceInRegion(p, s, t', k', l');
    if t == t' {
      OffsetsDiffer(p.work[t], k, l, k', l');
    }
  }

  /** The reserved rows are inside the matrix, if it has not been made too small. */
  lemma RegionsFit(p: Setup, s: State)
    requires SetupOk(p) && Regions(p, s) && Sized(p, s) && s.sized
    ensures s.maskIdx <= Total(p) && (p.padding >= 0 ==> Total(p) <= |s.rows|)
  {
    hide Tally, Reserved;
    TallyGrows(p.count, HoldingOf(s.threads), All(|p.count|));
  }

  /** The row about to be written is the thread's own. */
  lemma WritesOwn(p: Setup, s: State, t: nat)
    requires SetupOk(p) && ShapeAt(p, s, t) && Regions(p, s) && Writes(p, s, t)
    ensures s.threads[t].pc.pos == Place(p, s, t, s.threads[t].pc.k, s.threads[t].pc.l)
    ensures InRegion(p, s, t, s.threads[t].pc.pos) && s.threads[t].pc.pos < s.maskIdx
  {
    hide RowsBefore, SetupOk, Regions;
    PlaceInRegion(p, s, t, s.threads[t].pc.k, s.threads[t].pc.l);
  }

  lemma WriteKeepsRow(p: Setup, s: State, s': State, t: nat, u: nat, k: nat, l: nat)
    requires SetupOk(p) && ShapeAt(p, s, t) && Regions(p, s) && Contents(p, s) && SameOthers(s, s', t)
    requires Writes(p, s, t) && t < |p.work| && WriteStep(p, s, s', t)
    requires EntryNo(p, u, k, l) && u < |s'.threads| && HasWritten(s'.threads[u].pc, k, l)
    ensures InPlace(p, s', u, k, l)
  {
    hide RowsBefore, SetupOk, Regions, Contents, Bytes;
    var k', l' := s.threads[t].pc.k, s.threads[t].pc.l;
    WritesOwn(p, s, t);
    ContentsOf(p, s, u, k, l);
    if u == t && k == k' && l == l' {
      assert Place(p, s', u, k, l) == s.threads[t].pc.pos;
    } else {
      assert HasWritten(s.threads[u].pc, k, l) && Holding(s.threads[u].pc);
      if Place(p, s, u, k, l) == s.threads[t].pc.pos {
        PlacesDiffer(p, s, u, k, l, t, k', l');
      }
    }
  }

  lemma WriteKeepsContents(p: Setup, s: State, s': State, t: nat)
    requires SetupOk(p) && ShapeAt(p, s, t) && Regions(p, s) && Contents(p, s) && SameOthers(s, s', t)
    requires Writes(p, s, t) && t < |p.work| && WriteStep(p, s, s', t)
    ensures Contents(p, s')
  {
    hide ShapeAt, SetupOk, Regions, InPlace, EntryNo, HasWritten, Bytes;
    WritesOwn(p, s, t);
    forall u: nat, k: nat, l: nat | u < |p.work| && EntryNo(p, u, k, l) && HasWritten(s'.threads[u].pc, k, l)
      ensures InPlace(p, s', u, k, l)
    {
      WriteKeepsRow(p, s, s', t, u, k, l);
    }
    EntryBound(p);
    ContentsIntro(p, s');
  }

  lemma EntryBound(p: Setup)
    ensures forall t: nat, k: nat, l: nat | EntryNo(p, t, k, l) :: t < |p.work|
  {}

  /** Nothing has been written while the matrix is made. */
  lemma SizeKeepsContents(p: Setup, s: State, s': State, t: nat)
    requires Contents(p, s) && FirstBarrier(s) && SameOthers(s, s', t) && Sizes(s, t) && SizeStep(p, s, s', t)
    ensures Contents(p, s')
  {
    hide Contents, Bytes, Fresh, FirstBarrier, InPlace, EntryNo;
    assert |s.threads| == |p.work| by { SizeOf(p, s); }
    OnlyOneLeft(s, t);
    EntryBound(p);
    ContentsIntro(p, s');
  }

  lemma SizeOf(p: Setup, s: State)
    requires Contents(p, s)
    ensures |s.threads| == |p.work|
  {}

  /** A step that writes nothing leaves a thread's written rows the same. */
  lemma SameWritten(p: Setup, s: State, s': State, t: nat, k: nat, l: nat)
    requires SetupOk(p) && ShapeAt(p, s, t) && StepOf(p, s, s', t) && !Writes(p, s, t) && EntryNo(p, t, k, l)
    ensures |s'.threads| == |s.threads| && (HasWritten(s'.threads[t].pc, k, l) ==> HasWritten(s.threads[t].pc, k, l))
    ensures s.threads[t].pc.Reserve? ==> !HasWritten(s'.threads[t].pc, k, l)
  {
    hide SetupOk, Bytes, Fresh, Cut, RowsBefore;
    SomeThreads(p);
  }

  lemma OthersKeepContents(p: Setup, s: State, s': State, t: nat)
    requires SetupOk(p) && ShapeAt(p, s, t) && Contents(p, s) && StepOf(p, s, s', t) && !Writes(p, s, t) && !Sizes(s, t)
    ensures Contents(p, s')
  {
    hide SetupOk, StepOf, ShapeAt, Contents, EntryNo, HasWritten, Bytes, RowsBefore;
    StepKinds(p, s, s', t);
    SpareRows(p, s, s', t);
    EntryBound(p);
    forall u: nat, k: nat, l: nat | EntryNo(p, u, k, l) && HasWritten(s'.threads[u].pc, k, l)
      ensures InPlace(p, s', u, k, l)
    {
      ContentsOf(p, s, u, k, l);
      if u == t {
        SameWritten(p, s, s', t, k, l);
      }
    }
    ContentsIntro(p, s');
  }

  lemma SpareRows(p: Setup, s: State, s': State, t: nat)
    requires Contents(p, s) && s'.rows == s.rows && s'.maskIdx >= s.maskIdx
    ensures forall r: nat | s'.maskIdx <= r < |s'.rows| :: s'.rows[r] == p.junk(r)
  {}

  // ----- sending -----

  lemma RangeOk(p: Setup, s: State, t: nat)
    requires SetupOk(p) && t < |p.work|
    ensures |p.work| > 0 && RangeStart(p, s, t) <= RangeStart(p, s, t + 1) <= |s.rows|
  {
    hide Cut;
    SomeThreads(p);
    CutsCover(|s.rows|, |p.work|, t);
  }

  /** Once somebody sends, nobody writes. */
  lemma SendersSeeAll(p: Setup, s: State, t: nat)
    requires SecondBarrier(s) && s.written && t < |s.threads|
    ensures !StillWriting(s.threads[t].pc)
  {
    assert Writers(s.threads) == {};
  }

  lemma SliceJoin(rows: seq<seq<bool>>, lo: nat, row: nat, hi: nat)
    requires lo <= row <= hi <= |rows|
    ensures rows[lo..row] + rows[row..hi] == rows[lo..hi]
  {}

  /** What a step behind the second barrier does. */
  lemma SendsChunk(p: Setup, s: State, s': State, t: nat)
    requires SetupOk(p) && |p.work| > 0 && StepOf(p, s, s', t) && Sending(s.threads[t].pc)
    ensures s.threads[t].pc.Send? && |s'.threads| == |s.threads| == |p.work| && s'.rows == s.rows
    ensures if s.threads[t].pc.row == RangeStart(p, s, t + 1) then s'.threads[t] == s.threads[t].(pc := Done)
            else SendStep(p, s, s', t)
  {
    hide SetupOk, RangeStart;
    SomeThreads(p);
  }

  lemma SendMore(p: Setup, s: State, s': State, t: nat)
    requires SetupOk(p) && ShapeAt(p, s, t) && |p.work| > 0 && StepOf(p, s, s', t) && Sending(s.threads[t].pc)
             && SentBy(p, s, t)
    ensures |s'.threads| == |p.work| && SentBy(p, s', t)
  {
    hide SetupOk, StepOf, Cut;
    SendsChunk(p, s, s', t);
    RangeOk(p, s, t);
    SomeThreads(p);
    if s'.threads[t].pc.Send? {
      SliceJoin(s.rows, RangeStart(p, s, t), s.threads[t].pc.row, s'.threads[t].pc.row);
    }
  }

  lemma SendStarts(p: Setup, s: State, s': State, t: nat)
    requires SetupOk(p) && ShapeAt(p, s, t) && |p.work| > 0 && StepOf(p, s, s', t)
    requires !Sending(s.threads[t].pc) && t < |s'.threads| && Sending(s'.threads[t].pc)
    ensures SentBy(p, s', t)
  {
    hide SetupOk, Cut;
    RangeOk(p, s, t);
  }

  lemma StepKeepsSent(p: Setup, s: State, s': State, t: nat)
    requires SetupOk(p) && |p.work| > 0 && ShapeAt(p, s, t) && FirstBarrier(s) && SecondBarrier(s) && Sent(p, s)
             && StepOf(p, s, s', t)
    ensures Sent(p, s')
  {
    hide SetupOk, StepOf, ShapeAt, FirstBarrier, SecondBarrier, SentBy, StillWriting, EntryNo;
    StepKinds(p, s, s', t);
    forall u: nat | u < |s'.threads| && Sending(s'.threads[u].pc) ensures SentBy(p, s', u) {
      if u == t {
        if Sending(s.threads[t].pc) {
          SendMore(p, s, s', t);
        } else {
          SendStarts(p, s, s', t);
        }
      } else {
        NoWriteWhileSending(p, s, t, u);
        SameSent(p, s, s', u);
      }
    }
  }

  lemma NoWriteWhileSending(p: Setup, s: State, t: nat, u: nat)
    requires FirstBarrier(s) && SecondBarrier(s) && t < |s.threads| && u < |s.threads| && Sending(s.threads[u].pc)
    ensures !Writes(p, s, t) && !Sizes(s, t)
  {
    SendersSeeAll(p, s, t);
    assert Past(s.threads[u].pc) && Sizing(s.threads) == {};
    assert t !in Sizing(s.threads);
  }

  lemma SameSent(p: Setup, s: State, s': State, u: nat)
    requires |p.work| > 0 && u < |s.threads| == |s'.threads| && SentBy(p, s, u) && s'.threads[u] == s.threads[u]
             && s'.rows == s.rows
    ensures SentBy(p, s', u)
  {
    hide Cut;
  }

  // ----- every run -----

  /** Every step of every thread keeps the invariant. */
  lemma StepKeeps(p: Setup, s: State, s': State)
    requires SetupOk(p) && |p.work| > 0 && Inv(p, s) && Step(p, s, s')
    ensures Inv(p, s')
  {
    hide SetupOk, StepOf, Shape, ShapeAt, Regions, Sized, FirstBarrier, SecondBarrier, Contents, Sent, EntryNo,
      ReserveStep, SizeStep, WriteStep;
    var t: nat :| StepOf(p, s, s', t);
    AtThread(p, s, s', t);
    ShapeOf(p, s, t);
    StepKinds(p, s, s', t);
    StepKeepsShape(p, s, s', t);
    if s.threads[t].pc.Reserve? {
      ReserveKeepsRegions(p, s, s', t);
    } else {
      SameRegions(p, s, s', t);
    }
    if s.threads[t].pc.Count? {
      CountSums(p, s, s', t);
    } else if Sizes(s, t) {
      SizeSums(p, s, s', t);
    } else {
      OthersKeepSized(p, s, s', t);
    }
    StepKeepsFirst(p, s, s', t);
    StepKeepsSecond(p, s, s', t);
    if Writes(p, s, t) {
      WriteKeepsContents(p, s, s', t);
    } else if Sizes(s, t) {
      SizeKeepsContents(p, s, s', t);
    } else {
      OthersKeepContents(p, s, s', t);
    }
    StepKeepsSent(p, s, s', t);
  }

  lemma {:induction false} RunKeeps(p: Setup, run: seq<State>)
    requires SetupOk(p) && IsRun(p, run)
    ensures |p.work| > 0 && Inv(p, run[|run| - 1])
  {
    hide Inv;
    SomeThreads(p);
    if |run| == 1 {
      InitHolds(p);
    } else {
      RunKeeps(p, run[..|run| - 1]);
      StepKeeps(p, run[|run| - 2], run[|run| - 1]);
    }
  }

  /**
    On every run: a row about to be written is in no other thread's reservation, and in the matrix if there are not
    fewer than no spare rows.
   */
  lemma WritersApart(p: Setup, run: seq<State>, t: nat)
    requires SetupOk(p) && IsRun(p, run) && Writes(p, run[|run| - 1], t)
    ensures var s := run[|run| - 1];
            (p.padding >= 0 ==> s.threads[t].pc.pos < |s.rows|)
            && forall u: nat | u != t :: !InRegion(p, s, u, s.threads[t].pc.pos)
  {
    hide SetupOk, Contents, Sent, EntryNo, Tally, RowsBefore;
    RunKeeps(p, run);
    var s := run[|run| - 1];
    ShapeOf(p, s, t);
    WritesOwn(p, s, t);
    RegionsFit(p, s);
  }

  ghost predicate AllDone(s: State) {
    forall t | 0 <= t < |s.threads| :: s.threads[t].pc.Done?
  }

  /** What all threads have sent, one behind the other. */
  function AllSent(threads: seq<Thread>): seq<seq<bool>> {
    if threads == [] then [] else AllSent(threads[..|threads| - 1]) + threads[|threads| - 1].sent
  }

  lemma {:induction false} SentIsMatrix(p: Setup, s: State, m: nat)
    requires SetupOk(p) && |p.work| > 0 && AllDone(s) && Sent(p, s) && m <= |s.threads| == |p.work|
    ensures RangeStart(p, s, m) <= |s.rows| && AllSent(s.threads[..m]) == s.rows[..RangeStart(p, s, m)]
  {
    hide SetupOk, Cut, RangeStart;
    if m == 0 {
      RangesBegin(p, s);
    } else {
      SentIsMatrix(p, s, m - 1);
      RangeOk(p, s, m - 1);
      assert Sending(s.threads[m - 1].pc) && SentBy(p, s, m - 1);
      assert s.threads[..m][..m - 1] == s.threads[..m - 1];
    }
  }

  lemma RangesBegin(p: Setup, s: State)
    requires |p.work| > 0
    ensures RangeStart(p, s, 0) == 0 && RangeStart(p, s, |p.work|) == |s.rows|
  {
    hide Cut;
    CutsCover(|s.rows|, |p.work|, 0);
  }

  /**
    When all threads are done, every row of every task is in the matrix, in a place of its own, every other row
    is a spare one as it was, and the threads together have sent the matrix.
   */
  lemma AllRowsSent(p: Setup, run: seq<State>)
    requires SetupOk(p) && IsRun(p, run) && AllDone(run[|run| - 1])
    ensures var s := run[|run| - 1];
            && |s.threads| == |p.work| && |s.rows| == Total(p) + AtLeastZero(p.padding) && AllSent(s.threads) == s.rows
            && (forall t: nat, k: nat, l: nat | EntryNo(p, t, k, l) ::
                InPlace(p, s, t, k, l) && Place(p, s, t, k, l) < Total(p))
            && (forall t: nat, k: nat, l: nat, t': nat, k': nat, l': nat | EntryNo(p, t, k, l) && EntryNo(p, t', k', l')
                  && Place(p, s, t, k, l) == Place(p, s, t', k', l') :: t == t' && k == k' && l == l')
            && (forall r: nat | r < Total(p) :: HasPlace(p, s, r))
            && forall r: nat | Total(p) <= r < |s.rows| :: s.rows[r] == p.junk(r)
  {
    hide SetupOk, Shape, SecondBarrier, Contents, Sent, EntryNo, Tally, RowsBefore, Regions, RangeStart, InPlace,
      Place, Sized;
    RunKeeps(p, run);
    var s := run[|run| - 1];
    SomeThreads(p);
    DoneSizes(p, s);
    SentIsMatrix(p, s, |p.work|);
    RangesBegin(p, s);
    assert s.threads[..|p.work|] == s.threads && s.rows[..|s.rows|] == s.rows;
    EntryBound(p);
    forall t: nat, k: nat, l: nat | EntryNo(p, t, k, l)
      ensures InPlace(p, s, t, k, l) && Place(p, s, t, k, l) < Total(p)
    {
      ContentsOf(p, s, t, k, l);
      PlaceInRegion(p, s, t, k, l);
    }
    forall t: nat, k: nat, l: nat, t': nat, k': nat, l': nat | EntryNo(p, t, k, l) && EntryNo(p, t', k', l')
        && Place(p, s, t, k, l) == Place(p, s, t', k', l')
      ensures t == t' && k == k' && l == l'
    {
      PlacesDiffer(p, s, t, k, l, t', k', l');
    }
    forall r: nat | r < Total(p) ensures HasPlace(p, s, r) {
      PlaceOf(p, s, r);
    }
    SpareRows(p, s, s, 0);
  }

  ghost predicate HasPlace(p: Setup, s: State, r: nat) {
    exists t: nat, k: nat, l: nat :: EntryNo(p, t, k, l) && t < |s.threads| && Place(p, s, t, k, l) == r
  }

  ghost predicate AllHolding(s: State) {
    forall t | 0 <= t < |s.threads| :: Holding(s.threads[t].pc)
  }

  /** When all have reserved their rows, these are as many as all announced. */
  lemma AllReserved(p: Setup, s: State)
    requires SetupOk(p) && |p.work| > 0 && Inv(p, s) && AllHolding(s)
    ensures |s.threads| == |p.work| && s.sized && s.maskIdx == Total(p)
  {
    hide SetupOk, SecondBarrier, Contents, Sent, Tally;
    SomeThreads(p);
    assert Holding(s.threads[0].pc);
    assert HoldingOf(s.threads) == All(|p.count|);
  }

  lemma PlaceOf(p: Setup, s: State, r: nat)
    requires SetupOk(p) && Regions(p, s) && |s.threads| == |p.work| && r < s.maskIdx
    ensures HasPlace(p, s, r)
  {
    hide RowsBefore, Tally;
    assert Reserved(p, s, r);
    var t: nat :| InRegion(p, s, t, r);
    var k, l := RowAtOffset(p.work[t], |p.work[t]|, r - s.threads[t].base);
    assert EntryNo(p, t, k, l) && Place(p, s, t, k, l) == r;
  }

  ghost predicate Fits(p: Setup, s: State) {
    forall t: nat, k: nat, l: nat | EntryNo(p, t, k, l) && t < |s.threads| :: Place(p, s, t, k, l) < |s.rows|
  }

  lemma InvParts(p: Setup, s: State)
    requires |p.work| > 0 && Inv(p, s)
    ensures Regions(p, s) && Sized(p, s) && Contents(p, s)
  {}

  /** The reserved rows all fit if and only if the noise has not made the matrix too small. */
  lemma FitsIff(p: Setup, run: seq<State>)
    requires SetupOk(p) && IsRun(p, run) && AllHolding(run[|run| - 1])
    ensures Fits(p, run[|run| - 1]) <==> p.padding >= 0 || Total(p) == 0
  {
    hide SetupOk, Inv, EntryNo, Tally, Place, Regions, Total, Holding;
    RunKeeps(p, run);
    var s := run[|run| - 1];
    AllReserved(p, s);
    InvParts(p, s);
    RegionsFit(p, s);
    forall t: nat, k: nat, l: nat | EntryNo(p, t, k, l) && t < |s.threads| ensures Place(p, s, t, k, l) < Total(p) {
      PlaceInRegion(p, s, t, k, l);
    }
    if p.padding < 0 && Total(p) > 0 {
      PlaceOf(p, s, Total(p) - 1);
    }
  }

  /** A finished run has written all rows, so they did fit. */
  lemma DoneSizes(p: Setup, s: State)
    requires SetupOk(p) && |p.work| > 0 && Inv(p, s) && AllDone(s)
    ensures |s.threads| == |p.work| && |s.rows| == Total(p) + AtLeastZero(p.padding) && s.maskIdx == Total(p)
  {
    hide SetupOk, Inv, EntryNo, Tally, Place, Regions, Total;
    AllReserved(p, s);
    InvParts(p, s);
    if Total(p) > 0 {
      PlaceOf(p, s, Total(p) - 1);
      var t: nat, k: nat, l: nat :| EntryNo(p, t, k, l) && t < |s.threads| && Place(p, s, t, k, l) == Total(p) - 1;
      ContentsOf(p, s, t, k, l);
    }
  }

  // ----- every run ends -----

  /** Nobody is stuck if the rows fit: while some thread is not done, some thread can move. */
  lemma NoDeadlock(p: Setup, run: seq<State>) returns (s': State)
    requires SetupOk(p) && p.padding >= 0 && IsRun(p, run) && !AllDone(run[|run| - 1])
    ensures Step(p, run[|run| - 1], s')
  {
    hide SetupOk, StepOf, Shape, Regions, Sized, Contents, Sent, Before, Sizing;
    RunKeeps(p, run);
    var s := run[|run| - 1];
    var t: nat :| t < |s.threads| && !s.threads[t].pc.Done?;
    if s.threads[t].pc.WaitWritten? && !s.written {
      assert Writers(s.threads) + Opening(s.threads) != {};
      t :| t in Writers(s.threads) + Opening(s.threads);
    }
    if s.threads[t].pc.Wait? && !s.sized {
      t := NotCounted(s);
    }
    s' := Move(p, s, t);
  }

  /** Somebody has yet to decrement the first barrier's counter, or else to make the matrix. */
  lemma NotCounted(s: State) returns (t: nat)
    requires FirstBarrier(s) && !s.sized
    ensures t < |s.threads| && (Uncounted(s.threads[t].pc) || s.threads[t].pc.Size?)
  {
    assert Before(s.threads) + Sizing(s.threads) != {};
    t :| t in Before(s.threads) + Sizing(s.threads);
  }

  /** The step a thread can take. */
  lemma Move(p: Setup, s: State, t: nat) returns (s': State)
    requires SetupOk(p) && |p.work| > 0 && Inv(p, s) && t < |s.threads| && !s.threads[t].pc.Done?
    requires p.padding >= 0 || !s.threads[t].pc.Write?
    requires (s.threads[t].pc.Wait? ==> s.sized) && (s.threads[t].pc.WaitWritten? ==> s.written)
    ensures StepOf(p, s, s', t)
  {
    hide SetupOk, Shape, Regions, Sized, FirstBarrier, SecondBarrier, Contents, Sent, Bytes, Fresh, Cut, RowsBefore;
    CanMove(p, s, t);
    var th := s.threads[t];
    match th.pc
    case Count => s' := s.(total := s.total + p.count[t], threads := s.threads[t := th.(pc := Arrive)]);
    case Arrive =>
      s' := s.(counting := s.counting - 1,
          threads := s.threads[t := th.(pc := if s.counting - 1 != 0 then Wait else Size)]);
    case Size =>
      s' := s.(sized := true, total := s.total + p.padding, rows := Fresh(AtLeastZero(s.total + p.padding), p.junk),
          threads := s.threads[t := th.(pc := Reserve)]);
    case Wait => s' := s.(threads := s.threads[t := th.(pc := Reserve)]);
    case Reserve => s' := s.(maskIdx := s.maskIdx + p.count[t],
        threads := s.threads[t := th.(pc := Write(0, 0, s.maskIdx), base := s.maskIdx)]);
    case Write(k, l, pos) =>
      s' := if k == |p.work[t]| then s.(threads := s.threads[t := th.(pc := ArriveWritten)])
            else if l == p.work[t][k].load then s.(threads := s.threads[t := th.(pc := Write(k + 1, 0, pos))])
            else s.(rows := s.rows[pos := Bytes(p, t, k, l)],
                threads := s.threads[t := th.(pc := Write(k, l + 1, pos + 1))]);
    case ArriveWritten =>
      s' := s.(writing := s.writing - 1,
          threads := s.threads[t := th.(pc := if s.writing - 1 != 0 then WaitWritten else OpenWritten)]);
    case OpenWritten => s' := s.(written := true, threads := s.threads[t := th.(pc := Send(RangeStart(p, s, t)))]);
    case WaitWritten => s' := s.(threads := s.threads[t := th.(pc := Send(RangeStart(p, s, t)))]);
    case Send(row) =>
      var end := RangeStart(p, s, t + 1);
      var step := if p.maxSend < end - row then p.maxSend else end - row;
      s' := if row == end then s.(threads := s.threads[t := th.(pc := Done)])
            else s.(threads := s.threads[t := th.(pc := Send(row + step), sent := th.sent + s.rows[row..row + step])]);
  }

  /** What the steps need is there. */
  lemma CanMove(p: Setup, s: State, t: nat)
    requires SetupOk(p) && |p.work| > 0 && Inv(p, s) && t < |s.threads|
    ensures |s.threads| == |p.work| == |p.count|
    ensures s.threads[t].pc.Arrive? ==> s.counting > 0
    ensures s.threads[t].pc.ArriveWritten? ==> s.writing > 0
    ensures s.threads[t].pc.Send? ==> s.threads[t].pc.row <= RangeStart(p, s, t + 1) <= |s.rows|
    ensures s.threads[t].pc.Write? && s.threads[t].pc.k != |p.work[t]| ==>
              s.threads[t].pc.k < |p.work[t]| && s.threads[t].pc.l <= p.work[t][s.threads[t].pc.k].load
    ensures s.threads[t].pc.Write? ==>
            s.threads[t].pc.k <= |p.work[t]|
            && (Writes(p, s, t) && p.padding >= 0 ==> s.threads[t].pc.pos < |s.rows|)
  {
    hide SetupOk, Contents, Regions, Sized, RangeStart, RowsBefore;
    SomeThreads(p);
    ShapeOf(p, s, t);
    assert t in Before(s.threads) <==> Uncounted(s.threads[t].pc);
    assert t in Writers(s.threads) <==> StillWriting(s.threads[t].pc);
    if s.threads[t].pc.Send? {
      assert SentBy(p, s, t);
    }
    if Writes(p, s, t) {
      WritesOwn(p, s, t);
      RegionsFit(p, s);
    }
  }

  /** The steps a thread still has to take, at most. */
  function Left(p: Setup, t: nat, pc: Phase): int
    requires t < |p.work|
  {
    var n, rows := |p.work[t]|, AtLeastZero(Total(p) + p.padding);
    match pc
    case Count => rows + 8 + 2 * n + RowsBefore(p.work[t], n)
    case Arrive => rows + 7 + 2 * n + RowsBefore(p.work[t], n)
    case Size => rows + 6 + 2 * n + RowsBefore(p.work[t], n)
    case Wait => rows + 6 + 2 * n + RowsBefore(p.work[t], n)
    case Reserve => rows + 5 + 2 * n + RowsBefore(p.work[t], n)
    case Write(k, l, _) => if k <= n
        then rows + 4 + 2 * (n - k) + RowsBefore(p.work[t], n) - RowsBefore(p.work[t], k) - l else 0
    case ArriveWritten => rows + 3
    case WaitWritten => rows + 2
    case OpenWritten => rows + 2
    case Send(row) => rows - row + 1
    case Done => 0
  }

  lemma WriterLeft(p: Setup, s: State, s': State, t: nat)
    requires SetupOk(p) && ShapeAt(p, s, t) && |p.work| > 0 && StepOf(p, s, s', t) && !Sending(s.threads[t].pc)
    ensures |s'.threads| == |s.threads| == |p.work| && Left(p, t, s'.threads[t].pc) < Left(p, t, s.threads[t].pc)
  {
    hide SetupOk, Bytes, Fresh, Cut, RowsBefore, Total;
    SomeThreads(p);
    NothingBefore(p.work[t]);
    if s.threads[t].pc.Write? && s.threads[t].pc.k < |p.work[t]| {
      NextTask(p.work[t], s.threads[t].pc.k);
    }
  }

  lemma LeftDrops(p: Setup, s: State, s': State, t: nat)
    requires SetupOk(p) && |p.work| > 0 && Inv(p, s) && StepOf(p, s, s', t)
    ensures |s'.threads| == |s.threads| == |p.work| && Left(p, t, s'.threads[t].pc) < Left(p, t, s.threads[t].pc)
  {
    hide SetupOk, StepOf, Inv, RangeStart, RowsBefore, Total;
    AtThread(p, s, s', t);
    InvShape(p, s, t);
    if Sending(s.threads[t].pc) {
      SendsChunk(p, s, s', t);
      SomeThreads(p);
      CanMove(p, s, t);
      SenderSized(p, s, t);
    } else {
      WriterLeft(p, s, s', t);
    }
  }

  lemma SenderSized(p: Setup, s: State, t: nat)
    requires SetupOk(p) && |p.work| > 0 && Inv(p, s) && t < |s.threads| && Sending(s.threads[t].pc)
    ensures |s.rows| == AtLeastZero(Total(p) + p.padding)
  {
    hide SetupOk, Contents, Regions, SecondBarrier, Sent, Tally;
  }

  lemma LeftIsNat(p: Setup, s: State, t: nat)
    requires SetupOk(p) && |p.work| > 0 && Inv(p, s) && t < |s.threads|
    ensures |s.threads| == |p.work| && Left(p, t, s.threads[t].pc) >= 0
  {
    hide SetupOk, Contents, Regions, FirstBarrier, SecondBarrier, RowsBefore, Tally, RangeStart;
    ShapeOf(p, s, t);
    if s.threads[t].pc.Write? && s.threads[t].pc.k < |p.work[t]| {
      RowsGrow(p.work[t], s.threads[t].pc.k, |p.work[t]|);
    }
    if s.threads[t].pc.Send? {
      assert SentBy(p, s, t);
      SenderSized(p, s, t);
    }
  }

  function Lefts(p: Setup, threads: seq<Thread>): (r: seq<int>)
    requires |threads| == |p.work|
    ensures |r| == |threads| && forall t | 0 <= t < |r| :: r[t] == Left(p, t, threads[t].pc)
  {
    seq(|threads|, t requires 0 <= t < |threads| == |p.work| => Left(p, t, threads[t].pc))
  }

  /** Every step leaves less to do, so with `NoDeadlock` every run can only end with all threads done. */
  lemma StepsRunOut(p: Setup, s: State, s': State)
    requires SetupOk(p) && |p.work| > 0 && Inv(p, s) && Step(p, s, s')
    ensures |s.threads| == |s'.threads| == |p.work|
    ensures 0 <= Sum(Lefts(p, s'.threads)) < Sum(Lefts(p, s.threads))
  {
    hide SetupOk, Inv, StepOf, Left, Sum;
    StepKeeps(p, s, s');
    var t: nat :| StepOf(p, s, s', t);
    AtThread(p, s, s', t);
    LeftDrops(p, s, s', t);
    InvShape(p, s, t);
    StepOthers(p, s, s', t);
    assert Lefts(p, s'.threads) == Lefts(p, s.threads)[t := Left(p, t, s'.threads[t].pc)];
    SumUpdate(Lefts(p, s.threads), t, Left(p, t, s'.threads[t].pc));
    forall u: nat | u < |s'.threads| ensures Lefts(p, s'.threads)[u] >= 0 {
      LeftIsNat(p, s', u);
    }
    SumIsNat(Lefts(p, s'.threads));
  }

  lemma InvShape(p: Setup, s: State, t: nat)
    requires |p.work| > 0 && Inv(p, s) && t < |s.threads|
    ensures ShapeAt(p, s, t)
  {
    hide Regions, Sized, FirstBarrier, SecondBarrier, Contents, Sent;
  }

  ghost function Measure(p: Setup, s: State): nat {
    if |s.threads| == |p.work| && Sum(Lefts(p, s.threads)) >= 0 then Sum(Lefts(p, s.threads)) else 0
  }

  /** Every run, however far it got, goes on to one that ends with all threads done, if the rows fit. */
  lemma {:induction false} EveryRunEnds(p: Setup, run: seq<State>) returns (more: seq<State>)
    requires SetupOk(p) && p.padding >= 0 && IsRun(p, run)
    ensures IsRun(p, more) && AllDone(more[|more| - 1]) && run <= more
    decreases Measure(p, run[|run| - 1])
  {
    hide SetupOk, Step, Inv, Lefts, Sum;
    more := run;
    if !AllDone(run[|run| - 1]) {
      var s' := NoDeadlock(p, run);
      RunKeeps(p, run);
      StepsRunOut(p, run[|run| - 1], s');
      more := EveryRunEnds(p, run + [s']);
    }
  }

  /** Whether the rows will fit or not, every run goes on to one in which all threads have reserved theirs. */
  lemma {:induction false} AllCanReserve(p: Setup, run: seq<State>) returns (more: seq<State>)
    requires SetupOk(p) && IsRun(p, run)
    ensures IsRun(p, more) && AllHolding(more[|more| - 1]) && run <= more
    decreases Measure(p, run[|run| - 1])
  {
    hide SetupOk, StepOf, Inv, Lefts, Sum, Holding;
    more := run;
    if !AllHolding(run[|run| - 1]) {
      RunKeeps(p, run);
      var s := run[|run| - 1];
      var t: nat :| t < |s.threads| && !Holding(s.threads[t].pc);
      var s' := ReserveMove(p, s, t);
      StepsRunOut(p, s, s');
      more := AllCanReserve(p, run + [s']);
    }
  }

  /** With fewer than no spare rows that run shows rows that do not fit. */
  lemma TooSmall(p: Setup) returns (run: seq<State>)
    requires SetupOk(p) && p.padding < 0 && Total(p) > 0
    ensures IsRun(p, run) && AllHolding(run[|run| - 1]) && !Fits(p, run[|run| - 1])
  {
    hide SetupOk, Fits, Total, AllHolding, Step;
    run := AllCanReserve(p, [Init(p)]);
    FitsIff(p, run);
  }

  /** While some thread has not reserved its rows, one that has not can move. */
  lemma ReserveMove(p: Setup, s: State, t: nat) returns (s': State)
    requires SetupOk(p) && |p.work| > 0 && Inv(p, s) && t < |s.threads| && !Holding(s.threads[t].pc)
    ensures Step(p, s, s')
  {
    hide SetupOk, StepOf, Shape, Regions, Sized, Contents, Sent, FirstBarrier, SecondBarrier;
    if s.threads[t].pc.Wait? && !s.sized {
      var u := NotCounted(s);
      s' := Move(p, s, u);
    } else {
      s' := Move(p, s, t);
    }
  }
}
