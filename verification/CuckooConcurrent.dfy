/**
  Any number of threads inserting into one cuckoo table at once. A step of the system is one
  atomic exchange on a bin or a stash slot, or one thread's local work between exchanges. The
  hash values of an item are written by the thread that inserts it, before its first exchange,
  and never change, so they are a parameter.
 */
module CuckooConcurrent {
  import opened CuckooTable

  /** The two entry points: a batch of items, or one item. */
  datatype Job = Batch | Single

  datatype Phase =
    | Idle
    | Round(job: Job, hand: seq<nat>, olds: seq<nat>, tries: nat) // the first |olds| of `hand` are exchanged
    | Stashing(job: Job, hand: seq<nat>, j: nat)                  // hand[0] goes to stash slot j next
    | Failed(job: Job, hand: seq<nat>)                            // the stash had no slot left

  datatype State = State(bins: seq<nat>, stash: seq<nat>, started: set<nat>, threads: seq<Phase>)

  const MAX_TRIES: nat := 100

  /** What a thread does with the slots a round evicted. */
  function AfterRound(job: Job, olds: seq<nat>, tries: nat, nh: nat): Phase
    requires nh > 0
  {
    var next := Evicted(olds, nh);
    if next == [] then Idle
    else match job
      case Batch => if tries + 1 < MAX_TRIES then Round(job, next, [], tries + 1) else Stashing(job, next, 0)
      case Single => if tries < MAX_TRIES then Round(job, next, [], tries + 1) else Stashing(job, olds, 0)
  }

  // ----- steps of thread t -----

  /** An idle thread takes items that no thread has taken before. */
  ghost predicate Begin(rows: Rows, nh: nat, s: State, s': State, t: nat, job: Job, items: seq<nat>) {
    && t < |s.threads| && s.threads[t].Idle?
    && (job.Single? ==> |items| == 1)
    && (forall i | 0 <= i < |items| :: items[i] < |rows| && items[i] !in s.started)
    && (forall i, j | 0 <= i < j < |items| :: items[i] != items[j])
    && s' == s.(started := s.started + Members(items),
                threads := s.threads[t :=
                    Round(job, seq<nat>(|items|, i requires 0 <= i < |items| => Pack(items[i], 0)), [], 0)])
  }

  ghost predicate ExchangeStep(rows: Rows, nh: nat, s: State, s': State, t: nat) {
    && t < |s.threads| && s.threads[t].Round? && |s.bins| > 0 && Sized(rows, nh)
    && var p := s.threads[t];
    && |p.olds| < |p.hand| && Filled(rows, nh, p.hand[|p.olds|])
    && var v := p.hand[|p.olds|];
    && var a := Address(rows, nh, |s.bins|, v);
    && s' == s.(bins := s.bins[a := v], threads := s.threads[t := p.(olds := p.olds + [s.bins[a]])])
  }

  ghost predicate EndRound(nh: nat, s: State, s': State, t: nat) {
    && t < |s.threads| && s.threads[t].Round? && nh > 0
    && var p := s.threads[t];
    && |p.olds| == |p.hand|
    && s' == s.(threads := s.threads[t := AfterRound(p.job, p.olds, p.tries, nh)])
  }

  ghost predicate StashStep(s: State, s': State, t: nat) {
    && t < |s.threads| && s.threads[t].Stashing?
    && var p := s.threads[t];
    if p.hand == [] then s' == s.(threads := s.threads[t := Idle])
    else if p.j >= |s.stash| then s' == s.(threads := s.threads[t := Failed(p.job, p.hand)])
    else
      var was := s.stash[p.j];
      var hand := if was == EMPTY then p.hand[1..] else p.hand[0 := was];
      s' == s.(stash := s.stash[p.j := p.hand[0]], threads := s.threads[t := Stashing(p.job, hand, p.j + 1)])
  }

  ghost predicate StepOf(rows: Rows, nh: nat, s: State, s': State, t: nat) {
    || (exists job, items :: Begin(rows, nh, s, s', t, job, items))
    || ExchangeStep(rows, nh, s, s', t)
    || EndRound(nh, s, s', t)
    || StashStep(s, s', t)
  }

  ghost predicate Step(rows: Rows, nh: nat, s: State, s': State) {
    exists t :: StepOf(rows, nh, s, s', t)
  }

  function InitState(binCount: nat, stashSize: nat, numThreads: nat): State {
    State(seq(binCount, _ => EMPTY), seq(stashSize, _ => EMPTY), {}, seq(numThreads, _ => Idle))
  }

  ghost predicate IsRun(rows: Rows, nh: nat, run: seq<State>) {
    forall i | 0 < i < |run| :: Step(rows, nh, run[i - 1], run[i])
  }

  // ----- the invariant -----

  /** The items a thread has in hand. */
  function InHand(p: Phase): multiset<nat> {
    match p
    case Idle => multiset{}
    case Round(_, hand, olds, _) => Occupants(olds) + if |olds| <= |hand| then Occupants(hand[|olds|..]) else multiset{}
    case Stashing(_, hand, _) => Occupants(hand)
    case Failed(_, hand) => Occupants(hand)
  }

  function Hands(ps: seq<Phase>): multiset<nat> {
    if ps == [] then multiset{} else Hands(ps[..|ps| - 1]) + InHand(ps[|ps| - 1])
  }

  ghost predicate PhaseOk(rows: Rows, nh: nat, stash: seq<nat>, p: Phase) {
    match p
    case Idle => true
    case Round(job, hand, olds, _) =>
      && AllFilled(rows, nh, hand) && SlotsOk(rows, nh, olds) && |olds| <= |hand| && (job.Single? ==> |hand| == 1)
    case Stashing(_, hand, j) => AllFilled(rows, nh, hand) && j <= |stash| && forall i | 0 <= i < j :: stash[i] != EMPTY
    case Failed(_, hand) => AllFilled(rows, nh, hand) && forall i | 0 <= i < |stash| :: stash[i] != EMPTY
  }

  ghost predicate TableOk(rows: Rows, nh: nat, bins: seq<nat>, stash: seq<nat>) {
    && Sized(rows, nh) && |bins| > 0 && Placed(rows, nh, bins) && SlotsOk(rows, nh, stash) && FilledPrefix(stash)
  }

  ghost predicate PhasesOk(rows: Rows, nh: nat, stash: seq<nat>, ps: seq<Phase>) {
    forall t | 0 <= t < |ps| :: PhaseOk(rows, nh, stash, ps[t])
  }

  /** Bins, stash and all hands together hold each started item exactly once, each where it belongs. */
  ghost predicate Inv(rows: Rows, nh: nat, s: State) {
    && TableOk(rows, nh, s.bins, s.stash)
    && PhasesOk(rows, nh, s.stash, s.threads)
    && Occupants(s.bins) + Occupants(s.stash) + Hands(s.threads) == multiset(s.started)
  }

  /** A thread that gains from the table what it loses to it keeps the balance. */
  lemma Balance(s: State, s': State, t: nat, gain: multiset<nat>)
    requires t < |s.threads| == |s'.threads| && s'.threads == s.threads[t := s'.threads[t]]
    requires Occupants(s.bins) + Occupants(s.stash) + Hands(s.threads) == multiset(s.started)
    requires Occupants(s'.bins) + Occupants(s'.stash) + InHand(s'.threads[t])
             == Occupants(s.bins) + Occupants(s.stash) + InHand(s.threads[t]) + gain
    requires multiset(s'.started) == multiset(s.started) + gain
    ensures Occupants(s'.bins) + Occupants(s'.stash) + Hands(s'.threads) == multiset(s'.started)
  {
    hide Occupants, Hands, InHand;
    HandsUpdate(s.threads, t, s'.threads[t]);
    Regroup(Occupants(s.bins) + Occupants(s.stash), Hands(s.threads), InHand(s.threads[t]), multiset(s.started),
            Occupants(s'.bins) + Occupants(s'.stash), Hands(s'.threads), InHand(s'.threads[t]), gain);
  }

  lemma Regroup(table: multiset<nat>, hands: multiset<nat>, hand: multiset<nat>, all: multiset<nat>,
                table': multiset<nat>, hands': multiset<nat>, hand': multiset<nat>, gain: multiset<nat>)
    requires table + hands == all && hands' + hand == hands + hand' && table' + hand' == table + hand + gain
    ensures table' + hands' == all + gain
  {
    forall i
      ensures (table' + hands')[i] == (all + gain)[i]
    {
      assert (table + hands)[i] == all[i];
      assert (hands' + hand)[i] == (hands + hand')[i];
      assert (table' + hand')[i] == (table + hand + gain)[i];
    }
  }

  /** Threads that do not move stay all right as long as filled stash slots stay filled. */
  lemma OthersOk(rows: Rows, nh: nat, s: State, s': State, t: nat)
    requires PhasesOk(rows, nh, s.stash, s.threads) && t < |s.threads|
    requires |s'.threads| == |s.threads| && s'.threads == s.threads[t := s'.threads[t]]
    requires |s'.stash| == |s.stash| && forall i | 0 <= i < |s.stash| :: s.stash[i] != EMPTY ==> s'.stash[i] != EMPTY
    requires PhaseOk(rows, nh, s'.stash, s'.threads[t])
    ensures PhasesOk(rows, nh, s'.stash, s'.threads)
  {
    hide Filled, SlotsOk, AllFilled;
    forall u | 0 <= u < |s'.threads|
      ensures PhaseOk(rows, nh, s'.stash, s'.threads[u])
    {
      assert u != t ==> PhaseOk(rows, nh, s.stash, s.threads[u]);
    }
  }

  lemma {:induction false} HandsUpdate(ps: seq<Phase>, t: nat, p: Phase)
    requires t < |ps|
    ensures Hands(ps[t := p]) + InHand(ps[t]) == Hands(ps) + InHand(p)
  {
    hide InHand;
    var m := |ps| - 1;
    var qs := ps[t := p];
    assert Hands(qs) == Hands(qs[..m]) + InHand(qs[m]) && Hands(ps) == Hands(ps[..m]) + InHand(ps[m]);
    if t < m {
      HandsUpdate(ps[..m], t, p);
      assert qs[..m] == ps[..m][t := p];
      Exchange(Hands(ps[..m]), InHand(ps[t]), Hands(qs[..m]), InHand(p), InHand(ps[m]));
    } else {
      assert qs[..m] == ps[..m];
    }
  }

  lemma Exchange(a: multiset<nat>, x: multiset<nat>, b: multiset<nat>, y: multiset<nat>, rest: multiset<nat>)
    requires b + x == a + y
    ensures (b + rest) + x == (a + rest) + y
  {
    forall i
      ensures ((b + rest) + x)[i] == ((a + rest) + y)[i]
    {
      assert (b + x)[i] == (a + y)[i];
    }
  }

  lemma {:induction false} HandsIdle(ps: seq<Phase>)
    requires forall t | 0 <= t < |ps| :: ps[t].Idle?
    ensures Hands(ps) == multiset{}
  {
    if ps != [] {
      HandsIdle(ps[..|ps| - 1]);
    }
  }

  // ----- every step keeps it -----

  lemma BeginKeeps(rows: Rows, nh: nat, s: State, s': State, t: nat, job: Job, items: seq<nat>)
    requires Inv(rows, nh, s) && Begin(rows, nh, s, s', t, job, items)
    ensures Inv(rows, nh, s')
  {
    hide Occupants, Placed, FilledPrefix, Pack, Hands;
    var packed := s'.threads[t].hand;
    var newcomers := Members(items);
    assert packed[0..] == packed;
    PackedItems(items);
    DistinctItems(items);
    OccupantsNone();
    StartedGrows(s.started, newcomers);
    Balance(s, s', t, multiset(newcomers));
    forall i | 0 <= i < |items|
      ensures Filled(rows, nh, packed[i])
    {
      PackRoundTrip(items[i], 0);
    }
    OthersOk(rows, nh, s, s', t);
  }

  lemma StartedGrows(a: set<nat>, b: set<nat>)
    requires a !! b
    ensures multiset(a + b) == multiset(a) + multiset(b)
  {}

  lemma ExchangeKeeps(rows: Rows, nh: nat, s: State, s': State, t: nat)
    requires Inv(rows, nh, s) && ExchangeStep(rows, nh, s, s', t)
    ensures Inv(rows, nh, s')
  {
    hide Occupants, Placed, FilledPrefix, Filled, Address, One, Hands;
    var p := s.threads[t];
    var v, rest := p.hand[|p.olds|], p.hand[|p.olds| + 1..];
    var was := s.bins[Address(rows, nh, |s.bins|, v)];
    ExchangeBin(rows, nh, s.bins, v);
    assert p.hand[|p.olds|..] == [v] + rest;
    Handed(p.olds, rest, v, was, s.bins, s'.bins, s.stash);
    assert s'.threads[t].hand[|p.olds| + 1..] == rest;
    Balance(s, s', t, multiset{});
    OthersOk(rows, nh, s, s', t);
  }

  /** One item leaves the front of what is to do and one joins the end of what is done. */
  lemma Handed(done: seq<nat>, rest: seq<nat>, v: nat, was: nat, bins: seq<nat>, bins': seq<nat>, stash: seq<nat>)
    requires Occupants(bins') + One(was) == Occupants(bins) + One(v)
    ensures Occupants(bins') + Occupants(stash) + (Occupants(done + [was]) + Occupants(rest))
         == Occupants(bins) + Occupants(stash) + (Occupants(done) + Occupants([v] + rest)) + multiset{}
  {
    hide Occupants, One;
    OccupantsAppend(done, [was]);
    OccupantsAppend([v], rest);
    OccupantsOne(was);
    OccupantsOne(v);
    Swap(Occupants(bins), Occupants(bins'), One(v), One(was), Occupants(stash), Occupants(done), Occupants(rest));
  }

  /** What one side of an exchange gains the other loses, whoever else is around. */
  lemma Swap(side: multiset<nat>, side': multiset<nat>, v: multiset<nat>, was: multiset<nat>, others: multiset<nat>,
             done: multiset<nat>, rest: multiset<nat>)
    requires side' + was == side + v
    ensures side' + others + ((done + was) + rest) == side + others + (done + (v + rest)) + multiset{}
    ensures others + side' + (was + rest) == others + side + (v + rest) + multiset{}
  {
    forall i
      ensures (side' + others + ((done + was) + rest))[i] == (side + others + (done + (v + rest)) + multiset{})[i]
      ensures (others + side' + (was + rest))[i] == (others + side + (v + rest) + multiset{})[i]
    {
      assert (side' + was)[i] == (side + v)[i];
    }
  }

  lemma EndRoundKeeps(rows: Rows, nh: nat, s: State, s': State, t: nat)
    requires Inv(rows, nh, s) && EndRound(nh, s, s', t)
    ensures Inv(rows, nh, s')
  {
    hide Occupants, Placed, FilledPrefix, Hands, Evicted;
    var p := s.threads[t];
    assert p.hand[|p.olds|..] == [];
    OccupantsNone();
    AfterRoundOk(rows, nh, s.stash, p.job, p.olds, p.tries);
    Balance(s, s', t, multiset{});
    OthersOk(rows, nh, s, s', t);
  }

  lemma AfterRoundOk(rows: Rows, nh: nat, stash: seq<nat>, job: Job, olds: seq<nat>, tries: nat)
    requires Sized(rows, nh) && SlotsOk(rows, nh, olds) && (job.Single? ==> |olds| == 1)
    ensures PhaseOk(rows, nh, stash, AfterRound(job, olds, tries, nh))
    ensures InHand(AfterRound(job, olds, tries, nh)) == Occupants(olds)
  {
    hide Occupants, One, Filled, Advance, Evicted;
    var next := Evicted(olds, nh);
    EvictedOccupants(rows, nh, olds);
    assert next[0..] == next;
    OccupantsNone();
    if job.Single? {
      OneEvicted(olds, nh);
    }
  }

  lemma OneEvicted(olds: seq<nat>, nh: nat)
    requires nh > 0 && |olds| == 1
    ensures Evicted(olds, nh) == [] || (|Evicted(olds, nh)| == 1 && olds[0] != EMPTY)
  {
    hide Advance;
    assert olds[..0] == [] && Evicted(olds[..0], nh) == [];
  }

  /** A stash exchange: the table gains what the hand loses. */
  lemma StashTakes(rows: Rows, nh: nat, s: State, s': State, t: nat)
    requires Inv(rows, nh, s) && StashStep(s, s', t) && s.threads[t].hand != [] && s.threads[t].j < |s.stash|
    ensures TableOk(rows, nh, s'.bins, s'.stash) && PhaseOk(rows, nh, s'.stash, s'.threads[t])
    ensures forall i | 0 <= i < |s.stash| :: s.stash[i] != EMPTY ==> s'.stash[i] != EMPTY
    ensures Occupants(s'.bins) + Occupants(s'.stash) + InHand(s'.threads[t])
            == Occupants(s.bins) + Occupants(s.stash) + InHand(s.threads[t])
  {
    hide Placed, FilledPrefix, Occupants, One, Hands, Filled;
    var p := s.threads[t];
    var v, was, rest := p.hand[0], s.stash[p.j], p.hand[1..];
    ExchangeStash(rows, nh, s.stash, p.j, v);
    assert p.hand == [v] + rest && p.hand[0 := was] == [was] + rest;
    OccupantsAppend([v], rest);
    OccupantsAppend([was], rest);
    OccupantsOne(v);
    OccupantsOne(was);
    NobodyInEmpty();
    NotEmpty(rows, nh, v);
    Swap(Occupants(s.stash), Occupants(s'.stash), One(v), One(was), Occupants(s.bins), multiset{}, Occupants(rest));
    assert was == EMPTY ==> One(was) + Occupants(rest) == Occupants(rest);
  }

  lemma StashKeeps(rows: Rows, nh: nat, s: State, s': State, t: nat)
    requires Inv(rows, nh, s) && StashStep(s, s', t)
    ensures Inv(rows, nh, s')
  {
    hide TableOk, Occupants, One, Hands, Filled;
    var p := s.threads[t];
    OccupantsNone();
    if p.hand != [] && p.j < |s.stash| {
      StashTakes(rows, nh, s, s', t);
    }
    Balance(s, s', t, multiset{});
    OthersOk(rows, nh, s, s', t);
  }

  lemma NotEmpty(rows: Rows, nh: nat, v: nat)
    requires Filled(rows, nh, v)
    ensures v != EMPTY
  {}

  lemma StepKeeps(rows: Rows, nh: nat, s: State, s': State)
    requires Inv(rows, nh, s) && Step(rows, nh, s, s')
    ensures Inv(rows, nh, s')
  {
    hide Inv, Begin, ExchangeStep, EndRound, StashStep;
    var t :| StepOf(rows, nh, s, s', t);
    if job, items :| Begin(rows, nh, s, s', t, job, items) {
      BeginKeeps(rows, nh, s, s', t, job, items);
    } else if ExchangeStep(rows, nh, s, s', t) {
      ExchangeKeeps(rows, nh, s, s', t);
    } else if EndRound(nh, s, s', t) {
      EndRoundKeeps(rows, nh, s, s', t);
    } else {
      StashKeeps(rows, nh, s, s', t);
    }
  }

  lemma InitHolds(rows: Rows, nh: nat, binCount: nat, stashSize: nat, numThreads: nat)
    requires Sized(rows, nh) && binCount > 0
    ensures Inv(rows, nh, InitState(binCount, stashSize, numThreads))
  {
    OccupantsEmpty(binCount);
    OccupantsEmpty(stashSize);
    HandsIdle(seq(numThreads, _ => Idle));
  }

  /**
    Conservation. In every state of every run, with any number of threads, bins, stash and hands
    together hold each item taken so far exactly once, every filled bin is the one its item
    hashes to, and the filled stash slots come first.
   */
  lemma {:induction false} RunsConserve(rows: Rows, nh: nat, run: seq<State>, i: nat)
    requires Sized(rows, nh) && i < |run| && IsRun(rows, nh, run)
    requires exists binCount: nat, stashSize: nat, numThreads: nat ::
             binCount > 0 && run[0] == InitState(binCount, stashSize, numThreads)
    ensures Inv(rows, nh, run[i])
  {
    hide Inv, Step, Sized;
    if i == 0 {
      var binCount: nat, stashSize: nat, numThreads: nat :| binCount > 0
          && run[0] == InitState(binCount, stashSize, numThreads);
      InitHolds(rows, nh, binCount, stashSize, numThreads);
    } else {
      RunsConserve(rows, nh, run, i - 1);
      StepKeeps(rows, nh, run[i - 1], run[i]);
    }
  }

  /** When every thread has returned normally, the table holds exactly the items that were inserted. */
  lemma QuiescentHolds(rows: Rows, nh: nat, s: State)
    requires Inv(rows, nh, s) && forall t | 0 <= t < |s.threads| :: s.threads[t].Idle?
    ensures Holds(rows, nh, s.bins, s.stash, multiset(s.started), s.started)
  {
    hide Occupants, Placed, FilledPrefix, Account;
    HandsIdle(s.threads);
    PlacedHolds(rows, nh, s.bins, s.stash, s.started);
  }

  // ----- how long a thread tries -----

  /** Thread `t` ends a round in this step. */
  predicate RoundEnds(s: State, s': State, t: nat) {
    && t < |s.threads| == |s'.threads| && s.threads[t].Round? && |s.threads[t].olds| == |s.threads[t].hand|
    && s'.threads[t] != s.threads[t]
  }

  /** The rounds that thread `t` has ended since it was last idle, counted over the run. */
  function RoundsEnded(run: seq<State>, t: nat, i: nat): nat
    requires i < |run|
  {
    if i == 0 || t >= |run[i].threads| || run[i].threads[t].Idle? then 0
    else RoundsEnded(run, t, i - 1) + if RoundEnds(run[i - 1], run[i], t) then 1 else 0
  }

  /** A batch gives up after 100 rounds and a single item after 101, no sooner, and only with something in hand. */
  predicate TriesOk(p: Phase, ended: nat) {
    match p
    case Idle => ended == 0
    case Round(job, hand, _, tries) =>
      ended == tries && (ended > 0 ==> hand != []) && ended < (if job.Batch? then 100 else 101)
    case Stashing(job, _, _) => ended == (if job.Batch? then 100 else 101)
    case Failed(job, _) => ended == (if job.Batch? then 100 else 101)
  }

  lemma StepTries(rows: Rows, nh: nat, s: State, s': State, u: nat, t: nat, ended: nat)
    requires StepOf(rows, nh, s, s', u) && t < |s.threads| && TriesOk(s.threads[t], ended)
    ensures |s'.threads| == |s.threads|
    ensures TriesOk(s'.threads[t], if s'.threads[t].Idle? then 0 else ended + if RoundEnds(s, s', t) then 1 else 0)
  {
    hide Evicted, Address, Pack, Filled;
  }

  /** In every state of every run each thread has gone on for as long as that. */
  lemma {:induction false} RoundsCounted(rows: Rows, nh: nat, run: seq<State>, i: nat, t: nat)
    requires i < |run| && IsRun(rows, nh, run) && t < |run[0].threads| && run[0].threads[t].Idle?
    ensures |run[i].threads| == |run[0].threads| && TriesOk(run[i].threads[t], RoundsEnded(run, t, i))
  {
    hide StepOf, TriesOk, RoundEnds;
    if i == 0 {
      assert TriesOk(Idle, 0) by { NoTries(); }
    } else {
      RoundsCounted(rows, nh, run, i - 1, t);
      assert Step(rows, nh, run[i - 1], run[i]);
      var u :| StepOf(rows, nh, run[i - 1], run[i], u);
      StepTries(rows, nh, run[i - 1], run[i], u, t, RoundsEnded(run, t, i - 1));
    }
  }

  lemma NoTries()
    ensures TriesOk(Idle, 0)
  {}

  /** Who fails has tried for that long and found every slot of the stash filled. */
  lemma FailsLate(rows: Rows, nh: nat, run: seq<State>, i: nat, t: nat)
    requires i < |run| && IsRun(rows, nh, run) && t < |run[0].threads| && run[0].threads[t].Idle?
    requires Inv(rows, nh, run[i]) && t < |run[i].threads| && run[i].threads[t].Failed?
    ensures RoundsEnded(run, t, i) == if run[i].threads[t].job.Batch? then 100 else 101
    ensures forall m | 0 <= m < |run[i].stash| :: run[i].stash[m] != EMPTY
  {
    hide TableOk, Hands, Step, RoundsEnded;
    RoundsCounted(rows, nh, run, i, t);
    assert PhaseOk(rows, nh, run[i].stash, run[i].threads[t]);
  }

  // ----- every call ends -----

  /** A bound on the steps that a call in this phase still takes. */
  function Left(p: Phase, stashSize: nat): nat {
    match p
    case Idle => 0
    case Failed(_, _) => 0
    case Stashing(_, _, j) => 1 + if j < stashSize then stashSize - j else 0
    case Round(_, hand, olds, tries) =>
      var rounds := if tries < 101 then 102 - tries else 1;
      stashSize + 2 + (rounds - 1) * (|hand| + 1) + if |olds| < |hand| then |hand| - |olds| else 0
  }

  /** An idle thread can take any items that nobody has taken, one at a time or as a batch. */
  lemma CanBegin(rows: Rows, nh: nat, s: State, t: nat, job: Job, items: seq<nat>) returns (s': State)
    requires t < |s.threads| && s.threads[t].Idle? && (job.Single? ==> |items| == 1)
    requires forall i | 0 <= i < |items| :: items[i] < |rows| && items[i] !in s.started
    requires forall i, j | 0 <= i < j < |items| :: items[i] != items[j]
    ensures Step(rows, nh, s, s') && s'.started == s.started + set x | x in items
    ensures s'.bins == s.bins && s'.stash == s.stash && |s'.threads| == |s.threads|
    ensures s'.threads[t].Round? && s'.threads[t].job == job && s'.threads[t].tries == 0 && s'.threads[t].olds == []
    ensures |s'.threads[t].hand| == |items|
    ensures forall i | 0 <= i < |items| :: s'.threads[t].hand[i] == items[i]
    ensures forall u | 0 <= u < |s.threads| && u != t :: s'.threads[u] == s.threads[u]
  {
    var hand := seq<nat>(|items|, i requires 0 <= i < |items| => Pack(items[i], 0));
    s' := s.(started := s.started + Members(items), threads := s.threads[t := Round(job, hand, [], 0)]);
    assert Begin(rows, nh, s, s', t, job, items);
    assert StepOf(rows, nh, s, s', t);
  }

  /** Inside a call a thread can always move, whatever the others do. */
  lemma CanMove(rows: Rows, nh: nat, s: State, t: nat) returns (s': State)
    requires Inv(rows, nh, s) && t < |s.threads| && (s.threads[t].Round? || s.threads[t].Stashing?)
    ensures Step(rows, nh, s, s') && s'.started == s.started && |s'.threads| == |s.threads|
    ensures Left(s'.threads[t], |s'.stash|) < Left(s.threads[t], |s.stash|) && |s'.stash| == |s.stash|
    ensures forall u | 0 <= u < |s.threads| && u != t :: s'.threads[u] == s.threads[u]
  {
    hide Placed, FilledPrefix, Occupants, Hands, Evicted, Left;
    var p := s.threads[t];
    assert PhaseOk(rows, nh, s.stash, p);
    if p.Stashing? {
      if p.hand == [] {
        s' := s.(threads := s.threads[t := Idle]);
      } else if p.j >= |s.stash| {
        s' := s.(threads := s.threads[t := Failed(p.job, p.hand)]);
      } else {
        var hand := if s.stash[p.j] == EMPTY then p.hand[1..] else p.hand[0 := s.stash[p.j]];
        s' := s.(stash := s.stash[p.j := p.hand[0]],
                 threads := s.threads[t := Stashing(p.job, hand, p.j + 1)]);
      }
      assert StashStep(s, s', t);
    } else if |p.olds| == |p.hand| {
      s' := s.(threads := s.threads[t := AfterRound(p.job, p.olds, p.tries, nh)]);
      assert EndRound(nh, s, s', t);
    } else {
      var v := p.hand[|p.olds|];
      var a := Address(rows, nh, |s.bins|, v);
      s' := s.(bins := s.bins[a := v], threads := s.threads[t := p.(olds := p.olds + [s.bins[a]])]);
      assert ExchangeStep(rows, nh, s, s', t);
    }
    assert StepOf(rows, nh, s, s', t);
    StepsRunOut(rows, nh, s, s', t);
  }

  /** Every step that a thread takes inside a call brings the end of that call nearer. */
  lemma StepsRunOut(rows: Rows, nh: nat, s: State, s': State, t: nat)
    requires StepOf(rows, nh, s, s', t) && !s.threads[t].Idle?
    ensures |s'.stash| == |s.stash| && |s'.threads| == |s.threads|
    ensures Left(s'.threads[t], |s'.stash|) < Left(s.threads[t], |s.stash|)
  {
    hide Evicted, Address, Pack, Filled, Left;
    var p := s.threads[t];
    if EndRound(nh, s, s', t) {
      EvictedShorter(p.olds, nh);
      RoundEndsCloser(p, s'.threads[t], |s.stash|);
    } else {
      MoveCloser(p, s'.threads[t], |s.stash|);
    }
  }

  lemma {:induction false} EvictedShorter(olds: seq<nat>, nh: nat)
    requires nh > 0
    ensures |Evicted(olds, nh)| <= |olds|
  {
    hide Advance;
    if olds != [] {
      EvictedShorter(olds[..|olds| - 1], nh);
    }
  }

  lemma MoveCloser(p: Phase, p': Phase, stashSize: nat)
    requires (p.Round? && p'.Round? && p' == p.(olds := p'.olds) && |p.olds| < |p.hand| && |p'.olds| == |p.olds| + 1)
             || (p.Stashing? && (p'.Idle? || p'.Failed? || (p'.Stashing? && p.j < stashSize && p'.j == p.j + 1)))
    ensures Left(p', stashSize) < Left(p, stashSize)
  {}

  lemma RoundEndsCloser(p: Phase, p': Phase, stashSize: nat)
    requires p.Round? && |p.olds| == |p.hand|
    requires p'.Idle? || p'.Stashing? || (p'.Round? && p.tries < 100 && p'.tries == p.tries + 1 && p'.olds == []
                                          && |p'.hand| <= |p.hand|)
    ensures Left(p', stashSize) < Left(p, stashSize)
  {
    if p'.Round? {
      Shrinks(100 - p.tries, |p.hand|, |p'.hand|);
    }
  }

  lemma Shrinks(rounds: nat, before: nat, after: nat)
    requires after <= before
    ensures rounds * (after + 1) + after < (rounds + 1) * (before + 1)
  {
    assert rounds * (after + 1) <= rounds * (before + 1);
  }

  function TotalLeft(threads: seq<Phase>, stashSize: nat): nat {
    if threads == [] then 0
    else TotalLeft(threads[..|threads| - 1], stashSize) + Left(threads[|threads| - 1], stashSize)
  }

  lemma {:induction false} TotalLeftUpdate(threads: seq<Phase>, t: nat, p: Phase, stashSize: nat)
    requires t < |threads|
    ensures TotalLeft(threads[t := p], stashSize) + Left(threads[t], stashSize)
            == TotalLeft(threads, stashSize) + Left(p, stashSize)
  {
    hide Left;
    var n := |threads| - 1;
    if t == n {
      assert threads[t := p][..n] == threads[..n];
    } else {
      TotalLeftUpdate(threads[..n], t, p, stashSize);
      assert threads[t := p][..n] == threads[..n][t := p];
    }
  }

  predicate AllReturned(s: State) {
    forall t | 0 <= t < |s.threads| :: s.threads[t].Idle? || s.threads[t].Failed?
  }

  /** Every run, however far it got, goes on to one in which every thread has returned or failed. */
  lemma {:induction false} EveryRunEnds(rows: Rows, nh: nat, run: seq<State>) returns (more: seq<State>)
    requires run != [] && IsRun(rows, nh, run) && Inv(rows, nh, run[|run| - 1])
    ensures IsRun(rows, nh, more) && run <= more && more[|more| - 1].started == run[|run| - 1].started
    ensures Inv(rows, nh, more[|more| - 1]) && |more[|more| - 1].threads| == |run[|run| - 1].threads|
    ensures AllReturned(more[|more| - 1])
    decreases TotalLeft(run[|run| - 1].threads, |run[|run| - 1].stash|)
  {
    hide Inv, StepOf, Left;
    more := run;
    var s := run[|run| - 1];
    if t :| 0 <= t < |s.threads| && (s.threads[t].Round? || s.threads[t].Stashing?) {
      var s' := CanMove(rows, nh, s, t);
      StepKeeps(rows, nh, s, s');
      TotalLeftUpdate(s.threads, t, s'.threads[t], |s.stash|);
      assert s'.threads == s.threads[t := s'.threads[t]];
      assert IsRun(rows, nh, run + [s']);
      more := EveryRunEnds(rows, nh, run + [s']);
    }
  }
}
