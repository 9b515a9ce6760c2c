/**
  The KKRT sender's two threads. One receives corrections for the bins, a step at a time, and
  publishes how many have arrived. The other makes a first pass over its items, round and
  round, encoding every cell whose correction has arrived, and once all have arrived a
  second pass that encodes what is left and hands the rows to the network.
 */
module KkrtSchedule {
  /** Mark for a cell with nothing (left) to encode. */
  const NONE: nat := 0xFFFF_FFFF_FFFF_FFFF

  /**
    The parameters of a run: row i of the output carries item perm[i], whose bins are bins[perm[i]]. `enc` gives the
    mask of an item in a bin, `filler` what the output buffer holds beforehand.
   */
  datatype Setup = Setup(numBins: nat, nh: nat, stepSize: nat, perm: seq<nat>, bins: seq<seq<nat>>,
                         enc: (nat, nat) -> nat, filler: seq<seq<nat>>)

  predicate IsTable(b: seq<seq<nat>>, n: nat, nh: nat) {
    |b| == n && forall i | 0 <= i < n :: |b[i]| == nh
  }

  predicate SetupOk(p: Setup) {
    && p.nh > 0 && p.stepSize > 0 && p.numBins < 0xFFFF_FFFF_FFFF_FFFF && 0 < |p.perm| == |p.bins|
    && (forall i | 0 <= i < |p.perm| :: p.perm[i] < |p.bins|)
    && (forall i, j | 0 <= i < j < |p.perm| :: p.perm[i] != p.perm[j])
    && (forall x | 0 <= x < |p.bins| :: |p.bins[x]| == p.nh)
    && IsTable(p.filler, |p.perm|, p.nh)
    && forall x, h | 0 <= x < |p.bins| && 0 <= h < p.nh ::
         p.bins[x][h] == 0xFFFF_FFFF_FFFF_FFFF || p.bins[x][h] < p.numBins
  }

  type Cell = (nat, nat) // row, hash function

  /** One call of the encoder, with how many corrections had arrived and rows been sent by then. */
  datatype Event = Event(cell: Cell, item: nat, bin: nat, arrived: nat, sent: nat)

  datatype CorrectorPc = Waiting | Publishing(step: nat)

  datatype EncoderPc =
    | Check                  // about to test whether all corrections have arrived
    | Try(j: nat, h: nat)    // first pass: item j of this step, hash function h
    | Load                   // about to load the published count
    | Second(h: nat)         // second pass, hash function h of row i
    | Send                   // rows start to i - 1 are complete
    | Finished

  datatype State = State(
    arrived: nat, published: nat, cpc: CorrectorPc,
    epc: EncoderPc, i: nat, r: nat, start: nat, sent: nat,
    binIdxs: seq<seq<nat>>, buffer: seq<seq<nat>>, wire: seq<seq<nat>>, log: seq<Event>)

  function Init(p: Setup): State {
    State(0, 0, Waiting, Check, 0, 0, 0, 0, p.bins, p.filler, [], [])
  }

  function Min(a: nat, b: nat): nat { if a < b then a else b }

  // ----- the corrector -----

  ghost predicate Correct(p: Setup, s: State, s': State) {
    match s.cpc
    case Waiting =>
      && s.published < p.numBins
      && var step := Min(p.stepSize, p.numBins - s.published);
      s' == s.(arrived := s.arrived + step, cpc := Publishing(step))
    case Publishing(step) => s' == s.(published := s.published + step, cpc := Waiting)
  }

  // ----- the encoder -----

  function Encode(p: Setup, s: State, h: nat): Event
    requires s.i < |p.perm| && p.perm[s.i] < |s.binIdxs| && h < |s.binIdxs[p.perm[s.i]]|
  {
    Event((s.i, h), p.perm[s.i], s.binIdxs[p.perm[s.i]][h], s.arrived, s.sent)
  }

  function With(b: seq<seq<nat>>, x: nat, h: nat, v: nat): (r: seq<seq<nat>>)
    requires x < |b| && h < |b[x]|
    ensures |r| == |b| && forall y | 0 <= y < |b| :: |r[y]| == |b[y]| && (y != x ==> r[y] == b[y])
    ensures forall g | 0 <= g < |b[x]| :: r[x][g] == if g == h then v else b[x][g]
  {
    var row: seq<nat> := b[x][h := v];
    b[x := row]
  }

  /** The buffer cell for hash function h of row i is there, and so are the item's bins. */
  predicate HasCell(p: Setup, s: State, h: nat) {
    && s.i < |p.perm| && p.perm[s.i] < |s.binIdxs| && h < |s.binIdxs[p.perm[s.i]]|
    && s.i < |s.buffer| && h < |s.buffer[s.i]|
  }

  /** Writes the encoding of the cell to its place in the buffer. */
  function Encoded(p: Setup, s: State, h: nat): State
    requires HasCell(p, s, h)
  {
    var e := Encode(p, s, h);
    s.(log := s.log + [e], buffer := With(s.buffer, s.i, h, p.enc(e.bin, e.item)))
  }

  /** First pass: encode the cell if its correction has arrived, and mark it. */
  function TryCell(p: Setup, s: State, h: nat): State
    requires HasCell(p, s, h)
  {
    var x := p.perm[s.i];
    if s.binIdxs[x][h] < s.r then Encoded(p, s, h).(binIdxs := With(s.binIdxs, x, h, NONE))
    else s
  }

  /** Second pass: encode the cell if it is not marked. */
  function SecondCell(p: Setup, s: State, h: nat): State
    requires HasCell(p, s, h)
  {
    if s.binIdxs[p.perm[s.i]][h] != NONE then Encoded(p, s, h) else s
  }

  ghost predicate EncoderStep(p: Setup, s: State, s': State)
    requires SetupOk(p)
  {
    var n := |p.perm|;
    match s.epc
    case Check => s' == if s.r != p.numBins then s.(epc := Try(0, 0)) else s.(epc := Second(0), i := 0, start := 0)
    case Load => s' == s.(r := s.published, epc := Check)
    case Try(j, h) =>
      && HasCell(p, s, h)
      && var t := TryCell(p, s, h);
      s' == if h + 1 < p.nh then t.(epc := Try(j, h + 1))
            else t.(i := (s.i + 1) % n, epc := if j + 1 < p.stepSize then Try(j + 1, 0) else Load)
    case Second(h) =>
      && HasCell(p, s, h)
      && var t := SecondCell(p, s, h);
      s' == if h + 1 < p.nh then t.(epc := Second(h + 1))
            else t.(i := s.i + 1, epc := if s.i + 1 < s.start + Min(p.stepSize, n - Min(n, s.start)) then Second(0)
                else Send)
    case Send =>
      && s.start <= s.i <= |s.buffer|
      && s' == s.(wire := s.wire + s.buffer[s.start..s.i], sent := s.i, start := s.i,
                  epc := if s.i < n then Second(0) else Finished)
    case Finished => false
  }

  ghost predicate Step(p: Setup, s: State, s': State)
    requires SetupOk(p)
  {
    Correct(p, s, s') || EncoderStep(p, s, s')
  }

  ghost predicate IsRun(p: Setup, run: seq<State>)
    requires SetupOk(p)
  {
    && |run| > 0 && run[0] == Init(p)
    && forall i | 0 < i < |run| :: Step(p, run[i - 1], run[i])
  }

  // ----- what holds in every state -----

  predicate SecondPass(s: State) {
    s.epc.Second? || s.epc.Send? || s.epc.Finished?
  }

  /** The bin a cell is encoded under, or NONE for a cell that repeats an earlier one of its item. */
  function BinOf(p: Setup, c: Cell): nat
    requires SetupOk(p) && c.0 < |p.perm| && c.1 < p.nh
  {
    p.bins[p.perm[c.0]][c.1]
  }

  predicate InTable(p: Setup, c: Cell) {
    c.0 < |p.perm| && c.1 < p.nh
  }

  /** A logged encoding is of its row's item under its bin, after its correction and before its row was sent. */
  ghost predicate EventOk(p: Setup, e: Event)
    requires SetupOk(p)
  {
    && InTable(p, e.cell) && e.item == p.perm[e.cell.0]
    && e.bin == BinOf(p, e.cell) != NONE && e.bin < e.arrived && e.sent <= e.cell.0
  }

  ghost predicate Logged(log: seq<Event>, c: Cell) {
    exists k :: 0 <= k < |log| && log[k].cell == c
  }

  ghost predicate OnceEach(log: seq<Event>) {
    forall a, b | 0 <= a < b < |log| :: log[a].cell != log[b].cell
  }

  /** The second pass has gone over the cell. */
  predicate Passed(s: State, c: Cell) {
    SecondPass(s) && (c.0 < s.i || (c.0 == s.i && s.epc.Second? && c.1 < s.epc.h))
  }

  ghost predicate CountersOk(p: Setup, s: State)
    requires SetupOk(p)
  {
    && s.r <= s.published <= p.numBins
    && s.arrived == s.published + (if s.cpc.Publishing? then s.cpc.step else 0) && s.arrived <= p.numBins
    && (s.cpc.Publishing? ==> s.cpc.step > 0)
    && (SecondPass(s) ==> s.r == p.numBins)
    && s.sent <= |p.perm|
    && (match s.epc
        case Try(j, h) => s.i < |p.perm| && j < p.stepSize && h < p.nh && s.sent == 0
        case Second(h) => s.sent == s.start <= s.i < |p.perm| && h < p.nh
        case Send => s.sent == s.start <= s.i <= |p.perm|
        case Finished => s.i == |p.perm| == s.sent
        case _ => s.i < |p.perm| && s.sent == 0)
  }

  /** Where cell `c` stands: marked exactly when it repeats or the first pass has encoded it. */
  ghost predicate CellOk(p: Setup, s: State, c: Cell)
    requires SetupOk(p) && InTable(p, c) && Shaped(p, s)
  {
    var mark, bin := s.binIdxs[p.perm[c.0]][c.1], BinOf(p, c);
    && (mark == NONE || mark == bin)
    && (mark == NONE && bin != NONE ==> Logged(s.log, c))
    && (Passed(s, c) && bin != NONE ==> Logged(s.log, c))
    && (Logged(s.log, c) ==> mark == NONE || Passed(s, c))
  }

  predicate Shaped(p: Setup, s: State) {
    |s.binIdxs| == |p.bins| && forall x | 0 <= x < |p.bins| :: |s.binIdxs[x]| == p.nh
  }

  ghost predicate MarksOk(p: Setup, s: State)
    requires SetupOk(p)
  {
    Shaped(p, s) && forall c: Cell | InTable(p, c) :: CellOk(p, s, c)
  }

  ghost predicate LogOk(p: Setup, s: State)
    requires SetupOk(p)
  {
    OnceEach(s.log) && forall k | 0 <= k < |s.log| :: EventOk(p, s.log[k])
  }

  /** A cell of the buffer holds its mask once it has been encoded, and its filler before. */
  ghost predicate CellHolds(p: Setup, s: State, c: Cell)
    requires SetupOk(p) && InTable(p, c) && IsTable(s.buffer, |p.perm|, p.nh)
  {
    s.buffer[c.0][c.1] == if Logged(s.log, c) then p.enc(BinOf(p, c), p.perm[c.0]) else p.filler[c.0][c.1]
  }

  /** What has been handed over is, still, what the buffer holds. */
  ghost predicate BufferOk(p: Setup, s: State)
    requires SetupOk(p)
  {
    && IsTable(s.buffer, |p.perm|, p.nh) && (forall c: Cell | InTable(p, c) :: CellHolds(p, s, c))
    && s.sent <= |p.perm| && s.wire == s.buffer[..s.sent]
  }

  ghost predicate Inv(p: Setup, s: State)
    requires SetupOk(p)
  {
    CountersOk(p, s) && MarksOk(p, s) && LogOk(p, s) && BufferOk(p, s)
  }

  // ----- every step keeps it -----

  lemma LoggedAppend(log: seq<Event>, e: Event, c: Cell)
    ensures Logged(log + [e], c) <==> Logged(log, c) || e.cell == c
  {
    if Logged(log, c) {
      var k :| 0 <= k < |log| && log[k].cell == c;
      assert (log + [e])[k].cell == c;
    }
    if e.cell == c {
      assert (log + [e])[|log|].cell == c;
    }
    if Logged(log + [e], c) && e.cell != c {
      var k :| 0 <= k < |log + [e]| && (log + [e])[k].cell == c;
      assert log[k].cell == c;
    }
  }

  lemma LogGrows(p: Setup, s: State, s': State, e: Event)
    requires SetupOk(p) && LogOk(p, s) && s'.log == s.log + [e] && EventOk(p, e) && !Logged(s.log, e.cell)
    ensures LogOk(p, s')
  {
    hide EventOk;
  }

  lemma InitOk(p: Setup)
    requires SetupOk(p)
    ensures Inv(p, Init(p))
  {}

  lemma CorrectKeeps(p: Setup, s: State, s': State)
    requires SetupOk(p) && Inv(p, s) && Correct(p, s, s')
    ensures Inv(p, s')
  {
    hide LogOk, Logged, EventOk;
    assert LogOk(p, s') by { SameLog(p, s, s'); }
    forall c: Cell | InTable(p, c)
      ensures CellOk(p, s', c)
    {
      assert CellOk(p, s, c);
    }
  }

  lemma SameLog(p: Setup, s: State, s': State)
    requires SetupOk(p) && LogOk(p, s) && s'.log == s.log
    ensures LogOk(p, s')
  {
    hide EventOk;
  }

  /** Steps of the encoder that encode nothing. */
  lemma QuietKeeps(p: Setup, s: State, s': State)
    requires SetupOk(p) && Inv(p, s) && EncoderStep(p, s, s') && (s.epc.Check? || s.epc.Load? || s.epc.Send?)
    ensures Inv(p, s')
  {
    hide LogOk, Logged, EventOk;
    SameLog(p, s, s');
    forall c: Cell | InTable(p, c)
      ensures CellOk(p, s', c)
    {
      assert CellOk(p, s, c);
    }
  }

  lemma TableOf(p: Setup, s: State)
    requires SetupOk(p) && BufferOk(p, s)
    ensures IsTable(s.buffer, |p.perm|, p.nh)
  {}

  lemma SameBuffer(p: Setup, s: State, s': State)
    requires SetupOk(p) && BufferOk(p, s)
    requires s'.buffer == s.buffer && s'.wire == s.wire && s'.sent == s.sent && s'.log == s.log
    ensures BufferOk(p, s')
  {
    hide Logged;
    forall c: Cell | InTable(p, c) ensures CellHolds(p, s', c) {
      assert CellHolds(p, s, c);
    }
  }

  /** An encoding goes into its cell, of a row not handed over yet. */
  lemma EncodedHolds(p: Setup, s: State, s': State, h: nat)
    requires SetupOk(p) && BufferOk(p, s) && HasCell(p, s, h) && InTable(p, (s.i, h)) && s.sent <= s.i
    requires s.binIdxs[p.perm[s.i]][h] == BinOf(p, (s.i, h))
    requires s'.log == Encoded(p, s, h).log && s'.buffer == Encoded(p, s, h).buffer
    requires s'.wire == s.wire && s'.sent == s.sent
    ensures BufferOk(p, s')
  {
    hide Logged, With, SetupOk;
    var e := Encode(p, s, h);
    forall c: Cell | InTable(p, c) ensures CellHolds(p, s', c) {
      LoggedAppend(s.log, e, c);
      assert CellHolds(p, s, c);
    }
    assert s'.buffer[..s.sent] == s.buffer[..s.sent];
  }

  lemma TryKeeps(p: Setup, s: State, s': State)
    requires SetupOk(p) && Inv(p, s) && EncoderStep(p, s, s') && s.epc.Try?
    ensures Inv(p, s')
  {
    hide LogOk, Logged, EventOk, OnceEach, BufferOk, With;
    var here: Cell := (s.i, s.epc.h);
    var x, h := p.perm[s.i], s.epc.h;
    assert CellOk(p, s, here);
    assert IsTable(s.buffer, |p.perm|, p.nh) by { TableOf(p, s); }
    if s.binIdxs[x][h] < s.r {
      var e := Encode(p, s, h);
      assert EventOk(p, e) by { EventIsOk(p, s, h); }
      LogGrows(p, s, s', e);
      EncodedHolds(p, s, s', h);
      forall c: Cell | InTable(p, c)
        ensures CellOk(p, s', c)
      {
        LoggedAppend(s.log, e, c);
        assert CellOk(p, s, c);
        SameCell(p, c, here);
      }
    } else {
      SameLog(p, s, s');
      SameBuffer(p, s, s');
      forall c: Cell | InTable(p, c)
        ensures CellOk(p, s', c)
      {
        assert CellOk(p, s, c);
      }
    }
  }

  lemma SameCell(p: Setup, c: Cell, d: Cell)
    requires SetupOk(p) && InTable(p, c) && InTable(p, d)
    ensures p.perm[c.0] == p.perm[d.0] && c.1 == d.1 ==> c == d
  {}

  lemma EventIsOk(p: Setup, s: State, h: nat)
    requires SetupOk(p) && CountersOk(p, s) && Shaped(p, s) && s.i < |p.perm| && h < p.nh && s.sent <= s.i
    requires s.binIdxs[p.perm[s.i]][h] == BinOf(p, (s.i, h)) != NONE && s.binIdxs[p.perm[s.i]][h] < s.arrived
    ensures EventOk(p, Encode(p, s, h))
  {}

  lemma SecondKeeps(p: Setup, s: State, s': State)
    requires SetupOk(p) && Inv(p, s) && EncoderStep(p, s, s') && s.epc.Second?
    ensures Inv(p, s')
  {
    hide LogOk, Logged, EventOk, OnceEach, BufferOk, With;
    var here: Cell := (s.i, s.epc.h);
    var x, h := p.perm[s.i], s.epc.h;
    assert CellOk(p, s, here);
    assert IsTable(s.buffer, |p.perm|, p.nh) by { TableOf(p, s); }
    if s.binIdxs[x][h] != NONE {
      var e := Encode(p, s, h);
      assert EventOk(p, e) by { EventIsOk(p, s, h); }
      LogGrows(p, s, s', e);
      EncodedHolds(p, s, s', h);
      forall c: Cell | InTable(p, c)
        ensures CellOk(p, s', c)
      {
        LoggedAppend(s.log, e, c);
        assert CellOk(p, s, c);
      }
    } else {
      SameLog(p, s, s');
      SameBuffer(p, s, s');
      forall c: Cell | InTable(p, c)
        ensures CellOk(p, s', c)
      {
        assert CellOk(p, s, c);
      }
    }
  }

  lemma StepKeeps(p: Setup, s: State, s': State)
    requires SetupOk(p) && Inv(p, s) && Step(p, s, s')
    ensures Inv(p, s')
  {
    hide Inv, Correct, SetupOk;
    if Correct(p, s, s') {
      CorrectKeeps(p, s, s');
    } else if s.epc.Try? {
      TryKeeps(p, s, s');
    } else if s.epc.Second? {
      SecondKeeps(p, s, s');
    } else {
      QuietKeeps(p, s, s');
    }
  }

  /**
    In every state of every interleaving, no cell has been encoded twice, and each encoding was of
    the row's own item under its own bin, after that bin's correction and before the row was sent.
   */
  lemma {:induction false} RunsEncodeSafely(p: Setup, run: seq<State>, k: nat)
    requires SetupOk(p) && IsRun(p, run) && k < |run|
    ensures Inv(p, run[k])
  {
    hide Inv, Step, SetupOk;
    if k == 0 {
      InitOk(p);
    } else {
      RunsEncodeSafely(p, run, k - 1);
      StepKeeps(p, run[k - 1], run[k]);
    }
  }

  /**
    When the encoder is finished, a cell has been encoded if and only if it does not repeat an earlier one, and all rows
    have been handed over, with the masks of the encoded cells and the fillers of the others.
   */
  lemma FinishedIsComplete(p: Setup, run: seq<State>, k: nat, c: Cell)
    requires SetupOk(p) && IsRun(p, run) && k < |run| && run[k].epc.Finished? && InTable(p, c)
    ensures Logged(run[k].log, c) <==> BinOf(p, c) != NONE
    ensures run[k].sent == |p.perm| && OnceEach(run[k].log)
    ensures IsTable(run[k].wire, |p.perm|, p.nh)
    ensures run[k].wire[c.0][c.1] == if BinOf(p, c) != NONE then p.enc(BinOf(p, c), p.perm[c.0]) else p.filler[c.0][c.1]
  {
    RunsEncodeSafely(p, run, k);
    assert CellOk(p, run[k], c);
    if Logged(run[k].log, c) {
      var e :| 0 <= e < |run[k].log| && run[k].log[e].cell == c;
      assert EventOk(p, run[k].log[e]);
    }
    assert CellHolds(p, run[k], c);
  }

  // ----- every run can be finished -----

  /** a * b, one b after the other. */
  function Times(a: nat, b: nat): nat {
    if a == 0 then 0 else Times(a - 1, b) + b
  }

  /** The steps that the corrector still has to take. */
  function CorrectorLeft(p: Setup, s: State): int {
    2 * (p.numBins - s.published) - if s.cpc.Publishing? then 1 else 0
  }

  /** The steps that the encoder still has to take once all corrections are published, at most. */
  function EncoderLeft(p: Setup, s: State): int {
    var n, row := |p.perm|, p.nh + 2;
    match s.epc
    case Check => Times(n, row) + if s.r == p.numBins then 1 else 3 + Times(p.stepSize, p.nh)
    case Try(j, h) => Times(n, row) + 2 + (if j <= p.stepSize then Times(p.stepSize - j, p.nh) else 0) - h
    case Load => Times(n, row) + 2
    case Second(h) => (if s.i <= n then Times(n - s.i, row) else 0) - h
    case Send => (if s.i <= n then Times(n - s.i, row) else 0) + 1
    case Finished => 0
  }

  /** The encoder is never stuck. */
  lemma EncoderMoves(p: Setup, s: State) returns (s': State)
    requires SetupOk(p) && Inv(p, s) && !s.epc.Finished?
    ensures EncoderStep(p, s, s')
  {
    hide LogOk, CellOk, CellHolds;
    var n := |p.perm|;
    match s.epc
    case Check => s' := if s.r != p.numBins then s.(epc := Try(0, 0)) else s.(epc := Second(0), i := 0, start := 0);
    case Load => s' := s.(r := s.published, epc := Check);
    case Try(j, h) =>
      var t := TryCell(p, s, h);
      s' := if h + 1 < p.nh then t.(epc := Try(j, h + 1))
            else t.(i := (s.i + 1) % n, epc := if j + 1 < p.stepSize then Try(j + 1, 0) else Load);
    case Second(h) =>
      var t := SecondCell(p, s, h);
      s' := if h + 1 < p.nh then t.(epc := Second(h + 1))
            else t.(i := s.i + 1, epc := if s.i + 1 < s.start + Min(p.stepSize, n - Min(n, s.start)) then Second(0)
                else Send);
    case Send =>
      s' := s.(wire := s.wire + s.buffer[s.start..s.i], sent := s.i, start := s.i,
               epc := if s.i < n then Second(0) else Finished);
  }

  /** The corrector is not stuck before it has published all corrections, and each of its steps brings that nearer. */
  lemma CorrectorMoves(p: Setup, s: State) returns (s': State)
    requires SetupOk(p) && Inv(p, s) && s.published < p.numBins
    ensures Correct(p, s, s')
  {
    hide LogOk, MarksOk, BufferOk;
    var step := Min(p.stepSize, p.numBins - s.published);
    s' := if s.cpc.Waiting? then s.(arrived := s.arrived + step, cpc := Publishing(step))
          else s.(published := s.published + s.cpc.step, cpc := Waiting);
  }

  lemma CorrectorAdvances(p: Setup, s: State, s': State)
    requires SetupOk(p) && Inv(p, s) && Correct(p, s, s')
    ensures s.published < p.numBins && 0 <= CorrectorLeft(p, s') < CorrectorLeft(p, s)
  {
    hide LogOk, MarksOk, BufferOk;
  }

  lemma EncoderLeaves(p: Setup, s: State, s': State)
    requires SetupOk(p) && Inv(p, s) && EncoderStep(p, s, s')
    ensures s'.published == s.published && s'.cpc == s.cpc
  {
    hide LogOk, MarksOk, BufferOk, With, SetupOk;
  }

  /** Once all corrections are published every step, of either thread, brings the end nearer. */
  lemma StepsRunOut(p: Setup, s: State, s': State)
    requires SetupOk(p) && Inv(p, s) && s.published == p.numBins && Step(p, s, s')
    ensures s'.published == p.numBins && 0 <= EncoderLeft(p, s') < EncoderLeft(p, s)
  {
    hide LogOk, MarksOk, BufferOk, With;
    if Correct(p, s, s') {
      CorrectorAdvances(p, s, s');
    } else {
      StepKeeps(p, s, s');
      EncoderAdvances(p, s, s');
    }
  }

  lemma EncoderAdvances(p: Setup, s: State, s': State)
    requires SetupOk(p) && CountersOk(p, s) && CountersOk(p, s') && s.published == p.numBins && EncoderStep(p, s, s')
    ensures s'.published == p.numBins && 0 <= EncoderLeft(p, s') < EncoderLeft(p, s)
  {
    hide With, Encode;
  }

  function AtLeastZero(x: int): nat {
    if x < 0 then 0 else x
  }

  /** Every run, however far it got, goes on to one in which the encoder has finished. */
  lemma {:induction false} EveryRunEnds(p: Setup, run: seq<State>) returns (more: seq<State>)
    requires SetupOk(p) && IsRun(p, run)
    ensures IsRun(p, more) && more[|more| - 1].epc.Finished? && run <= more
    decreases AtLeastZero(CorrectorLeft(p, run[|run| - 1])), AtLeastZero(EncoderLeft(p, run[|run| - 1]))
  {
    hide SetupOk, Inv, Correct, EncoderStep, EncoderLeft, CorrectorLeft;
    more := run;
    var s := run[|run| - 1];
    RunsEncodeSafely(p, run, |run| - 1);
    if !s.epc.Finished? {
      if s.published < p.numBins {
        var s' := CorrectorMoves(p, s);
        CorrectorAdvances(p, s, s');
        more := EveryRunEnds(p, run + [s']);
      } else {
        var s' := EncoderMoves(p, s);
        AllPublished(p, s);
        StepsRunOut(p, s, s');
        EncoderLeaves(p, s, s');
        SameLeft(p, s, s');
        more := EveryRunEnds(p, run + [s']);
      }
    }
  }

  lemma AllPublished(p: Setup, s: State)
    requires SetupOk(p) && Inv(p, s)
    ensures s.published <= p.numBins
  {}

  lemma SameLeft(p: Setup, s: State, s': State)
    requires s'.published == s.published && s'.cpc == s.cpc
    ensures CorrectorLeft(p, s') == CorrectorLeft(p, s)
  {}
}
