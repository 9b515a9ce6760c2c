/**
  Why the hash-to-bins protocol reports exactly the common items. Each party has, per item, the mask
  of the one slot in which the other side encodes for it; it combines this with its own encodings in
  all slots the other side may have used. For a common item exactly one pair of these agrees.
 */
module MaskMatching {
  import opened Bits
  import opened Blocks
  import opened Permutations
  import opened Slots
  import opened Wrappers

  /**
    Per item: its bin, its code within the bin, the place of its slot in the bin's range, and the mask received there.
   */
  datatype Party = Party(bin: seq<nat>, code: seq<nat>, ghost slot: seq<nat>, mask: seq<Block>)

  /** `peer` is the other side's encoder, `loads` the ranges of slots in which this party received. */
  ghost predicate PartyOk(q: Party, peer: (nat, nat) -> Block, loads: seq<nat>) {
    && |q.bin| == |q.code| == |q.slot| == |q.mask|
    && forall x | 0 <= x < |q.bin| ::
         && q.bin[x] < |loads| && q.slot[x] < loads[q.bin[x]]
         && q.mask[x] == peer(Start(loads, q.bin[x]) + q.slot[x], q.code[x])
  }

  /**
    The party's own encoding of item x in place l of the other side's range, combined with the item's received mask.
   */
  function MaskAt(q: Party, own: (nat, nat) -> Block, theirLoads: seq<nat>, x: nat, l: nat): Block
    requires x < |q.bin| == |q.code| == |q.mask| && q.bin[x] <= |theirLoads|
  {
    Xor(own(Start(theirLoads, q.bin[x]) + l, q.code[x]), q.mask[x])
  }

  /**
    `r` reports; `s` sends its masks. fR and fS are their encoders, loadR and loadS the ranges in which each received.
   */
  datatype Protocol = Protocol(r: Party, s: Party, fR: (nat, nat) -> Block, fS: (nat, nat) -> Block,
                               loadR: seq<nat>, loadS: seq<nat>, maskSize: nat, maxBinSize: nat)

  ghost predicate ProtocolOk(p: Protocol) {
    && PartyOk(p.r, p.fS, p.loadR) && PartyOk(p.s, p.fR, p.loadS)
    && |p.loadR| == |p.loadS| && p.maskSize <= 16
    && forall b | 0 <= b < |p.loadS| :: p.loadS[b] <= p.maxBinSize
  }

  /** Entry l of the receiver's item x, and row l of the sender's item y. */
  predicate IsEntry(p: Protocol, x: nat, l: nat) {
    x < |p.r.bin| && p.r.bin[x] < |p.loadS| && l < p.loadS[p.r.bin[x]]
  }

  predicate IsRow(p: Protocol, y: nat, l: nat) {
    y < |p.s.bin| && p.s.bin[y] < |p.loadR| && l < p.loadR[p.s.bin[y]]
  }

  ghost function EntryMask(p: Protocol, x: nat, l: nat): Block
    requires ProtocolOk(p) && IsEntry(p, x, l)
  {
    MaskAt(p.r, p.fR, p.loadS, x, l)
  }

  ghost function RowMask(p: Protocol, y: nat, l: nat): Block
    requires ProtocolOk(p) && IsRow(p, y, l)
  {
    MaskAt(p.s, p.fS, p.loadR, y, l)
  }

  predicate Same(p: Protocol, x: nat, y: nat) {
    && x < |p.r.bin| && y < |p.s.bin| && x < |p.r.code| && y < |p.s.code|
    && p.r.bin[x] == p.s.bin[y] && p.r.code[x] == p.s.code[y]
  }

  /** The sender's row at the receiver's slot is the receiver's entry at the sender's slot. */
  lemma CommonMask(p: Protocol, x: nat, y: nat)
    requires ProtocolOk(p) && Same(p, x, y)
    ensures IsRow(p, y, p.r.slot[x]) && IsEntry(p, x, p.s.slot[y])
    ensures RowMask(p, y, p.r.slot[x]) == EntryMask(p, x, p.s.slot[y])
  {
    hide Start, Xor;
    var b, c := p.r.bin[x], p.r.code[x];
    XorComm(p.fS(Start(p.loadR, b) + p.r.slot[x], c), p.fR(Start(p.loadS, b) + p.s.slot[y], c));
  }

  /** The bytes of a mask that are sent. */
  function Trunc(m: Block, maskSize: nat): (row: seq<bool>)
    requires maskSize <= 16
    ensures |row| == 8 * maskSize
  {
    m[..8 * maskSize]
  }

  /** At most the first eight bytes of a row index the receiver's map. */
  function KeyOf(row: seq<bool>): seq<bool> {
    if |row| < 64 then row else row[..64]
  }

  function Hit(table: map<seq<bool>, (nat, Block)>, row: seq<bool>, maskSize: nat, maxBinSize: nat): Option<nat>
    requires maskSize <= 16 && maxBinSize > 0
  {
    var key := KeyOf(row);
    if key in table && Trunc(table[key].1, maskSize) == row then Some(table[key].0 / maxBinSize) else None
  }

  function Hits(table: map<seq<bool>, (nat, Block)>, rows: seq<seq<bool>>, maskSize: nat, maxBinSize: nat): seq<nat>
    requires maskSize <= 16 && maxBinSize > 0
  {
    if rows == [] then []
    else
      var before := Hits(table, rows[..|rows| - 1], maskSize, maxBinSize);
      var hit := Hit(table, rows[|rows| - 1], maskSize, maxBinSize);
      if hit.Some? then before + [hit.value] else before
  }

  // ----- assumptions on the encodings -----

  ghost function EntryKey(p: Protocol, x: nat, l: nat): seq<bool>
    requires ProtocolOk(p) && IsEntry(p, x, l)
  {
    KeyOf(Trunc(EntryMask(p, x, l), p.maskSize))
  }

  /** No two entries of the receiver share a key. */
  ghost predicate KeysDistinct(p: Protocol)
    requires ProtocolOk(p)
  {
    forall x: nat, l: nat, x': nat, l': nat | IsEntry(p, x, l) && IsEntry(p, x', l')
        && EntryKey(p, x, l) == EntryKey(p, x', l') ::
      x == x' && l == l'
  }

  /** A sent row agrees with an entry only where the protocol means it to. */
  ghost predicate NoAccidents(p: Protocol)
    requires ProtocolOk(p)
  {
    forall x: nat, l: nat, y: nat, m: nat | IsEntry(p, x, l) && IsRow(p, y, m)
        && Trunc(EntryMask(p, x, l), p.maskSize) == Trunc(RowMask(p, y, m), p.maskSize) ::
      MeantToAgree(p, x, l, y, m)
  }

  /** Entry l of item x and row m of item y are of the same item, each at the other side's slot. */
  ghost predicate MeantToAgree(p: Protocol, x: nat, l: nat, y: nat, m: nat)
    requires ProtocolOk(p)
  {
    Same(p, x, y) && m == p.r.slot[x] && l == p.s.slot[y]
  }

  /** No party holds an item twice. */
  ghost predicate ItemsDistinct(q: Party) {
    |q.bin| == |q.code| && forall x, y | 0 <= x < y < |q.bin| :: q.bin[x] != q.bin[y] || q.code[x] != q.code[y]
  }

  // ----- the receiver's map and the sent rows -----

  /** What is filed under `key` is an entry with that key. */
  ghost predicate FromEntry(p: Protocol, key: seq<bool>, filed: (nat, Block))
    requires ProtocolOk(p)
  {
    exists x: nat, l: nat ::
      IsEntry(p, x, l) && EntryKey(p, x, l) == key && filed == (x * p.maxBinSize + l, EntryMask(p, x, l))
  }

  /**
    Every entry is filed under its key, and whatever is filed is some entry. `lost` are the keys that the
    kind of map in use cannot hold.
   */
  ghost predicate TableOk(p: Protocol, table: map<seq<bool>, (nat, Block)>, lost: set<seq<bool>>)
    requires ProtocolOk(p)
  {
    && (forall x: nat, l: nat | IsEntry(p, x, l) && EntryKey(p, x, l) !in lost :: EntryKey(p, x, l) in table)
    && forall key | key in table :: key !in lost && FromEntry(p, key, table[key])
  }

  /** Row r is the sender's pair `which[r]`, or a filler that matches nothing; every pair is sent once, in any order. */
  ghost predicate RowsOk(p: Protocol, rows: seq<seq<bool>>, which: seq<Option<(nat, nat)>>)
    requires ProtocolOk(p)
  {
    && |rows| == |which|
    && (forall r | 0 <= r < |rows| && which[r].Some? ::
          IsRow(p, which[r].value.0, which[r].value.1)
              && rows[r] == Trunc(RowMask(p, which[r].value.0, which[r].value.1), p.maskSize))
    && (forall r, r' | 0 <= r < r' < |rows| && which[r].Some? :: which[r] != which[r'])
    && (forall y: nat, l: nat | IsRow(p, y, l) :: Some((y, l)) in which)
    && forall r | 0 <= r < |rows| && which[r].None? :: IsFiller(p, rows[r])
  }

  ghost predicate IsFiller(p: Protocol, row: seq<bool>)
    requires ProtocolOk(p)
  {
    forall x: nat, l: nat | IsEntry(p, x, l) :: row != Trunc(EntryMask(p, x, l), p.maskSize)
  }

  /** With distinct keys an entry is found under its own key. */
  lemma EntryFound(p: Protocol, table: map<seq<bool>, (nat, Block)>, lost: set<seq<bool>>, x: nat, l: nat)
    requires ProtocolOk(p) && KeysDistinct(p) && TableOk(p, table, lost) && IsEntry(p, x, l)
             && EntryKey(p, x, l) !in lost
    ensures EntryKey(p, x, l) in table && table[EntryKey(p, x, l)] == (x * p.maxBinSize + l, EntryMask(p, x, l))
  {
    hide ProtocolOk, EntryKey, EntryMask, IsEntry;
    var key := EntryKey(p, x, l);
    assert FromEntry(p, key, table[key]);
    var x': nat, l': nat :| IsEntry(p, x', l') && EntryKey(p, x', l') == key
        && table[key] == (x' * p.maxBinSize + l', EntryMask(p, x', l'));
    assert x' == x && l' == l;
  }

  lemma IndexBack(x: nat, m: nat, l: nat)
    requires l < m
    ensures x * m + l >= 0 && (x * m + l) / m == x
  {
    Digits(x, m, l);
    var n: nat := x * m + l;
    DivisionAgrees(n, m);
  }

  /** A hit names the item of an entry that has the row's bytes. */
  lemma HitIsEntry(p: Protocol, table: map<seq<bool>, (nat, Block)>, lost: set<seq<bool>>, row: seq<bool>)
    returns (x: nat, l: nat)
    requires ProtocolOk(p) && TableOk(p, table, lost) && p.maxBinSize > 0
    requires Hit(table, row, p.maskSize, p.maxBinSize).Some?
    ensures IsEntry(p, x, l) && Trunc(EntryMask(p, x, l), p.maskSize) == row && EntryKey(p, x, l) !in lost
    ensures Hit(table, row, p.maskSize, p.maxBinSize) == Some(x)
  {
    hide EntryKey, EntryMask, Trunc, KeyOf, PartyOk;
    var key := KeyOf(row);
    assert FromEntry(p, key, table[key]);
    x, l :| IsEntry(p, x, l) && EntryKey(p, x, l) == key && table[key] == (x * p.maxBinSize + l, EntryMask(p, x, l));
    IndexBack(x, p.maxBinSize, l);
  }

  /** A row that has an entry's bytes hits the entry's item. */
  lemma EntryIsHit(p: Protocol, table: map<seq<bool>, (nat, Block)>, lost: set<seq<bool>>, x: nat, l: nat)
    requires ProtocolOk(p) && KeysDistinct(p) && TableOk(p, table, lost) && p.maxBinSize > 0
    requires IsEntry(p, x, l) && EntryKey(p, x, l) !in lost
    ensures Hit(table, Trunc(EntryMask(p, x, l), p.maskSize), p.maskSize, p.maxBinSize) == Some(x)
  {
    hide EntryMask, Trunc, KeyOf, PartyOk, KeysDistinct, TableOk;
    EntryFound(p, table, lost, x, l);
    IndexBack(x, p.maxBinSize, l);
  }

  // ----- lists of hits -----

  lemma {:induction false} HitsHave(table: map<seq<bool>, (nat, Block)>, rows: seq<seq<bool>>, maskSize: nat,
                                    maxBinSize: nat, x: nat)
    requires maskSize <= 16 && maxBinSize > 0
    ensures x in Hits(table, rows, maskSize, maxBinSize) <==> exists r ::
            0 <= r < |rows| && Hit(table, rows[r], maskSize, maxBinSize) == Some(x)
  {
    hide Hit;
    if rows != [] {
      var n := |rows| - 1;
      HitsHave(table, rows[..n], maskSize, maxBinSize, x);
      if x in Hits(table, rows[..n], maskSize, maxBinSize) {
        var r :| 0 <= r < n && Hit(table, rows[..n][r], maskSize, maxBinSize) == Some(x);
        assert rows[r] == rows[..n][r];
      }
      if r :| 0 <= r < |rows| && Hit(table, rows[r], maskSize, maxBinSize) == Some(x) {
        if r < n {
          assert rows[..n][r] == rows[r];
        }
      }
    }
  }

  lemma {:induction false} HitsDistinct(table: map<seq<bool>, (nat, Block)>, rows: seq<seq<bool>>, maskSize: nat,
                                        maxBinSize: nat)
    requires maskSize <= 16 && maxBinSize > 0
    requires forall r, r' | 0 <= r < r' < |rows| && Hit(table, rows[r], maskSize, maxBinSize).Some? ::
               Hit(table, rows[r], maskSize, maxBinSize) != Hit(table, rows[r'], maskSize, maxBinSize)
    ensures Distinct(Hits(table, rows, maskSize, maxBinSize))
  {
    hide Hit;
    if rows != [] {
      var n := |rows| - 1;
      HitsDistinct(table, rows[..n], maskSize, maxBinSize);
      var hit := Hit(table, rows[n], maskSize, maxBinSize);
      if hit.Some? {
        HitsHave(table, rows[..n], maskSize, maxBinSize, hit.value);
        assert hit.value !in Hits(table, rows[..n], maskSize, maxBinSize);
      }
    }
  }

  // ----- the protocol's promises -----

  /** The key of the mask that both sides compute for a common item is one that the map can hold. */
  ghost predicate Matches(p: Protocol, x: nat, y: nat, lost: set<seq<bool>>)
    requires ProtocolOk(p)
  {
    Same(p, x, y) && IsEntry(p, x, p.s.slot[y]) && EntryKey(p, x, p.s.slot[y]) !in lost
  }

  ghost predicate Matched(p: Protocol, x: nat, lost: set<seq<bool>>)
    requires ProtocolOk(p)
  {
    exists y: nat :: Matches(p, x, y, lost)
  }

  /** Where every key can be held, the common items match. */
  lemma AllMatch(p: Protocol, x: nat, y: nat)
    requires ProtocolOk(p)
    ensures Matches(p, x, y, {}) <==> Same(p, x, y)
  {
    hide EntryKey, EntryMask, RowMask;
    if Same(p, x, y) {
      CommonMask(p, x, y);
    }
  }

  /** Completeness needs distinct keys only: every common item is reported, if the map can hold its key. */
  lemma CommonReported(p: Protocol, table: map<seq<bool>, (nat, Block)>, lost: set<seq<bool>>, rows: seq<seq<bool>>,
                       which: seq<Option<(nat, nat)>>, x: nat, y: nat)
    requires ProtocolOk(p) && KeysDistinct(p) && TableOk(p, table, lost) && RowsOk(p, rows, which)
    requires Matches(p, x, y, lost)
    ensures p.maxBinSize > 0 && x in Hits(table, rows, p.maskSize, p.maxBinSize)
  {
    CommonMask(p, x, y);
    var l := p.r.slot[x];
    assert Some((y, l)) in which;
    var r :| 0 <= r < |which| && which[r] == Some((y, l));
    assert p.loadS[p.s.bin[y]] > 0;
    hide EntryMask, RowMask, Trunc, KeysDistinct, TableOk, PartyOk, EntryKey, Hits, Hit;
    EntryIsHit(p, table, lost, x, p.s.slot[y]);
    HitsHave(table, rows, p.maskSize, p.maxBinSize, x);
  }

  /** Row r was computed for the item x at the receiver's slot, and can be found. */
  ghost predicate MeantFor(p: Protocol, pair: Option<(nat, nat)>, x: nat, lost: set<seq<bool>>)
    requires ProtocolOk(p)
  {
    pair.Some? && Matches(p, x, pair.value.0, lost) && pair.value.1 == p.r.slot[x]
  }

  /** Which rows hit an item: those the sender computed for the same item at the receiver's slot. */
  lemma HitIff(p: Protocol, table: map<seq<bool>, (nat, Block)>, lost: set<seq<bool>>, rows: seq<seq<bool>>,
               which: seq<Option<(nat, nat)>>, r: nat, x: nat)
    requires ProtocolOk(p) && KeysDistinct(p) && NoAccidents(p) && TableOk(p, table, lost) && RowsOk(p, rows, which)
    requires r < |rows| && p.maxBinSize > 0
    ensures Hit(table, rows[r], p.maskSize, p.maxBinSize) == Some(x) <==> MeantFor(p, which[r], x, lost)
  {
    hide EntryMask, RowMask, Trunc, KeysDistinct, TableOk, EntryKey, Hit;
    if Hit(table, rows[r], p.maskSize, p.maxBinSize).Some? {
      var x', l := HitIsEntry(p, table, lost, rows[r]);
    }
    if MeantFor(p, which[r], x, lost) {
      CommonMask(p, x, which[r].value.0);
      EntryIsHit(p, table, lost, x, p.s.slot[which[r].value.0]);
    }
  }

  /**
    Exactness: when the sender holds no item twice, the rows match entries only where meant to and
    keys are distinct, then the list of hits has no duplicates and is exactly the common items, but for
    those whose key the map cannot hold.
   */
  lemma ReportsExactly(p: Protocol, table: map<seq<bool>, (nat, Block)>, lost: set<seq<bool>>, rows: seq<seq<bool>>,
                       which: seq<Option<(nat, nat)>>)
    requires ProtocolOk(p) && KeysDistinct(p) && NoAccidents(p) && ItemsDistinct(p.s) && p.maxBinSize > 0
    requires TableOk(p, table, lost) && RowsOk(p, rows, which)
    ensures Distinct(Hits(table, rows, p.maskSize, p.maxBinSize))
    ensures forall x: nat :: x in Hits(table, rows, p.maskSize, p.maxBinSize) <==> Matched(p, x, lost)
  {
    hide EntryMask, RowMask, Trunc, KeysDistinct, TableOk, EntryKey, Hit, Hits, NoAccidents, PartyOk;
    forall r, r' | 0 <= r < r' < |rows| && Hit(table, rows[r], p.maskSize, p.maxBinSize).Some?
      ensures Hit(table, rows[r], p.maskSize, p.maxBinSize) != Hit(table, rows[r'], p.maskSize, p.maxBinSize)
    {
      var hit := Hit(table, rows[r], p.maskSize, p.maxBinSize).value;
      HitIff(p, table, lost, rows, which, r, hit);
      HitIff(p, table, lost, rows, which, r', hit);
    }
    HitsDistinct(table, rows, p.maskSize, p.maxBinSize);
    forall x: nat ensures x in Hits(table, rows, p.maskSize, p.maxBinSize) <==> Matched(p, x, lost) {
      HitsHave(table, rows, p.maskSize, p.maxBinSize, x);
      if x in Hits(table, rows, p.maskSize, p.maxBinSize) {
        var r :| 0 <= r < |rows| && Hit(table, rows[r], p.maskSize, p.maxBinSize) == Some(x);
        HitIff(p, table, lost, rows, which, r, x);
      } else if y: nat :| Matches(p, x, y, lost) {
        CommonReported(p, table, lost, rows, which, x, y);
      }
    }
  }

  /**
    What a report promises: the common items with a key that the map can hold if keys are distinct, and
    exactly those, each once, if nothing matches by accident.
   */
  ghost predicate Reports(p: Protocol, mIntersection: seq<nat>, lost: set<seq<bool>>)
    requires ProtocolOk(p)
  {
    && (KeysDistinct(p) ==> forall x: nat | Matched(p, x, lost) :: x in mIntersection)
    && (KeysDistinct(p) && NoAccidents(p) && ItemsDistinct(p.s) ==>
          Distinct(mIntersection) && forall x: nat :: x in mIntersection <==> Matched(p, x, lost))
  }

  lemma HitsReport(p: Protocol, table: map<seq<bool>, (nat, Block)>, lost: set<seq<bool>>, rows: seq<seq<bool>>,
                   which: seq<Option<(nat, nat)>>)
    requires ProtocolOk(p) && p.maxBinSize > 0 && TableOk(p, table, lost) && RowsOk(p, rows, which)
    ensures Reports(p, Hits(table, rows, p.maskSize, p.maxBinSize), lost)
  {
    hide KeysDistinct, NoAccidents, ItemsDistinct, TableOk, RowsOk, Hits, Matches, PartyOk;
    if KeysDistinct(p) {
      forall x: nat | Matched(p, x, lost) ensures x in Hits(table, rows, p.maskSize, p.maxBinSize) {
        var y: nat :| Matches(p, x, y, lost);
        CommonReported(p, table, lost, rows, which, x, y);
      }
      if NoAccidents(p) && ItemsDistinct(p.s) {
        ReportsExactly(p, table, lost, rows, which);
      }
    }
  }

  /** The order of a report does not matter. */
  lemma SameReport(p: Protocol, report: seq<nat>, report': seq<nat>, lost: set<seq<bool>>)
    requires ProtocolOk(p) && Reports(p, report, lost) && multiset(report) == multiset(report')
    ensures Reports(p, report', lost)
  {
    hide KeysDistinct, NoAccidents, ItemsDistinct, Matched, ProtocolOk;
    forall x: nat ensures x in report <==> x in report' {
      assert x in multiset(report) <==> x in multiset(report');
    }
    if Distinct(report) {
      DistinctOnce(report);
      OnceDistinct(report');
    }
  }

  lemma {:induction false} DistinctOnce(s: seq<nat>)
    requires Distinct(s)
    ensures forall x: nat :: multiset(s)[x] <= 1
  {
    if s != [] {
      var n := |s| - 1;
      DistinctOnce(s[..n]);
      assert s == s[..n] + [s[n]];
      forall x: nat ensures multiset(s)[x] <= 1 {
        if x == s[n] {
          assert x !in s[..n];
        }
      }
    }
  }

  lemma OnceDistinct(s: seq<nat>)
    requires forall x: nat :: multiset(s)[x] <= 1
    ensures Distinct(s)
  {
    forall i, j | 0 <= i < j < |s| ensures s[i] != s[j] {
      assert s == s[..i] + [s[i]] + s[i + 1..j] + [s[j]] + s[j + 1..];
      assert multiset(s)[s[i]] <= 1;
    }
  }

  // ----- the same promises in bits -----

  /**
    Rows of one length have the same key if and only if they agree on their first 64 bits, or all if there are fewer.
   */
  lemma SameKeyIff(a: seq<bool>, b: seq<bool>, maskSize: nat)
    requires |a| == |b| == 8 * maskSize
    ensures KeyOf(a) == KeyOf(b) <==> forall i: nat | i < 64 && i < 8 * maskSize :: a[i] == b[i]
  {
    if KeyOf(a) == KeyOf(b) {
      forall i: nat | i < 64 && i < 8 * maskSize ensures a[i] == b[i] {
        assert a[i] == KeyOf(a)[i] && b[i] == KeyOf(b)[i];
      }
    }
  }

  /** Bit b of the receiver's entry l for item x, and of the sender's row l for item y. */
  ghost function EntryBit(p: Protocol, x: nat, l: nat, b: nat): bool
    requires ProtocolOk(p) && IsEntry(p, x, l) && b < 128
  {
    p.fR(Start(p.loadS, p.r.bin[x]) + l, p.r.code[x])[b] != p.r.mask[x][b]
  }

  ghost function RowBit(p: Protocol, y: nat, l: nat, b: nat): bool
    requires ProtocolOk(p) && IsRow(p, y, l) && b < 128
  {
    p.fS(Start(p.loadR, p.s.bin[y]) + l, p.s.code[y])[b] != p.s.mask[y][b]
  }

  lemma MaskBits(p: Protocol)
    requires ProtocolOk(p)
    ensures forall x: nat, l: nat, b: nat | IsEntry(p, x, l) && b < 128 :: EntryMask(p, x, l)[b] == EntryBit(p, x, l, b)
    ensures forall y: nat, l: nat, b: nat | IsRow(p, y, l) && b < 128 :: RowMask(p, y, l)[b] == RowBit(p, y, l, b)
  {
    hide Start;
  }

  /** Any two entries differ in one of the first 64 bits that are sent. */
  ghost predicate KeysDiffer(p: Protocol)
    requires ProtocolOk(p)
  {
    forall x: nat, l: nat, x': nat, l': nat | IsEntry(p, x, l) && IsEntry(p, x', l') && (x != x' || l != l') ::
      exists b: nat :: b < 64 && b < 8 * p.maskSize && EntryBit(p, x, l, b) != EntryBit(p, x', l', b)
  }

  /** An entry and a row that are not meant for each other differ in a bit that is sent. */
  ghost predicate RowsDiffer(p: Protocol)
    requires ProtocolOk(p)
  {
    forall x: nat, l: nat, y: nat, m: nat | IsEntry(p, x, l) && IsRow(p, y, m)
        && !MeantToAgree(p, x, l, y, m) ::
      exists b: nat :: b < 8 * p.maskSize && EntryBit(p, x, l, b) != RowBit(p, y, m, b)
  }

  /** Items x and y are the same, and the masks that the two sides hold for them differ in one of those bits. */
  ghost predicate Findable(p: Protocol, x: nat, y: nat)
    requires ProtocolOk(p)
  {
    Same(p, x, y) && exists b: nat :: b < 64 && b < 8 * p.maskSize && p.r.mask[x][b] != p.s.mask[y][b]
  }

  /** A report's promise in bits; `total` if the receiver's map holds every key. */
  ghost predicate ReportsInBits(p: Protocol, report: seq<nat>, total: bool)
    requires ProtocolOk(p)
  {
    && (KeysDiffer(p) ==>
          forall x: nat, y: nat | Same(p, x, y) && (total || Findable(p, x, y)) :: x in report)
    && (KeysDiffer(p) && RowsDiffer(p) && ItemsDistinct(p.s) ==>
          Distinct(report)
          && forall x: nat :: x in report <==> exists y: nat :: Same(p, x, y) && (total || Findable(p, x, y)))
  }

  lemma KeysInBits(p: Protocol)
    requires ProtocolOk(p)
    ensures KeysDistinct(p) <==> KeysDiffer(p)
  {
    hide ProtocolOk, EntryKey, EntryBit, IsEntry;
    forall x: nat, l: nat, x': nat, l': nat | IsEntry(p, x, l) && IsEntry(p, x', l')
      ensures EntryKey(p, x, l) == EntryKey(p, x', l')
         <==> !exists b: nat :: b < 64 && b < 8 * p.maskSize && EntryBit(p, x, l, b) != EntryBit(p, x', l', b)
    {
      EntryKeysIff(p, x, l, x', l');
    }
    if KeysDistinct(p) {
      forall x: nat, l: nat, x': nat, l': nat | IsEntry(p, x, l) && IsEntry(p, x', l') && (x != x' || l != l')
        ensures exists b: nat :: b < 64 && b < 8 * p.maskSize && EntryBit(p, x, l, b) != EntryBit(p, x', l', b)
      {
        assert EntryKey(p, x, l) != EntryKey(p, x', l');
      }
    }
  }

  lemma EntryKeysIff(p: Protocol, x: nat, l: nat, x': nat, l': nat)
    requires ProtocolOk(p) && IsEntry(p, x, l) && IsEntry(p, x', l')
    ensures EntryKey(p, x, l) == EntryKey(p, x', l')
       <==> !exists b: nat :: b < 64 && b < 8 * p.maskSize && EntryBit(p, x, l, b) != EntryBit(p, x', l', b)
  {
    hide KeyOf, EntryMask, EntryBit, IsEntry, PartyOk;
    var a, a' := Trunc(EntryMask(p, x, l), p.maskSize), Trunc(EntryMask(p, x', l'), p.maskSize);
    SameKeyIff(a, a', p.maskSize);
    MaskBits(p);
    forall b: nat | b < 64 && b < 8 * p.maskSize
      ensures a[b] == EntryBit(p, x, l, b) && a'[b] == EntryBit(p, x', l', b)
    {
    }
  }

  lemma AccidentsInBits(p: Protocol)
    requires ProtocolOk(p)
    ensures NoAccidents(p) <==> RowsDiffer(p)
  {
    hide ProtocolOk, EntryBit, RowBit, IsEntry, IsRow, EntryMask, RowMask, Trunc, MeantToAgree;
    forall x: nat, l: nat, y: nat, m: nat | IsEntry(p, x, l) && IsRow(p, y, m)
      ensures p.maskSize <= 16
      ensures Trunc(EntryMask(p, x, l), p.maskSize) == Trunc(RowMask(p, y, m), p.maskSize)
         <==> !exists b: nat :: b < 8 * p.maskSize && EntryBit(p, x, l, b) != RowBit(p, y, m, b)
    {
      RowsIff(p, x, l, y, m);
    }
    if NoAccidents(p) {
      forall x: nat, l: nat, y: nat, m: nat | IsEntry(p, x, l) && IsRow(p, y, m)
          && !MeantToAgree(p, x, l, y, m)
        ensures exists b: nat :: b < 8 * p.maskSize && EntryBit(p, x, l, b) != RowBit(p, y, m, b)
      {
        assert Trunc(EntryMask(p, x, l), p.maskSize) != Trunc(RowMask(p, y, m), p.maskSize);
      }
    }
  }

  lemma RowsIff(p: Protocol, x: nat, l: nat, y: nat, m: nat)
    requires ProtocolOk(p) && IsEntry(p, x, l) && IsRow(p, y, m)
    ensures p.maskSize <= 16
    ensures Trunc(EntryMask(p, x, l), p.maskSize) == Trunc(RowMask(p, y, m), p.maskSize)
       <==> !exists b: nat :: b < 8 * p.maskSize && EntryBit(p, x, l, b) != RowBit(p, y, m, b)
  {
    hide EntryMask, RowMask, EntryBit, RowBit, IsEntry, IsRow, PartyOk;
    var a, a' := Trunc(EntryMask(p, x, l), p.maskSize), Trunc(RowMask(p, y, m), p.maskSize);
    MaskBits(p);
    forall b: nat | b < 8 * p.maskSize ensures a[b] == EntryBit(p, x, l, b) && a'[b] == RowBit(p, y, m, b) {
    }
    if !exists b: nat :: b < 8 * p.maskSize && EntryBit(p, x, l, b) != RowBit(p, y, m, b) {
      assert a == a';
    }
  }

  /** The key that an all-zero mask has. */
  function ZeroKey(maskSize: nat): seq<bool> {
    KeyOf(seq(8 * maskSize, _ => false))
  }

  /** What both sides compute for a common item has a key other than zero if and only if it is findable. */
  lemma FindableIff(p: Protocol, x: nat, y: nat)
    requires ProtocolOk(p)
    ensures Matches(p, x, y, {ZeroKey(p.maskSize)}) <==> Findable(p, x, y)
  {
    hide EntryMask, KeyOf, Trunc, Start;
    if Same(p, x, y) {
      CommonMask(p, x, y);
      var l := p.s.slot[y];
      SameKeyIff(Trunc(EntryMask(p, x, l), p.maskSize), seq(8 * p.maskSize, _ => false), p.maskSize);
      SharedBits(p, x, y);
    }
  }

  lemma SharedBits(p: Protocol, x: nat, y: nat)
    requires ProtocolOk(p) && Same(p, x, y) && IsEntry(p, x, p.s.slot[y])
    ensures forall b: nat | b < 8 * p.maskSize ::
              Trunc(EntryMask(p, x, p.s.slot[y]), p.maskSize)[b] == (p.r.mask[x][b] != p.s.mask[y][b])
  {
    hide Start;
  }

  /** A report that is as promised is so in bits; `lost` is nothing, or the key of the all-zero mask. */
  lemma ReportInBits(p: Protocol, report: seq<nat>, total: bool)
    requires ProtocolOk(p) && Reports(p, report, if total then {} else {ZeroKey(p.maskSize)})
    ensures ReportsInBits(p, report, total)
  {
    hide KeysDistinct, KeysDiffer, NoAccidents, RowsDiffer, ItemsDistinct, ProtocolOk, Matches, Same, Findable, ZeroKey;
    KeysInBits(p);
    AccidentsInBits(p);
    var lost := if total then {} else {ZeroKey(p.maskSize)};
    forall x: nat, y: nat ensures Matches(p, x, y, lost) <==> Same(p, x, y) && (total || Findable(p, x, y)) {
      if total {
        AllMatch(p, x, y);
      } else {
        FindableIff(p, x, y);
        FindableSame(p, x, y);
      }
    }
    if KeysDistinct(p) {
      forall x: nat, y: nat | Same(p, x, y) && (total || Findable(p, x, y)) ensures x in report {
        assert Matches(p, x, y, lost);
      }
    }
  }

  lemma FindableSame(p: Protocol, x: nat, y: nat)
    requires ProtocolOk(p)
    ensures Findable(p, x, y) ==> Same(p, x, y)
  {}
}
