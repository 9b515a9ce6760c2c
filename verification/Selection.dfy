/** What a server owes a client: the exclusive or of the database entries whose share is set. */
module Selection {
  import opened Bits
  import opened Blocks
  import opened Bytes
  import opened Dpf

  /** First point of leaf number `leaf`. */
  function LeafStart(g: nat, leaf: nat): nat {
    leaf * GroupPoints(g)
  }

  function Masked(b: Block, t: bool): Block {
    And(b, AllOf(t))
  }

  /** Exclusive or over points lo to hi - 1 of the entries whose share under (k, g) is set. */
  function Select(c: Ciphers, k: seq<Block>, g: seq<Block>, data: seq<Block>, lo: nat, hi: nat): Block
    requires lo <= hi <= |data| && |k| > 0 && |g| > 0
    decreases hi
  {
    if lo == hi then Zero()
    else Xor(Select(c, k, g, data, lo, hi - 1), Masked(data[hi - 1], Eval(c, k, g, hi - 1)))
  }

  lemma {:induction false} SelectSplit(c: Ciphers, k: seq<Block>, g: seq<Block>, data: seq<Block>, lo: nat, mid: nat,
                                       hi: nat)
    requires lo <= mid <= hi <= |data| && |k| > 0 && |g| > 0
    ensures Select(c, k, g, data, lo, hi) == Xor(Select(c, k, g, data, lo, mid), Select(c, k, g, data, mid, hi))
    decreases hi
  {
    hide Eval, Xor, Masked;
    if mid == hi {
      XorZero(Select(c, k, g, data, lo, mid));
    } else {
      SelectSplit(c, k, g, data, lo, mid, hi - 1);
      XorAssoc(Select(c, k, g, data, lo, mid), Select(c, k, g, data, mid, hi - 1),
          Masked(data[hi - 1], Eval(c, k, g, hi - 1)));
    }
  }

  /** Under a pair of keys for `idx` the two selections differ by the entry at `idx`, if the range holds it. */
  lemma {:induction false} SelectPair(c: Ciphers, idx: nat, k0: seq<Block>, g0: seq<Block>, k1: seq<Block>,
                                      g1: seq<Block>, data: seq<Block>, hi: nat)
    requires KeyPair(c, idx, k0, g0, k1, g1)
    requires hi <= |data| == Domain(|k0| - 1, |g0|)
    ensures Xor(Select(c, k0, g0, data, 0, hi), Select(c, k1, g1, data, 0, hi))
         == var at := Rem(idx, Domain(|k0| - 1, |g0|)); if at < hi then data[at] else Zero()
  {
    hide Eval, Xor, Masked, AllCorrected, PointDiffers;
    var at := Rem(idx, Domain(|k0| - 1, |g0|));
    if hi == 0 {
      XorSelf(Zero());
    } else {
      var j := hi - 1;
      var t0, t1 := Eval(c, k0, g0, j), Eval(c, k1, g1, j);
      SelectPair(c, idx, k0, g0, k1, g1, data, j);
      PointFunction(c, idx, k0, g0, k1, g1, j);
      assert Rem(j, Domain(|k0| - 1, |g0|)) == j;
      XorSwap(Select(c, k0, g0, data, 0, j), Masked(data[j], t0), Select(c, k1, g1, data, 0, j), Masked(data[j], t1));
      MaskedPair(data[j], t0, t1);
      XorZero(Xor(Select(c, k0, g0, data, 0, j), Select(c, k1, g1, data, 0, j)));
      XorZero(data[j]);
    }
  }

  lemma EvalLeaf(c: Ciphers, k: seq<Block>, g: seq<Block>, leaf: nat, x: nat)
    requires |k| > 0 && |g| > 0 && x < GroupPoints(|g|)
    ensures LeafStart(|g|, leaf) + x >= 0
    ensures Eval(c, k, g, LeafStart(|g|, leaf) + x) == LeafBit(c, Node(c, k, |k| - 1, leaf), g, x)
  {
    hide LeafBit, Node;
    Digits(leaf, GroupPoints(|g|), x);
  }

  lemma MaskedPair(b: Block, t0: bool, t1: bool)
    ensures Xor(Masked(b, t0), Masked(b, t1)) == if t0 != t1 then b else Zero()
  {}

  /**
    The PIR law. For every database that fills the domain and every pair of keys for `idx`, the
    exclusive or of the two servers' answers is the entry at `idx`.
   */
  lemma TwoServerPir(c: Ciphers, idx: nat, k0: seq<Block>, g0: seq<Block>, k1: seq<Block>, g1: seq<Block>,
                     data: seq<Block>)
    requires KeyPair(c, idx, k0, g0, k1, g1) && |data| == Domain(|k0| - 1, |g0|)
    ensures Xor(Select(c, k0, g0, data, 0, |data|), Select(c, k1, g1, data, 0, |data|)) == data[Rem(idx, |data|)]
  {
    SelectPair(c, idx, k0, g0, k1, g1, data, |data|);
  }
}
