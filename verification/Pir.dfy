/** One query of the two-server PIR, end to end. */
module Pir {
  import opened Bits
  import opened Blocks
  import opened Dpf
  import opened Selection
  import opened Traversal
  import opened Wrappers
  import Client = BgiPirClient
  import Server = BgiPirServer

  /**
    The client asks for `idx` of a database that both servers hold, with the sizes it was
    initialised with. It learns the entry at `idx`, wrapped into the domain, unless the
    database does not fill the domain, when the servers throw.
   */
  method Query(c: Ciphers, kDepth: nat, groupBlkSize: nat, idx: nat, r0: Block, r1: Block,
               data: seq<Block>) returns (r: Option<Block>)
    requires groupBlkSize > 0 && Domain(kDepth, groupBlkSize) < 0x8000_0000_0000_0000
    ensures r == if |data| == Domain(kDepth, groupBlkSize) then Some(data[Rem(idx, |data|)]) else None
  {
    hide KeyPair, Select, Domain;
    var k0, k1 := new Block[kDepth + 1], new Block[kDepth + 1];
    var g0, g1 := new Block[groupBlkSize], new Block[groupBlkSize];
    Client.KeyGen(c, idx, r0, r1, k0, g0, k1, g1);
    var blk0 := Server.FullDomain(c, data, k0[..], g0[..]);
    var blk1 := Server.FullDomain(c, data, k1[..], g1[..]);
    if blk0.None? || blk1.None? {
      return None;
    }
    TwoServerPir(c, idx, k0[..], g0[..], k1[..], g1[..], data);
    r := Some(Xor(blk0.value, blk1.value));
  }
}
