# Verified model of libPSI

libPSI computes the intersection of two private sets. This project models the parts of it that
are algorithms rather than cryptography or networking, and proves what they are for. Every file
is one or two Dafny modules; `dafny verify dfyconfig.toml` checks all of them.

## What is modelled

**Two-server private lookup** (`Blocks`, `Dpf`, `BgiPirClient`, `Traversal`, `Bytes`, `Subtrees`,
`Selection`, `BgiPirServer`, `FullDomainGenerator`, `MultiKey`, `Pir`). The client splits a
point function into two keys; each server evaluates its key and folds its database over the
shares. A block is a sequence of 128 bits; the three AES instances are arbitrary functions. `Dpf` defines
the tree and what a pair of keys is, and proves that the two shares of every point differ exactly at
the chosen one. The methods of the client and of the four evaluators (single point, whole
domain, chunked generator, many keys in lock step) are each proved against that one definition, so
they agree with each other; `Pir.Query` puts both sides together.

**Cuckoo hashing** (`CuckooTable`, `CuckooChain`, `CuckooRounds`, `CuckooHasher`, `SimpleCuckoo`,
`CuckooConcurrent`). Two classes with bins, stash and hash rows as arrays overwritten in place, proved
to hold exactly the inserted items, to follow every chain of evictions for as long as the source does and no less, and to
answer lookups exactly; and a step system in which any number
of threads insert at once, one atomic exchange a step, with conservation over every interleaving and an end to every
call. `CuckooChain` says
where evictions lead without the arrays.

**KKRT** (`Kkrt`, `KkrtSchedule`). The sender's two threads as a step system with the output buffer and the wire in its
state: one receives corrections while the other encodes what it can, then makes a second pass and hands rows over.
Hashing to bins, filing and matching of masks are methods, and `Kkrt.Run` puts them together with a finished run. Masks
that fall together by accident are excluded by explicit assumptions over the finitely many items and bins of the run.

**Balanced index** (`BalancedIndex`). The randomised two-choice index with its moves as in-place updates.
Calls of rand() read a given sequence, and a run stops when the sequence is used up, so a property of
every sequence is one of every point of every run. What a turn does to counters, lists and candidates is a function of
their values, to which the loop is tied.

**Hash-to-bins protocols** (`Binning`, `Phasing`, `Slots`, `MaskMatching`, `Rr17`, `Tasks`, `Grr18Receiver`,
`Grr18Sender`, `Grr18`). Concurrent pushes into 8-bit counted bins, the countdown barrier and the reservation of output
rows are one step system. At every barrier the last decrement of the counter and the opening are two steps. `Slots` is the use of the transfer slots by either side, with equal or differing loads;
`MaskMatching` is the matching law for any loads, any order of rows and entries, rows of padding and maps that cannot hold
some keys. `Rr17` is RR17a on one channel from the binning threads' finished runs to the report, insert buffer included.
The `Grr18` modules are the protocol with varying loads on any number of channels: the receiver's threads with their bounded
buffers, the shared map, the barrier, the lookup of each thread's share of the rows and the merged report are one step system;
the sender's threads with their counts, the matrix made by the last of them, the reservations, the second barrier
and the sending in chunks are another; `Grr18.EndToEnd` is about any two finished runs of them. The transfer
instances of a side's threads are numbered one behind the other, and as the threads' bins and items are
disjoint one pass over all bins stands for their first passes.

**Smaller parts.** `GetBinSize` (the search for the bin size over an arbitrary overflow estimate),
`BloomMasks` (RR16: filter, assignment, check, masks and lookup), `DrrnMasks` (the three-party masking with its shuffle),
`Groups` and `Dkt` (an honest run over any commutative group with the usual laws, with the lookup at its end).

`Bits` and `Permutations` are helpers: shifts and digits of naturals, and why n different numbers
below n are all of them.

## What the code does that its documentation does not say

- `MultiKey::yeild` throws when the domain is exhausted but has already reset its group index, so the
  calls after the throw replay the last leaf (libPSI/PIR/BgiPirServer.cpp:1155-1237). `MultiKey.Yield` states it.
- Points outside the domain wrap around in `evalOne`; `Dpf.PointFunction` is stated for all of them.
- A key that is put into a running multi-key leaves the seeds and the buffer of its column behind
  (libPSI/PIR/BgiPirServer.cpp:1096-1117). Its shares are right from the first block that is filled after a walk from the
  root, which is the one to the first leaf of the right half, and at once from the next block if there is only the root.
  `MultiKey.Yield` says of each call which columns are right, `MultiKey.RekeyedShare` is a wrong share.
- `CuckooHasher::insert` recognises a repeated index by its first stored hash value, so a repeat of an item whose first
  hash is 2^64 - 1 goes into the table again (libPSI/Tools/CuckooHasher.cpp:163-166). `CuckooHasher.InsertTwice` gives the exact
  condition and the outcome, `CuckooHasher.MissedRepeat` hash values for which it happens. The batch form has no such guard;
  it only asserts in debug builds that the index is new. Release builds are modelled: a batch may name an item twice, which is then
  held twice. The table is a multiset of held items for that reason, with the set of items that lookups must find beside it.
- When the stash is full, `insertHelper` runs off its end, which is the outcome `StashOverflow`; the batch form throws
  and loses what it has in hand.
- GRR18 files its masks in a hash map that marks unused buckets by the key 0 (libPSI/MPSI/Grr18/Grr18MPsiReceiver.cpp:256-257). In
  release builds inserting an entry with that key has no effect, so a common item whose shared mask begins with zeros is never
  reported. `Grr18.EndToEnd` says that these are the only ones, `Grr18.ZeroMaskMissed` gives one. The map of RR17a holds every key.
- GRR18's spare rows are never written, so they hold whatever was in memory (libPSI/MPSI/Grr18/Grr18MPsiSender.cpp:438).
  They are arbitrary rows here, assumed to match no entry. Their number is an offset plus noise; if the sum is negative
  the matrix is too small for the rows (libPSI/MPSI/Grr18/Grr18MPsiSender.cpp:427-438), which `Grr18Sender.FitsIff` states exactly;
  `Grr18Sender.TooSmall` has runs in which it is.
- `hashItems` fills a repeated cell of hash function 2 from the comparison of functions 0 and 1
  (libPSI/PSI/Kkrt/KkrtPsiSender.cpp:255-262) and writes its filler at a permuted row. Only that fillers
  match nothing is relied on, so fillers are arbitrary here.
- In `BalancedIndex` a bin exactly at its maximum stays in the heavy list, the list may hold duplicates, and the
  hash index of an item is carried along unchanged when it moves. The model keeps all three.
- Phasing (dropping the low log2ceil(n) bits of an item after binning by its low 64 bits) keeps
  items of a bin apart only when there are n bins and n is a power of two. `Phasing.ProtocolSeparatesIff`
  is the exact condition; `Phasing.TooFewBins` gives the two items that fall together otherwise. The matching theorems are about (bin, code)
  pairs, so they hold for what is left of the items.
- The RR16 sender's scan sets its promise to false on a bad permutation and then sets it again
  (libPSI/MPSI/Rr16/AknBfMPsiSender.cpp:213-222): the threads see the refusal and the call throws. `BloomMasks.CheckPermutation` has both.
- In DRRN the client masks its items with the unshuffled masks while server 1 shuffles its copy. `DrrnMasks.Query` says exactly for
  which query positions the two agree, namely those that the swaps of their group leave in place; with two hash functions
  both positions of an item fail whenever its one swap is effective (`DrrnMasks.SwappedPairFails`).
- The DKT sender prints a bad proof but goes on; the receiver throws on one. `CheckSigma` and `DeriveKeys` differ accordingly.
- The DKT receiver has all its points in a list before it commits, and commits to the one at the back of the list for every
  item (libPSI/MPSI/DKT/DktMPsiReceiver.cpp:130-148 and 209-215). The checks pass all the same, because the point cancels
  out, but the key it recovers is that of the last item's point, so a common item is found only if its point times the
  sender's secret is the last item's. `Dkt.HonestRun` and `Dkt.Run` have this condition, `Dkt.RecognisedIff` says what it
  comes to, and `Dkt.LostItem` is an input on which a common item is lost. The registrations of these tests are commented
  out (libPSI_Tests/UnitTests.cpp:43-45).

## Model

| member | source | states |
|---|---|---|
| `Dpf.OnPath` | libPSI/PIR/BgiPirClient.cpp:113-176 | the t bits of the two parties differ at every node on the path to the chosen leaf, at every depth |
| `Dpf.OffPath` | libPSI/PIR/BgiPirClient.cpp:113-176 | at every node off the path the parties hold the same seed, except possibly in bit 1 |
| `Dpf.PointFunction` | libPSI/PIR/BgiPirClient.cpp:87-214 | for any pair of keys for idx, any ciphers, depth and group size and every point j, the two shares differ if and only if j is idx, modulo the size of the domain |
| `Dpf.CorrectionUnique` | libPSI/PIR/BgiPirClient.cpp:113-176 | a level has only one correction word that does its job |
| `Dpf.GroupUnique` | libPSI/PIR/BgiPirClient.cpp:178-214 | a pair of leaves has only one group word that makes them differ at one point |
| `Dpf.KeysUnique` | libPSI/PIR/BgiPirClient.cpp:87-214 | the roots and the point determine both keys, so being a key pair pins down what keyGen must write |
| `Dpf.BitPosBijective` | libPSI/PIR/BgiPirServer.cpp:72-74 | the transposed bit order of a leaf block is a bijection |
| `Dpf.ByteAndBit` | libPSI/PIR/BgiPirServer.cpp:72-74 | the byte and bit index the server computes address that bit of that group block |
| `Dpf.ExpandLeaf` | libPSI/PIR/BgiPirServer.cpp:89-105 | group block i of a leaf is the cipher of x with x added in, where bit b of x is that of the seed, for b above 1, added to that of the number i, for b below 64 |
| `Blocks.ToBlockNumber` | libPSI/PIR/BgiPirServer.cpp:93-97 | the low half of a block made of a 64-bit number is that number in binary and the high half is clear |
| `Dpf.InputsDiffer` | libPSI/PIR/BgiPirServer.cpp:93-97 | two group blocks of a leaf have the same cipher input if and only if they have the same number |
| `Dpf.ChildBits` | libPSI/PIR/BgiPirServer.cpp:146-186 | every bit of a child: the cipher of the child's side at the parent without its two lowest bits, with that added in, and under the parent's t bit the correction word, whose bits 1 and 0 are for the t bits of children 0 and 1 |
| `BgiPirClient.LevelWord` | libPSI/PIR/BgiPirClient.cpp:113-176 | one pass of the level loop finds the correction word that makes the kept children differ in t and the other children agree, and steps both seeds down |
| `BgiPirClient.GroupWord` | libPSI/PIR/BgiPirClient.cpp:178-214 | the group word makes the two leaves differ at exactly the point of idx |
| `BgiPirClient.KeyGen` | libPSI/PIR/BgiPirClient.cpp:87-215 | what is written in place into k0, g0, k1 and g1 is a pair of keys for idx with the given roots, whatever was there before |
| `Traversal.ClimbCount` | libPSI/PIR/BgiPirServer.cpp:657-659 | log2floor((i + 1) ^ i) is the number of trailing ones of i |
| `Traversal.ClimbLands` | libPSI/PIR/BgiPirServer.cpp:996-998 | after leaf i the climb lands at a depth down to which the path to leaf i + 1 is the same |
| `Traversal.ClimbsToRoot` | libPSI/PIR/BgiPirServer.cpp:1235-1237 | the climb reaches the root exactly when the next leaf is the first one of the right half |
| `Traversal.LastClimb` | libPSI/PIR/BgiPirServer.cpp:1235-1237 | after the last leaf the depth wraps below zero to the largest 64-bit value |
| `Bytes.SpreadByte` | libPSI/PIR/BgiPirServer.cpp:307-314 | shifting and masking a leaf block eight times puts the bit of point q into byte q |
| `Subtrees.StepSeed` | libPSI/PIR/BgiPirServer.cpp:412-486 | the split form of a step, with the t bits of the correction word taken out beforehand, is traverseOne |
| `Subtrees.Descend` | libPSI/PIR/BgiPirServer.cpp:412-486 | walking eight lanes down in step fills every row of the stack with the seeds of the eight current paths |
| `Subtrees.LeafBytes` | libPSI/PIR/BgiPirServer.cpp:505-579 | the byte buffer of each lane holds the spread leaf words of that lane |
| `Subtrees.LaneByte` | libPSI/PIR/BgiPirServer.cpp:581-606 | each byte of a lane is the share of one point of its leaf |
| `Selection.SelectPair` | libPSI/PIR/BgiPirClient.cpp:62-79 | over any prefix of the database the two selections differ by the wanted entry if the prefix holds it, and by nothing otherwise |
| `Selection.TwoServerPir` | libPSI/PIR/BgiPirClient.cpp:62-79 | for every database that fills the domain the sum of the two answers is the entry at idx |
| `BgiPirServer.TraversePath` | libPSI/PIR/BgiPirServer.cpp:130-144 | the loop ends at the node of the path at the given depth |
| `BgiPirServer.EvalOne` | libPSI/PIR/BgiPirServer.cpp:66-128 | the single-point evaluator returns the share of the point, which, for q the remainder of idx by the leaf's 128 * |g| points, is bit 8 * (q % 16) + (q % 128) / 16 of group block q / 128; the block before correction is the cipher of its input with the input added in, and is corrected by the group word where the leaf's lowest bit is set |
| `BgiPirServer.SmallDomain` | libPSI/PIR/BgiPirServer.cpp:280-352 | for fewer than three levels the answer is the sum of the entries whose share is set |
| `BgiPirServer.LargeDomain` | libPSI/PIR/BgiPirServer.cpp:353-711 | for three levels or more the eight-lane walk with the climbing stack computes the same sum |
| `BgiPirServer.StackClimbs` | libPSI/PIR/BgiPirServer.cpp:657-659 | the rows that the climb keeps hold the seeds of the path to the next leaf |
| `BgiPirServer.FullDomain` | libPSI/PIR/BgiPirServer.cpp:251-712 | the answer is the selection when the database fills the domain, and the throw otherwise |
| `FullDomainGenerator.FullDomainGenerator.constructor` | libPSI/PIR/BgiPirServer.cpp:713-784 | a fresh generator is valid, at its first leaf |
| `FullDomainGenerator.FullDomainGenerator.Yield` | libPSI/PIR/BgiPirServer.cpp:787-1009 | call n yields, for every lane, the offset and the shares of leaf n of that lane; nothing once the domain is used up; the underflowed depth is never read |
| `FullDomainGenerator.CoveredOnce` | libPSI/PIR/BgiPirServer.cpp:787-1009 | over a whole run every point of the domain lies in exactly one yielded chunk |
| `FullDomainGenerator.Drain` | libPSI_Tests/BgiPirTests.cpp:259-272 | storing every yielded byte at its offset fills the whole domain with the single-point shares |
| `MultiKey.MultiKey.constructor` | libPSI/PIR/BgiPirServer.cpp:1076-1094 | a fresh multi-key is valid and before point 0 |
| `MultiKey.MultiKey.SetKey` | libPSI/PIR/BgiPirServer.cpp:1096-1117 | at any time a key of the right size replaces its column and leaves the others, and a key of another size is refused with nothing changed; the column's cached seeds and its buffer are then those of the earlier key |
| `MultiKey.MultiKey.NextLeaf` | libPSI/PIR/BgiPirServer.cpp:1155-1237 | every column walks down to the next leaf, from seeds of its own key unless the key was set since the walk last started at the root; a walk from the root, to the first leaf or to the first of the right half, makes every column current |
| `MultiKey.MultiKey.FillBuffer` | libPSI/PIR/BgiPirServer.cpp:1240-1340 | the 128 buffer rows hold what every column's group word and bottom seed give at the points of the current group block, which are the shares of the keys with current seeds, and of all keys when there is only the root |
| `MultiKey.MultiKey.PositionBounds` | libPSI/PIR/BgiPirServer.cpp:1138-1152 | leaf, group and row index together count the calls, and are all at their end exactly when the domain is used up |
| `MultiKey.MultiKey.Yield` | libPSI/PIR/BgiPirServer.cpp:1138-1344 | call n returns for every key the share that the single-point evaluator gives at n, unless the key was set since its buffer was filled or, at that filling, since the walk last started at the root; until the buffer is used up every column yields what was filled in; at the end it throws, and the reset group index makes the next calls replay the last leaf |
| `MultiKey.RekeyedShare` | libPSI/PIR/BgiPirServer.cpp:1096-1117 | whatever the ciphers, a key set between the first two calls is answered with the earlier key's share of point 1, which for these keys is not its own |
| `Pir.Query` | libPSI/PIR/BgiPirClient.cpp:62-79 | client and both servers together: the entry at idx for every database that fills the domain, and the throw for any other |
| `CuckooTable.PackRoundTrip` | libPSI/Tools/CuckooHasher.cpp:585-593 | packing item and hash index into one word loses nothing and never yields the empty mark |
| `CuckooTable.ExchangeBin` | libPSI/Tools/CuckooHasher.cpp:595-613 | exchanging an entry into its bin keeps every bin placed and conserves the items of bin and hand |
| `CuckooTable.AccountBin` | libPSI/Tools/CuckooHasher.cpp:595-613 | the same where hash rows may have been overwritten: an exchange conserves the held items with their multiplicities, and whoever lookups must find is still in a bin of its own, in the stash or in hand |
| `CuckooTable.ExchangeStash` | libPSI/Tools/CuckooHasher.cpp:276-289 | exchanging an entry into the stash behind filled slots keeps the filled slots first and conserves the items |
| `CuckooTable.EvictedOccupants` | libPSI/Tools/CuckooHasher.cpp:235-273 | compaction keeps every evicted item, moved on to its next hash function |
| `CuckooTable.LiveIsFound` | libPSI/Tools/CuckooHasher.cpp:350-482 | an item in the table is in a bin its hash vector names or in the filled prefix of the stash |
| `CuckooTable.FoundIsHeld` | libPSI/Tools/CuckooHasher.cpp:350-482 | whatever fills a slot is an item that the table holds |
| `CuckooTable.AccountRow` | libPSI/Tools/CuckooHasher.cpp:161-171 | writing new hash values for an item moves nobody, and only that item may no longer be found where it was |
| `CuckooConcurrent.StepKeeps` | libPSI/Tools/CuckooHasher.cpp:173-346 | every atomic exchange and every local step of any thread keeps the invariant below |
| `CuckooConcurrent.RunsConserve` | libPSI/Tools/CuckooHasher.cpp:173-346 | in every state of every interleaving of any number of threads, bins, stash and hands together hold every item taken so far exactly once, every filled bin is the one its item hashes to, and the filled stash slots come first |
| `CuckooConcurrent.RoundsCounted` | libPSI/Tools/CuckooHasher.cpp:207-343 | in every state of every run a thread in its rounds has ended fewer than 100 of them for a batch and 101 for a single item, goes on only with something in hand, and one at the stash has ended exactly that many |
| `CuckooConcurrent.FailsLate` | libPSI/Tools/CuckooHasher.cpp:276-343 | a thread fails only after all of these rounds, and with every slot of the stash filled |
| `CuckooConcurrent.CanBegin` | libPSI/Tools/CuckooHasher.cpp:173-206 | an idle thread can take any items that nobody has taken, as a batch or one alone, each with its first hash function |
| `CuckooConcurrent.CanMove` | libPSI/Tools/CuckooHasher.cpp:207-343 | a thread inside a call can always move, whatever the others do |
| `CuckooConcurrent.StepsRunOut` | libPSI/Tools/CuckooHasher.cpp:207-343 | every step of a thread inside a call brings the end of that call nearer, so no exchange of others can keep it busy for ever |
| `CuckooConcurrent.EveryRunEnds` | libPSI/Tools/CuckooHasher.cpp:173-346 | every run, however far it got, goes on to one in which every thread has returned or failed |
| `CuckooConcurrent.QuiescentHolds` | libPSI/Tools/CuckooHasher.cpp:173-346 | when all threads have returned normally the table holds exactly the inserted items, which is what lookups need |
| `CuckooRounds.Compact` | libPSI/Tools/CuckooHasher.cpp:235-273 | compaction in place leaves exactly the evicted entries, in order, each with its next hash function |
| `CuckooRounds.ExchangeAll` | libPSI/Tools/CuckooHasher.cpp:219-233 | exchanging a whole batch conserves bins and old values together, even when items of the batch meet in a bin |
| `CuckooRounds.PushThrough` | libPSI/Tools/CuckooHasher.cpp:207-274 | bins and hand end as a hundred rounds leave them, or as many as it takes until nothing is in hand, and every item is in the bins, the stash or still in hand |
| `CuckooChain.RoundIs` | libPSI/Tools/CuckooHasher.cpp:219-233 | a round exchanges the entries in hand in order, slot by slot in the slots' own arithmetic: entry v goes to the bin that hash value v / 2^56 of item v % 2^56 names |
| `CuckooChain.ChainFits` | libPSI/Tools/CuckooHasher.cpp:295-346 | a chain of evictions that comes to an empty bin after at most 100 further moves is followed to its end |
| `CuckooChain.ChainTooLong` | libPSI/Tools/CuckooHasher.cpp:330-343 | one that needs more is left after 101 exchanges, and not before, with its next entry in hand |
| `CuckooRounds.AbsentAnswers` | libPSI/Tools/CuckooHasher.cpp:451-481 | if the bins and the stash up to its first empty slot do not have a vector, no item in the table has it |
| `CuckooHasher.CuckooHasher.constructor` | libPSI/Tools/CuckooHasher.cpp:115-159 | a fresh table is valid and empty |
| `CuckooHasher.CuckooHasher.Insert` | libPSI/Tools/CuckooHasher.cpp:161-171 | an item is refused, with nothing changed, if and only if its recorded first hash is not the empty mark; otherwise it joins the table, once more if it was there, with its new hash values, and its chain of evictions is followed for 101 exchanges: if it ends within them the stash is left alone, and else the last one evicted is pushed into the stash, where one is lost if and only if it is full |
| `CuckooHasher.CuckooHasher.InsertTwice` | libPSI/Tools/CuckooHasher.cpp:163-166 | every item inserted twice, for all hash values: the repeat is refused if and only if the first hash is not 2^64 - 1, and otherwise the table holds the item twice and its hash values are the later ones |
| `CuckooHasher.MissedRepeat` | libPSI/Tools/CuckooHasher.cpp:163-166 | the hash values 2^64 - 1 and 0, given twice for one item, are such a repeat that is not refused |
| `CuckooHasher.CuckooHasher.InsertHelper` | libPSI/Tools/CuckooHasher.cpp:295-346 | the eviction chain is followed for as many exchanges as are left of 101, and moves the one missing item along until nobody is missing or the last one evicted goes to the stash |
| `CuckooHasher.CuckooHasher.StashOne` | libPSI/Tools/CuckooHasher.cpp:338-341 | an entry goes to the front of the stash and shifts what was there, and one is left over if and only if it was full |
| `CuckooHasher.CuckooHasher.InsertBatch` | libPSI/Tools/CuckooHasher.cpp:173-291 | a batch, which may name items twice or again, ends in the bins that a hundred rounds leave; if they leave nothing in hand the stash is left alone, and else what they leave is pushed into it; the batch joins the table whole if and only if the stash has that many empty slots, and otherwise some items are lost and only those may be missed by lookups |
| `CuckooHasher.CuckooHasher.StashAll` | libPSI/Tools/CuckooHasher.cpp:276-289 | what the rounds left in hand goes to the stash, the first entry shifting what was there, and somebody is lost if and only if there are fewer empty slots than entries |
| `CuckooHasher.MeetInOneBin` | libPSI/Tools/CuckooHasher.cpp:207-274 | two items that meet in one of two bins find room without a stash, in the second round |
| `CuckooHasher.ThirdMovesOn` | libPSI/Tools/CuckooHasher.cpp:295-346 | an item whose chain moves two others on to the last of three bins needs no stash |
| `CuckooHasher.CuckooHasher.Find` | libPSI/Tools/CuckooHasher.cpp:350-482 | the answer is the empty mark if and only if no item in the table has the vector, and otherwise an item that has it |
| `CuckooHasher.CuckooHasher.FindBatch` | libPSI/Tools/CuckooHasher.cpp:487-575 | the same for many vectors with two hash functions, and the throw for any other number |
| `SimpleCuckoo.SimpleCuckoo.InsertBatch` | frontend/cuckoo/SimpleCuckoo.cpp:116-253 | a batch, repeats included, always joins the table whole, in the bins that a hundred rounds leave and with what they leave in hand at the end of the stash, which grows |
| `SimpleCuckoo.SimpleCuckoo.FindBatch` | frontend/cuckoo/SimpleCuckoo.cpp:257-416 | lookup is exact for any number of hash functions |
| `SimpleCuckoo.SimpleCuckoo.FindOne` | frontend/cuckoo/SimpleCuckoo.cpp:257-416 | lookup of one vector is exact, whichever of several matches wins |
| `KkrtSchedule.StepKeeps` | libPSI/PSI/Kkrt/KkrtPsiSender.cpp:360-487 | every step of the correction thread and of the encoder keeps the safety invariant, in which the rows handed over are still what the buffer holds |
| `KkrtSchedule.RunsEncodeSafely` | libPSI/PSI/Kkrt/KkrtPsiSender.cpp:401-487 | in every interleaving no cell is encoded twice, and each is encoded with its row's item under its own bin, after that bin's correction arrived and before its row was handed over |
| `KkrtSchedule.FinishedIsComplete` | libPSI/PSI/Kkrt/KkrtPsiSender.cpp:401-487 | when the encoder is finished a cell has been encoded if and only if its bin does not repeat one of a lower hash index, exactly once, and all rows have gone over the wire with the masks of these cells and the fillers of the others |
| `KkrtSchedule.StepsRunOut` | libPSI/PSI/Kkrt/KkrtPsiSender.cpp:401-487 | once all corrections are published every step of either thread lowers a measure, so the encoder cannot go round for ever |
| `KkrtSchedule.EveryRunEnds` | libPSI/PSI/Kkrt/KkrtPsiSender.cpp:360-487 | every run, however far it got, goes on to one in which the encoder has finished; so finished runs exist for every permutation, table and step size |
| `Kkrt.LeastHash` | libPSI/PSI/Kkrt/KkrtPsiSender.cpp:116-317 | of the hash functions that send an item to a bin exactly one, the least, keeps it |
| `Kkrt.HashItems` | libPSI/PSI/Kkrt/KkrtPsiSender.cpp:116-317 | for any number of items, in blocks of eight and the rest one by one, a cell holds its bin unless a lower hash function of the item has the same bin |
| `Kkrt.HashOne` | libPSI/PSI/Kkrt/KkrtPsiSender.cpp:263-317 | the same for the items left over, with the other rows unchanged |
| `Kkrt.FileMasks` | libPSI/PSI/Kkrt/KkrtPsiReceiver.cpp:162-194 | each filled bin's mask is filed under the least hash function that sends its item there |
| `Kkrt.HitIff` | libPSI/PSI/Kkrt/KkrtPsiReceiver.cpp:209-244 | a received cell hits a receiver item if and only if it was computed for that item under the hash function the receiver filed it under |
| `Kkrt.Intersect` | libPSI/PSI/Kkrt/KkrtPsiReceiver.cpp:162-244 | the reported indices are without duplicates exactly the receiver's items that the sender holds too |
| `Kkrt.ScheduleSends` | libPSI/PSI/Kkrt/KkrtPsiSender.cpp:401-487 | whatever the interleaving of the sender's threads, what is on the wire when the encoder is finished is what the receiver's matching relies on |
| `Kkrt.Run` | libPSI/PSI/Kkrt/KkrtPsiSender.cpp:326-487 | from the items of both sides to the report, through hashing, any finished interleaving of the sender's threads and the matching: without duplicates exactly the common items |
| `BalancedIndex.BalancedIndex.FirstPass` | libPSI/Tools/BalancedIndex.cpp:68-98 | every item joins the candidate that held fewer items before it, the second one on a tie |
| `BalancedIndex.BalancedIndex.FindLightAndHeavy` | libPSI/Tools/BalancedIndex.cpp:102-112 | the heavy bins are exactly the over-full ones, and the light candidates of a bin exactly those of its lists that are below the maximum |
| `BalancedIndex.BalancedIndex.MoveItem` | libPSI/Tools/BalancedIndex.cpp:150-180 | a move takes one item out of one bin's list into the other's and adjusts both counters |
| `BalancedIndex.BalancedIndex.UpdateTracking` | libPSI/Tools/BalancedIndex.cpp:155-183 | after a move the heavy and light bins change exactly as the counters ask, and every over-full bin is still among the heavy ones |
| `BalancedIndex.BalancedIndex.BalanceOnce` | libPSI/Tools/BalancedIndex.cpp:119-190 | a turn makes of counters, lists, light candidates and heavy bins what the random numbers ask for, and moves exactly the item that they draw, or nothing; the sum of squared counters never grows and drops by two or more unless the move was a tie |
| `BalancedIndex.EveryMoveCanBeDrawn` | libPSI/Tools/BalancedIndex.cpp:119-180 | for every heavy bin, every light candidate that is emptier and every item listed for it there are numbers on which the turn moves exactly that item, the number for a tie being free when it is none |
| `BalancedIndex.WhenNothingMoves` | libPSI/Tools/BalancedIndex.cpp:128-147 | nothing moves if and only if the candidate drawn is not emptier, or nothing is listed for it, or a tie draws an even number |
| `BalancedIndex.BalancedIndex.Balance` | libPSI/Tools/BalancedIndex.cpp:119-190 | the loop is over if and only if the turns on these numbers leave no heavy bin; over any run the moves that are not ties number at most half the first sum of squares, and a run that ends leaves no bin over-full |
| `BalancedIndex.MoveLowers` | libPSI/Tools/BalancedIndex.cpp:137-180 | how much a move lowers the sum of squared counters |
| `BalancedIndex.BalancedIndex.Flatten` | libPSI/Tools/BalancedIndex.cpp:194-211 | each bin's flattened list has exactly its items, once each, next to the hash index each was first filed with |
| `BalancedIndex.BalancedIndex.InsertItems` | libPSI/Tools/BalancedIndex.cpp:59-213 | from start to end: every item is in one of its two candidate bins, and the balancing ends if and only if the turns from what the first pass leaves do; then no bin exceeds the maximum and the lists partition the items |
| `BalancedIndex.SevenBalance` | libPSI/Tools/BalancedIndex.cpp:119-190 | seven items that the first pass puts three into one bin of two are balanced on eight given numbers, in whatever order light candidates are listed |
| `Binning.StepKeeps` | libPSI/Tools/SimpleHasher.h:34-48 | every step of every pushing or reading thread keeps the invariant |
| `Binning.RunKeeps` | libPSI/MPSI/Rr17/Rr17a/Rr17aMPsiSender.cpp:348-392 | the invariant holds in every state of every interleaving: a bin's size counts its reserved slots, which are all different, and a thread passes the barrier only when nobody pushes |
| `Binning.ReserveFits` | libPSI/Tools/SimpleHasher.h:34-38 | a reservation stays below the bin's true load, so the 8-bit counter never wraps |
| `Binning.WritersNeverClash` | libPSI/Tools/SimpleHasher.h:34-38 | on every run a slot about to be written lies inside its bin's row and was never written before |
| `Binning.ReadersSeeAll` | libPSI/MPSI/Rr17/Rr17a/Rr17aMPsiSender.cpp:388-427 | on every run a thread past the barrier finds each bin complete: its slots below its size hold exactly the items that hash there |
| `Binning.PositionsPermute` | libPSI/MPSI/Rr17/Rr17a/Rr17aMPsiSender.cpp:482-492 | when all threads have finished the reserved output positions are a permutation of 0 to n - 1 |
| `Binning.RowsAreABijection` | libPSI/MPSI/Rr17/Rr17a/Rr17aMPsiSender.cpp:482-527 | with permuted positions (item, l) to output row is a bijection onto the rows |
| `Binning.NoDeadlock` | libPSI/MPSI/Rr17/Rr17a/Rr17aMPsiSender.cpp:388-392 | while some thread has not finished some thread can move, with the counter's last decrement and the opening of the barrier as two steps |
| `Binning.StepsRunOut` | libPSI/MPSI/Rr17/Rr17a/Rr17aMPsiSender.cpp:348-548 | every step leaves less to do, so a run can only end with all threads finished |
| `Binning.EveryRunEnds` | libPSI/MPSI/Rr17/Rr17a/Rr17aMPsiSender.cpp:348-548 | every run, however far it got, goes on to one with all threads finished; so the runs that the results about finished ones are about exist |
| `Phasing.SeparatesIff` | libPSI/MPSI/Rr17/Rr17a/Rr17aMPsiSender.cpp:346-379 | bin and shifted item determine the item if and only if there are at least as many bins as values of the bits shifted out |
| `Phasing.TooFewBins` | libPSI/MPSI/Rr17/Rr17a/Rr17aMPsiSender.cpp:346-379 | with fewer bins the items 0 and binCount fall together |
| `Phasing.ProtocolSeparatesIff` | libPSI/MPSI/Rr17/Rr17a/Rr17aMPsiSender.cpp:346-379 | with the shift of log2ceil(n) and at most n bins that is the case only for n bins and n a power of two |
| `Slots.EncodeBin` | libPSI/MPSI/Rr17/Rr17a/Rr17aMPsiReceiver.cpp:433-457 | a bin's items go to the places the partial shuffle draws, with the mask of their slot; the rest gets zero; each slot of the range is used once and the shuffled array stays a permutation |
| `Slots.EncodeAll` | libPSI/MPSI/Rr17/Rr17a/Rr17aMPsiReceiver.cpp:418-466 | over all bins every slot is used exactly once, and every item holds its own slot's mask |
| `Slots.EncodeBinBySlot` | libPSI/MPSI/Rr17/Rr17a/Rr17aMPsiSender.cpp:429-449 | the other order of the loop, slot by slot behind a full shuffle, puts each item at the slot its place was shuffled to |
| `Slots.EncodeBySlot` | libPSI/MPSI/Grr18/Grr18MPsiSender.cpp:341-388 | the same with loads that differ from bin to bin: every slot is used exactly once, an item within the load holds its slot's mask |
| `MaskMatching.CommonMask` | libPSI/MPSI/Rr17/Rr17a/Rr17aMPsiSender.cpp:500-523 | for a common item the sender's row at the receiver's slot equals the receiver's entry at the sender's slot |
| `MaskMatching.CommonReported` | libPSI/MPSI/Rr17/Rr17a/Rr17aMPsiReceiver.cpp:592-612 | every common item whose key the map can hold is reported, given only that the receiver's keys are distinct, for any order of rows and entries and any loads |
| `MaskMatching.HitIff` | libPSI/MPSI/Grr18/Grr18MPsiReceiver.cpp:609-649 | a row hits an item if and only if the sender computed it for the same item at the receiver's slot and the map can hold its key |
| `MaskMatching.SameKeyIff` | libPSI/MPSI/Grr18/Grr18MPsiReceiver.cpp:501-505 | two rows have the same key if and only if they agree on their first 64 bits, or on all if there are fewer |
| `MaskMatching.KeysInBits` | libPSI/MPSI/Grr18/Grr18MPsiReceiver.cpp:501-505 | keys are distinct if and only if any two entries differ in one of these bits |
| `MaskMatching.ReportInBits` | libPSI/MPSI/Grr18/Grr18MPsiReceiver.cpp:609-649 | the promise of a report restated in bits of the masks that the two sides hold: with a map that loses the zero key, missed is exactly a common item whose two masks agree on all of the first 64 bits that are sent |
| `MaskMatching.ReportsExactly` | libPSI/MPSI/Rr17/Rr17a/Rr17aMPsiReceiver.cpp:592-612 | barring accidental matches the report is without duplicates exactly the common items whose key the map can hold |
| `Rr17.CollectMasks` | libPSI/MPSI/Rr17/Rr17a/Rr17aMPsiReceiver.cpp:473-551 | every mask passes through the insert buffer, which is never overrun, and the map ends with exactly the receiver's entries under the first bytes of their masks |
| `Rr17.WriteRows` | libPSI/MPSI/Rr17/Rr17a/Rr17aMPsiSender.cpp:476-546 | every row of every item is written at its permuted position and no row is overwritten |
| `Rr17.WrittenIsSent` | libPSI/MPSI/Rr17/Rr17a/Rr17aMPsiSender.cpp:476-546 | the matrix holds each (item, l) pair once and nothing else |
| `Rr17.FindMatches` | libPSI/MPSI/Rr17/Rr17a/Rr17aMPsiReceiver.cpp:592-612 | the lookup loop lists the hits of the rows in order |
| `Rr17.Intersect` | libPSI/MPSI/Rr17/Rr17a/Rr17aMPsiReceiver.cpp:470-612 | the second passes together: common items are reported when keys are distinct, and exactly those, each once, when nothing matches by accident |
| `Rr17.ReceiverFirst` | libPSI/MPSI/Rr17/Rr17a/Rr17aMPsiReceiver.cpp:418-466 | the receiver's first pass leaves every item with the mask of a slot in its own bin's range |
| `Rr17.SenderFirst` | libPSI/MPSI/Rr17/Rr17a/Rr17aMPsiSender.cpp:412-457 | so does the sender's, behind its own shuffles |
| `Rr17.Run` | libPSI/MPSI/Rr17/Rr17a/Rr17aMPsiReceiver.cpp:418-612 | one channel end to end, from binned items to the report, for any shuffles and any order of the reserved rows: if any two entries of the receiver differ in one of the first 64 bits that are sent every common item is reported; if also no row matches by accident and the sender's items are distinct, exactly the common items are, each once |
| `Rr17.MatchedIsCommon` | libPSI/MPSI/Rr17/Rr17a/Rr17aMPsiReceiver.cpp:480-551 | the standard map holds every key, so what can be matched is exactly what both sides have |
| `Rr17.BinnedItems` | libPSI/MPSI/Rr17/Rr17a/Rr17aMPsiSender.cpp:348-492 | a finished run of any number of binning threads leaves the bins and the numbering of output positions that the protocol starts from |
| `Rr17.RunBinned` | libPSI/MPSI/Rr17/Rr17a/Rr17aMPsiSender.cpp:348-548 | the same under the same conditions from the finished runs of both sides' binning threads |
| `Rr17.PartyFromSlots` | libPSI/MPSI/Rr17/Rr17a/Rr17aMPsiReceiver.cpp:418-466 | what the first passes leave behind is what the matching relies on |
| `Tasks.CutIs` | libPSI/MPSI/Grr18/Grr18MPsiReceiver.cpp:275-280 | part t of T parts of n begins at n * t / T |
| `Tasks.WorkIsOk` | libPSI/MPSI/Grr18/Grr18MPsiReceiver.cpp:470-517 | the threads' loops over their ranges of bins cover every item once between them, each with its own bin's range of slots |
| `Tasks.CountIsRows` | libPSI/MPSI/Grr18/Grr18MPsiSender.cpp:404-419 | the count a thread announces, the sum of bin size times load, is the number of rows it writes |
| `Grr18Receiver.StepKeeps` | libPSI/MPSI/Grr18/Grr18MPsiReceiver.cpp:438-655 | every step of every thread keeps the invariant: buffers and map hold entries only, none written so far is missing, and each thread has found what its rows so far hold |
| `Grr18Receiver.NeverOverrun` | libPSI/MPSI/Grr18/Grr18MPsiReceiver.cpp:479-498 | on every run a thread about to write an entry has room for it in its buffer, for any loads up to the buffer's size |
| `Grr18Receiver.MapComplete` | libPSI/MPSI/Grr18/Grr18MPsiReceiver.cpp:540-557 | on every run, once the barrier is open, an entry's key is in the map if and only if it is not the empty key, and whatever is in the map is an entry whose mask is in the matrix |
| `Grr18Receiver.AllFound` | libPSI/MPSI/Grr18/Grr18MPsiReceiver.cpp:577-668 | when all threads are done the merged report is, in some order, what looking all rows up in the one map finds |
| `Grr18Receiver.NoDeadlock` | libPSI/MPSI/Grr18/Grr18MPsiReceiver.cpp:554-557 | while some thread is not done some thread can move, with the counter's last decrement and the opening of the barrier as two steps |
| `Grr18Receiver.StepsRunOut` | libPSI/MPSI/Grr18/Grr18MPsiReceiver.cpp:438-668 | every step leaves less to do, so a run can only end with all threads done |
| `Grr18Receiver.EveryRunEnds` | libPSI/MPSI/Grr18/Grr18MPsiReceiver.cpp:438-668 | every run, however far it got, goes on to one with all threads done |
| `Grr18Sender.StepKeeps` | libPSI/MPSI/Grr18/Grr18MPsiSender.cpp:400-592 | every step of every thread keeps the invariant: reservations lie side by side, written rows are in their place and no other thread's, spare rows are untouched |
| `Grr18Sender.WritersApart` | libPSI/MPSI/Grr18/Grr18MPsiSender.cpp:460-512 | on every run a row about to be written is in no other thread's reservation, and inside the matrix if the number of spare rows is not negative |
| `Grr18Sender.FitsIff` | libPSI/MPSI/Grr18/Grr18MPsiSender.cpp:427-512 | once all threads have reserved, all rows fit the matrix if and only if the number of spare rows, offset plus noise, is not negative or there are no rows |
| `Grr18Sender.AllRowsSent` | libPSI/MPSI/Grr18/Grr18MPsiSender.cpp:400-592 | when all threads are done every row of every item is in the matrix, in a place of its own, nothing else is but the spare rows, and the threads together have sent the matrix |
| `Grr18Sender.NoDeadlock` | libPSI/MPSI/Grr18/Grr18MPsiSender.cpp:424-442 | if the rows fit, some thread can move while some thread is not done, past either barrier |
| `Grr18Sender.StepsRunOut` | libPSI/MPSI/Grr18/Grr18MPsiSender.cpp:400-592 | every step leaves less to do, so a run can only end with all threads done |
| `Grr18Sender.EveryRunEnds` | libPSI/MPSI/Grr18/Grr18MPsiSender.cpp:400-592 | if the number of spare rows is not negative, every run, however far it got, goes on to one with all threads done |
| `Grr18Sender.AllCanReserve` | libPSI/MPSI/Grr18/Grr18MPsiSender.cpp:421-460 | whatever the number of spare rows, every run goes on to one in which all threads have reserved their rows |
| `Grr18Sender.TooSmall` | libPSI/MPSI/Grr18/Grr18MPsiSender.cpp:427-460 | for every setting with rows to write and a negative number of spare rows there is a run whose reserved rows do not fit |
| `Grr18.FirstPass` | libPSI/MPSI/Grr18/Grr18MPsiReceiver.cpp:371-405 | either side's first pass with differing loads leaves every item with the mask of a slot in its bin's range |
| `Grr18.SentIsOk` | libPSI/MPSI/Grr18/Grr18MPsiSender.cpp:400-592 | what the sender's threads send between them is the row of every (item, l) pair once, and spare rows |
| `Grr18.MapIsTable` | libPSI/MPSI/Grr18/Grr18MPsiReceiver.cpp:473-547 | behind the barrier the shared map and matrix are the table that the matching law needs, but for entries with the empty key |
| `Grr18.EndToEnd` | libPSI/MPSI/Grr18/Grr18MPsiReceiver.cpp:371-668 | any items, loads up to the maximum, shuffles, number of threads and finished interleavings of both sides: the merged report has the common items, and barring accidents exactly those, each once; excepted is a common item whose shared mask is clear in all of the first 64 bits that are sent, and only such an item |
| `Grr18.RunsExist` | libPSI/MPSI/Grr18/Grr18MPsiSender.cpp:400-592 | for all items, loads, shuffles and numbers of threads there are such finished runs of both sides, if the number of spare rows is not negative and the insert buffer has room for one bin's masks |
| `Grr18.ZeroMaskMissed` | libPSI/MPSI/Grr18/Grr18MPsiReceiver.cpp:256-257 | the exception is real: in a session whose one common item has an all-zero shared mask, with distinct keys and no accidents, the report of any two finished runs is empty |
| `GetBinSize.GetBinSize` | libPSI/Tools/SimpleIndex.cpp:77-110 | the search ends at a size that is safe, at least 1 and numBalls / numBins, while the one below it is not safe unless it is one of these; the throw on a zero step is dead |
| `GetBinSize.LeastSafe` | libPSI/Tools/SimpleIndex.cpp:77-110 | if larger bins are never less safe such a size is the least safe one from the start on |
| `BloomMasks.BuildFilter` | libPSI/MPSI/Rr16/AknBfMPsiReceiver.cpp:151-187 | a filter bit is set if and only if some hash value of some item is its position modulo the size of the filter, and the positions kept are these remainders |
| `BloomMasks.ConvertFilter` | libPSI/MPSI/Rr16/AknBfMPsiReceiver.cpp:214-237 | the conversion stays inside its lists if and only if there are enough ones; it repeats no transfer and gives every set bit one with choice 1 |
| `BloomMasks.CheckPermutation` | libPSI/MPSI/Rr16/AknBfMPsiSender.cpp:210-222 | the threads are told that the assignment is good if and only if no transfer is named twice and none was opened before; if it is not, the promise is set a second time and this call throws |
| `BloomMasks.ReceiverMask` | libPSI/MPSI/Rr16/AknBfMPsiReceiver.cpp:280-333 | two messages at a time and the odd one out give the sum over all of the item's positions |
| `BloomMasks.SenderMask` | libPSI/MPSI/Rr16/AknBfMPsiSender.cpp:141-172 | the sender sums its choice-1 messages over the positions that are its hash values' remainders |
| `BloomMasks.MaskBits` | libPSI/MPSI/Rr16/AknBfMPsiReceiver.cpp:280-333 | a mask bit by bit: clear over no positions, and one position more adds the bit of the message that the assignment names for it |
| `BloomMasks.SameMasks` | libPSI/MPSI/Rr16/AknBfMPsiReceiver.cpp:280-333 | when all of an item's positions have transfers with choice 1 the two sums are equal |
| `BloomMasks.FindCommon` | libPSI/MPSI/Rr16/AknBfMPsiReceiver.cpp:332-388 | an item is reported if and only if its mask is the first of its key and some received mask has that key; a repeated report needs two received masks with one key |
| `BloomMasks.HonestRun` | libPSI/MPSI/Rr16/AknBfMPsiReceiver.cpp:151-388 | with enough ones the conversion succeeds, the sender accepts it, items that both sides hold get equal masks, and if the receiver's masks differ in their first 64 bits the report has the common items, barring accidental agreement of those bits exactly those, each once |
| `DrrnMasks.ShuffleMasks` | libPSI/PSI/Drrn/DrrnPsiServer.cpp:75-84 | position k ends with the mask of position From(k), the composition of the swaps of k's group in their order |
| `DrrnMasks.LastSwap` | libPSI/PSI/Drrn/DrrnPsiServer.cpp:75-84 | the swaps of a group are made in order, each changing two positions of what the ones before it left |
| `DrrnMasks.FromInGroup` | libPSI/PSI/Drrn/DrrnPsiServer.cpp:75-84 | the shuffle keeps every mask in its item's group and leaves it in place if and only if the group's swaps do |
| `DrrnMasks.FromInjective` | libPSI/PSI/Drrn/DrrnPsiServer.cpp:75-84 | no two positions end with the same mask |
| `DrrnMasks.PermutedMasks` | libPSI/PSI/Drrn/DrrnPsiServer.cpp:86-92 | server 1 sends server 0 the sum of mask and mask of the mask behind the secret permutation |
| `DrrnMasks.Invert` | libPSI/PSI/Drrn/DrrnPsiClient.cpp:210-217 | the client's array is the inverse of the permutation |
| `DrrnMasks.ClientPermutations` | libPSI/PSI/Drrn/DrrnPsiClient.cpp:219-229 | the client's message composed with the secret permutation is the query order |
| `DrrnMasks.MaskedShares` | libPSI/PSI/Drrn/DrrnPsiServer.cpp:417-456 | whatever the query positions, the permutation and the masks, server 0 ends with the sum of both shares and the one mask of the query |
| `DrrnMasks.Query` | libPSI/PSI/Drrn/DrrnPsiClient.cpp:163-171 | shuffle and query together: for distinct masks, whatever the queries, permutations and shares, what the client compares with is server 0's entry if and only if the shuffle leaves the query's mask in place |
| `DrrnMasks.AgreesIff` | libPSI/PSI/Drrn/DrrnPsiServer.cpp:75-84 | that is so exactly for the positions that the swaps of their group give back |
| `DrrnMasks.SwappedPairFails` | libPSI/PSI/Drrn/DrrnPsiServer.cpp:75-84 | with two hash functions an item whose swaps are [1, 0] fails at every position, and one with [0, 1] at none |
| `DrrnMasks.UndoneSwaps` | libPSI/PSI/Drrn/DrrnPsiServer.cpp:75-84 | with three the swaps [0, 2, 1] undo each other, so not every shuffle that is no identity fails |
| `Dkt.Commit` | libPSI/MPSI/DKT/DktMPsiReceiver.cpp:130-231 | the receiver's first messages and the transcript it has hashed; every commitment is to the last item's point, which is at the back of the list of points when the loop begins |
| `Dkt.Answer` | libPSI/MPSI/DKT/DktMPsiSender.cpp:171-268 | the sender's answer and both transcripts as it has hashed them |
| `Dkt.CheckSigma` | libPSI/MPSI/DKT/DktMPsiSender.cpp:312-347 | which of the receiver's proofs are bad; none is, if and only if all equations hold |
| `Dkt.SigmaComplete` | libPSI/MPSI/DKT/DktMPsiSender.cpp:332-336 | for every commitment of an honest receiver the sender's equation holds, for any points, secrets and challenge, because the committed point cancels out |
| `Dkt.WrongResponseNoticed` | libPSI/MPSI/DKT/DktMPsiSender.cpp:332-341 | an honest commitment with any other response is found bad if and only if the response comes to another point than the honest one does |
| `Dkt.HonestSenderPasses` | libPSI/MPSI/DKT/DktMPsiReceiver.cpp:377-388 | both of the receiver's equations hold for an honest sender |
| `Dkt.WrongPointsNoticed` | libPSI/MPSI/DKT/DktMPsiReceiver.cpp:459-467 | an honest answer with other points in it passes the receiver if and only if multiplying by the challenge does not tell them from the right ones |
| `Dkt.WrongAnswerNoticed` | libPSI/MPSI/DKT/DktMPsiReceiver.cpp:377-388 | and with another number in answer to the challenge if and only if it gives the same multiples of all points |
| `Dkt.DeriveKeys` | libPSI/MPSI/DKT/DktMPsiReceiver.cpp:377-471 | keys come out if and only if all of the receiver's checks hold, and are the stated points |
| `Dkt.KeyRecovered` | libPSI/MPSI/DKT/DktMPsiReceiver.cpp:430-432 | taking the blinding off again leaves the committed point times the sender's secret |
| `Dkt.HonestRun` | libPSI/MPSI/DKT/DktMPsiReceiver.cpp:148-471 | an honest run hashes the same transcript on both sides, is not aborted and finds no bad proof; two items get the same key if and only if they are equal and the receiver's last point times the sender's secret is its item's point times the secret |
| `Dkt.RecognisedIff` | libPSI/MPSI/DKT/DktMPsiReceiver.cpp:209-215 | where multiplying by the secret loses nothing that is so exactly for items with the last item's point, and in any case for the last item |
| `Dkt.Lookup` | libPSI/MPSI/DKT/DktMPsiReceiver.cpp:445-525 | the lookup lists exactly the receiver's keys that are the first with their hash value modulo 2^64 and whose whole hash value is among the sender's, each once unless the sender has a hash value twice |
| `Dkt.Run` | libPSI/MPSI/DKT/DktMPsiReceiver.cpp:130-525 | from the items to the report, one channel: if no two keys collide and the receiver's items are distinct, reported are exactly the common items that are recognised, each once if the sender's are distinct too |
| `Dkt.LostItem` | libPSI/MPSI/DKT/DktMPsiReceiver.cpp:209-215 | over the integers with the secret 1 the receiver's items 1 and 2 and the sender's item 1 give an empty report |

## Left out

- Channels, endpoints, timers, frontend programs, files and printing: input and output only. Messages are passed as values.
- AES, PRNG, random oracle, base OT and OT extension, elliptic curves and `CuckooIndex` of cryptoTools are not part of this model; they are arbitrary functions, or parameters with the contract their callers rely on (a receiver that encoded x in a slot holds what the sender computes for x there).
- Privacy, security and probability claims, and the floating-point formulas and tables that choose parameters.
- The memory model: atomic operations, futures and promises are taken as sequentially consistent, and the hash rows of items as written before any exchange of theirs.
- Integers: 64-bit quantities are unbounded except where wrap-around or packing matters (the underflowing depth, the packed cuckoo slots, the 8-bit bin sizes, the signed product of the whole-domain fold, which must stay below 2^63).
- `BgiPirServer::fullDomainNaive`: it reads the path bits in the other order and ignores the group word, so it is no reference for the others.
- `FullDomainGenerator.Yield`: the source hands out views into one buffer that the next call overwrites; chunks are snapshots here.
- `MultiKey.Yield`: what a column yields whose buffer is filled from seeds of an earlier key, beyond what `FillBuffer` says of its bottom seed.
- `BalancedIndex.Balance`: no claim that it ends, because for some random numbers it does not.
- `BalancedIndex.InsertItems`: what an item's hash index means after a move; it is only proved to be the one of the first pass.
- `CuckooHasher.Insert`: the loop that runs off a full stash is the outcome `StashOverflow`, with one item lost, and nothing is said of the memory behind the stash.
- `Rr17.Run`: one channel. With several each receiver thread looks up only its own part of the masks, and the source's own test reports that as a known fault.
- `Grr18.EndToEnd`: both sides are honest, and the bin loads, the noise in the number of spare rows and the shuffles are any
  values within the bounds the code keeps. A total of rows below zero, which the source would wrap, makes an empty matrix here.
  The step systems begin where a side's first pass ends; the consistency checks and proofs in between are left out. Making
  the sender's matrix and saying that it is there are one step, in which every other thread waits (`Grr18Sender.OnlyOneLeft`).
- `Slots.EncodeAll`: the shuffle library call of the other variant is any permutation, as its contract says.
- `Binning.ReadersSeeAll`: the read steps stand for a thread's second pass over its bins; its first pass reads the same bins behind the same barrier.
- `BloomMasks.HonestRun`: one channel, because the threads of the source share one hash buffer; merging the threads' maps is left out with them. The Bloom-filter hash is a list of 64-bit values per item.
- `Dkt.Run`: one channel; with several each thread commits to the last point of its own part of the items. One map from items to points; receiver and sender build their points by two different calls of the curve library, which are taken to agree.
- `DrrnMasks.MaskedShares`: only the mask arithmetic; `DrrnBin::eval`, the cuckoo lookup and the end-to-end result are out, and the source's tests mark wrong results there as known.
- `GetBinSize.GetBinSize`: the overflow estimate itself, which may also throw for more than 2^31 - 1 balls, is an arbitrary function that is maximal once every ball fits.
- `SimpleIndex::insertItems`: its tail loop steps over items; KKRT's own hashing is modelled instead.
- PRTY, ECDH, DCW, RR17b and the random shuffle protocols: not enabled, or easy next to the rest.
