# A Dafny model of the RandChain node

RandChain is a Bitcoin-style chain in which mining is sequential: a block carries the result of a verifiable
delay function and a proof of it. This project models the parts of the node whose correctness is hard to see in
any one function, and proves what they are for.

**Block store, forks and import.** `KeyValue` and `KvStack` model the rows of the database and the layers above
them: an in-memory layer of recorded changes, an auto-flushing overlay with a bounded block cache, and a fork
overlay. Every layer carries a ghost plain map, and every operation acts on that map as if there were no layers.
`Ledger` says what the rows stand for: a tree of blocks and one canonical chain through it. `ChainRows` relates
rows and ledger, and the class in `BlockChainDb` keeps the two in step through insert, canonize, decanonize, fork
and switch. `SyncChain` is `insert_best_block` and the queues above the store, `HashQueues` and `HeadersChain` are
the in-memory parts it uses. `OrphanPool` and `BlocksWriter` import blocks that arrive in any order. `Import`
proves that the order does not matter.

**Verifiable delay function and mining.** `Vdf` has `eval`, `prove` and `verify`, and settles exactly for which
iteration counts an honest proof is accepted. `Miner` shows that what the miner finds passes the verifier.

**Header synchronization.** `Locator` gives the closed form of the block locator; `SyncChain` proves that the two
loops compute it across the border between queue and store. `HeaderSync` models the server's side and proves what
two nodes get from one exchange.

**Ordered queues.** `ResponseLog` says what a peer is to receive of the responses declared for it, and `Responses` is
the code that releases them in declared order with 32-bit ids that wrap. `ServerTasks` is the round-robin queue of
requests, `Replies` says how requests are to be answered, and `Serving` is the worker, with all interleavings of the
locked steps while the store grows.

**Arithmetic and encodings.** `MedianTime`, `CompactTarget`, `Codec` and `CodecStream`.

`Primitives`, `Sequences` and `Powers` hold what several of these share.

## Conventions

- A hash is the number below 2^256 whose 32 little-endian bytes it is; `ZERO` is the default hash. No block hashes
  to `ZERO`. Where two nodes or two deliveries are compared, equal hashes mean equal blocks; nothing else is
  assumed of the hash function.
- What Rust owns by value is a `datatype`, `seq`, `set` or `map` field here; what it shares by reference is a
  `class`. The cache, the auto-flushing overlay and the disk rows own one another in a line, so they are one class,
  `CacheDatabase`.
- State machines are stated as predicates and lemmas on values; the class methods that run them are proved against
  those.
- `OrphanBlocksPool.Len` follows the code, which counts distinct missing parents. The comment on the source function
  says that it counts blocks.
- `verify` does not accept every honest proof for odd iteration counts above one, nor for zero. For every modulus,
  base and challenge `Vdf.OddAccepted` and `Vdf.ZeroAccepted` state exactly when it does; for an invertible base the
  condition, in `Vdf.OddAcceptedUnit`, does not depend on the challenge. `Vdf.CompleteExactly` states for which counts
  it always does.
- Ignoring a response for which messages are already queued stops the peer for good: the queue hands out the queued
  messages first, and nothing closes the response after that. `ResponseLog.StallExample` and `Responses.Stall` are a
  run that shows it, `ResponseLog.StalledForever` says that nothing helps afterwards, and `ResponseLog.IgnoreSafely`
  that ignoring a waiting response is safe exactly when nothing is queued for it.

## Model

| member | source | states |
|---|---|---|
| `KeyValue.IntoOperation` | db/src/kv/transaction.rs:128-138 | turning a recorded state back into an operation keeps its key and its state |
| `KeyValue.LookupsDetermine` | db/src/kv/transaction.rs:95-126 | two row sets that answer every lookup alike are the same |
| `KeyValue.ShowsRecordAll` | db/src/kv/memorydb.rs:65-107 | recording operations in a layer changes what shows through it exactly as applying them in order to one plain map |
| `KeyValue.ShowsUnique` | db/src/kv/overlaydb.rs:36-42 | rows and a layer above them show one map only |
| `KvStack.WriteLayer` | db/src/kv/memorydb.rs:65-107 | a transaction written to a layer acts on every plain map that the layer can show |
| `KvStack.DrainTransaction` | db/src/kv/memorydb.rs:25-62 | the drained transaction, in whatever order the keys come, turns the rows below into exactly what was shown |
| `KvStack.WriteRows` | db/src/kv/overlaydb.rs:67-74 | a flushed transaction is applied to the rows in order |
| `KvStack.RememberCoherent` | db/src/kv/cachedb.rs:33-48 | remembering an entry, with eviction of the oldest, keeps every cached block equal to the stored one and the cache within its capacity |
| `KvStack.RememberRecent` | db/src/kv/cachedb.rs:33-48 | a remembered entry is the most recent, the others keep their order, and only the oldest may go |
| `KvStack.CacheDatabase.constructor` | db/src/kv/overlaydb.rs:58-64 | a new stack shows what is on disk |
| `KvStack.CacheDatabase.Flush` | db/src/kv/overlaydb.rs:67-74 | a flush puts everything on disk and changes no read |
| `KvStack.CacheDatabase.WriteOverlay` | db/src/kv/overlaydb.rs:76-85 | a write acts on the plain map and flushes exactly at the limit of operations |
| `KvStack.CacheDatabase.Write` | db/src/kv/cachedb.rs:33-48 | the whole stack takes a transaction as one plain map does, with the cache kept coherent |
| `KvStack.CacheDatabase.Get` | db/src/kv/cachedb.rs:50-58 | every read through cache, overlay and disk is the read of the plain map |
| `KvStack.CacheDatabase.Touch` | db/src/kv/cachedb.rs:50-58 | a read moves a cached block to the recent end; nothing is lost and the others keep their order |
| `KvStack.OverlayDatabase.constructor` | db/src/kv/overlaydb.rs:16-21 | a fresh fork shows what its base shows |
| `KvStack.OverlayDatabase.Write` | db/src/kv/overlaydb.rs:32-34 | a write to a fork acts on its plain map and leaves the base alone |
| `KvStack.OverlayDatabase.Get` | db/src/kv/overlaydb.rs:36-42 | reading a fork is reading its plain map |
| `KvStack.OverlayDatabase.Flush` | db/src/kv/overlaydb.rs:23-29 | flushing a fork gives the base exactly what the fork showed |
| `ChainRows.ApplyAllAppends` | db/src/kv/transaction.rs:159-166 | a sequence of transactions is one transaction |
| `ChainRows.InsertRepresented` | db/src/block_chain_db.rs:223-243 | the rows that insert writes stand for the ledger with one more block |
| `ChainRows.CanonizeRepresented` | db/src/block_chain_db.rs:275-328 | the rows that canonize writes stand for the chain with one more block, both indices and the best block included |
| `ChainRows.DecanonizeRepresented` | db/src/block_chain_db.rs:330-369 | the rows that decanonize writes stand for the chain without its top |
| `ChainRows.CanonizeThenDecanonize` | db/src/block_chain_db.rs:275-369 | the rows after both answer every lookup by number and by hash as before and have the same best block; unless the chain was empty they are the same rows |
| `Ledger.CanonHeight` | db/src/block_chain_db.rs:408-416 | the canonical chain holds each block at the block's own height |
| `Ledger.CanonicalIffListed` | db/src/block_chain_db.rs:408-416 | a hash has a number exactly when some number has that hash |
| `Ledger.HeightUnique` | db/src/block_chain_db.rs:228-231 | heights are fixed by the tree of parents |
| `Ledger.WithBlockValid` | db/src/block_chain_db.rs:223-243 | adding a block whose parent is stored keeps the tree and the chain |
| `Ledger.CanonizeBest` | db/src/block_chain_db.rs:275-328 | the new best block is the child of the old one, one higher, or a genesis at height zero |
| `Ledger.DecanonizeBest` | db/src/block_chain_db.rs:330-369 | the new best block is the parent of the old one, or none |
| `Ledger.Genesis` | sync/src/synchronization_chain.rs:123-139 | a store with nothing but a canonized genesis block meets the starting condition of the runs |
| `Ledger.BranchForks` | db/src/block_chain_db.rs:187-208 | every stored block has a route from a canonical block with no canonical block on it |
| `Ledger.ForkUnique` | db/src/block_chain_db.rs:187-208 | there is one such place and one such route |
| `Ledger.OriginForks` | db/src/block_chain_db.rs:141-158 | every side-chain origin can be forked to, and the fork has the new block's parent best at the block's number less one |
| `Ledger.OriginAnswers` | db/src/block_chain_db.rs:166-221 | each answer exactly in its case: known if and only if stored, an error if and only if the parent is unknown or the branch too long; every other answer gives the height that the block has once inserted |
| `Ledger.ReorganizationFits` | sync/src/synchronization_chain.rs:365-389 | what fork, insert and canonize ask for holds in the reorganization case |
| `Ledger.InsertBestErrors` | sync/src/synchronization_chain.rs:338-344 | the error is UnknownParent exactly for a missing parent, AncientFork exactly for a branch of 2048 or more, and an error changes nothing |
| `Ledger.ReorganizationStep` | sync/src/synchronization_chain.rs:365-389 | a reorganization ends with the old prefix, the canonized route and the new block, one higher than before |
| `Ledger.InsertBestStep` | sync/src/synchronization_chain.rs:330-405 | the chain moves only when the new block is one higher than the best, and no stored block is ever higher than the best |
| `Ledger.RunLongest` | sync/src/synchronization_chain.rs:330-405 | over every run the best block is a highest block, its number never falls and no block is lost |
| `BlockChainDb.BlockChainDatabase.constructor` | db/src/block_chain_db.rs:129-135 | opening reads back the best block that the rows stand for |
| `BlockChainDb.BlockChainDatabase.ReadBestBlock` | db/src/block_chain_db.rs:108-127 | the stored meta entries give the best block of whatever ledger the rows stand for |
| `BlockChainDb.BlockChainDatabase.BlockHash` | db/src/block_chain_db.rs:413-416 | hashes exist for exactly the heights up to the best |
| `BlockChainDb.BlockChainDatabase.BlockNumber` | db/src/block_chain_db.rs:408-411 | exactly the canonical blocks have a number, their height |
| `BlockChainDb.BlockChainDatabase.BlockByHash` | db/src/block_chain_db.rs:418-429 | exactly the stored blocks are found |
| `BlockChainDb.BlockChainDatabase.ContainsBlock` | db/src/block_chain_db.rs:431-435 | true exactly for stored blocks |
| `BlockChainDb.BlockChainDatabase.Insert` | db/src/block_chain_db.rs:223-243 | a known block changes nothing, an unknown parent is an error, any other block joins the tree and the chain stays |
| `BlockChainDb.BlockChainDatabase.Canonize` | db/src/block_chain_db.rs:275-328 | succeeds exactly for a stored child of the best block, which becomes the top; otherwise nothing changes |
| `BlockChainDb.BlockChainDatabase.Decanonize` | db/src/block_chain_db.rs:330-369 | takes the top off and returns it, or fails on an empty chain |
| `BlockChainDb.BlockChainDatabase.BlockOrigin` | db/src/block_chain_db.rs:166-221 | tells known, extending, side, overtaking, unknown-parent and ancient blocks apart, with both routes, as `Ledger.OriginAnswers` characterises them |
| `BlockChainDb.BlockChainDatabase.FindForkPoint` | db/src/block_chain_db.rs:187-208 | the walk back finds the fork point and the route exactly when the branch is shorter than 2048 |
| `BlockChainDb.BlockChainDatabase.HashesAbove` | db/src/block_chain_db.rs:197-200 | the decanonized route is the canonical chain above the ancestor |
| `BlockChainDb.BlockChainDatabase.Fork` | db/src/block_chain_db.rs:141-158 | the fork shows the chain with the one route replaced by the other; it fails exactly when the first route is longer than the chain or the second does not lead on; the base is not modified |
| `BlockChainDb.BlockChainDatabase.DecanonizeRoute` | db/src/block_chain_db.rs:144-147 | each decanonized hash is the one expected, and the prefix is left; a route longer than the chain is an error |
| `BlockChainDb.BlockChainDatabase.CanonizeRoute` | db/src/block_chain_db.rs:149-151 | succeeds exactly when the route leads on from the top |
| `BlockChainDb.BlockChainDatabase.SwitchToFork` | db/src/block_chain_db.rs:160-164 | the store then shows what the fork showed, best block included |
| `HashQueues.Position` | sync/src/utils/hash_queue.rs:60-66 | finds a queued hash and nothing else |
| `HashQueues.PopFrontN` | sync/src/utils/hash_queue.rs:104-113 | takes up to n hashes off the front, in order |
| `HashQueues.PushBackN` | sync/src/utils/hash_queue.rs:135-139 | appends hashes in order |
| `HashQueues.Remove` | sync/src/utils/hash_queue.rs:142-161 | removes exactly the given hash, keeps the order and says where it was |
| `HashQueues.FlatAt` | sync/src/utils/hash_queue.rs:202-213 | indexing the row of queues is indexing their concatenation |
| `HashQueues.Len` | sync/src/utils/hash_queue.rs:190-194 | the length of the row is that of the concatenation |
| `HeadersChain.InsertValid` | sync/src/utils/best_headers_chain.rs:80-88 | a header that continues the chain joins its end, any other changes nothing; map and queue stay equal and the headers linked |
| `HeadersChain.InsertN` | sync/src/utils/best_headers_chain.rs:91-95 | headers that continue the chain are all appended in order and can be looked up; nothing else joins, and nothing is dropped or altered |
| `HeadersChain.BlockInsertedToStorageValid` | sync/src/utils/best_headers_chain.rs:116-122 | the stored block leaves the front of the queue and the map if it was first there, all other headers stay, the new best hash is kept, and map and queue stay equal and linked |
| `HeadersChain.BestHeader` | sync/src/synchronization_chain.rs:193-206 | the best header is as many blocks above the best stored block as headers are queued, and is the last of them |
| `HeadersChain.StaysOnStorage` | sync/src/utils/best_headers_chain.rs:116-122 | storing the first queued block as the best one leaves the rest on top of it and the best header as it was |
| `HeadersChain.Remove` | sync/src/utils/best_headers_chain.rs:98-106 | exactly the prefix before the hash stays; a hash that is not queued changes nothing |
| `HeadersChain.ClearAfter` | sync/src/utils/best_headers_chain.rs:131-140 | headers are popped until exactly the prefix is left |
| `HeadersChain.Children` | sync/src/utils/best_headers_chain.rs:63-69 | the hash queued right after the given one, if any |
| `SyncChain.Chain.constructor` | sync/src/synchronization_chain.rs:123-139 | a new chain agrees with its store and has empty queues |
| `SyncChain.Chain.InsertBestBlock` | sync/src/synchronization_chain.rs:330-405 | store and result are those of the specification, whose meaning over runs `Ledger.RunLongest` gives; the header chain loses exactly the stored block and only from its front, always knows the best stored hash, and keeps its best header when its first block is stored on top |
| `SyncChain.Chain.UpdateStorage` | sync/src/synchronization_chain.rs:330-405 | the same for the store alone, with every assumption of the three cases proved |
| `SyncChain.Chain.Reorganize` | sync/src/synchronization_chain.rs:365-389 | fork, insert, canonize and switch all succeed and give the reorganized chain with the new block on top |
| `SyncChain.Chain.StoreOnTop` | sync/src/synchronization_chain.rs:345-363 | insert and canonize both succeed for a child of the best block |
| `SyncChain.Chain.BlockLocatorHashes` | sync/src/synchronization_chain.rs:267-281 | the locator names the hashes at the closed-form heights of queue and store taken as one chain |
| `SyncChain.Chain.BlockLocatorHashesForQueue` | sync/src/synchronization_chain.rs:478-498 | lists the entries that lie in the queues and hands over the exact depth and step |
| `SyncChain.Chain.BlockLocatorHashesForStorage` | sync/src/synchronization_chain.rs:501-527 | completes the locator; no looked-up height is missing |
| `SyncChain.Chain.ScheduleBlocksHeaders` | sync/src/synchronization_chain.rs:284-290 | unknown blocks join the end of all queues, and no hash is ever queued twice |
| `SyncChain.Chain.VerifyBlock` | sync/src/synchronization_chain.rs:301-306 | an unknown block joins the first queue, and the header chain if it continues it; no hash is ever queued twice |
| `SyncChain.Chain.RequestBlocksHashes` | sync/src/synchronization_chain.rs:293-298 | moves the front of one queue to the back of the next; the whole sequence of hashes stays |
| `SyncChain.Chain.ForgetBlock` | sync/src/synchronization_chain.rs:408-411 | the queues lose exactly the hash, the headers keep exactly the prefix before it |
| `SyncChain.Chain.ForgetBlockLeaveHeader` | sync/src/synchronization_chain.rs:421-429 | the first queue that has the hash loses it and nothing else changes; with no hash queued twice, all queues together lose exactly the hash |
| `SyncChain.Chain.ForgetBlockWithChildren` | sync/src/synchronization_chain.rs:456-469 | headers and queues lose exactly the hash and its successors |
| `SyncChain.Descendants` | sync/src/synchronization_chain.rs:456-465 | the removal stack is the end of the header queue from the hash on |
| `OrphanPool.OrphanBlocksPool.InsertOrphanedBlock` | sync/src/utils/orphan_blocks_pool.rs:43-48 | the pool gains exactly the block, listed under its parent |
| `OrphanPool.OrphanBlocksPool.InsertUnknownBlock` | sync/src/utils/orphan_blocks_pool.rs:51-58 | the pool gains the block and its unknown mark |
| `OrphanPool.OrphanBlocksPool.Len` | sync/src/utils/orphan_blocks_pool.rs:28-30 | the number of distinct parents that pooled blocks wait for |
| `OrphanPool.OrphanBlocksPool.RemoveBlocksForParent` | sync/src/utils/orphan_blocks_pool.rs:73-89 | each removed block once, every parent before its children, nothing left that waits for any of them, unknown marks gone, all other blocks kept |
| `OrphanPool.RemovedExactly` | sync/src/utils/orphan_blocks_pool.rs:73-89 | what is removed is exactly the transitive descendants of the hash |
| `OrphanPool.OrphanBlocksPool.RemoveBlocks` | sync/src/utils/orphan_blocks_pool.rs:92-115 | exactly the given blocks and their descendants go, even below hashes that are not pooled |
| `OrphanPool.OrphanBlocksPool.DropBlocks` | sync/src/utils/orphan_blocks_pool.rs:95-104 | exactly the given blocks leave the lists, and empty lists with them |
| `OrphanPool.OrphanBlocksPool.RemoveKnownBlocks` | sync/src/utils/orphan_blocks_pool.rs:61-70 | requested blocks and all their descendants go; only the requested ones are reported |
| `BlocksWriter.BlocksWriter.AppendBlock` | sync/src/blocks_writer.rs:65-99 | without an error nothing known is lost or altered; always the pool stays detached from the store, each early return is taken in exactly its case, and otherwise the pool gives up exactly the block's descendants, of which a first part is stored, ending where the verifier or the chain refuses |
| `BlocksWriter.BlocksWriter.ImportWithOrphans` | sync/src/blocks_writer.rs:86-98 | of the block and its descendants a first part is stored, all of it if there is no error; after an error the next one is the one refused, for the reason reported, and the rest is lost from the pool |
| `BlocksWriter.BlocksWriter.VerifyAndInsert` | sync/src/blocks_writer.rs:91-96 | a prefix of the queue is stored, all of it accepted by the verifier; it ends at the end, at the first block refused, or at one on too long a side chain, and the result says which |
| `BlocksWriter.QueueImportable` | sync/src/blocks_writer.rs:86-91 | every queued block is new and its parent is stored or queued before it |
| `BlocksWriter.QueueDetached` | sync/src/blocks_writer.rs:86-96 | even after an error nothing left in the pool has a stored parent |
| `BlocksWriter.QueueAdds` | sync/src/blocks_writer.rs:86-96 | moving blocks from pool to store conserves what is known |
| `Import.RunAccounts` | sync/src/blocks_writer.rs:65-99 | after any error-free run exactly the delivered blocks are known besides those stored at the start |
| `Import.StatesAgree` | sync/src/blocks_writer.rs:65-99 | what is known determines what is stored, what is pooled and the best height |
| `Import.Confluence` | sync/src/blocks_writer.rs:65-99 | two error-free deliveries of the same blocks in any orders end alike |
| `Import.StoredIffConnected` | sync/src/blocks_writer.rs:65-99 | a known block is stored exactly when known blocks connect it to genesis; the pool holds exactly the rest |
| `Vdf.Eval` | vdf/src/vdf.rs:9-17 | the loop computes t squarings modulo n |
| `Vdf.Prove` | vdf/src/vdf.rs:19-47 | the loop lists the midpoints of successive halvings: each is the base of its round squared half the count, and the next base, value and count follow from the challenge drawn from base, value and midpoint |
| `Vdf.Verify` | vdf/src/vdf.rs:49-70 | accepts exactly if the transcript of the proof, honest or not, ends with a value that is its base squared |
| `Vdf.HalveIs` | vdf/src/vdf.rs:53-66 | one round in closed form: base to the challenge times midpoint, midpoint to the challenge times value, squared when an odd half is made even |
| `Vdf.VerifyTranscript` | vdf/src/vdf.rs:49-70 | for every claim and proof, acceptance is the existence of a transcript that closes |
| `Vdf.VerifyTwo` | vdf/src/vdf.rs:49-70 | for two squarings the test is one congruence: mu^r y is (x^r mu)^2, with r the challenge for x, y and mu |
| `Vdf.EvalIsPow` | vdf/src/vdf.rs:9-17 | t squarings raise to the power 2^t |
| `Vdf.HalveOffBy` | vdf/src/vdf.rs:27-44 | halving a claim that is off by a factor with its midpoint keeps the factor, puts the last squaring of an odd count into it and squares it with every extra squaring |
| `Vdf.Completeness` | vdf/src/vdf.rs:49-70 | an honest proof is accepted for one iteration and for every even count, for every base, modulus and challenge |
| `Vdf.OddAccepted` | vdf/src/vdf.rs:49-70 | for every input, an honest proof for an odd count from three on is accepted exactly when the square of the verifier's last base is not changed by the factor g^(2^(t-1+m)), with m the number of halvings that add one |
| `Vdf.OddAcceptedUnit` | vdf/src/vdf.rs:49-70 | for an invertible base and any challenge it is accepted exactly when that factor is one |
| `Vdf.ZeroAccepted` | vdf/src/vdf.rs:49-70 | for no iterations it is accepted exactly when g is its own square modulo n |
| `Vdf.CompleteExactly` | vdf/src/vdf.rs:49-70 | the counts for which every honest proof is accepted are one and the even ones but zero |
| `Vdf.OddRefused` | vdf/src/vdf.rs:49-70 | 2 modulo 7 is refused for every odd count from three on, whatever the challenge |
| `Vdf.ProofLength` | vdf/src/vdf.rs:19-47 | the proof for an even count has ceil(log2 t) elements |
| `Miner.CheckVdf` | verification/src/verify_block.rs:60-72 | accepts exactly the blocks whose proof has a closing transcript for the header's own seed, randomness and iteration count |
| `Miner.SeedsAgree` | miner/src/cpu_miner.rs:16-40 | miner and verifier seed the delay function alike, with the first 77 bytes of the header |
| `Miner.EvalComposes` | miner/src/cpu_miner.rs:66 | evaluating in steps is evaluating at once |
| `Miner.SolutionPasses` | verification/src/verify_block.rs:60-72 | a block assembled from an evaluation and its proof passes the check |
| `Miner.Look` | miner/src/cpu_miner.rs:66-76 | one look extends the evaluation by 1024 and tests the header hash against the target |
| `Miner.FindSolution` | miner/src/cpu_miner.rs:50-89 | a solution is the first look whose header hash is at most the target, fits 32 bits and passes the verifier; without a timeout none is returned only if no count meets the target |
| `MedianTime.BlockAncestors.Next` | storage/src/block_ancestors.rs:21-31 | yields the header and moves to its parent, or ends |
| `MedianTime.CollectTimes` | verification/src/timestamp.rs:19-22 | along any route from a parentless block: the times of its last blocks, newest first, as many as the window or the whole route |
| `MedianTime.TimesBack` | storage/src/block_ancestors.rs:21-31 | the i-th time collected is that of the block i before the end of the route, and their number is the smaller of window and route length |
| `MedianTime.CanonTimes` | verification/src/timestamp.rs:19-22 | for the canonical block at height k: min(n, k + 1) times, the i-th that of height k - i |
| `MedianTime.MedianTimestampInclusive` | verification/src/timestamp.rs:15-30 | the middle of the sorted times, zero if there are none |
| `MedianTime.MedianTimestamp` | verification/src/timestamp.rs:8-10 | the middle element, in order, of the times of the last eleven blocks up to the header's parent, all of them if there are fewer, zero if the parent is not stored |
| `MedianTime.CheckMedian` | verification/src/accept_header.rs:117-124 | accepts exactly a time above that median |
| `MedianTime.SortPermutes` | verification/src/timestamp.rs:28 | sorting loses no time |
| `MedianTime.MedianCount` | verification/src/timestamp.rs:28-29 | the median is at least m exactly when enough of the times are |
| `MedianTime.MedianStep` | verification/src/accept_header.rs:117-124 | a header that passes the check does not lower the median, also while the window grows |
| `MedianTime.MedianMonotone` | verification/src/accept_header.rs:117-124 | the median never falls along a chain of headers that pass |
| `MedianTime.TimeExceedsAncestorMedians` | verification/src/accept_header.rs:117-124 | a header's time exceeds the median at every one of its ancestors |
| `CompactTarget.RoundTrip` | primitives/src/compact.rs:45-84 | every 256-bit value encodes to 32 bits and decodes without error to its leading digits |
| `CompactTarget.RoundTripLoss` | primitives/src/compact.rs:45-84 | encoding never rounds up, and loses less than one part in 2^15 unless it is exact |
| `CompactTarget.RoundTripMonotone` | primitives/src/compact.rs:45-84 | encoding keeps the order |
| `CompactTarget.EncodingStable` | primitives/src/compact.rs:67-84 | encoding what was decoded gives the same compact form |
| `CompactTarget.EncodingNormal` | primitives/src/compact.rs:67-84 | the mantissa has a digit in its first byte and a clear sign bit, so no other size would do |
| `CompactTarget.ToU256Is` | primitives/src/compact.rs:45-65 | decoding gives mantissa times 256^(size - 3), and fails exactly for a set sign bit on a non-zero value and for 2^256 or more |
| `CompactTarget.ProofOfWorkThreshold` | verification/src/work.rs:23-31 | exactly the hashes up to the value of the bits pass, and none for bits that do not decode |
| `CompactTarget.RetargetTimespan` | verification/src/work.rs:51-56 | the difference of the timestamps, last less first, cut off at a quarter and at four times the intended span |
| `CompactTarget.RetargetBounds` | verification/src/work.rs:132-161 | a retarget allows at most the maximum and at most four times the old target, and at least the encodable part of a quarter unless the maximum applies |
| `CompactTarget.RetargetMonotone` | verification/src/work.rs:132-161 | a later last block never makes the target harder |
| `CompactTarget.RetargetSteady` | verification/src/work.rs:132-161 | blocks on schedule leave the encodable part of the target as it is |
| `Codec.CompactIntegerReads` | serialization/src/compact_integer.rs:58-99 | every 64-bit length reads back, whatever follows |
| `Codec.CompactIntegerSizes` | serialization/src/compact_integer.rs:76-83 | the announced size of a length is its size |
| `Codec.BytesReads` | serialization/src/impls.rs:244-267 | byte strings read back, whatever follows |
| `Codec.IntegerReads` | serialization/src/impls.rs:284-307 | an integer reads back as its absolute value, and its announced size is right |
| `Codec.ListReads` | serialization/src/stream.rs:81-91 | lists of non-negative integers read back, and their announced size is right |
| `Codec.HeaderReads` | chain/src/block_header.rs:32-73 | headers read back, whatever follows |
| `Codec.BlockReads` | chain/src/block.rs:16-34 | a block reads back and leaves exactly the suffix; deserialize accepts only the empty suffix; the announced size is the byte length |
| `Codec.BlocksPrefixFree` | chain/src/block.rs:16-34 | no block's encoding is a proper prefix of another's, and equal encodings mean equal blocks |
| `Codec.LittleEndianAt` | serialization/src/impls.rs:58-90 | byte i of a number is its i-th digit to base 256, lowest first |
| `Codec.DigitsAt` | serialization/src/impls.rs:284-307 | byte i of an integer is its digit to base 256, highest first and not zero |
| `Codec.CompactIntegerLayout` | serialization/src/compact_integer.rs:58-74 | the first byte tells the form, each form is used exactly for its range, and the digits follow |
| `Codec.IntegerAt` | serialization/src/stream.rs:81-91 | the i-th integer of a list starts after the sizes of those before it |
| `Codec.HeaderLayout` | chain/src/block_header.rs:32-44 | the offset of every header field |
| `Codec.SeedStartsHeader` | miner/src/cpu_miner.rs:16-25 | the seed bytes are the header up to the iterations |
| `Codec.BlockGoes` | chain/src/block.rs:22-34 | reading a block depends on no byte after it: more bytes change nothing unless they had come to an end |
| `Codec.CutBlockRefused` | serialization/src/reader.rs:4-17 | a block cut short anywhere is refused for its end |
| `Codec.BadKeyRefused` | chain/src/block_header.rs:46-73 | a block whose key is not one is refused as malformed, whatever follows |
| `Codec.ReadBlocksAreSound` | chain/src/block.rs:22-34 | whatever is read as a block has a valid key and no negative number |
| `CodecStream.Stream.AppendCompactInteger` | serialization/src/compact_integer.rs:58-74 | appends the encoding of a length |
| `CodecStream.Stream.AppendList` | serialization/src/stream.rs:81-91 | appends the length and every element in order |
| `CodecStream.Stream.AppendHeader` | chain/src/block_header.rs:32-44 | appends the header's fields in the order of the encoding |
| `CodecStream.Stream.AppendBlock` | chain/src/block.rs:16-20 | appends the encoding of the block |
| `CodecStream.Reader.ReadSlice` | serialization/src/reader.rs:134-136 | reads exactly n bytes, a peeked byte first, or fails |
| `CodecStream.Reader.ReadCompactInteger` | serialization/src/compact_integer.rs:86-100 | reads what the parser reads and leaves what it leaves |
| `CodecStream.Reader.ReadList` | serialization/src/reader.rs:138-150 | reads what the parser reads and leaves what it leaves |
| `CodecStream.Reader.ReadHeader` | chain/src/block_header.rs:46-73 | reads what the parser reads and leaves what it leaves |
| `CodecStream.Reader.ReadBlock` | chain/src/block.rs:22-34 | reads what the parser reads and leaves what it leaves |
| `CodecStream.Reader.IsFinished` | serialization/src/reader.rs:171-184 | tells whether anything is left and loses nothing, although it may take a byte to look at |
| `CodecStream.SerializeBlock` | serialization/src/stream.rs:7-14 | gives the encoding of the block |
| `CodecStream.Deserialize` | serialization/src/reader.rs:4-17 | agrees with the parser and refuses left-over bytes |
| `ResponseLog.DeliveredAt` | p2p/src/net/peer_context.rs:36-77 | what is delivered is all of the responses before the first open one, then what that one has so far |
| `ResponseLog.StalledForever` | p2p/src/net/peer_context.rs:36-140 | once the first open response is stalled, no run of calls sends another message or closes it |
| `ResponseLog.StallExample` | p2p/src/net/peer_context.rs:103-140 | three declared responses, the second ignored after a first message: the complete third is never sent, whatever follows |
| `ResponseLog.IgnoreSafely` | p2p/src/net/peer_context.rs:103-111 | after ignoring a waiting response everything up to the first incomplete one is delivered in every continuation exactly when nothing was queued for it |
| `Responses.TakeNext` | p2p/src/util/response_queue.rs:43-55 | the next id yields exactly what was said for it, and the queue keeps exactly the later ones |
| `Responses.Awaited` | p2p/src/net/peer_context.rs:36-77 | each round of the loop keeps the invariant, and the asserted permission is given |
| `Responses.Permitted` | p2p/src/util/synchronizer.rs:84-119 | permission is given for the first pending response and no other, across wrap-around |
| `Responses.PeerContext.constructor` | p2p/src/net/peer_context.rs:18-26 | a new context has sent nothing and declared nothing |
| `Responses.PeerContext.DeclareResponse` | p2p/src/net/peer_context.rs:88-92 | a new pending response joins the end of the log; its id is its place modulo 2^32 |
| `Responses.PeerContext.SendAwaiting` | p2p/src/net/peer_context.rs:36-77 | sends everything that has become due, in order, and no more |
| `Responses.PeerContext.SendResponse` | p2p/src/net/peer_context.rs:114-140 | the message joins its response, and what was sent is still exactly the delivered part of the log |
| `Responses.PeerContext.IgnoreResponse` | p2p/src/net/peer_context.rs:103-111 | the response closes with what it has, or stalls exactly if it waits and messages are queued for it; what was sent is still exactly the delivered part of the log |
| `Responses.Stall` | p2p/src/net/peer_context.rs:103-140 | the run of `StallExample` on the code: the third response is not sent and the second id stays next |
| `Locator.LocatorFalls` | sync/src/synchronization_chain.rs:267-281 | heights start at the tip, fall strictly and end in genesis |
| `Locator.LocatorGaps` | sync/src/synchronization_chain.rs:478-527 | ten heights in a row, then each gap is twice the one before |
| `Locator.LocatorShort` | sync/src/synchronization_chain.rs:267-281 | at most 11 + log2(tip + 1) entries |
| `Locator.StepFits` | sync/src/synchronization_chain.rs:490-492 | the doubled step stays within 32 bits when heights do |
| `Locator.ListingStep` | sync/src/synchronization_chain.rs:501-527 | one round of the loop continues or completes the closed form |
| `Locator.LocatorNear` | sync/src/synchronization_chain.rs:478-527 | neighbouring entries are consecutive or closer to each other than to the tip |
| `Locator.LocatorIs` | sync/src/synchronization_chain.rs:267-281 | the locator has what the exchange below relies on |
| `HeaderSync.LocateBestCommonBlock` | sync/src/synchronization_server.rs:367-395 | none exactly if no hash of the request is stored; otherwise there is a route from that height of the canonical chain, with no canonical block on it, to the first hash that is stored |
| `HeaderSync.CommonHeightIs` | sync/src/synchronization_server.rs:367-395 | the same in both directions: a height is found if and only if the first stored hash forks off there |
| `HeaderSync.WalkBack` | sync/src/synchronization_server.rs:377-391 | the walk over parents ends at the fork point, or finds nothing for a block that is not stored |
| `HeaderSync.HashesFrom` | sync/src/synchronization_server.rs:337-342 | canonical hashes from a height on, ending exactly at the count, the tip or the hash to stop at |
| `HeaderSync.SelectHashes` | sync/src/synchronization_server.rs:337-342 | the chain of lookups by number yields those hashes |
| `HeaderSync.ServeGetHeaders` | sync/src/synchronization_server.rs:328-360 | no reply exactly if no hash of the request is stored, else the headers that `HeaderSync.HeadersReplyIs` describes |
| `HeaderSync.ServeGetBlocks` | sync/src/synchronization_server.rs:299-326 | no reply exactly if no hash of the request is stored, else the hashes that `HeaderSync.BlocksReplyIs` describes |
| `HeaderSync.HeadersReplyIs` | sync/src/synchronization_server.rs:328-360 | the headers of the canonical chain from right above the common height, 2000 or up to the tip or the hash to stop at |
| `HeaderSync.BlocksReplyIs` | sync/src/synchronization_server.rs:299-326 | the hashes of the canonical chain from right above the common height, 500 or up to the tip or the hash to stop at |
| `HeaderSync.HeadersRun` | sync/src/synchronization_server.rs:337-347 | served headers are linked, start with a child of the common block and end at the count or the tip |
| `HeaderSync.StayApart` | sync/src/synchronization_server.rs:367-395 | chains that part never meet again |
| `HeaderSync.ForkOfShared` | sync/src/synchronization_server.rs:377-391 | a requester's block past the shared part leads the server to the end of the shared part |
| `HeaderSync.CommonHeightNear` | sync/src/synchronization_server.rs:367-395 | the common height is the end of the shared part, or at least nine closer to it than the requester's tip is |
| `HeaderSync.TwoNodeSync` | sync/src/synchronization_server.rs:328-360 | common height at or below the shared height and within the requester's distance of it; a linked reply on a block the requester has; with the first missing block if the requester is at most 2008 past the shared part |
| `HeaderSync.RequestHeaders` | sync/src/synchronization_server.rs:328-395 | the same for the locator loops and the server run one after the other |
| `ServerTasks.ServerQueue.constructor` | sync/src/synchronization_server.rs:139-146 | an empty ring and no tasks |
| `ServerTasks.ServerQueue.NextTask` | sync/src/synchronization_server.rs:148-168 | the oldest task of the first peer; the ring still has each peer with tasks exactly once, so no lookup fails |
| `ServerTasks.ServerQueue.AddTask` | sync/src/synchronization_server.rs:170-188 | the task joins the end of its peer's list, a new peer the end of the ring |
| `ServerTasks.ServerQueue.AddTaskFront` | sync/src/synchronization_server.rs:190-208 | the task joins the front of its peer's list, a new peer the end of the ring |
| `ServerTasks.ServerQueue.RemovePeerTasks` | sync/src/synchronization_server.rs:210-216 | the peer is gone from list and ring, the others keep their order |
| `ServerTasks.Fair` | sync/src/synchronization_server.rs:148-216 | a peer at position i that stays is served by the (i+1)-st call at the latest, exactly then if nobody is removed |
| `Serving.ServerTaskExecutor.Execute` | sync/src/synchronization_server.rs:231-249 | sends and leaves over exactly what one execution with the present store should |
| `Serving.ServerTaskExecutor.ServeAtOnce` | sync/src/synchronization_server.rs:299-365 | headers, or a non-empty inventory, as the store has them; nothing for a request without known blocks, nor for the memory pool |
| `Serving.ServerTaskExecutor.ServeReversedGetData` | sync/src/synchronization_server.rs:267-297 | the stored block of the last item's hash is sent, or the item is noted as missing; an empty list closes with the missing ones |
| `Replies.AnswerShape` | sync/src/synchronization_server.rs:251-297 | the answer to a getdata is the stored blocks of its items' hashes in request order, then one notfound with exactly the items that were not stored when looked up, in order |
| `Replies.ExecutedContinues` | sync/src/synchronization_server.rs:231-297 | one execution sends the beginning of the answer and leaves a task that owes the rest |
| `Replies.OneShotAnswers` | sync/src/synchronization_server.rs:299-360 | getheaders and getblocks are answered to the peer that asked, headers with the id of the request, an empty inventory not at all |
| `Replies.AnswersFixed` | sync/src/synchronization_server.rs:251-297 | from a store that does not change, the answer is exactly the stored blocks of the requested hashes, then exactly the items not stored |
| `Replies.AnswersJustified` | sync/src/synchronization_server.rs:251-297 | from a store that grows, every block in an answer is the stored block of an item asked for, every item in a notfound was asked for and not stored at first, and all hashes and headers start right above the common height of a request |
| `Replies.AnswersServe` | sync/src/synchronization_server.rs:251-297 | every item asked for is answered: its block if it was stored from the start, a notfound if it is never stored |
| `Serving.StepBalanced` | sync/src/synchronization_server.rs:101-125 | every step of the server keeps sent plus owed equal to the answers to all that was received |
| `Serving.EverythingAnswered` | sync/src/synchronization_server.rs:101-297 | under any interleaving and any growth of the store, a connected peer is sent its answers in request order, completely once nothing is pending |
| `Serving.OnlyWhatWasAsked` | sync/src/synchronization_server.rs:251-297 | over every run, a block sent to a peer is the stored block of an item it asked for, an item reported missing is one it asked for that was not stored at the start, and hashes and headers answer one of its requests from a store of the run |
| `Serving.AskedIsServed` | sync/src/synchronization_server.rs:251-297 | over every run, once nothing is pending, every block a peer asked for was sent if stored from the start and reported missing if still not stored |
| `Serving.FixedStoreAnswered` | sync/src/synchronization_server.rs:251-297 | over every run without imports, a peer is sent exactly the stored blocks it asked for in order, then one notfound with exactly the others, request by request |
| `Serving.InsertGrows` | sync/src/synchronization_chain.rs:330-405 | importing a block is a growth of the store |
| `Serving.RoundIs` | sync/src/synchronization_server.rs:101-125 | a round is the worker's three steps of the state machine with nothing in between |
| `Serving.WorkerStep` | sync/src/synchronization_server.rs:101-125 | one round of the worker, after waiting once if there was nothing to do |

## Left out

- RocksDB, files and columns (db/src/kv/diskdb.rs): the bottom store is a map.
- Failing writes: every write to the database is taken to succeed.
- 32-bit limits of heights, lengths and list sizes: heights are natural numbers; only `Locator.StepFits`, `FindSolution` and the response ids speak of 32 bits. In the same way the delay function takes any natural number of iterations.
- The meta and configuration rows hold decoded values here; their byte forms are not modelled, and configuration rows not at all.
- `rollback_best`, which the source does not implement.
- CacheDatabase.Get: a read does not reorder the cache, because functions change nothing; `Touch` is that part.
- CacheDatabase.Write: the cache is a list by recency and not a hash map with links.
- OrphanBlocksPool.RemoveBlocks: the removed hashes are a set, because their order is that of a hash set.
- OrphanBlocksPool.InsertUnknownBlock: the time of arrival and the insertion order of unknown marks are not kept.
- HashQueueChain::back and the numbering of in-memory blocks in Chain::block_hash and block_header_by_number: they do not agree with the rest of the chain, and nothing here relies on them.
- CompactTarget.RetargetBounds: asks that old target times timespan fits 256 bits, which the source does not check.
- The minimum-difficulty rule of the test network and the choice of the retarget height (verification/src/work.rs).
- AppendBlock: the verdict of the block verifier is a parameter, and its worker thread is not modelled.
- SHA, SipHash, the seed hash, the Fiat-Shamir hash and the keys of the verifiable random function are uninterpreted functions; soundness of the delay function against dishonest provers is not a property of the code.
- IntegerReads: negative integers come back as their absolute value, as in the code; only non-negative ones round trip.
- Non-minimal encodings of lengths, which the reader accepts.
- Responses in asynchronous mode and the change of policy with its threshold of ten: only the synchronous mode orders anything.
- ServerTaskExecutor.Execute: reporting a peer that asks without known blocks is only the absence of a reply.
- WorkerStep: the flag that stops the worker is not modelled, and what happens during the wait is a parameter.
- The event loop of the synchronization client, peer tables and their task sets, speed meters, timers, handshakes, sockets, RPC and the command line.
