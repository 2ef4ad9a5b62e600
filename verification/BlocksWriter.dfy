/** Import of blocks in any order (sync/src/blocks_writer.rs). */
module BlocksWriter {
  import opened Primitives
  import opened Ledger
  import opened OrphanPool
  import SyncChain

  /** More distinct missing parents than this make the import give up. */
  const MAX_ORPHANED_BLOCKS: nat := 1024

  datatype WriterError = TooManyOrphanBlocks | Verification | Database(error: Error)

  /** No pooled block is stored, and none of them has a stored parent. */
  ghost predicate Detached(blocks: Blocks, members: Members) {
    forall h {:trigger h in members} :: h in members ==> h != ZERO && h !in blocks && members[h].Parent() !in blocks
  }

  /** The block known by hash `h`, stored or pooled. */
  ghost function Known(blocks: Blocks, members: Members, h: Hash): Option<Block> {
    if h in blocks then Some(blocks[h])
    else if h in members then Some(members[h].raw)
    else None
  }

  /** After a successful import exactly one more block may be known, and nothing was lost or altered. */
  ghost predicate Adds(blocks: Blocks, members: Members, block: IndexedBlock, blocks': Blocks, members': Members) {
    && (forall h {:trigger Known(blocks', members', h)} ::
          Known(blocks', members', h) ==
          if h == block.hash && h !in blocks then Some(block.raw) else Known(blocks, members, h))
    && (forall h :: h in blocks ==> h in blocks' && blocks'[h] == blocks[h])
  }

  /** The store and the orphan pool between two calls of `append_block`. */
  datatype State = State(ledger: Ledger, members: Members) {

    ghost predicate Valid() {
      && ledger.Longest()
      && Detached(ledger.blocks, members)
      && forall h :: h in members ==> members[h].hash == h
    }

    ghost function Find(h: Hash): Option<Block> {
      Known(ledger.blocks, members, h)
    }
  }

  /** One call of `append_block` that returned no error. */
  ghost predicate Appended(s: State, block: IndexedBlock, s': State) {
    && s'.Valid()
    && Adds(s.ledger.blocks, s.members, block, s'.ledger.blocks, s'.members)
    && s.ledger.canon != [] && s'.ledger.canon[0] == s.ledger.canon[0]
  }

  // ---- Storing a block and everything that waited for it ----

  function StoredAll(blocks: Blocks, queue: seq<IndexedBlock>): Blocks {
    if queue == [] then blocks
    else
      var last := queue[|queue| - 1];
      StoredAll(blocks, queue[..|queue| - 1])[last.hash := last.raw]
  }

  lemma {:induction false} StoredAllKeys(blocks: Blocks, queue: seq<IndexedBlock>)
    requires DistinctHashes(queue)
    ensures StoredAll(blocks, queue).Keys == blocks.Keys + HashSet(queue)
    ensures forall i :: 0 <= i < |queue| ==> StoredAll(blocks, queue)[queue[i].hash] == queue[i].raw
    ensures forall h :: h in blocks && h !in HashSet(queue) ==> StoredAll(blocks, queue)[h] == blocks[h]
  {
    if queue != [] {
      var init, last := queue[..|queue| - 1], queue[|queue| - 1];
      StoredAllKeys(blocks, init);
      assert queue == init + [last];
      assert HashSet(queue) == HashSet(init) + {last.hash} by {
        assert queue[|init|].hash == last.hash;
        assert forall i :: 0 <= i < |init| ==> queue[i].hash == init[i].hash;
      }
    }
  }

  /** Each queued block is new, and its parent is stored or queued before it. */
  ghost predicate Importable(blocks: Blocks, queue: seq<IndexedBlock>) {
    && DistinctHashes(queue)
    && (forall i :: 0 <= i < |queue| ==> queue[i].hash != ZERO && queue[i].hash !in blocks)
    && (forall i {:trigger queue[i].Parent()} :: 0 <= i < |queue| ==>
          queue[i].Parent() in blocks || exists k :: 0 <= k < i && queue[k].hash == queue[i].Parent())
  }

  lemma QueueImportable(blocks: Blocks, before: Members, block: IndexedBlock, removed: seq<IndexedBlock>, after: Members)
    requires Detached(blocks, before) && RemovedFor(before, block.hash, removed, after)
    requires block.hash != ZERO && block.hash !in blocks && block.Parent() in blocks
    requires block.hash in before ==> before[block.hash] == block
    ensures Importable(blocks, [block] + removed) && block.hash !in before
  {
    var queue := [block] + removed;
    assert block.hash !in before;
    forall i | 0 <= i < |queue|
      ensures queue[i].hash != ZERO && queue[i].hash !in blocks
      ensures queue[i].Parent() in blocks || exists k :: 0 <= k < i && queue[k].hash == queue[i].Parent()
    {
      if i > 0 {
        assert ParentFirst(block.hash, removed, i - 1);
        var k: nat :| k <= i - 1 && removed[i - 1].Parent() == Visit(block.hash, removed, k);
        assert queue[k].hash == queue[i].Parent();
      }
    }
  }

  /** Storing a block and any first part of its pooled descendants keeps the rest of the pool detached. */
  lemma QueueDetached(blocks: Blocks, before: Members, block: IndexedBlock, removed: seq<IndexedBlock>, after: Members,
                      n: nat)
    requires Detached(blocks, before) && RemovedFor(before, block.hash, removed, after)
    requires DistinctHashes([block] + removed) && block.hash !in before && n <= |removed| + 1
    ensures Detached(StoredAll(blocks, ([block] + removed)[..n]), after)
  {
    var part := ([block] + removed)[..n];
    StoredAllKeys(blocks, part);
    forall h | h in after
      ensures h != ZERO && h !in StoredAll(blocks, part) && after[h].Parent() !in StoredAll(blocks, part)
    {
      assert h in before && after[h] == before[h] && h !in HashSet(removed);
      forall i | 0 <= i < |part| ensures part[i].hash != h && part[i].hash != after[h].Parent() {
        assert part[i].hash == Visit(block.hash, removed, i);
        assert NoneWaits(after, Visit(block.hash, removed, i));
        assert i > 0 ==> removed[i - 1].hash in HashSet(removed);
      }
    }
  }

  lemma QueueHashes(block: IndexedBlock, removed: seq<IndexedBlock>)
    ensures HashSet([block] + removed) == {block.hash} + HashSet(removed)
  {
    var queue := [block] + removed;
    assert queue[0] == block;
    forall h ensures h in HashSet(queue) <==> h in {block.hash} + HashSet(removed) {
      if h in HashSet(queue) {
        var i :| 0 <= i < |queue| && queue[i].hash == h;
        assert i > 0 ==> removed[i - 1].hash == h;
      }
      if h in HashSet(removed) {
        var i :| 0 <= i < |removed| && removed[i].hash == h;
        assert queue[i + 1].hash == h;
      }
    }
  }

  /** Moving blocks from the pool into the store loses nothing that was known. */
  lemma QueueAdds(blocks: Blocks, before: Members, block: IndexedBlock, removed: seq<IndexedBlock>, after: Members)
    requires block.hash !in blocks && block.hash !in before && DistinctHashes([block] + removed)
    requires Among(before, removed) && after == before - HashSet(removed) && HashSet(removed) !! blocks.Keys
    ensures Adds(blocks, before, block, StoredAll(blocks, [block] + removed), after)
  {
    var queue := [block] + removed;
    var blocks' := StoredAll(blocks, queue);
    StoredAllKeys(blocks, queue);
    QueueHashes(block, removed);
    assert queue[0] == block;
    forall h ensures Known(blocks', after, h) ==
                     if h == block.hash && h !in blocks then Some(block.raw) else Known(blocks, before, h)
    {
      if h in HashSet(removed) {
        var i :| 0 <= i < |removed| && removed[i].hash == h;
        assert queue[i + 1] == removed[i];
      }
    }
  }

  lemma RemovedNotStored(blocks: Blocks, block: IndexedBlock, removed: seq<IndexedBlock>)
    requires Importable(blocks, [block] + removed)
    ensures HashSet(removed) !! blocks.Keys
  {
    var queue := [block] + removed;
    forall h | h in HashSet(removed) ensures h !in blocks {
      var i :| 0 <= i < |removed| && removed[i].hash == h;
      assert queue[i + 1].hash == h;
    }
  }

  lemma QueueImported(blocks: Blocks, before: Members, block: IndexedBlock, removed: seq<IndexedBlock>, after: Members,
                      n: nat)
    requires Detached(blocks, before) && RemovedFor(before, block.hash, removed, after)
    requires Importable(blocks, [block] + removed) && block.hash !in before && n <= |removed| + 1
    ensures var blocks' := StoredAll(blocks, ([block] + removed)[..n]);
            Detached(blocks', after) && (n == |removed| + 1 ==> Adds(blocks, before, block, blocks', after))
  {
    QueueDetached(blocks, before, block, removed, after, n);
    if n == |removed| + 1 {
      QueueStored(blocks, before, block, removed, after);
    }
  }

  lemma QueueStored(blocks: Blocks, before: Members, block: IndexedBlock, removed: seq<IndexedBlock>, after: Members)
    requires RemovedFor(before, block.hash, removed, after)
    requires Importable(blocks, [block] + removed) && block.hash !in before
    ensures Adds(blocks, before, block, StoredAll(blocks, ([block] + removed)[..|removed| + 1]), after)
  {
    var queue := [block] + removed;
    assert queue[..|removed| + 1] == queue && queue[0] == block;
    RemovedNotStored(blocks, block, removed);
    QueueAdds(blocks, before, block, removed, after);
  }

  ghost predicate AcceptsFirst(queue: seq<IndexedBlock>, accepts: Hash -> bool, n: nat) {
    n <= |queue| && forall i :: 0 <= i < n ==> accepts(queue[i].hash)
  }

  /**
   Why the import of a queue ends after `n` blocks: all are stored, or the verifier refuses the next one, or the next
   one joins too long a side chain. Everything before was accepted.
   */
  ghost predicate EndsAt(queue: seq<IndexedBlock>, accepts: Hash -> bool, n: nat, r: Result<(), WriterError>) {
    && n <= |queue| && AcceptsFirst(queue, accepts, n)
    && match r
       case Ok(_) => n == |queue|
       case Err(Verification) => n < |queue| && !accepts(queue[n].hash)
       case Err(Database(e)) => n < |queue| && accepts(queue[n].hash) && e == AncientFork
       case Err(TooManyOrphanBlocks) => false
  }

  /** The pool has given up exactly the descendants of `block`, and the first `n` of block and descendants are stored. */
  ghost predicate ImportsFirst(s: State, block: IndexedBlock, s': State, removed: seq<IndexedBlock>, n: nat) {
    && RemovedFor(s.members, block.hash, removed, s'.members)
    && n <= |removed| + 1 && s'.ledger.blocks == StoredAll(s.ledger.blocks, ([block] + removed)[..n])
  }

  /** Without an error all of them are stored; after an error those that are not stored are lost. */
  ghost predicate Imports(s: State, block: IndexedBlock, s': State, accepts: Hash -> bool, r: Result<(), WriterError>) {
    exists removed, n :: ImportsFirst(s, block, s', removed, n) && EndsAt([block] + removed, accepts, n, r)
  }

  class BlocksWriter {
    const chain: SyncChain.Chain
    const pool: OrphanBlocksPool

    ghost predicate Valid()
      reads this, pool, chain, chain.storage, chain.storage.db.Target(), chain.storage.db.Base()
    {
      && pool !in {chain, chain.storage, chain.storage.db.Target(), chain.storage.db.Base()}
      && chain.Valid()
      && pool.Valid()
      && Detached(chain.storage.ledger.blocks, pool.members)
    }

    ghost function View(): State
      reads this, pool, chain, chain.storage
    {
      State(chain.storage.ledger, pool.members)
    }

    constructor (chain: SyncChain.Chain)
      requires chain.Valid()
      ensures this.chain == chain && fresh(pool) && Valid() && pool.members == map[]
    {
      this.chain := chain;
      this.pool := new OrphanBlocksPool();
    }

    /**
     Stores the block and everything that waited for it, or keeps it until its parent arrives.
     `accepts` is the verdict of the block verifier at the time of this call.
     */
    method AppendBlock(block: IndexedBlock, accepts: Hash -> bool) returns (r: Result<(), WriterError>)
      requires Valid() && block.hash != ZERO
      requires block.hash in pool.members ==> pool.members[block.hash] == block
      modifies pool, chain, chain.storage, chain.storage.db.Target()
      ensures Valid()
      ensures View().Valid() && (r.Ok? ==> Appended(old(View()), block, View()))
      ensures chain.storage.ledger.Best().number >= old(chain.storage.ledger.Best().number)
      ensures block.hash in old(chain.storage.ledger.blocks) ==> r.Ok? && View() == old(View())
      ensures block.hash !in old(chain.storage.ledger.blocks) && block.Parent() !in old(chain.storage.ledger.blocks) ==>
                && View() == old(View()).(members := old(pool.members)[block.hash := block])
                && r == if |Awaited(pool.members)| > MAX_ORPHANED_BLOCKS then Err(TooManyOrphanBlocks) else Ok(())
      ensures block.hash !in old(chain.storage.ledger.blocks) && block.Parent() in old(chain.storage.ledger.blocks) ==>
                Imports(old(View()), block, View(), accepts, r)
    {
      MembersNamed(pool);
      if chain.storage.ContainsBlock(block.hash) {
        return Ok(());
      }
      if !chain.storage.ContainsBlock(block.Parent()) {
        pool.InsertOrphanedBlock(block);
        if pool.Len() > MAX_ORPHANED_BLOCKS {
          return Err(TooManyOrphanBlocks);
        }
        return Ok(());
      }
      r := ImportWithOrphans(block, accepts);
    }

    /** The block's parent is stored: verify and insert the block and all its orphaned descendants. */
    method ImportWithOrphans(block: IndexedBlock, accepts: Hash -> bool) returns (r: Result<(), WriterError>)
      requires Valid() && block.hash != ZERO
      requires block.hash in pool.members ==> pool.members[block.hash] == block
      requires block.hash !in chain.storage.ledger.blocks && block.Parent() in chain.storage.ledger.blocks
      modifies pool, chain, chain.storage, chain.storage.db.Target()
      ensures Valid() && Imports(old(View()), block, View(), accepts, r)
      ensures r.Ok? ==> Adds(old(chain.storage.ledger.blocks), old(pool.members), block,
                             chain.storage.ledger.blocks, pool.members)
      ensures chain.storage.ledger.canon[0] == old(chain.storage.ledger.canon[0])
      ensures chain.storage.ledger.Best().number >= old(chain.storage.ledger.Best().number)
    {
      ghost var s := View();
      var removed := pool.RemoveBlocksForParent(block.hash);
      var queue := [block] + removed;
      QueueImportable(s.ledger.blocks, s.members, block, removed, pool.members);
      r := VerifyAndInsert(queue, accepts);
      ghost var n: nat :| EndsAt(queue, accepts, n, r) &&
                     chain.storage.ledger.blocks == StoredAll(s.ledger.blocks, queue[..n]);
      QueueImported(s.ledger.blocks, s.members, block, removed, pool.members, n);
      assert ImportsFirst(s, block, View(), removed, n);
    }

    /** The verification loop: blocks go to the chain in order until one is refused. */
    method VerifyAndInsert(queue: seq<IndexedBlock>, accepts: Hash -> bool) returns (r: Result<(), WriterError>)
      requires chain.Valid() && Importable(chain.storage.ledger.blocks, queue)
      modifies chain, chain.storage, chain.storage.db.Target()
      ensures chain.Valid()
      ensures exists n: nat :: EndsAt(queue, accepts, n, r) &&
                chain.storage.ledger.blocks == StoredAll(old(chain.storage.ledger.blocks), queue[..n])
      ensures chain.storage.ledger.canon[0] == old(chain.storage.ledger.canon[0])
      ensures chain.storage.ledger.Best().number >= old(chain.storage.ledger.Best().number)
    {
      ghost var l := chain.storage.ledger;
      ProgressStart(l, queue, accepts);
      for i := 0 to |queue|
        invariant chain.Valid() && Progress(l, queue, accepts, i, chain.storage.ledger)
      {
        ReadyToInsert(l.blocks, queue, i);
        ghost var before := chain.storage.ledger;
        r := VerifyOne(queue[i], accepts);
        if r.Err? {
          ProgressEnd(l, queue, accepts, i, r);
          return;
        }
        ProgressStep(l, queue, accepts, i, before, chain.storage.ledger);
      }
      r := Ok(());
      ProgressEnd(l, queue, accepts, |queue|, r);
    }

    /** One block: the verifier's verdict, then the chain's. */
    method VerifyOne(block: IndexedBlock, accepts: Hash -> bool) returns (r: Result<(), WriterError>)
      requires chain.Valid() && block.hash != ZERO
      requires block.hash !in chain.storage.ledger.blocks && block.Parent() in chain.storage.ledger.blocks
      modifies chain, chain.storage, chain.storage.db.Target()
      ensures chain.Valid() && accepts(block.hash) == (r != Err(Verification))
      ensures r.Err? ==> r == Err(Verification) || r == Err(Database(AncientFork))
      ensures chain.storage.ledger.blocks ==
              if r.Ok? then old(chain.storage.ledger.blocks)[block.hash := block.raw]
              else old(chain.storage.ledger.blocks)
      ensures chain.storage.ledger.canon[0] == old(chain.storage.ledger.canon[0])
      ensures chain.storage.ledger.Best().number >= old(chain.storage.ledger.Best().number)
    {
      if !accepts(block.hash) {
        return Err(Verification);
      }
      InsertBestErrors(chain.storage.ledger, block);
      InsertBestStep(chain.storage.ledger, block);
      var inserted := chain.InsertBestBlock(block);
      r := if inserted.Err? then Err(Database(inserted.error)) else Ok(());
    }
  }

  /** The first `i` blocks of a queue were accepted and stored. */
  ghost predicate Progress(l: Ledger, queue: seq<IndexedBlock>, accepts: Hash -> bool, i: nat, l': Ledger) {
    && i <= |queue| && AcceptsFirst(queue, accepts, i)
    && l'.blocks == StoredAll(l.blocks, queue[..i])
    && l.canon != [] && l'.canon != [] && l'.canon[0] == l.canon[0] && l'.Best().number >= l.Best().number
  }

  lemma ProgressStart(l: Ledger, queue: seq<IndexedBlock>, accepts: Hash -> bool)
    requires l.canon != []
    ensures Progress(l, queue, accepts, 0, l)
  {
  }

  lemma ProgressStep(l: Ledger, queue: seq<IndexedBlock>, accepts: Hash -> bool, i: nat, l': Ledger, l'': Ledger)
    requires i < |queue| && Progress(l, queue, accepts, i, l') && accepts(queue[i].hash)
    requires l''.blocks == l'.blocks[queue[i].hash := queue[i].raw]
    requires l''.canon != [] && l''.canon[0] == l'.canon[0] && l''.Best().number >= l'.Best().number
    ensures Progress(l, queue, accepts, i + 1, l'')
  {
    assert queue[..i + 1][..i] == queue[..i];
  }

  lemma ProgressEnd(l: Ledger, queue: seq<IndexedBlock>, accepts: Hash -> bool, i: nat, r: Result<(), WriterError>)
    requires i <= |queue| && AcceptsFirst(queue, accepts, i)
    requires r.Ok? ==> i == |queue|
    requires r.Err? ==> i < |queue| && (accepts(queue[i].hash) <==> r != Err(Verification))
    requires r.Err? ==> r == Err(Verification) || r == Err(Database(AncientFork))
    ensures EndsAt(queue, accepts, i, r)
  {
  }

  lemma MembersNamed(pool: OrphanBlocksPool)
    requires pool.Valid()
    ensures forall h :: h in pool.members ==> pool.members[h].hash == h
  {
    assert forall h :: h in pool.members ==> Listed(pool.orphanedBlocks, pool.members, h);
  }

  lemma ReadyToInsert(blocks: Blocks, queue: seq<IndexedBlock>, i: nat)
    requires Importable(blocks, queue) && i < |queue|
    ensures queue[i].hash !in StoredAll(blocks, queue[..i]) && queue[i].hash != ZERO
    ensures queue[i].Parent() in StoredAll(blocks, queue[..i])
  {
    var part := queue[..i];
    StoredAllKeys(blocks, part);
    if queue[i].Parent() !in blocks {
      var k :| 0 <= k < i && queue[k].hash == queue[i].Parent();
      assert part[k].hash == queue[i].Parent();
    }
  }
}
