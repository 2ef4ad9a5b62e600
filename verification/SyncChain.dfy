/** The chain as synchronization sees it (sync/src/synchronization_chain.rs): stored blocks, then queued hashes. */
module SyncChain {
  import opened Primitives
  import opened Ledger
  import opened BlockChainDb
  import opened HashQueues
  import opened Sequences
  import opened Locator
  import HeadersChain

  const VERIFYING_QUEUE: nat := 0
  const REQUESTED_QUEUE: nat := 1
  const SCHEDULED_QUEUE: nat := 2
  const NUMBER_OF_QUEUES: nat := 3

  ghost predicate EachValid(queues: seq<HashQueue>) {
    && |queues| == NUMBER_OF_QUEUES
    && (forall i {:trigger queues[i].Valid()} :: 0 <= i < |queues| ==> queues[i].Valid())
  }

  /** No hash is queued twice, in one queue or in two. */
  ghost predicate QueuesValid(queues: seq<HashQueue>) {
    EachValid(queues) && Distinct(Flat(queues))
  }

  /** The queues lose exactly the given hashes and keep their order. */
  ghost predicate Lose(before: seq<HashQueue>, after: seq<HashQueue>, gone: set<Hash>) {
    && QueuesValid(before) && QueuesValid(after)
    && forall i {:trigger LosesAt(before, after, gone, i)} :: 0 <= i < NUMBER_OF_QUEUES ==> LosesAt(before, after, gone, i)
  }

  ghost predicate LosesAt(before: seq<HashQueue>, after: seq<HashQueue>, gone: set<Hash>, i: nat)
    requires i < |before| && i < |after|
  {
    after[i].queue == Except(before[i].queue, gone)
  }

  lemma ThreeQueues(queues: seq<HashQueue>)
    requires |queues| == NUMBER_OF_QUEUES
    ensures Flat(queues) == queues[0].queue + queues[1].queue + queues[2].queue
  {
    assert queues == [queues[0], queues[1], queues[2]];
    FlatOfThree(queues[0], queues[1], queues[2]);
  }

  lemma DistinctParts(queues: seq<HashQueue>)
    requires QueuesValid(queues)
    ensures Distinct(queues[REQUESTED_QUEUE].queue + queues[SCHEDULED_QUEUE].queue)
  {
    ThreeQueues(queues);
    var n, flat := |queues[0].queue|, Flat(queues);
    assert flat[n..] == queues[1].queue + queues[2].queue;
  }

  lemma LoseFlat(before: seq<HashQueue>, after: seq<HashQueue>, gone: set<Hash>)
    requires |before| == NUMBER_OF_QUEUES && |after| == NUMBER_OF_QUEUES
    requires forall i :: 0 <= i < NUMBER_OF_QUEUES ==> LosesAt(before, after, gone, i)
    ensures Flat(after) == Except(Flat(before), gone)
  {
    ThreeQueues(before);
    ThreeQueues(after);
    assert LosesAt(before, after, gone, 0) && LosesAt(before, after, gone, 1) && LosesAt(before, after, gone, 2);
    ExceptConcat(before[0].queue + before[1].queue, before[2].queue, gone);
    ExceptConcat(before[0].queue, before[1].queue, gone);
  }

  function Elements(s: seq<Hash>): set<Hash> {
    set h | h in s
  }

  lemma LoseNothing(queues: seq<HashQueue>)
    requires QueuesValid(queues)
    ensures Lose(queues, queues, {})
  {
    forall i | 0 <= i < NUMBER_OF_QUEUES ensures LosesAt(queues, queues, {}, i) {
      ExceptNothing(queues[i].queue);
    }
  }

  lemma LoseTwice(a: seq<HashQueue>, b: seq<HashQueue>, c: seq<HashQueue>, gone: set<Hash>, more: set<Hash>)
    requires Lose(a, b, gone) && Lose(b, c, more)
    ensures Lose(a, c, gone + more)
  {
    forall i | 0 <= i < NUMBER_OF_QUEUES ensures LosesAt(a, c, gone + more, i) {
      assert LosesAt(a, b, gone, i) && LosesAt(b, c, more, i);
      ExceptTwice(a[i].queue, gone, more);
    }
  }

  /** A hash is in at most one of the queues, so taking it out of the one that has it takes it out of all. */
  lemma LoseOne(queues: seq<HashQueue>, j: nat, rest: HashQueue, hash: Hash)
    requires QueuesValid(queues) && j < NUMBER_OF_QUEUES
    requires rest.Valid() && rest.queue == Except(queues[j].queue, {hash})
    requires hash in queues[j].queue || hash !in Flat(queues)
    ensures Lose(queues, queues[j := rest], {hash})
  {
    var after := queues[j := rest];
    forall i | 0 <= i < NUMBER_OF_QUEUES ensures LosesAt(queues, after, {hash}, i) {
      if i != j {
        NotElsewhere(queues, i, j, hash);
        ExceptAbsent(queues[i].queue, hash);
      }
    }
    forall i | 0 <= i < |after| ensures after[i].Valid() {
      assert i != j ==> queues[i].Valid();
    }
    LoseFlat(queues, after, {hash});
    ExceptDistinct(Flat(queues), {hash});
  }

  /** The queue from which a hash is removed: the first that has it. */
  function FirstWith(queues: seq<HashQueue>, hash: Hash): nat
    requires |queues| == NUMBER_OF_QUEUES
  {
    if hash in queues[0].queue then 0 else if hash in queues[1].queue then 1 else 2
  }

  ghost predicate LosesFirst(before: seq<HashQueue>, after: seq<HashQueue>, hash: Hash)
    requires EachValid(before)
  {
    var j := FirstWith(before, hash);
    && EachValid(after) && after[j].queue == Except(before[j].queue, {hash})
    && forall i :: 0 <= i < NUMBER_OF_QUEUES && i != j ==> after[i] == before[i]
  }

  lemma LosesFirstLoses(queues: seq<HashQueue>, j: nat, rest: HashQueue, hash: Hash)
    requires EachValid(queues) && j == FirstWith(queues, hash)
    requires rest.Valid() && rest.queue == Except(queues[j].queue, {hash})
    ensures LosesFirst(queues, queues[j := rest], hash)
    ensures QueuesValid(queues) ==> Lose(queues, queues[j := rest], {hash})
  {
    var after := queues[j := rest];
    forall i | 0 <= i < |after| ensures after[i].Valid() {
      assert i != j ==> queues[i].Valid();
    }
    if QueuesValid(queues) {
      ThreeQueues(queues);
      LoseOne(queues, j, rest, hash);
    }
  }

  /** New hashes at the end of all queues. */
  lemma DistinctAppend(s: seq<Hash>, more: seq<Hash>)
    requires Distinct(s) && Distinct(more) && forall i :: 0 <= i < |more| ==> more[i] !in s
    ensures Distinct(s + more)
  {
    var all := s + more;
    forall i, j | 0 <= i < j < |all| ensures all[i] != all[j] {
      if i < |s| <= j {
        assert all[j] == more[j - |s|] && all[i] in s;
      }
    }
  }

  lemma DistinctLast(queues: seq<HashQueue>, hashes: seq<Hash>)
    requires |queues| == NUMBER_OF_QUEUES && Distinct(Flat(queues) + hashes)
    ensures Distinct(queues[SCHEDULED_QUEUE].queue + hashes)
  {
    ThreeQueues(queues);
    Associate(queues[0].queue + queues[1].queue, queues[2].queue, hashes);
    DistinctSplit(queues[0].queue + queues[1].queue, queues[2].queue + hashes, ZERO);
  }

  lemma QueuesAppended(queues: seq<HashQueue>, longer: HashQueue, hashes: seq<Hash>)
    requires QueuesValid(queues) && Distinct(Flat(queues) + hashes)
    requires longer.Valid() && longer.queue == queues[SCHEDULED_QUEUE].queue + hashes
    ensures var after := queues[SCHEDULED_QUEUE := longer];
            QueuesValid(after) && Flat(after) == Flat(queues) + hashes
  {
    var after := queues[SCHEDULED_QUEUE := longer];
    ThreeQueues(queues);
    ThreeQueues(after);
    Associate(queues[0].queue + queues[1].queue, queues[2].queue, hashes);
    forall i | 0 <= i < |after| ensures after[i].Valid() {
      assert i != SCHEDULED_QUEUE ==> queues[i].Valid();
    }
  }

  /** Puts hashes at the end of the last queue. */
  method ScheduleHashes(queues: seq<HashQueue>, hashes: seq<Hash>) returns (after: seq<HashQueue>)
    requires QueuesValid(queues) && Distinct(Flat(queues) + hashes)
    ensures QueuesValid(after) && Flat(after) == Flat(queues) + hashes
    ensures after[VERIFYING_QUEUE] == queues[VERIFYING_QUEUE] && after[REQUESTED_QUEUE] == queues[REQUESTED_QUEUE]
  {
    assert queues[SCHEDULED_QUEUE].Valid();
    DistinctLast(queues, hashes);
    var longer := PushBackN(queues[SCHEDULED_QUEUE], hashes);
    QueuesAppended(queues, longer, hashes);
    after := queues[SCHEDULED_QUEUE := longer];
  }

  lemma QueuesPushed(queues: seq<HashQueue>, hash: Hash)
    requires QueuesValid(queues) && hash !in Flat(queues) && hash !in queues[VERIFYING_QUEUE].elements
    requires queues[VERIFYING_QUEUE].PushBack(hash).Valid()
    ensures QueuesValid(queues[VERIFYING_QUEUE := queues[VERIFYING_QUEUE].PushBack(hash)])
  {
    var after := queues[VERIFYING_QUEUE := queues[VERIFYING_QUEUE].PushBack(hash)];
    ThreeQueues(queues);
    ThreeQueues(after);
    forall i | 0 <= i < |after| ensures after[i].Valid() {
      assert i != VERIFYING_QUEUE ==> queues[i].Valid();
    }
    DistinctInsert(Flat(queues), |queues[0].queue|, hash);
    var n, flat := |queues[0].queue|, Flat(queues);
    assert flat[..n] == queues[0].queue && flat[n..] == queues[1].queue + queues[2].queue;
    assert Flat(after) == flat[..n] + [hash] + flat[n..];
  }

  lemma DistinctInsert(s: seq<Hash>, n: nat, hash: Hash)
    requires Distinct(s) && n <= |s| && hash !in s
    ensures Distinct(s[..n] + [hash] + s[n..])
  {
    var all := s[..n] + [hash] + s[n..];
    forall i, j | 0 <= i < j < |all| ensures all[i] != all[j] {
      assert i < n ==> all[i] == s[i];
      assert i > n ==> all[i] == s[i - 1];
      assert j < n ==> all[j] == s[j];
      assert j > n ==> all[j] == s[j - 1];
    }
  }

  lemma NotElsewhere(queues: seq<HashQueue>, i: nat, j: nat, hash: Hash)
    requires QueuesValid(queues) && i < NUMBER_OF_QUEUES && j < NUMBER_OF_QUEUES && i != j
    requires hash in queues[j].queue || hash !in Flat(queues)
    ensures hash !in queues[i].queue
  {
    ThreeQueues(queues);
    DistinctSplit(queues[0].queue + queues[1].queue, queues[2].queue, hash);
    DistinctSplit(queues[0].queue, queues[1].queue, hash);
  }

  class Chain {
    const genesisBlockHash: Hash
    const storage: BlockChainDatabase
    var bestStorageBlock: BestBlock
    var hashChain: seq<HashQueue>
    var headersChain: HeadersChain.BestHeadersChain

    /** The stored part: the store is consistent, and the cached best block is the store's. */
    ghost predicate ValidStorage()
      reads this, storage, storage.db.Target(), storage.db.Base()
    {
      && this !in {storage, storage.db.Target(), storage.db.Base()}
      && storage.db.Canon?
      && storage.Valid()
      && storage.ledger.Longest()
      && bestStorageBlock == storage.ledger.Best()
      && genesisBlockHash == storage.ledger.canon[0]
    }

    ghost predicate Valid()
      reads this, storage, storage.db.Target(), storage.db.Base()
    {
      && ValidStorage() && QueuesValid(hashChain)
      && headersChain.Valid() && headersChain.storageBestHash == bestStorageBlock.hash
    }

    function BestBlockHeader(): BestBlock
      reads this
    {
      HeadersChain.BestHeader(headersChain, bestStorageBlock)
    }

    constructor (storage: BlockChainDatabase)
      requires storage.Valid() && storage.db.Canon? && storage.ledger.Longest()
      ensures this.storage == storage && Valid()
      ensures hashChain == [EMPTY, EMPTY, EMPTY] && headersChain.best == EMPTY
    {
      FlatOfThree(EMPTY, EMPTY, EMPTY);
      this.genesisBlockHash := storage.BlockHash(0).value;
      this.storage := storage;
      this.bestStorageBlock := storage.bestBlock;
      this.hashChain := [EMPTY, EMPTY, EMPTY];
      this.headersChain := HeadersChain.BestHeadersChain(storage.bestBlock.hash, map[], EMPTY);
    }

    /** Stores a new block, reorganizing the canonical chain when a side chain has become longer. */
    method InsertBestBlock(block: IndexedBlock) returns (r: Result<seq<Hash>, Error>)
      requires Valid() && block.hash != ZERO && block.hash !in storage.ledger.blocks
      modifies this, storage, storage.db.Target()
      ensures Valid()
      ensures (storage.ledger, r) == InsertBest(old(storage.ledger), block)
      ensures hashChain == old(hashChain)
      ensures r.Err? ==> headersChain == old(headersChain)
      ensures r.Ok? ==> HeadersChain.Loses(old(headersChain), block.hash, headersChain)
      ensures block.Parent() == old(bestStorageBlock).hash && HeadersChain.AwaitsFirst(old(headersChain), block.hash) ==>
                BestBlockHeader() == old(BestBlockHeader()) && HeadersChain.OnStorage(headersChain)
    {
      r := UpdateStorage(block);
      if r.Ok? {
        headersChain := TakeOff(block, old(bestStorageBlock));
      }
    }

    /** The part that concerns the headers. */
    method TakeOff(block: IndexedBlock, ghost before: BestBlock) returns (c: HeadersChain.BestHeadersChain)
      requires headersChain.Valid()
      ensures c.Valid() && c.storageBestHash == bestStorageBlock.hash && HeadersChain.Loses(headersChain, block.hash, c)
      ensures HeadersChain.AwaitsFirst(headersChain, block.hash) &&
              bestStorageBlock == BestBlock(before.number + 1, block.hash) ==>
                && HeadersChain.BestHeader(c, bestStorageBlock) == HeadersChain.BestHeader(headersChain, before)
                && HeadersChain.OnStorage(c)
    {
      HeadersChain.BlockInsertedToStorageValid(headersChain, block.hash, bestStorageBlock.hash);
      c := headersChain.BlockInsertedToStorage(block.hash, bestStorageBlock.hash);
      if HeadersChain.AwaitsFirst(headersChain, block.hash) &&
         bestStorageBlock == BestBlock(before.number + 1, block.hash) {
        HeadersChain.StaysOnStorage(headersChain, block.hash, c, before.number, before.hash);
      }
    }

    /** The part of `insert_best_block` that concerns the store and the cached best block. */
    method UpdateStorage(block: IndexedBlock) returns (r: Result<seq<Hash>, Error>)
      requires ValidStorage() && block.hash != ZERO && block.hash !in storage.ledger.blocks
      modifies this`bestStorageBlock, storage, storage.db.Target()
      ensures ValidStorage()
      ensures (storage.ledger, r) == InsertBest(old(storage.ledger), block)
    {
      ghost var l := storage.ledger;
      InsertBestStep(l, block);
      InsertBestErrors(l, block);
      var origin := storage.BlockOrigin(block.hash, block.Parent());
      match origin {
        case Err(e) =>
          return Err(e);
        case Ok(KnownBlock) =>
          assert false;
        case Ok(CanonChain(_)) =>
          StoreOnTop(block);
          r := Ok([block.hash]);
        case Ok(SideChainBecomingCanonChain(side)) =>
          Reorganize(block, side);
          r := Ok(side.canonizedRoute + [block.hash]);
        case Ok(SideChain(_)) =>
          var inserted := storage.Insert(block);
          r := Ok([]);
      }
      bestStorageBlock := storage.bestBlock;
    }

    /** Case 1 of `insert_best_block`: the block extends the main branch. */
    method StoreOnTop(block: IndexedBlock)
      requires storage.Valid() && storage.ledger.Rooted()
      requires block.hash != ZERO && block.hash !in storage.ledger.blocks
      requires block.Parent() == storage.ledger.Top()
      modifies storage, storage.db.Target()
      ensures storage.Valid() && CanInsert(old(storage.ledger), block)
      ensures storage.ledger == WithTop(WithBlock(old(storage.ledger), block), block.hash)
    {
      TopStored(storage.ledger);
      var inserted := storage.Insert(block);
      var canonized := storage.Canonize(block.hash);
    }

    /** Case 2 of `insert_best_block`: a side branch has become longer, and the store switches to it. */
    method Reorganize(block: IndexedBlock, side: SideChainOrigin)
      requires storage.Valid() && storage.db.Canon? && storage.ledger.Rooted()
      requires block.hash != ZERO && block.hash !in storage.ledger.blocks
      requires block.Parent() in storage.ledger.blocks && side == SideOrigin(storage.ledger, block.Parent())
      modifies storage, storage.db.Target()
      ensures storage.Valid() && side.ancestor < |old(storage.ledger).canon|
      ensures CanInsert(Reorganized(old(storage.ledger), side), block)
      ensures storage.ledger == WithTop(WithBlock(Reorganized(old(storage.ledger), side), block), block.hash)
    {
      ghost var l := storage.ledger;
      ReorganizationFits(l, block);
      var forked := storage.Fork(side);
      var fork := forked.value;
      assert fork.ledger == Reorganized(l, side);
      var inserted := fork.Insert(block);
      var canonized := fork.Canonize(block.hash);
      storage.SwitchToFork(fork);
    }

    // ---- Block locator ----

    /** Hashes by height: the canonical chain, then everything queued above it. */
    ghost function Hashes(): seq<Hash>
      reads this, storage
    {
      storage.ledger.canon + Flat(hashChain)
    }

    method BlockLocatorHashes() returns (hashes: seq<Hash>)
      requires Valid()
      ensures hashes == LocatorOf(Hashes())
    {
      ghost var chain := Hashes();
      var localIndex, step;
      hashes, localIndex, step := BlockLocatorHashesForQueue(storage.ledger.canon);
      var storageIndex := if bestStorageBlock.number < localIndex then 0 else bestStorageBlock.number - localIndex;
      hashes := BlockLocatorHashesForStorage(chain, hashes, storageIndex, step);
    }

    /** Lists entries while they lie in the queues; then says how far below the best stored block to go on. */
    method BlockLocatorHashesForQueue(ghost canon: seq<Hash>)
      returns (hashes: seq<Hash>, localIndex: nat, step: nat)
      requires canon != []
      ensures Listed(canon + Flat(hashChain), hashes) && step == Gap(|hashes|)
      ensures Descent(|hashes|) == |Flat(hashChain)| + localIndex
      ensures hashes != [] ==> Descent(|hashes| - 1) < |Flat(hashChain)|
    {
      var queueLen := Len(hashChain);
      if queueLen == 0 {
        return [], 0, 1;
      }
      ghost var chain := canon + Flat(hashChain);
      var index := queueLen - 1;
      hashes, step := [], 1;
      while true
        invariant Listed(chain, hashes) && step == Gap(|hashes|)
        invariant 0 <= index == queueLen - 1 - Descent(|hashes|)
        decreases index
      {
        var found := FlatAt(hashChain, index);
        ListedPush(chain, hashes);
        StepDown(|hashes|);
        hashes := hashes + [found.value];
        if |hashes| >= 10 {
          step := 2 * step;
        }
        if index < step {
          return hashes, step - index - 1, step;
        }
        index := index - step;
      }
    }

    method BlockLocatorHashesForStorage(ghost chain: seq<Hash>, listed: seq<Hash>, start: nat, startStep: nat)
      returns (hashes: seq<Hash>)
      requires storage.Valid() && Listing(chain, listed, start, startStep) && start < |storage.ledger.canon|
      requires storage.ledger.canon <= chain && genesisBlockHash == chain[0]
      ensures hashes == LocatorOf(chain)
    {
      hashes := listed;
      var index, step := start, startStep;
      while true
        invariant 0 <= index <= start && Listing(chain, hashes, index, step)
        decreases index
      {
        ListingStep(chain, hashes, index, step);
        var found := storage.BlockHash(index);
        hashes := hashes + [found.value];
        if |hashes| >= 10 {
          step := 2 * step;
        }
        if index < step {
          if index != 0 {
            hashes := hashes + [genesisBlockHash];
          }
          return;
        }
        index := index - step;
      }
    }

    // ---- Queued blocks ----

    /** Schedules are turned into requests: blocks move from one queue to the next and keep their order. */
    method RequestBlocksHashes(n: nat) returns (requested: seq<Hash>)
      requires Valid()
      modifies this`hashChain
      ensures Valid() && Hashes() == old(Hashes())
      ensures old(hashChain)[SCHEDULED_QUEUE].queue == requested + hashChain[SCHEDULED_QUEUE].queue
      ensures hashChain[REQUESTED_QUEUE].queue == old(hashChain)[REQUESTED_QUEUE].queue + requested
      ensures hashChain[VERIFYING_QUEUE] == old(hashChain)[VERIFYING_QUEUE]
      ensures |requested| == if n < |old(hashChain)[SCHEDULED_QUEUE].queue| then n
                             else |old(hashChain)[SCHEDULED_QUEUE].queue|
    {
      var queues := hashChain;
      assert queues[0].Valid() && queues[1].Valid() && queues[2].Valid();
      var rest, scheduled := PopFrontN(queues[SCHEDULED_QUEUE], n);
      DistinctParts(queues);
      assert Distinct(queues[REQUESTED_QUEUE].queue + scheduled) by {
        assert forall i :: 0 <= i < |queues[1].queue + scheduled| ==>
            (queues[1].queue + scheduled)[i] == (queues[1].queue + queues[2].queue)[i];
      }
      var longer := PushBackN(queues[REQUESTED_QUEUE], scheduled);
      var moved := queues[SCHEDULED_QUEUE := rest][REQUESTED_QUEUE := longer];
      ThreeQueues(queues);
      ThreeQueues(moved);
      assert Flat(moved) == Flat(queues);
      hashChain := moved;
      requested := scheduled;
    }

    /** Hashes that are neither queued nor known as headers; callers take no others. */
    ghost predicate Unknown(headers: seq<IndexedHeader>)
      reads this
    {
      HeadersChain.AreNew(headersChain, headers) &&
      forall i :: 0 <= i < |headers| ==> headers[i].hash !in Flat(hashChain)
    }

    /** New blocks join the end of the last queue, and their headers the chain of headers if they continue it. */
    method ScheduleBlocksHeaders(headers: seq<IndexedHeader>)
      requires Valid() && Unknown(headers)
      modifies this`hashChain, this`headersChain
      ensures Valid() && Hashes() == old(Hashes()) + HeadersChain.HashesOf(headers)
      ensures hashChain[VERIFYING_QUEUE] == old(hashChain)[VERIFYING_QUEUE]
      ensures hashChain[REQUESTED_QUEUE] == old(hashChain)[REQUESTED_QUEUE]
      ensures old(headersChain).best.queue <= headersChain.best.queue
      ensures HeadersChain.Continues(old(headersChain), headers) ==>
                && headersChain.best.queue == old(headersChain).best.queue + HeadersChain.HashesOf(headers)
                && HeadersChain.HoldsAll(headersChain, headers)
    {
      DistinctAppend(Flat(hashChain), HeadersChain.HashesOf(headers));
      Associate(storage.ledger.canon, Flat(hashChain), HeadersChain.HashesOf(headers));
      var queues := ScheduleHashes(hashChain, HeadersChain.HashesOf(headers));
      var chain := HeadersChain.InsertN(headersChain, headers);
      hashChain := queues;
      headersChain := chain;
    }

    /** A new block joins the end of the first queue. */
    method VerifyBlock(header: IndexedHeader)
      requires Valid() && header.hash !in Flat(hashChain)
      requires headersChain.BestBlockHash() == header.raw.previousHeaderHash ==> header.hash !in headersChain.best.elements
      modifies this`hashChain, this`headersChain
      ensures Valid()
      ensures if old(headersChain).BestBlockHash() == header.raw.previousHeaderHash then
                HeadersChain.Extends(old(headersChain), header, headersChain)
              else headersChain == old(headersChain)
      ensures hashChain[VERIFYING_QUEUE].queue == old(hashChain)[VERIFYING_QUEUE].queue + [header.hash]
      ensures hashChain[REQUESTED_QUEUE] == old(hashChain)[REQUESTED_QUEUE]
      ensures hashChain[SCHEDULED_QUEUE] == old(hashChain)[SCHEDULED_QUEUE]
    {
      var queues := hashChain;
      assert queues[0].Valid() && queues[1].Valid() && queues[2].Valid();
      ThreeQueues(queues);
      PushBackValid(queues[VERIFYING_QUEUE], header.hash);
      QueuesPushed(queues, header.hash);
      HeadersChain.InsertValid(headersChain, header);
      hashChain := queues[VERIFYING_QUEUE := queues[VERIFYING_QUEUE].PushBack(header.hash)];
      headersChain := headersChain.Insert(header);
    }

    /** Forgets a block in the first queue that has it; its header stays. */
    method ForgetBlockLeaveHeader(hash: Hash) returns (position: HashPosition)
      requires EachValid(hashChain)
      modifies this`hashChain
      ensures LosesFirst(old(hashChain), hashChain, hash)
      ensures QueuesValid(old(hashChain)) ==> Lose(old(hashChain), hashChain, {hash})
      ensures position == Missing <==> hash !in old(Flat(hashChain))
    {
      var queues := hashChain;
      var rest;
      ThreeQueues(queues);
      assert queues[0].Valid() && queues[1].Valid() && queues[2].Valid();
      rest, position := HashQueues.Remove(queues[VERIFYING_QUEUE], hash);
      if position != Missing {
        LosesFirstLoses(queues, VERIFYING_QUEUE, rest, hash);
        hashChain := queues[VERIFYING_QUEUE := rest];
        return;
      }
      rest, position := HashQueues.Remove(queues[REQUESTED_QUEUE], hash);
      if position != Missing {
        LosesFirstLoses(queues, REQUESTED_QUEUE, rest, hash);
        hashChain := queues[REQUESTED_QUEUE := rest];
        return;
      }
      rest, position := HashQueues.Remove(queues[SCHEDULED_QUEUE], hash);
      LosesFirstLoses(queues, SCHEDULED_QUEUE, rest, hash);
      hashChain := queues[SCHEDULED_QUEUE := rest];
    }

    /** Forgets a block and, with its header, the headers after it. */
    method ForgetBlock(hash: Hash) returns (position: HashPosition)
      requires QueuesValid(hashChain) && headersChain.Valid()
      modifies this`hashChain, this`headersChain
      ensures Lose(old(hashChain), hashChain, {hash})
      ensures position == Missing <==> hash !in old(Flat(hashChain))
      ensures HeadersChain.CutAt(old(headersChain), hash, headersChain) && headersChain.Valid()
    {
      headersChain := HeadersChain.Remove(headersChain, hash);
      position := ForgetBlockLeaveHeader(hash);
    }

    /**
     Forgets a block and all blocks queued as its descendants: the headers keep what comes before it, and the
     queues lose it and its successors and nothing else.
     */
    method ForgetBlockWithChildren(hash: Hash)
      requires QueuesValid(hashChain) && headersChain.Valid()
      modifies this`hashChain, this`headersChain
      ensures Forgotten(old(hashChain), old(headersChain), hash, hashChain, headersChain)
    {
      var stack := Descendants(headersChain, hash);
      ghost var first := ForgettingStart(hashChain, headersChain, hash, stack);
      var n := |stack|;
      while n > 0
        invariant 0 <= n <= |stack| && headersChain.Valid()
        invariant QueuesForgot(first, n, hashChain) && HeadersForgot(first, n, headersChain)
      {
        n := n - 1;
        ghost var queues, headers := hashChain, headersChain;
        var position := ForgetBlock(stack[n]);
        QueuesStep(first, n, queues, hashChain);
        HeadersStep(first, n, headers, headersChain);
      }
      ForgettingEnd(first, hash, hashChain, headersChain);
    }
  }

  /** Headers and queues have lost a hash and all that is queued after it among the headers, and nothing else. */
  ghost predicate Forgotten(
    queues: seq<HashQueue>, headers: HeadersChain.BestHeadersChain, hash: Hash,
    queues': seq<HashQueue>, headers': HeadersChain.BestHeadersChain)
  {
    && HeadersChain.CutAt(headers, hash, headers')
    && (hash !in headers.best.queue ==> Lose(queues, queues', {hash}))
    && forall p :: 0 <= p < |headers.best.queue| && headers.best.queue[p] == hash ==>
         Lose(queues, queues', Elements(headers.best.queue[p..]))
  }

  // ---- Working off the removal stack ----

  /** How things were before, with the stack of hashes to remove and the place of the lowest among the headers. */
  datatype Forgetting = Forgetting(
    queues: seq<HashQueue>, headers: HeadersChain.BestHeadersChain, p: nat, stack: seq<Hash>)
  {
    /** The stack is the end of the header queue, or one hash that is not queued there. */
    ghost predicate Valid() {
      && QueuesValid(queues) && headers.Valid()
      && if p < |headers.best.queue| then stack == headers.best.queue[p..]
         else p == |headers.best.queue| && |stack| == 1 && stack[0] !in headers.best.queue
    }
  }

  /** The queues have lost all but the lowest `n` hashes of the stack. */
  ghost predicate QueuesForgot(f: Forgetting, n: nat, queues: seq<HashQueue>) {
    n <= |f.stack| && Lose(f.queues, queues, Elements(f.stack[n..]))
  }

  /** The headers have lost all but the lowest `n` hashes of the stack, if the stack is about them. */
  ghost predicate HeadersForgot(f: Forgetting, n: nat, headers: HeadersChain.BestHeadersChain) {
    && n <= |f.stack| && f.Valid()
    && if f.p < |f.headers.best.queue| then HeadersChain.IsPrefix(f.headers, f.p + n, headers)
       else headers == f.headers
  }

  lemma ForgettingStart(queues: seq<HashQueue>, headers: HeadersChain.BestHeadersChain, hash: Hash, stack: seq<Hash>)
    returns (f: Forgetting)
    requires QueuesValid(queues) && headers.Valid() && AreDescendants(headers.best.queue, hash, stack)
    ensures f.queues == queues && f.headers == headers && f.stack == stack && stack != [] && stack[0] == hash
    ensures QueuesForgot(f, |stack|, queues) && HeadersForgot(f, |stack|, headers)
  {
    f := Forgetting(queues, headers, IndexOf(headers.best.queue, hash), stack);
    LoseNothing(queues);
    assert Elements(stack[|stack|..]) == {};
  }

  lemma QueuesStep(f: Forgetting, n: nat, queues: seq<HashQueue>, queues': seq<HashQueue>)
    requires n < |f.stack| && QueuesForgot(f, n + 1, queues) && Lose(queues, queues', {f.stack[n]})
    ensures QueuesForgot(f, n, queues')
  {
    LoseTwice(f.queues, queues, queues', Elements(f.stack[n + 1..]), {f.stack[n]});
    ElementsPush(f.stack, n);
  }

  lemma HeadersStep(
    f: Forgetting, n: nat, headers: HeadersChain.BestHeadersChain, headers': HeadersChain.BestHeadersChain)
    requires n < |f.stack| && HeadersForgot(f, n + 1, headers) && HeadersChain.CutAt(headers, f.stack[n], headers')
    ensures HeadersForgot(f, n, headers')
  {
    if f.p < |f.headers.best.queue| {
      CutNext(f.headers, headers, headers', f.p + n);
    }
  }

  lemma CutNext(
    c: HeadersChain.BestHeadersChain, d: HeadersChain.BestHeadersChain, e: HeadersChain.BestHeadersChain, m: nat)
    requires m < |c.best.queue| && HeadersChain.IsPrefix(c, m + 1, d) && HeadersChain.CutAt(d, c.best.queue[m], e)
    ensures HeadersChain.IsPrefix(c, m, e)
  {
    assert d.best.queue[m] == c.best.queue[m];
    HeadersChain.PrefixOfPrefix(c, d, e, m, m + 1);
  }

  lemma ForgettingEnd(f: Forgetting, hash: Hash, queues: seq<HashQueue>, headers: HeadersChain.BestHeadersChain)
    requires QueuesForgot(f, 0, queues) && HeadersForgot(f, 0, headers)
    requires f.stack != [] && f.stack[0] == hash
    ensures Forgotten(f.queues, f.headers, hash, queues, headers)
  {
    assert f.stack[0..] == f.stack;
    if f.p < |f.headers.best.queue| {
      DistinctAt(f.headers.best.queue, f.p);
    } else {
      assert Elements(f.stack) == {hash};
    }
  }

  lemma ElementsPush(s: seq<Hash>, n: nat)
    requires n < |s|
    ensures Elements(s[n..]) == Elements(s[n + 1..]) + {s[n]}
  {
    assert s[n..] == [s[n]] + s[n + 1..];
  }

  lemma DistinctAt(s: seq<Hash>, p: nat)
    requires Distinct(s) && p < |s|
    ensures forall i :: 0 <= i < |s| && s[i] == s[p] ==> i == p
  {
  }

  /** The given hash and everything queued after it, in order; only the hash itself if it is not queued. */
  ghost predicate AreDescendants(all: seq<Hash>, hash: Hash, stack: seq<Hash>) {
    var p := IndexOf(all, hash);
    stack == if p < |all| then all[p..] else [hash]
  }

  /** The search for descendants: `stack` lists what was found, `queue` holds at most one hash still to look at. */
  ghost predicate Collecting(all: seq<Hash>, hash: Hash, p: nat, stack: seq<Hash>, queue: seq<Hash>) {
    if p < |all| then
      && all[p] == hash && p + |stack| <= |all| && stack == all[p..p + |stack|]
      && queue == if p + |stack| < |all| then [all[p + |stack|]] else []
    else
      && p == |all| && hash !in all
      && if stack == [] then queue == [hash] else stack == [hash] && queue == []
  }

  lemma CollectingStep(all: seq<Hash>, hash: Hash, p: nat, stack: seq<Hash>, queue: seq<Hash>, children: seq<Hash>)
    requires Collecting(all, hash, p, stack, queue) && queue != [] && HeadersChain.AreChildren(all, queue[0], children)
    ensures Collecting(all, hash, p, stack + [queue[0]], queue[1..] + children)
    ensures |stack| <= |all|
  {
    assert queue[1..] + children == children;
    if p < |all| {
      assert all[p + |stack|] == queue[0];
    }
  }

  /** The first loop of `forget_block_with_children`. */
  method Descendants(headers: HeadersChain.BestHeadersChain, hash: Hash) returns (stack: seq<Hash>)
    requires headers.Valid()
    ensures AreDescendants(headers.best.queue, hash, stack)
  {
    ghost var all := headers.best.queue;
    ghost var p := IndexOf(all, hash);
    var removalQueue := [hash];
    stack := [];
    while removalQueue != []
      invariant Collecting(all, hash, p, stack, removalQueue)
      decreases |all| + 1 - |stack|
    {
      var next := removalQueue[0];
      var children := HeadersChain.Children(headers, next);
      CollectingStep(all, hash, p, stack, removalQueue, children);
      removalQueue := removalQueue[1..] + children;
      stack := stack + [next];
    }
  }
}
