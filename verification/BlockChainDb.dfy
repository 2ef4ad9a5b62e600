/** The block store (db/src/block_chain_db.rs). Its ghost `ledger` is what the rows stand for. */
module BlockChainDb {
  import opened Primitives
  import opened KeyValue
  import opened KvStack
  import opened Ledger
  import opened ChainRows
  import opened Sequences

  /** Read from the end, the shorter of the two is the beginning of the longer. */
  ghost predicate EndsAlike(canon: seq<Hash>, route: seq<Hash>) {
    if |route| <= |canon| then route == canon[|canon| - |route|..] else canon == route[|route| - |canon|..]
  }

  /** With `i` blocks taken off, the next hash of the route is that of the top. */
  lemma TopOfRoute(canon: seq<Hash>, route: seq<Hash>, i: nat)
    requires EndsAlike(canon, route) && i < |route| && i < |canon|
    ensures End(ZERO, canon[..|canon| - i]) == route[|route| - 1 - i]
  {
    SameFromEnd(canon, route, i);
  }

  lemma TakeInit(s: seq<Hash>, n: nat)
    requires 0 < n <= |s|
    ensures s[..n][..n - 1] == s[..n - 1]
  {
  }

  lemma SameFromEnd(canon: seq<Hash>, route: seq<Hash>, i: nat)
    requires EndsAlike(canon, route) && i < |route| && i < |canon|
    ensures route[|route| - 1 - i] == canon[|canon| - 1 - i]
  {
    if |route| <= |canon| {
      assert route[|route| - 1 - i] == canon[|canon| - |route|..][|route| - 1 - i];
    } else {
      assert canon[|canon| - 1 - i] == route[|route| - |canon|..][|canon| - 1 - i];
    }
  }

  class BlockChainDatabase {
    const db: Backend
    var bestBlock: BestBlock
    ghost var ledger: Ledger

    ghost predicate Valid()
      reads this, db.Target(), db.Base()
    {
      && this !in {db.Target(), db.Base()}
      && db.Valid()
      && ledger.Valid()
      && Represents(db.View(), ledger)
      && bestBlock == ledger.Best()
    }

    /** Opening reads the best block back from the rows. */
    constructor (db: Backend, ghost ledger: Ledger)
      requires db.Valid() && ledger.Valid() && Represents(db.View(), ledger)
      ensures this.db == db && this.ledger == ledger
      ensures Valid()
    {
      this.db := db;
      this.bestBlock := ReadBestBlock(db);
      this.ledger := ledger;
    }

    static function ReadBestBlock(db: Backend): (best: BestBlock)
      requires db.Valid()
      reads db.Target(), db.Base()
      ensures forall l: Ledger :: Represents(db.View(), l) ==> best == l.Best()
    {
      match (db.Get(MetaKey(BestBlockNumber)).IntoOption(), db.Get(MetaKey(BestBlockHash)).IntoOption())
      case (Some(MetaValue(NumberEntry(number))), Some(MetaValue(HashEntry(hash)))) => BestBlock(number, hash)
      case _ => NO_BEST_BLOCK
    }

    // ---- Lookups ----

    function BlockHash(number: nat): (h: Option<Hash>)
      requires Valid()
      reads this, db.Target(), db.Base()
      ensures h == if number < |ledger.canon| then Some(ledger.canon[number]) else None
    {
      AsBlockHash(db.Get(BlockHashKey(number)).IntoOption())
    }

    function BlockNumber(hash: Hash): (n: Option<nat>)
      requires Valid()
      reads this, db.Target(), db.Base()
      ensures n == if ledger.IsCanonical(hash) then Some(ledger.height[hash]) else None
    {
      AsBlockNumber(db.Get(BlockNumberKey(hash)).IntoOption())
    }

    function BlockByHash(hash: Hash): (b: Option<Block>)
      requires Valid()
      reads this, db.Target(), db.Base()
      ensures b == if hash in ledger.blocks then Some(ledger.blocks[hash]) else None
    {
      AsBlock(db.Get(BlockKey(hash)).IntoOption())
    }

    predicate ContainsBlock(hash: Hash)
      requires Valid()
      reads this, db.Target(), db.Base()
      ensures ContainsBlock(hash) <==> hash in ledger.blocks
    {
      db.Get(BlockKey(hash)).IntoOption().Some?
    }

    // ---- Updates ----

    method Insert(block: IndexedBlock) returns (r: Result<(), Error>)
      requires Valid() && block.hash != ZERO
      modifies this, db.Target()
      ensures Valid()
      ensures block.hash in old(ledger.blocks) ==> r.Ok? && ledger == old(ledger)
      ensures block.hash !in old(ledger.blocks) ==>
                if CanInsert(old(ledger), block) then r.Ok? && ledger == WithBlock(old(ledger), block)
                else r == Err(UnknownParent) && ledger == old(ledger)
    {
      if ContainsBlock(block.hash) {
        return Ok(());
      }
      if !ContainsBlock(block.Parent()) && block.Parent() != ZERO {
        return Err(UnknownParent);
      }
      ghost var before, l := db.View(), ledger;
      WithBlockValid(l, block);
      var update := InsertTransaction(block);
      InsertTransactionAdds(before, block);
      InsertRepresented(before, ApplyAll(before, update), l, block);
      db.Write(update);
      ledger := WithBlock(l, block);
      r := Ok(());
    }

    /** Makes a stored child of the best block the new best block. */
    method Canonize(hash: Hash) returns (r: Result<(), Error>)
      requires Valid()
      modifies this, db.Target()
      ensures Valid()
      ensures if CanCanonize(old(ledger), hash) then r.Ok? && ledger == WithTop(old(ledger), hash)
              else r == Err(CannotCanonize) && ledger == old(ledger)
    {
      var found := BlockByHash(hash);
      if found.None? {
        return Err(CannotCanonize);
      }
      var parent := found.value.header.previousHeaderHash;
      if bestBlock.hash != parent {
        return Err(CannotCanonize);
      }
      ghost var before, l := db.View(), ledger;
      CanonizeBest(l, hash);
      var newBest := BestBlock(if parent == ZERO then 0 else bestBlock.number + 1, hash);
      var update := CanonizeTransaction(newBest);
      CanonizeTransactionAdds(before, newBest);
      CanonizeRepresented(before, ApplyAll(before, update), l, hash);
      db.Write(update);
      bestBlock := newBest;
      ledger := WithTop(l, hash);
      r := Ok(());
    }

    /** Takes the best block off the canonical chain; it stays in the tree. */
    method Decanonize() returns (r: Result<Hash, Error>)
      requires Valid()
      modifies this, db.Target()
      ensures Valid()
      ensures if old(ledger).canon == [] then r == Err(CannotDecanonize) && ledger == old(ledger)
              else r == Ok(old(ledger).Top()) && ledger == WithoutTop(old(ledger))
    {
      var found := BlockByHash(bestBlock.hash);
      if found.None? {
        DecanonizeBest(ledger);
        return Err(CannotDecanonize);
      }
      ghost var before, l := db.View(), ledger;
      DecanonizeBest(l);
      var parent := found.value.header.previousHeaderHash;
      var best := bestBlock;
      var newBest := BestBlock(if best.number > 0 then best.number - 1 else 0, parent);
      var update := DecanonizeTransaction(best.number, best.hash, newBest);
      DecanonizeTransactionRemoves(before, best.number, best.hash, newBest);
      DecanonizeRepresented(before, ApplyAll(before, update), l);
      db.Write(update);
      bestBlock := newBest;
      ledger := WithoutTop(l);
      r := Ok(best.hash);
    }

    // ---- Forks ----

    /** Classifies a new block by walking from its parent back to the canonical chain. */
    method BlockOrigin(hash: Hash, parent: Hash) returns (r: Result<BlockOrigin, Error>)
      requires Valid() && ledger.Rooted()
      ensures r == Origin(ledger, hash, parent)
    {
      assert BlockHash(bestBlock.number) == Some(bestBlock.hash);
      if ContainsBlock(hash) {
        return Ok(KnownBlock);
      }
      if bestBlock.hash == parent {
        return Ok(CanonChain(bestBlock.number + 1));
      }
      if !ContainsBlock(parent) {
        return Err(UnknownParent);
      }
      var found := FindForkPoint(parent);
      match found {
        case None => r := Err(AncientFork);
        case Some(origin) =>
          r := Ok(if origin.blockNumber > bestBlock.number then SideChainBecomingCanonChain(origin)
                  else SideChain(origin));
      }
    }

    /** The walk of `block_origin`: follows parents until a canonical one, for a bounded number of steps. */
    method FindForkPoint(parent: Hash) returns (r: Option<SideChainOrigin>)
      requires Valid() && ledger.Rooted() && parent in ledger.blocks
      ensures r == if |Branch(ledger, parent)| < MAX_FORK_ROUTE_PRESET then Some(SideOrigin(ledger, parent)) else None
    {
      var sidechainRoute: seq<Hash> := [];
      var nextHash := parent;
      for forkLen := 0 to MAX_FORK_ROUTE_PRESET
        invariant nextHash in ledger.blocks && |sidechainRoute| == forkLen
        invariant ledger.height[parent] == ledger.height[nextHash] + forkLen
        invariant Branch(ledger, parent) == Branch(ledger, nextHash) + Reversed(sidechainRoute)
      {
        match BlockNumber(nextHash) {
          case Some(number) =>
            BranchStart(ledger, parent, nextHash, Reversed(sidechainRoute));
            var decanonized := HashesAbove(number);
            return Some(SideChainOrigin(number, Reversed(sidechainRoute), decanonized, number + forkLen + 1));
          case None =>
            BranchUnfold(ledger, nextHash);
            ReversedPush(sidechainRoute, nextHash);
            sidechainRoute := sidechainRoute + [nextHash];
            nextHash := BlockByHash(nextHash).value.header.previousHeaderHash;
        }
      }
      r := None;
    }

    method HashesAbove(number: nat) returns (hashes: seq<Hash>)
      requires Valid() && number < |ledger.canon|
      ensures hashes == ledger.canon[number + 1..]
    {
      hashes := [];
      for n := number + 1 to bestBlock.number + 1
        invariant hashes == ledger.canon[number + 1..n]
      {
        match BlockHash(n) {
          case Some(hash) => hashes := hashes + [hash];
          case None =>
        }
      }
    }

    /** A view of this store on another canonical chain; this store itself does not change. */
    method Fork(origin: SideChainOrigin) returns (r: Result<BlockChainDatabase, Error>)
      requires Valid() && db.Canon?
      requires EndsAlike(ledger.canon, origin.decanonizedRoute)
      ensures |origin.decanonizedRoute| > |ledger.canon| ==> r == Err(CannotDecanonize)
      ensures |origin.decanonizedRoute| <= |ledger.canon| ==>
              var kept := ledger.canon[..|ledger.canon| - |origin.decanonizedRoute|];
              if Leads(ledger.blocks, End(ZERO, kept), origin.canonizedRoute) then
                && r.Ok?
                && IsFork(r.value)
                && fresh(r.value) && fresh(r.value.db.Target())
                && r.value.ledger == ledger.(canon := kept + origin.canonizedRoute)
              else
                r == Err(CannotCanonize)
    {
      var overlayDb := new OverlayDatabase(db.cache);
      var overlay := new BlockChainDatabase(Backend.Fork(overlayDb), ledger);
      var decanonized := overlay.DecanonizeRoute(origin.decanonizedRoute);
      if decanonized.Err? {
        return Err(decanonized.error);
      }
      var canonized := overlay.CanonizeRoute(origin.canonizedRoute);
      match canonized {
        case Ok(_) => r := Ok(overlay);
        case Err(e) => r := Err(e);
      }
    }

    /** Takes the given blocks, newest first, off the canonical chain; a hash that does not match is a panic. */
    method DecanonizeRoute(route: seq<Hash>) returns (r: Result<(), Error>)
      requires Valid() && EndsAlike(ledger.canon, route)
      modifies this, db.Target()
      ensures Valid()
      ensures if |route| <= |old(ledger).canon| then
                r.Ok? && ledger == old(ledger).(canon := old(ledger).canon[..|old(ledger).canon| - |route|])
              else
                r == Err(CannotDecanonize)
    {
      var newestFirst := Reversed(route);
      ghost var l := ledger;
      for i := 0 to |newestFirst|
        invariant Valid() && i <= |l.canon| && ledger == l.(canon := l.canon[..|l.canon| - i])
      {
        if i < |l.canon| {
          TopOfRoute(l.canon, route, i);
          TakeInit(l.canon, |l.canon| - i);
        }
        r := DecanonizeExpected(newestFirst[i]);
        if r.Err? {
          return;
        }
      }
      r := Ok(());
    }

    method DecanonizeExpected(hash: Hash) returns (r: Result<(), Error>)
      requires Valid() && (ledger.canon != [] ==> ledger.Top() == hash)
      modifies this, db.Target()
      ensures Valid()
      ensures if old(ledger).canon == [] then r == Err(CannotDecanonize) && ledger == old(ledger)
              else r.Ok? && ledger == WithoutTop(old(ledger))
    {
      var decanonized := Decanonize();
      if decanonized.Err? {
        return Err(decanonized.error);
      }
      assert decanonized.value == hash;
      r := Ok(());
    }

    method CanonizeRoute(route: seq<Hash>) returns (r: Result<(), Error>)
      requires Valid()
      modifies this, db.Target()
      ensures Valid()
      ensures if Leads(old(ledger).blocks, old(ledger).Top(), route) then
                r.Ok? && ledger == old(ledger).(canon := old(ledger).canon + route)
              else
                r == Err(CannotCanonize)
    {
      ghost var l := ledger;
      for i := 0 to |route|
        invariant Valid() && ledger == l.(canon := l.canon + route[..i])
        invariant Leads(l.blocks, l.Top(), route[..i])
      {
        RouteStep(l.blocks, ZERO, l.canon, route, i);
        var canonized := Canonize(route[i]);
        if canonized.Err? {
          return canonized;
        }
        assert l.canon + route[..i] + [route[i]] == l.canon + route[..i + 1];
      }
      assert route[..|route|] == route;
      r := Ok(());
    }

    ghost predicate IsFork(fork: BlockChainDatabase)
      reads this, db.Target(), db.Base(), fork, fork.db.Target(), fork.db.Base()
    {
      db.Canon? && fork.db.Fork? && fork.db.fork.db == db.cache && fork != this && fork.Valid()
    }

    /** Takes over everything that is seen through the fork. */
    method SwitchToFork(fork: BlockChainDatabase)
      requires Valid() && IsFork(fork)
      modifies this, db.Target(), fork.db.Target()
      ensures Valid() && ledger == old(fork.ledger)
    {
      bestBlock := fork.bestBlock;
      ledger := fork.ledger;
      fork.db.fork.Flush();
    }
  }
}
