/**
 What the block store means: a tree of blocks and one canonical chain through it. The operations
 here are the specifications of the methods of `BlockChainDatabase` and `Chain`.
 */
module Ledger {
  import opened Primitives

  datatype BestBlock = BestBlock(number: nat, hash: Hash)

  datatype Error = CannotCanonize | CannotDecanonize | UnknownParent | AncientFork

  /** Routes are ordered from oldest to newest. */
  datatype SideChainOrigin = SideChainOrigin(
    ancestor: nat,
    canonizedRoute: seq<Hash>,
    decanonizedRoute: seq<Hash>,
    blockNumber: nat)

  datatype BlockOrigin =
    | KnownBlock
    | CanonChain(blockNumber: nat)
    | SideChain(origin: SideChainOrigin)
    | SideChainBecomingCanonChain(origin: SideChainOrigin)

  /** A side chain this long or longer is not followed back to the canonical chain. */
  const MAX_FORK_ROUTE_PRESET: nat := 2048

  type Blocks = map<Hash, Block>
  type Heights = map<Hash, nat>

  function ParentOf(blocks: Blocks, h: Hash): Hash
    requires h in blocks
  {
    blocks[h].header.previousHeaderHash
  }

  /** A block is parentless at height zero, or its parent is stored one below it. */
  ghost predicate Attached(blocks: Blocks, height: Heights, h: Hash)
    requires height.Keys == blocks.Keys && h in blocks
  {
    var parent := ParentOf(blocks, h);
    if parent == ZERO then height[h] == 0 else parent in blocks && height[h] == height[parent] + 1
  }

  /** `height` counts the steps to a parentless ancestor, so following parents never runs in a circle. */
  ghost predicate IsTree(blocks: Blocks, height: Heights) {
    && ZERO !in blocks
    && height.Keys == blocks.Keys
    && forall h {:trigger Attached(blocks, height, h)} :: h in blocks ==> Attached(blocks, height, h)
  }

  /** The parent of the `i`-th block of a route that starts at `from` is the block before it. */
  ghost predicate Linked(blocks: Blocks, from: Hash, route: seq<Hash>, i: nat)
    requires i < |route|
  {
    route[i] in blocks && ParentOf(blocks, route[i]) == End(from, route[..i])
  }

  /** `route` leads away from `from`, block by block, each the parent of the next. */
  ghost predicate Leads(blocks: Blocks, from: Hash, route: seq<Hash>) {
    forall i :: 0 <= i < |route| ==> Linked(blocks, from, route, i)
  }

  /** The last block of a route that starts at `from`. */
  function End(from: Hash, route: seq<Hash>): Hash {
    if route == [] then from else route[|route| - 1]
  }

  /** A block is on the chain when the chain holds it at the block's own height. */
  predicate OnChain(canon: seq<Hash>, height: Heights, h: Hash) {
    h in height && height[h] < |canon| && canon[height[h]] == h
  }

  datatype Ledger = Ledger(blocks: Blocks, height: Heights, canon: seq<Hash>) {

    function Top(): Hash {
      End(ZERO, canon)
    }

    predicate IsCanonical(h: Hash) {
      OnChain(canon, height, h)
    }

    function Best(): BestBlock {
      BestBlock(if canon == [] then 0 else |canon| - 1, Top())
    }

    /** The canonical chain starts at a parentless block and follows the tree. */
    ghost predicate Valid() {
      IsTree(blocks, height) && Leads(blocks, ZERO, canon)
    }

    /** There is a canonical genesis block and every stored block descends from it. */
    ghost predicate Rooted() {
      && Valid()
      && canon != []
      && forall h :: h in blocks && ParentOf(blocks, h) == ZERO ==> h == canon[0]
    }

    /** No stored block is higher than the best block. */
    ghost predicate Longest() {
      && Rooted()
      && forall h :: h in blocks ==> height[h] < |canon|
    }
  }

  // ---- Routes through the tree ----

  lemma LeadsExtend(blocks: Blocks, from: Hash, route: seq<Hash>, more: seq<Hash>)
    ensures Leads(blocks, from, route + more) <==> Leads(blocks, from, route) && Leads(blocks, End(from, route), more)
  {
    var all := route + more;
    assert forall i :: 0 <= i <= |route| ==> all[..i] == route[..i];
    assert forall i :: 0 <= i <= |more| ==> all[..|route| + i] == route + more[..i];
    assert forall i :: 0 <= i <= |more| ==> End(from, route + more[..i]) == End(End(from, route), more[..i]);
    if Leads(blocks, from, all) {
      forall i | 0 <= i < |route| ensures Linked(blocks, from, route, i) {
        assert Linked(blocks, from, all, i);
      }
      forall i | 0 <= i < |more| ensures Linked(blocks, End(from, route), more, i) {
        assert Linked(blocks, from, all, |route| + i);
      }
    } else if Leads(blocks, from, route) && Leads(blocks, End(from, route), more) {
      forall i | 0 <= i < |all| ensures Linked(blocks, from, all, i) {
        if i < |route| {
          assert Linked(blocks, from, route, i);
        } else {
          assert Linked(blocks, End(from, route), more, i - |route|);
        }
      }
    }
  }

  lemma RouteStep(blocks: Blocks, from: Hash, kept: seq<Hash>, route: seq<Hash>, i: nat)
    requires i < |route| && Leads(blocks, End(from, kept), route[..i])
    ensures var h := route[i];
            Leads(blocks, End(from, kept), route[..i + 1]) <==>
            h in blocks && ParentOf(blocks, h) == End(from, kept + route[..i])
    ensures Leads(blocks, End(from, kept), route) ==> Leads(blocks, End(from, kept), route[..i + 1])
  {
    var start := End(from, kept);
    assert route[..i + 1] == route[..i] + [route[i]];
    LeadsExtend(blocks, start, route[..i], [route[i]]);
    assert Leads(blocks, End(start, route[..i]), [route[i]]) <==> Linked(blocks, End(start, route[..i]), [route[i]], 0);
    assert route == route[..i + 1] + route[i + 1..];
    LeadsExtend(blocks, start, route[..i + 1], route[i + 1..]);
  }

  /** Walking down a route adds one to the height at every block. */
  lemma {:induction false} RouteHeight(blocks: Blocks, height: Heights, from: Hash, route: seq<Hash>, i: nat)
    requires IsTree(blocks, height) && Leads(blocks, from, route) && i < |route|
    requires from == ZERO || from in blocks
    ensures route[i] in blocks && height[route[i]] == i + if from == ZERO then 0 else height[from] + 1
  {
    assert Linked(blocks, from, route, i) && Attached(blocks, height, route[i]);
    if i > 0 {
      RouteHeight(blocks, height, from, route, i - 1);
    }
  }

  /** Every stored block is at the end of a route that starts without a parent. */
  lemma {:induction false} RouteTo(blocks: Blocks, height: Heights, h: Hash) returns (route: seq<Hash>)
    requires IsTree(blocks, height) && h in blocks
    ensures Leads(blocks, ZERO, route) && End(ZERO, route) == h && |route| == height[h] + 1
    decreases height[h]
  {
    assert Attached(blocks, height, h);
    var before: seq<Hash> := [];
    if ParentOf(blocks, h) != ZERO {
      before := RouteTo(blocks, height, ParentOf(blocks, h));
    }
    route := before + [h];
    LeadsExtend(blocks, ZERO, before, [h]);
    assert Linked(blocks, End(ZERO, before), [h], 0);
  }

  /** The canonical chain holds each block at its own height, so it has no repetition. */
  lemma CanonHeight(l: Ledger, i: nat)
    requires l.Valid() && i < |l.canon|
    ensures l.canon[i] in l.blocks && l.height[l.canon[i]] == i
  {
    RouteHeight(l.blocks, l.height, ZERO, l.canon, i);
  }

  lemma CanonicalIffListed(l: Ledger, h: Hash)
    requires l.Valid()
    ensures l.IsCanonical(h) <==> h in l.canon
  {
    if h in l.canon {
      var i :| 0 <= i < |l.canon| && l.canon[i] == h;
      CanonHeight(l, i);
    }
  }

  /** Heights are a property of the tree alone. */
  lemma {:induction false} HeightUnique(blocks: Blocks, height: Heights, height': Heights, h: Hash)
    requires IsTree(blocks, height) && IsTree(blocks, height') && h in blocks
    ensures height[h] == height'[h]
    decreases height[h]
  {
    assert Attached(blocks, height, h) && Attached(blocks, height', h);
    if ParentOf(blocks, h) != ZERO {
      HeightUnique(blocks, height, height', ParentOf(blocks, h));
    }
  }

  // ---- Single steps of the store ----

  predicate CanInsert(l: Ledger, block: IndexedBlock) {
    block.Parent() == ZERO || block.Parent() in l.blocks
  }

  function WithBlock(l: Ledger, block: IndexedBlock): Ledger
    requires l.height.Keys == l.blocks.Keys && CanInsert(l, block)
  {
    Ledger(
      l.blocks[block.hash := block.raw],
      l.height[block.hash := if block.Parent() == ZERO then 0 else l.height[block.Parent()] + 1],
      l.canon)
  }

  predicate CanCanonize(l: Ledger, h: Hash) {
    h in l.blocks && ParentOf(l.blocks, h) == l.Top()
  }

  function WithTop(l: Ledger, h: Hash): Ledger {
    l.(canon := l.canon + [h])
  }

  function WithoutTop(l: Ledger): Ledger
    requires l.canon != []
  {
    l.(canon := l.canon[..|l.canon| - 1])
  }

  lemma WithBlockValid(l: Ledger, block: IndexedBlock)
    requires l.Valid() && block.hash !in l.blocks && block.hash != ZERO && CanInsert(l, block)
    ensures WithBlock(l, block).Valid()
  {
    var m := WithBlock(l, block);
    forall i | 0 <= i < |l.canon| ensures Linked(m.blocks, ZERO, m.canon, i) {
      assert Linked(l.blocks, ZERO, l.canon, i);
    }
    forall h | h in m.blocks ensures Attached(m.blocks, m.height, h) {
      assert h != block.hash ==> Attached(l.blocks, l.height, h);
    }
  }

  lemma WithTopValid(l: Ledger, h: Hash)
    requires l.Valid() && CanCanonize(l, h)
    ensures WithTop(l, h).Valid() && l.height[h] == |l.canon|
  {
    LeadsExtend(l.blocks, ZERO, l.canon, [h]);
    CanonHeight(WithTop(l, h), |l.canon|);
  }

  lemma PrefixValid(l: Ledger, n: nat)
    requires l.Valid() && n <= |l.canon|
    ensures l.(canon := l.canon[..n]).Valid()
  {
    assert l.canon == l.canon[..n] + l.canon[n..];
    LeadsExtend(l.blocks, ZERO, l.canon[..n], l.canon[n..]);
  }

  /** The number `canonize` gives the new best block; a parentless block is only ever first. */
  lemma CanonizeBest(l: Ledger, h: Hash)
    requires l.Valid() && CanCanonize(l, h)
    ensures WithTop(l, h).Valid()
    ensures l.Top() == ZERO <==> l.canon == []
    ensures WithTop(l, h).Best() == BestBlock(if l.Top() == ZERO then 0 else l.Best().number + 1, h)
  {
    WithTopValid(l, h);
    if l.canon != [] {
      CanonHeight(l, |l.canon| - 1);
    }
  }

  /** What `decanonize` falls back to: the parent of the best block, or no best block at all. */
  lemma DecanonizeBest(l: Ledger)
    requires l.Valid()
    ensures l.Top() in l.blocks <==> l.canon != []
    ensures l.canon != [] ==>
              && WithoutTop(l).Valid()
              && WithoutTop(l).Best() ==
                 BestBlock(if l.Best().number > 0 then l.Best().number - 1 else 0, ParentOf(l.blocks, l.Top()))
  {
    if l.canon != [] {
      CanonHeight(l, |l.canon| - 1);
      PrefixValid(l, |l.canon| - 1);
      assert Linked(l.blocks, ZERO, l.canon, |l.canon| - 1);
    }
  }

  // ---- Where a new block attaches ----

  /** The stored blocks from just above the canonical chain up to `h`. */
  function Branch(l: Ledger, h: Hash): seq<Hash>
    requires l.Rooted() && h in l.blocks
    decreases l.height[h]
  {
    if l.IsCanonical(h) then []
    else
      CanonHeight(l, 0);
      assert Attached(l.blocks, l.height, h);
      Branch(l, ParentOf(l.blocks, h)) + [h]
  }

  /** `h` forks off at height `a`: the route from `canon[a]` to `h` has no canonical block on it. */
  ghost predicate ForksAt(l: Ledger, h: Hash, a: nat, route: seq<Hash>) {
    && a < |l.canon|
    && Leads(l.blocks, l.canon[a], route)
    && End(l.canon[a], route) == h
    && forall i :: 0 <= i < |route| ==> !l.IsCanonical(route[i])
  }

  lemma {:induction false} BranchForks(l: Ledger, h: Hash)
    requires l.Rooted() && h in l.blocks
    ensures |Branch(l, h)| <= l.height[h]
    ensures ForksAt(l, h, l.height[h] - |Branch(l, h)|, Branch(l, h))
    decreases l.height[h]
  {
    CanonHeight(l, 0);
    if !l.IsCanonical(h) {
      assert Attached(l.blocks, l.height, h);
      var p := ParentOf(l.blocks, h);
      BranchForks(l, p);
      var a := l.height[p] - |Branch(l, p)|;
      LeadsExtend(l.blocks, l.canon[a], Branch(l, p), [h]);
    }
  }

  lemma BranchUnfold(l: Ledger, h: Hash)
    requires l.Rooted() && h in l.blocks && !l.IsCanonical(h)
    ensures ParentOf(l.blocks, h) in l.blocks && l.height[h] == l.height[ParentOf(l.blocks, h)] + 1
    ensures Branch(l, h) == Branch(l, ParentOf(l.blocks, h)) + [h]
  {
    CanonHeight(l, 0);
    assert Attached(l.blocks, l.height, h);
  }

  /** A walk back from `h` that reaches the canonical block `from` has found the fork point. */
  lemma BranchStart(l: Ledger, h: Hash, from: Hash, route: seq<Hash>)
    requires l.Rooted() && h in l.blocks && l.IsCanonical(from) && from in l.blocks
    requires Branch(l, h) == Branch(l, from) + route && l.height[h] == l.height[from] + |route|
    ensures SideOrigin(l, h) ==
            SideChainOrigin(l.height[from], route, l.canon[l.height[from] + 1..], l.height[from] + |route| + 1)
  {
    BranchForks(l, h);
  }

  /** A block forks off the canonical chain in one place, along one route. */
  lemma {:induction false} ForkUnique(l: Ledger, h: Hash, a: nat, route: seq<Hash>)
    requires l.Rooted() && h in l.blocks && ForksAt(l, h, a, route)
    ensures route == Branch(l, h) && a == l.height[h] - |route|
    decreases |route|
  {
    CanonHeight(l, a);
    if route != [] {
      var init := route[..|route| - 1];
      assert route == init + [h];
      LeadsExtend(l.blocks, l.canon[a], init, [h]);
      assert Linked(l.blocks, l.canon[a], route, |init|) && Attached(l.blocks, l.height, h);
      ForkUnique(l, ParentOf(l.blocks, h), a, init);
    }
  }

  /** How a child of the stored block `parent` attaches to the canonical chain. */
  function SideOrigin(l: Ledger, parent: Hash): SideChainOrigin
    requires l.Rooted() && parent in l.blocks
  {
    BranchForks(l, parent);
    var route := Branch(l, parent);
    var a := l.height[parent] - |route|;
    SideChainOrigin(a, route, l.canon[a + 1..], l.height[parent] + 1)
  }

  /** The specification of `block_origin`. */
  function Origin(l: Ledger, hash: Hash, parent: Hash): Result<BlockOrigin, Error>
    requires l.Rooted()
  {
    if hash in l.blocks then Ok(KnownBlock)
    else if l.Top() == parent then Ok(CanonChain(|l.canon|))
    else if parent !in l.blocks then Err(UnknownParent)
    else if |Branch(l, parent)| >= MAX_FORK_ROUTE_PRESET then Err(AncientFork)
    else if SideOrigin(l, parent).blockNumber > l.Best().number then
      Ok(SideChainBecomingCanonChain(SideOrigin(l, parent)))
    else
      Ok(SideChain(SideOrigin(l, parent)))
  }

  /** The height that an answer of `block_origin` gives the new block. */
  function NumberOf(origin: BlockOrigin): nat
    requires !origin.KnownBlock?
  {
    if origin.CanonChain? then origin.blockNumber else origin.origin.blockNumber
  }

  /**
   When each answer of `block_origin` is given. The number in it is the height that the block has once it is inserted,
   whichever of the three kinds of chain it joins.
   */
  lemma OriginAnswers(l: Ledger, block: IndexedBlock)
    requires l.Rooted()
    ensures var r, known, parent := Origin(l, block.hash, block.Parent()), block.hash in l.blocks, block.Parent();
            && (r == Ok(KnownBlock) <==> known)
            && (r == Err(UnknownParent) <==> !known && parent !in l.blocks)
            && (r == Err(AncientFork) <==> !known && parent in l.blocks && |Branch(l, parent)| >= MAX_FORK_ROUTE_PRESET)
            && (r.Err? ==> r.error in {UnknownParent, AncientFork})
            && (r.Ok? && !known ==>
                  && CanInsert(l, block) && NumberOf(r.value) == WithBlock(l, block).height[block.hash]
                  && (r.value.CanonChain? <==> parent == l.Top())
                  && (r.value.SideChain? <==> NumberOf(r.value) <= l.Best().number))
  {
    TopStored(l);
    if block.hash !in l.blocks && block.Parent() in l.blocks {
      BranchForks(l, block.Parent());
    }
  }

  /** The ledger as seen through the fork that `origin` describes. */
  function Reorganized(l: Ledger, origin: SideChainOrigin): Ledger
    requires origin.ancestor < |l.canon|
  {
    l.(canon := l.canon[..origin.ancestor + 1] + origin.canonizedRoute)
  }

  /** Every side-chain origin can be forked to, and the fork ends with the new block's parent best. */
  lemma OriginForks(l: Ledger, parent: Hash)
    requires l.Rooted() && parent in l.blocks
    ensures var origin := SideOrigin(l, parent);
            && origin.ancestor < |l.canon|
            && l.canon == l.canon[..origin.ancestor + 1] + origin.decanonizedRoute
            && Leads(l.blocks, l.canon[origin.ancestor], origin.canonizedRoute)
            && Reorganized(l, origin).Rooted()
            && Reorganized(l, origin).Best() == BestBlock(origin.blockNumber - 1, parent)
  {
    var origin := SideOrigin(l, parent);
    BranchForks(l, parent);
    var prefix := l.canon[..origin.ancestor + 1];
    PrefixValid(l, origin.ancestor + 1);
    LeadsExtend(l.blocks, ZERO, prefix, origin.canonizedRoute);
    assert Reorganized(l, origin).canon[0] == l.canon[0];
  }

  /** What `fork` asks of its caller holds, and the new block fits on top of the fork. */
  lemma ReorganizationFits(l: Ledger, block: IndexedBlock)
    requires l.Rooted() && block.Parent() in l.blocks
    ensures var side := SideOrigin(l, block.Parent());
            && side.ancestor < |l.canon|
            && |l.canon| - |side.decanonizedRoute| == side.ancestor + 1
            && side.decanonizedRoute == l.canon[side.ancestor + 1..]
            && Leads(l.blocks, End(ZERO, l.canon[..side.ancestor + 1]), side.canonizedRoute)
            && CanInsert(Reorganized(l, side), block)
            && CanCanonize(WithBlock(Reorganized(l, side), block), block.hash)
  {
    OriginForks(l, block.Parent());
  }

  lemma TopStored(l: Ledger)
    requires l.Rooted()
    ensures l.Top() in l.blocks && l.height[l.Top()] == |l.canon| - 1
  {
    CanonHeight(l, |l.canon| - 1);
  }

  // ---- Importing a block ----

  /** The specification of `insert_best_block`: the new ledger and the canonized hashes, oldest first. */
  function InsertBest(l: Ledger, block: IndexedBlock): (Ledger, Result<seq<Hash>, Error>)
    requires l.Rooted() && block.hash !in l.blocks
  {
    match Origin(l, block.hash, block.Parent())
    case Err(e) => (l, Err(e))
    case Ok(CanonChain(_)) =>
      TopStored(l);
      (WithTop(WithBlock(l, block), block.hash), Ok([block.hash]))
    case Ok(SideChain(_)) => (WithBlock(l, block), Ok([]))
    case Ok(SideChainBecomingCanonChain(origin)) =>
      OriginForks(l, block.Parent());
      (WithTop(WithBlock(Reorganized(l, origin), block), block.hash), Ok(origin.canonizedRoute + [block.hash]))
  }

  /** Errors are exactly the two that `block_origin` can report, and they change nothing. */
  lemma InsertBestErrors(l: Ledger, block: IndexedBlock)
    requires l.Rooted() && block.hash !in l.blocks
    ensures var (l', r) := InsertBest(l, block);
            && (r == Err(UnknownParent) <==> block.Parent() !in l.blocks)
            && (r == Err(AncientFork) <==>
                block.Parent() in l.blocks && |Branch(l, block.Parent())| >= MAX_FORK_ROUTE_PRESET)
            && (r.Err? ==> l' == l && r.error in {UnknownParent, AncientFork})
            && (r.Ok? ==> l'.blocks == l.blocks[block.hash := block.raw])
  {
    TopStored(l);
  }

  /** How `canon` may move when a block at height `height` arrives and `canonized` is reported. */
  ghost predicate Advances(canon: seq<Hash>, canon': seq<Hash>, hash: Hash, height: nat, canonized: seq<Hash>) {
    if canonized == [] then
      canon' == canon && height < |canon|
    else
      && height == |canon|
      && |canonized| <= |canon'| == |canon| + 1
      && canon' == canon[..|canon'| - |canonized|] + canonized
      && canonized[|canonized| - 1] == hash
  }

  lemma WithBlockLongest(l: Ledger, block: IndexedBlock)
    requires l.Rooted() && block.hash !in l.blocks && block.hash != ZERO && block.Parent() in l.blocks
    requires forall h :: h in l.blocks ==> l.height[h] <= |l.canon|
    ensures var m := WithBlock(l, block);
            && m.Rooted() && m.height[block.hash] == l.height[block.Parent()] + 1
            && (forall h :: h in l.blocks ==> m.height[h] == l.height[h])
  {
    WithBlockValid(l, block);
    var m := WithBlock(l, block);
    assert forall h :: h in l.blocks ==> ParentOf(m.blocks, h) == ParentOf(l.blocks, h);
  }

  lemma ReorganizationStep(l: Ledger, block: IndexedBlock)
    requires l.Longest() && block.hash !in l.blocks && block.hash != ZERO && block.Parent() in l.blocks
    requires l.height[block.Parent()] == |l.canon| - 1
    ensures var origin := SideOrigin(l, block.Parent());
            && origin.ancestor < |l.canon|
            && var l' := WithTop(WithBlock(Reorganized(l, origin), block), block.hash);
               && l'.Longest()
               && Advances(l.canon, l'.canon, block.hash, l'.height[block.hash], origin.canonizedRoute + [block.hash])
  {
    OriginForks(l, block.Parent());
    var origin := SideOrigin(l, block.Parent());
    var m := Reorganized(l, origin);
    WithBlockLongest(m, block);
    WithTopValid(WithBlock(m, block), block.hash);
    var l' := WithTop(WithBlock(m, block), block.hash);
    assert l'.canon == l.canon[..origin.ancestor + 1] + (origin.canonizedRoute + [block.hash]);
    assert l'.canon[0] == m.canon[0];
  }

  lemma ExtensionStep(l: Ledger, block: IndexedBlock)
    requires l.Longest() && block.hash !in l.blocks && block.hash != ZERO && block.Parent() == l.Top()
    ensures block.Parent() in l.blocks
    ensures var l' := WithTop(WithBlock(l, block), block.hash);
            && l'.Longest()
            && Advances(l.canon, l'.canon, block.hash, l'.height[block.hash], [block.hash])
  {
    TopStored(l);
    WithBlockLongest(l, block);
    WithTopValid(WithBlock(l, block), block.hash);
    assert l.canon[..|l.canon|] == l.canon;
  }

  lemma SideStep(l: Ledger, block: IndexedBlock)
    requires l.Longest() && block.hash !in l.blocks && block.hash != ZERO && block.Parent() in l.blocks
    requires l.height[block.Parent()] + 1 < |l.canon|
    ensures var l' := WithBlock(l, block);
            && l'.Longest()
            && Advances(l.canon, l'.canon, block.hash, l'.height[block.hash], [])
  {
    WithBlockLongest(l, block);
  }

  /**
   A block that is not an error joins the tree. The canonical chain changes only when the new block
   is one higher than the old best block; it then keeps a prefix and goes on with the canonized hashes.
   */
  lemma InsertBestStep(l: Ledger, block: IndexedBlock)
    requires l.Longest() && block.hash !in l.blocks && block.hash != ZERO
    ensures var (l', r) := InsertBest(l, block);
            && l'.Longest()
            && (r.Ok? ==>
                  block.hash in l'.height && Advances(l.canon, l'.canon, block.hash, l'.height[block.hash], r.value))
  {
    var parent := block.Parent();
    match Origin(l, block.hash, parent) {
      case Err(_) =>
      case Ok(CanonChain(_)) => ExtensionStep(l, block);
      case Ok(SideChain(_)) => SideStep(l, block);
      case Ok(SideChainBecomingCanonChain(_)) => ReorganizationStep(l, block);
    }
  }

  const EMPTY_LEDGER := Ledger(map[], map[], [])

  /** The store that a node starts with: inserting and canonizing a genesis block in an empty store. */
  function Genesis(g: IndexedBlock): (l: Ledger)
    requires g.hash != ZERO && g.Parent() == ZERO
    ensures l.Longest() && l.blocks == map[g.hash := g.raw] && l.canon == [g.hash]
  {
    GenesisLongest(g);
    WithTop(WithBlock(EMPTY_LEDGER, g), g.hash)
  }

  lemma GenesisLongest(g: IndexedBlock)
    requires g.hash != ZERO && g.Parent() == ZERO
    ensures WithTop(WithBlock(EMPTY_LEDGER, g), g.hash).Longest()
  {
    var l := WithBlock(EMPTY_LEDGER, g);
    WithBlockValid(EMPTY_LEDGER, g);
    WithTopValid(l, g.hash);
    assert WithTop(l, g.hash).canon == [g.hash];
  }

  /** One call of `insert_best_block` with a block that is not stored yet. */
  ghost predicate Step(l: Ledger, block: IndexedBlock, l': Ledger) {
    && block.hash !in l.blocks
    && block.hash != ZERO
    && (l.Rooted() ==> l' == InsertBest(l, block).0)
  }

  ghost predicate IsRun(states: seq<Ledger>, blocks: seq<IndexedBlock>) {
    && |states| == |blocks| + 1
    && forall i :: 0 <= i < |blocks| ==> Step(states[i], blocks[i], states[i + 1])
  }

  /** Over every run, the best block stays a highest stored block and its number never falls. */
  lemma {:induction false} RunLongest(states: seq<Ledger>, blocks: seq<IndexedBlock>, i: nat, j: nat)
    requires IsRun(states, blocks) && states[0].Longest() && i <= j < |states|
    ensures states[j].Longest()
    ensures states[i].Longest() && states[i].Best().number <= states[j].Best().number
    ensures states[i].blocks.Keys <= states[j].blocks.Keys
    decreases j
  {
    if j > 0 {
      RunLongest(states, blocks, if i < j then i else j - 1, j - 1);
      assert Step(states[j - 1], blocks[j - 1], states[j]);
      InsertBestStep(states[j - 1], blocks[j - 1]);
      InsertBestErrors(states[j - 1], blocks[j - 1]);
    }
  }
}
