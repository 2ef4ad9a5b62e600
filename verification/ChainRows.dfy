/**
 How the rows of the key-value store index a ledger: blocks by hash, canonical hashes by number,
 canonical numbers by hash, and the best block. Each transaction keeps the rows in step.
 */
module ChainRows {
  import opened Primitives
  import opened KeyValue
  import opened Ledger

  /** Where `BestBlock::default()` is used: a store without a canonical chain. */
  const NO_BEST_BLOCK := BestBlock(0, ZERO)

  // ---- What the rows stand for ----

  ghost predicate BlocksIndexed(rows: Rows, blocks: Blocks) {
    forall h: Hash {:trigger Lookup(rows, BlockKey(h))} ::
      Lookup(rows, BlockKey(h)) == if h in blocks then Some(BlockValue(blocks[h])) else None
  }

  ghost predicate NumbersIndexed(rows: Rows, canon: seq<Hash>) {
    forall n: nat {:trigger Lookup(rows, BlockHashKey(n))} ::
      Lookup(rows, BlockHashKey(n)) == if n < |canon| then Some(BlockHashValue(canon[n])) else None
  }

  ghost predicate HashesIndexed(rows: Rows, canon: seq<Hash>, height: Heights) {
    forall h: Hash {:trigger Lookup(rows, BlockNumberKey(h))} ::
      Lookup(rows, BlockNumberKey(h)) ==
      if OnChain(canon, height, h) then Some(BlockNumberValue(height[h])) else None
  }

  ghost predicate BestIndexed(rows: Rows, best: BestBlock) {
    var number, hash := Lookup(rows, MetaKey(BestBlockNumber)), Lookup(rows, MetaKey(BestBlockHash));
    || (number == Some(MetaValue(NumberEntry(best.number))) && hash == Some(MetaValue(HashEntry(best.hash))))
    || (number == None && hash == None && best == NO_BEST_BLOCK)
  }

  ghost predicate Represents(rows: Rows, l: Ledger) {
    && BlocksIndexed(rows, l.blocks)
    && NumbersIndexed(rows, l.canon)
    && HashesIndexed(rows, l.canon, l.height)
    && BestIndexed(rows, l.Best())
  }

  // ---- What a transaction may do to the rows ----

  ghost predicate AddsBlock(rows: Rows, rows': Rows, block: IndexedBlock) {
    && Lookup(rows', BlockKey(block.hash)) == Some(BlockValue(block.raw))
    && forall key: Key {:trigger Lookup(rows', key)} :: key != BlockKey(block.hash) ==>
         Lookup(rows', key) == Lookup(rows, key)
  }

  /** Only the best block and the two index rows of one block differ. */
  ghost predicate Reindexed(rows: Rows, rows': Rows, number: nat, hash: Hash, best: BestBlock) {
    && BestIndexed(rows', best)
    && forall key: Key {:trigger Lookup(rows', key)} :: !key.MetaKey? && key != BlockHashKey(number) && key != BlockNumberKey(hash) ==>
         Lookup(rows', key) == Lookup(rows, key)
  }

  ghost predicate AddsTop(rows: Rows, rows': Rows, best: BestBlock) {
    && Reindexed(rows, rows', best.number, best.hash, best)
    && Lookup(rows', BlockHashKey(best.number)) == Some(BlockHashValue(best.hash))
    && Lookup(rows', BlockNumberKey(best.hash)) == Some(BlockNumberValue(best.number))
  }

  ghost predicate RemovesTop(rows: Rows, rows': Rows, number: nat, hash: Hash, best: BestBlock) {
    && Reindexed(rows, rows', number, hash, best)
    && Lookup(rows', BlockHashKey(number)) == None
    && Lookup(rows', BlockNumberKey(hash)) == None
  }

  // ---- The transactions ----

  lemma ApplyFour(rows: Rows, a: Operation, b: Operation, c: Operation, d: Operation)
    ensures ApplyAll(rows, [a, b, c, d]) == Apply(Apply(Apply(Apply(rows, a), b), c), d)
  {
    ApplyOne(rows, a);
    assert [a, b][..1] == [a] && [a, b, c][..2] == [a, b] && [a, b, c, d][..3] == [a, b, c];
    assert ApplyAll(rows, [a, b, c]) == Apply(ApplyAll(rows, [a, b]), c);
  }

  lemma {:induction false} ApplyAllAppends(rows: Rows, first: seq<Operation>, second: seq<Operation>)
    ensures ApplyAll(rows, first + second) == ApplyAll(ApplyAll(rows, first), second)
  {
    if second == [] {
      assert first + second == first;
    } else {
      var init := second[..|second| - 1];
      assert (first + second)[..|first + second| - 1] == first + init;
      ApplyAllAppends(rows, first, init);
    }
  }

  lemma ApplyOne(rows: Rows, op: Operation)
    ensures ApplyAll(rows, [op]) == Apply(rows, op)
  {
    assert [op][..0] == [];
  }

  function InsertTransaction(block: IndexedBlock): seq<Operation> {
    [Insert(BlockRow(block.hash, block.raw))]
  }

  lemma InsertTransactionAdds(rows: Rows, block: IndexedBlock)
    ensures AddsBlock(rows, ApplyAll(rows, InsertTransaction(block)), block)
  {
    ApplyOne(rows, Insert(BlockRow(block.hash, block.raw)));
  }

  function CanonizeTransaction(best: BestBlock): seq<Operation> {
    [Insert(BlockHash(best.number, best.hash)),
     Insert(BlockNumber(best.hash, best.number)),
     Insert(Meta(BestBlockHash, HashEntry(best.hash))),
     Insert(Meta(BestBlockNumber, NumberEntry(best.number)))]
  }

  lemma CanonizeTransactionAdds(rows: Rows, best: BestBlock)
    ensures AddsTop(rows, ApplyAll(rows, CanonizeTransaction(best)), best)
  {
    var ops := CanonizeTransaction(best);
    ApplyFour(rows, ops[0], ops[1], ops[2], ops[3]);
  }

  function DecanonizeTransaction(number: nat, hash: Hash, best: BestBlock): seq<Operation> {
    [Delete(BlockHashKey(number)),
     Delete(BlockNumberKey(hash)),
     Insert(Meta(BestBlockHash, HashEntry(best.hash))),
     Insert(Meta(BestBlockNumber, NumberEntry(best.number)))]
  }

  lemma DecanonizeTransactionRemoves(rows: Rows, number: nat, hash: Hash, best: BestBlock)
    ensures RemovesTop(rows, ApplyAll(rows, DecanonizeTransaction(number, hash, best)), number, hash, best)
  {
    var ops := DecanonizeTransaction(number, hash, best);
    ApplyFour(rows, ops[0], ops[1], ops[2], ops[3]);
  }

  // ---- Each transaction keeps the rows in step with the ledger ----

  lemma InsertRepresented(rows: Rows, rows': Rows, l: Ledger, block: IndexedBlock)
    requires l.Valid() && Represents(rows, l) && CanInsert(l, block) && block.hash !in l.blocks
    requires AddsBlock(rows, rows', block)
    ensures Represents(rows', WithBlock(l, block))
  {
    var m := WithBlock(l, block);
    assert BlocksIndexed(rows', m.blocks);
    assert NumbersIndexed(rows', m.canon);
    forall h ensures OnChain(m.canon, m.height, h) <==> OnChain(l.canon, l.height, h) {
      if h == block.hash && m.IsCanonical(h) {
        CanonHeight(l, m.height[h]);
      }
    }
    assert HashesIndexed(rows', m.canon, m.height);
  }

  lemma CanonizeRepresented(rows: Rows, rows': Rows, l: Ledger, h: Hash)
    requires l.Valid() && Represents(rows, l) && CanCanonize(l, h)
    requires AddsTop(rows, rows', WithTop(l, h).Best())
    ensures Represents(rows', WithTop(l, h))
  {
    WithTopValid(l, h);
    assert BlocksIndexed(rows', l.blocks);
    assert NumbersIndexed(rows', l.canon + [h]);
    assert HashesIndexed(rows', l.canon + [h], l.height);
  }

  lemma DecanonizeRepresented(rows: Rows, rows': Rows, l: Ledger)
    requires l.Valid() && Represents(rows, l) && l.canon != []
    requires RemovesTop(rows, rows', l.Best().number, l.Top(), WithoutTop(l).Best())
    ensures Represents(rows', WithoutTop(l))
  {
    assert l.Top() in l.height && l.height[l.Top()] == |l.canon| - 1 by {
      CanonHeight(l, |l.canon| - 1);
    }
    ShrunkNumbers(rows, rows', l.canon);
    ShrunkHashes(rows, rows', l.canon, l.height);
    assert BlocksIndexed(rows', l.blocks);
  }

  lemma ShrunkNumbers(rows: Rows, rows': Rows, canon: seq<Hash>)
    requires canon != [] && NumbersIndexed(rows, canon)
    requires Lookup(rows', BlockHashKey(|canon| - 1)) == None
    requires forall n: nat :: n != |canon| - 1 ==> Lookup(rows', BlockHashKey(n)) == Lookup(rows, BlockHashKey(n))
    ensures NumbersIndexed(rows', canon[..|canon| - 1])
  {
  }

  lemma ShrunkHashes(rows: Rows, rows': Rows, canon: seq<Hash>, height: Heights)
    requires canon != [] && HashesIndexed(rows, canon, height)
    requires OnChain(canon, height, canon[|canon| - 1])
    requires Lookup(rows', BlockNumberKey(canon[|canon| - 1])) == None
    requires height[canon[|canon| - 1]] == |canon| - 1
    requires forall h :: h != canon[|canon| - 1] ==> Lookup(rows', BlockNumberKey(h)) == Lookup(rows, BlockNumberKey(h))
    ensures HashesIndexed(rows', canon[..|canon| - 1], height)
  {
  }

  // ---- Decanonize undoes canonize ----

  /** The rows after canonizing `h` and then decanonizing it again. */
  function ThereAndBack(rows: Rows, l: Ledger, h: Hash): Rows {
    var best := WithTop(l, h).Best();
    ApplyAll(ApplyAll(rows, CanonizeTransaction(best)), DecanonizeTransaction(best.number, best.hash, l.Best()))
  }

  /** Every row but those of the best block is as before. */
  lemma RowsRestored(rows: Rows, l: Ledger, h: Hash, key: Key)
    requires l.Valid() && Represents(rows, l) && CanCanonize(l, h) && !key.MetaKey?
    ensures Lookup(ThereAndBack(rows, l, h), key) == Lookup(rows, key)
  {
    var best := WithTop(l, h).Best();
    var up := ApplyAll(rows, CanonizeTransaction(best));
    WithTopValid(l, h);
    CanonizeTransactionAdds(rows, best);
    DecanonizeTransactionRemoves(up, best.number, best.hash, l.Best());
    assert Lookup(rows, BlockHashKey(best.number)) == None;
    assert Lookup(rows, BlockNumberKey(h)) == None;
    assert Lookup(up, key) == Lookup(up, key);
  }

  /**
   Canonizing a block and decanonizing it again restores every lookup by number and by hash and the best block, and,
   but in a store that had no canonical chain yet, every single row.
   */
  lemma CanonizeThenDecanonize(rows: Rows, l: Ledger, h: Hash)
    requires l.Valid() && Represents(rows, l) && CanCanonize(l, h)
    ensures var back := ThereAndBack(rows, l, h);
            && Represents(back, l)
            && (forall key: Key :: !key.MetaKey? ==> Lookup(back, key) == Lookup(rows, key))
            && (l.canon != [] ==> back == rows)
  {
    var best, back := WithTop(l, h).Best(), ThereAndBack(rows, l, h);
    var up := ApplyAll(rows, CanonizeTransaction(best));
    forall key: Key | !key.MetaKey? ensures Lookup(back, key) == Lookup(rows, key) {
      RowsRestored(rows, l, h, key);
    }
    DecanonizeTransactionRemoves(up, best.number, best.hash, l.Best());
    assert BlocksIndexed(back, l.blocks) && NumbersIndexed(back, l.canon) && HashesIndexed(back, l.canon, l.height);
    if l.canon != [] {
      CanonHeight(l, |l.canon| - 1);
      BestRestored(up, best.number, best.hash, l.Best());
      forall key ensures Lookup(back, key) == Lookup(rows, key) {
        if key.MetaKey? {
          assert key.meta == BestBlockNumber || key.meta == BestBlockHash;
          assert key == MetaKey(key.meta);
        }
      }
      LookupsDetermine(back, rows);
    }
  }

  lemma BestRestored(rows: Rows, number: nat, hash: Hash, best: BestBlock)
    ensures var rows' := ApplyAll(rows, DecanonizeTransaction(number, hash, best));
            && Lookup(rows', MetaKey(BestBlockNumber)) == Some(MetaValue(NumberEntry(best.number)))
            && Lookup(rows', MetaKey(BestBlockHash)) == Some(MetaValue(HashEntry(best.hash)))
  {
    var ops := DecanonizeTransaction(number, hash, best);
    ApplyFour(rows, ops[0], ops[1], ops[2], ops[3]);
  }
}
