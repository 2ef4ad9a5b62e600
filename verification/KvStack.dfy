/**
 The databases stacked under the block store: a block cache over an auto-flushing overlay over the
 disk, and the fork overlay on top of that stack. Reads and writes are stated against the ghost
 `contents`, the one plain map that the same sequence of transactions would have built.

 A database owns the databases below it unless it borrows them, so the cache with everything under
 it is one object, and only a fork overlay refers to another object.
 */
module KvStack {
  import opened Primitives
  import opened KeyValue

  // ---- In-memory layers ----

  /** `MemoryDatabase::write`. */
  method WriteLayer(layer: Layer, ops: seq<Operation>) returns (written: Layer)
    requires LayerTyped(layer)
    ensures LayerTyped(written)
    ensures forall rows, contents ::
              Shows(rows, layer, contents) ==> Shows(rows, written, ApplyAll(contents, ops))
  {
    written := layer;
    for i := 0 to |ops|
      invariant written == RecordAll(layer, ops[..i])
    {
      assert ops[..i + 1][..i] == ops[..i];
      written := Record(written, ops[i]);
    }
    assert ops[..|ops|] == ops;
    RecordAllTyped(layer, ops);
    forall rows, contents | Shows(rows, layer, contents)
      ensures Shows(rows, written, ApplyAll(contents, ops))
    {
      ShowsRecordAll(rows, layer, contents, ops);
    }
  }

  lemma DrainStep(drained: Layer, left: set<Key>, key: Key, ops: seq<Operation>)
    requires key in left && key in drained && Typed(key, drained[key])
    requires RecordAll(map[], ops) == drained - left
    ensures RecordAll(map[], ops + [IntoOperation(key, drained[key])]) == drained - (left - {key})
  {
    var op := IntoOperation(key, drained[key]);
    assert (ops + [op])[..|ops|] == ops;
    assert Record(drained - left, op) == drained - (left - {key});
  }

  /** `MemoryDatabase::drain_transaction`: one operation for every row, in an arbitrary order. */
  method DrainTransaction(layer: Layer) returns (ops: seq<Operation>)
    requires LayerTyped(layer)
    ensures forall rows, contents :: Shows(rows, layer, contents) ==> ApplyAll(rows, ops) == contents
  {
    ops := [];
    var left := layer.Keys;
    while left != {}
      invariant left <= layer.Keys
      invariant RecordAll(map[], ops) == layer - left
      decreases left
    {
      var key :| key in left;
      DrainStep(layer, left, key, ops);
      ops := ops + [IntoOperation(key, layer[key])];
      left := left - {key};
    }
    assert RecordAll(map[], ops) == layer;
    forall rows, contents | Shows(rows, layer, contents)
      ensures ApplyAll(rows, ops) == contents
    {
      ShowsRecordAll(rows, map[], rows, ops);
      ShowsUnique(rows, layer, contents, ApplyAll(rows, ops));
    }
  }

  function GetLayer(layer: Layer, key: Key): KeyState<Value> {
    if key in layer then layer[key] else Unknown
  }

  function GetRows(rows: Rows, key: Key): KeyState<Value> {
    if key in rows then Inserted(rows[key]) else Unknown
  }

  /** Reading a layer first and the state below only where the layer says nothing. */
  function Through(above: KeyState<Value>, below: KeyState<Value>): KeyState<Value> {
    match above
    case Unknown => below
    case Inserted(value) => Inserted(value)
    case Deleted => Deleted
  }

  method WriteRows(rows: Rows, ops: seq<Operation>) returns (written: Rows)
    ensures written == ApplyAll(rows, ops)
  {
    written := rows;
    for i := 0 to |ops|
      invariant written == ApplyAll(rows, ops[..i])
    {
      assert ops[..i + 1][..i] == ops[..i];
      written := Apply(written, ops[i]);
    }
    assert ops[..|ops|] == ops;
  }

  // ---- The block cache ----

  datatype CacheEntry = CacheEntry(hash: Hash, state: KeyState<Block>)

  ghost predicate DistinctEntries(entries: seq<CacheEntry>) {
    forall i, j :: 0 <= i < j < |entries| ==> entries[i].hash != entries[j].hash
  }

  /** What the cache remembers about a block is what the rows say about it. */
  ghost predicate Agrees(entry: CacheEntry, rows: Rows) {
    match entry.state
    case Inserted(block) => BlockKey(entry.hash) in rows && rows[BlockKey(entry.hash)] == BlockValue(block)
    case _ => BlockKey(entry.hash) !in rows
  }

  ghost predicate Coherent(entries: seq<CacheEntry>, rows: Rows) {
    forall i :: 0 <= i < |entries| ==> Agrees(entries[i], rows)
  }

  function EntryIndex(entries: seq<CacheEntry>, hash: Hash): (i: nat)
    ensures i <= |entries|
    ensures i < |entries| ==> entries[i].hash == hash
    ensures i == |entries| ==> forall j :: 0 <= j < |entries| ==> entries[j].hash != hash
  {
    if entries == [] then 0
    else if entries[0].hash == hash then 0
    else
      1 + EntryIndex(entries[1..], hash)
  }

  /** Entries from least to most recently used, without the one for `hash`. */
  function Without(entries: seq<CacheEntry>, hash: Hash): seq<CacheEntry> {
    var i := EntryIndex(entries, hash);
    if i < |entries| then entries[..i] + entries[i + 1..] else entries
  }

  /** Inserting refreshes the entry and evicts the least recently used one when over capacity. */
  function Remember(entries: seq<CacheEntry>, entry: CacheEntry, capacity: nat): seq<CacheEntry> {
    var grown := Without(entries, entry.hash) + [entry];
    if |grown| > capacity then grown[1..] else grown
  }

  lemma WithoutHas(entries: seq<CacheEntry>, hash: Hash)
    requires DistinctEntries(entries)
    ensures DistinctEntries(Without(entries, hash)) && |Without(entries, hash)| <= |entries|
    ensures forall e :: e in Without(entries, hash) <==> e in entries && e.hash != hash
  {
    var i := EntryIndex(entries, hash);
    assert i < |entries| ==> entries == entries[..i] + [entries[i]] + entries[i + 1..];
  }

  /** The new entry is the most recent one; the others keep their order, and only the oldest may have to go. */
  lemma RememberRecent(entries: seq<CacheEntry>, entry: CacheEntry, capacity: nat)
    requires DistinctEntries(entries) && |entries| <= capacity && capacity > 0
    ensures var others, after := Without(entries, entry.hash), Remember(entries, entry, capacity);
            && after != [] && after[|after| - 1] == entry
            && after[..|after| - 1] == if |others| < capacity then others else others[1..]
  {
    WithoutHas(entries, entry.hash);
  }

  /** Caching an operation keeps the cache coherent with the rows after that operation. */
  lemma RememberCoherent(entries: seq<CacheEntry>, entry: CacheEntry, capacity: nat, before: Rows, after: Rows)
    requires DistinctEntries(entries) && Coherent(entries, before) && Agrees(entry, after)
    requires forall hash :: hash != entry.hash ==> Lookup(before, BlockKey(hash)) == Lookup(after, BlockKey(hash))
    ensures DistinctEntries(Remember(entries, entry, capacity))
    ensures Coherent(Remember(entries, entry, capacity), after)
    ensures |entries| <= capacity ==> |Remember(entries, entry, capacity)| <= capacity
  {
    WithoutHas(entries, entry.hash);
    forall e | e in Without(entries, entry.hash)
      ensures Agrees(e, after)
    {
      assert Agrees(e, before);
      assert Lookup(before, BlockKey(e.hash)) == Lookup(after, BlockKey(e.hash));
    }
  }

  /** `CacheDatabase<AutoFlushingOverlayDatabase<T>>`, with the rows of the bottom store in `disk`. */
  class CacheDatabase {
    var disk: Rows
    var overlay: Layer
    var operations: nat
    const maxOperations: nat
    var blocks: seq<CacheEntry>
    const capacity: nat
    ghost var contents: Rows

    ghost predicate Valid()
      reads this
    {
      && LayerTyped(overlay)
      && Shows(disk, overlay, contents)
      && |blocks| <= capacity
      && DistinctEntries(blocks)
      && Coherent(blocks, contents)
    }

    constructor (disk: Rows, maxOperations: nat, capacity: nat)
      ensures this.disk == disk && this.maxOperations == maxOperations && this.capacity == capacity
      ensures operations == 0 && Valid() && contents == disk
    {
      this.disk := disk;
      this.overlay := map[];
      this.operations := 0;
      this.maxOperations := maxOperations;
      this.blocks := [];
      this.capacity := capacity;
      this.contents := disk;
    }

    /** `AutoFlushingOverlayDatabase::flush`: everything reaches the disk and no read changes. */
    method Flush()
      requires Valid()
      modifies this`disk, this`overlay
      ensures Valid() && disk == contents && overlay == map[]
    {
      var ops := DrainTransaction(overlay);
      disk := WriteRows(disk, ops);
      overlay := map[];
    }

    /** `AutoFlushingOverlayDatabase::write`: every `maxOperations`-th write is flushed. */
    method WriteOverlay(ops: seq<Operation>)
      requires LayerTyped(overlay) && Shows(disk, overlay, contents)
      modifies this`disk, this`overlay, this`operations, this`contents
      ensures LayerTyped(overlay) && Shows(disk, overlay, contents)
      ensures contents == ApplyAll(old(contents), ops)
      ensures old(operations) + 1 == maxOperations ==> operations == 0 && disk == contents
      ensures old(operations) + 1 != maxOperations ==>
                operations == old(operations) + 1 && disk == old(disk)
    {
      operations := operations + 1;
      overlay := WriteLayer(overlay, ops);
      contents := ApplyAll(contents, ops);
      if operations == maxOperations {
        var drained := DrainTransaction(overlay);
        disk := WriteRows(disk, drained);
        overlay := map[];
        operations := 0;
      }
    }

    method Write(ops: seq<Operation>)
      requires Valid()
      modifies this
      ensures Valid() && contents == ApplyAll(old(contents), ops)
    {
      ghost var rows := contents;
      for i := 0 to |ops|
        invariant contents == rows && LayerTyped(overlay) && Shows(disk, overlay, contents)
        invariant |blocks| <= capacity && DistinctEntries(blocks)
        invariant Coherent(blocks, ApplyAll(rows, ops[..i]))
      {
        assert ops[..i + 1][..i] == ops[..i];
        ghost var before := ApplyAll(rows, ops[..i]);
        match ops[i] {
          case Insert(BlockRow(hash, block)) =>
            RememberCoherent(blocks, CacheEntry(hash, Inserted(block)), capacity, before, Apply(before, ops[i]));
            blocks := Remember(blocks, CacheEntry(hash, Inserted(block)), capacity);
          case Delete(BlockKey(hash)) =>
            RememberCoherent(blocks, CacheEntry(hash, Deleted), capacity, before, Apply(before, ops[i]));
            blocks := Remember(blocks, CacheEntry(hash, Deleted), capacity);
          case _ =>
        }
      }
      assert ops[..|ops|] == ops;
      WriteOverlay(ops);
    }

    /** What `get` answers; `Touch` is its other effect. */
    function Get(key: Key): (state: KeyState<Value>)
      requires Valid()
      reads this
      ensures state.IntoOption() == Lookup(contents, key)
    {
      match key
      case BlockKey(hash) =>
        var i := EntryIndex(blocks, hash);
        if i < |blocks| then
          (assert Agrees(blocks[i], contents);
           match blocks[i].state
           case Inserted(block) => Inserted(BlockValue(block))
           case Deleted => Deleted
           case Unknown => Unknown)
        else
          Through(GetLayer(overlay, key), GetRows(disk, key))
      case _ => Through(GetLayer(overlay, key), GetRows(disk, key))
    }

    /** A cache hit makes the entry the most recently used one. */
    method Touch(hash: Hash)
      requires Valid()
      modifies this`blocks
      ensures Valid() && multiset(blocks) == multiset(old(blocks))
      ensures (exists e :: e in old(blocks) && e.hash == hash) ==> blocks != [] && blocks[|blocks| - 1].hash == hash
      ensures Without(blocks, hash) == Without(old(blocks), hash)
    {
      var i := EntryIndex(blocks, hash);
      if i < |blocks| {
        var entry := blocks[i];
        WithoutHas(blocks, hash);
        assert blocks == blocks[..i] + [entry] + blocks[i + 1..];
        blocks := blocks[..i] + blocks[i + 1..] + [entry];
      }
    }
  }

  // ---- The fork overlay ----

  /** Writes stay in memory, reads fall through to the borrowed stack below. */
  class OverlayDatabase {
    const db: CacheDatabase
    var overlay: Layer
    ghost var contents: Rows

    ghost predicate Valid()
      reads this, db
    {
      db.Valid() && LayerTyped(overlay) && Shows(db.contents, overlay, contents)
    }

    constructor (db: CacheDatabase)
      requires db.Valid()
      ensures this.db == db && Valid() && contents == db.contents
    {
      this.db := db;
      this.overlay := map[];
      this.contents := db.contents;
    }

    method Write(ops: seq<Operation>)
      requires Valid()
      modifies this
      ensures Valid() && contents == ApplyAll(old(contents), ops)
    {
      overlay := WriteLayer(overlay, ops);
      contents := ApplyAll(contents, ops);
    }

    function Get(key: Key): (state: KeyState<Value>)
      requires Valid()
      reads this, db
      ensures state.IntoOption() == Lookup(contents, key)
    {
      Through(GetLayer(overlay, key), db.Get(key))
    }

    /** Moves the overlay into the stack below: what was read through the fork is now read without it. */
    method Flush()
      requires Valid()
      modifies this, db
      ensures Valid() && contents == old(contents)
      ensures db.contents == contents && overlay == map[]
    {
      var ops := DrainTransaction(overlay);
      overlay := map[];
      db.Write(ops);
    }
  }

  /** `BlockChainDatabase<T>` is used over the full stack and over a fork overlay of that stack. */
  datatype Backend = Canon(cache: CacheDatabase) | Fork(fork: OverlayDatabase) {

    /** The stack at the bottom. */
    function Base(): CacheDatabase {
      match this
      case Canon(cache) => cache
      case Fork(fork) => fork.db
    }

    /** The object that writes change: a fork never touches the stack it was made from. */
    function Target(): object {
      match this
      case Canon(cache) => cache
      case Fork(fork) => fork
    }

    ghost predicate Valid()
      reads Target(), Base()
    {
      match this
      case Canon(cache) => cache.Valid()
      case Fork(fork) => fork.Valid()
    }

    ghost function View(): Rows
      reads Target(), Base()
    {
      match this
      case Canon(cache) => cache.contents
      case Fork(fork) => fork.contents
    }

    function Get(key: Key): (state: KeyState<Value>)
      requires Valid()
      reads Target(), Base()
      ensures state.IntoOption() == Lookup(View(), key)
    {
      match this
      case Canon(cache) => cache.Get(key)
      case Fork(fork) => fork.Get(key)
    }

    method Write(ops: seq<Operation>)
      requires Valid()
      modifies Target()
      ensures Valid() && View() == ApplyAll(old(View()), ops)
    {
      match this {
        case Canon(cache) => cache.Write(ops);
        case Fork(fork) => fork.Write(ops);
      }
    }
  }
}
