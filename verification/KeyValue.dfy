/** Keys, values and transactions of the key-value store (db/src/kv/transaction.rs). */
module KeyValue {
  import opened Primitives

  /** The two meta rows hold the best block; they are kept in decoded form. */
  datatype MetaEntry = NumberEntry(number: nat) | HashEntry(hash: Hash)

  datatype MetaName = BestBlockNumber | BestBlockHash

  datatype Key =
    | MetaKey(meta: MetaName)
    | BlockHashKey(number: nat)
    | BlockKey(hash: Hash)
    | BlockNumberKey(hash: Hash)
    | ConfigurationKey(name: string)

  datatype Value =
    | MetaValue(entry: MetaEntry)
    | BlockHashValue(hash: Hash)
    | BlockValue(block: Block)
    | BlockNumberValue(number: nat)
    | ConfigurationValue(bytes: seq<byte>)

  datatype KeyValue =
    | Meta(meta: MetaName, entry: MetaEntry)
    | BlockHash(number: nat, hash: Hash)
    | BlockRow(hash: Hash, block: Block)
    | BlockNumber(hash: Hash, number: nat)
    | Configuration(name: string, bytes: seq<byte>)
  {
    function RowKey(): Key {
      match this
      case Meta(meta, _) => MetaKey(meta)
      case BlockHash(number, _) => BlockHashKey(number)
      case BlockRow(hash, _) => BlockKey(hash)
      case BlockNumber(hash, _) => BlockNumberKey(hash)
      case Configuration(name, _) => ConfigurationKey(name)
    }

    function RowValue(): Value {
      match this
      case Meta(_, entry) => MetaValue(entry)
      case BlockHash(_, hash) => BlockHashValue(hash)
      case BlockRow(_, block) => BlockValue(block)
      case BlockNumber(_, number) => BlockNumberValue(number)
      case Configuration(_, bytes) => ConfigurationValue(bytes)
    }
  }

  datatype Operation = Insert(row: KeyValue) | Delete(key: Key) {
    function Target(): Key {
      match this
      case Insert(row) => row.RowKey()
      case Delete(key) => key
    }

    function State(): (s: KeyState<Value>)
      ensures s != Unknown
    {
      match this
      case Insert(row) => Inserted(row.RowValue())
      case Delete(_) => Deleted
    }
  }

  datatype KeyState<+V> = Inserted(value: V) | Deleted | Unknown {
    function IntoOption(): Option<V> {
      match this
      case Inserted(value) => Some(value)
      case Deleted => None
      case Unknown => None
    }
  }

  /** The pair (key, state) is a row of the right kind: what `KeyState::into_operation` may be given. */
  predicate Typed(key: Key, state: KeyState<Value>) {
    match state
    case Unknown => false
    case Deleted => true
    case Inserted(value) =>
      match key
      case MetaKey(_) => value.MetaValue?
      case BlockHashKey(_) => value.BlockHashValue?
      case BlockKey(_) => value.BlockValue?
      case BlockNumberKey(_) => value.BlockNumberValue?
      case ConfigurationKey(_) => value.ConfigurationValue?
  }

  /** `KeyState::into_operation`: the operation that puts `key` into `state`. */
  function IntoOperation(key: Key, state: KeyState<Value>): (op: Operation)
    requires Typed(key, state)
    ensures op.Target() == key && op.State() == state
  {
    match state
    case Deleted => Delete(key)
    case Inserted(value) =>
      match key
      case MetaKey(meta) => Insert(Meta(meta, value.entry))
      case BlockHashKey(number) => Insert(BlockHash(number, value.hash))
      case BlockKey(hash) => Insert(BlockRow(hash, value.block))
      case BlockNumberKey(hash) => Insert(BlockNumber(hash, value.number))
      case ConfigurationKey(name) => Insert(Configuration(name, value.bytes))
  }

  function AsBlockHash(value: Option<Value>): Option<Hash> {
    match value
    case Some(BlockHashValue(hash)) => Some(hash)
    case _ => None
  }

  function AsBlockNumber(value: Option<Value>): Option<nat> {
    match value
    case Some(BlockNumberValue(number)) => Some(number)
    case _ => None
  }

  function AsBlock(value: Option<Value>): Option<Block> {
    match value
    case Some(BlockValue(block)) => Some(block)
    case _ => None
  }

  // ---- The reference store: one plain map ----

  type Rows = map<Key, Value>

  /** What a reader of a plain map gets, after `into_option`. */
  function Lookup(rows: Rows, key: Key): Option<Value> {
    if key in rows then Some(rows[key]) else None
  }

  function Apply(rows: Rows, op: Operation): Rows {
    match op
    case Insert(row) => rows[row.RowKey() := row.RowValue()]
    case Delete(key) => rows - {key}
  }

  function ApplyAll(rows: Rows, ops: seq<Operation>): Rows {
    if ops == [] then rows else Apply(ApplyAll(rows, ops[..|ops| - 1]), ops[|ops| - 1])
  }

  // ---- A layer of states on top of a plain map ----

  type Layer = map<Key, KeyState<Value>>

  predicate LayerTyped(layer: Layer) {
    forall key :: key in layer ==> Typed(key, layer[key])
  }

  /** `contents` is what is read through `layer`: its own state, or the rows below where it says nothing. */
  ghost predicate Shows(rows: Rows, layer: Layer, contents: Rows) {
    forall key {:trigger Lookup(contents, key)} ::
      Lookup(contents, key) == if key in layer then layer[key].IntoOption() else Lookup(rows, key)
  }

  function Record(layer: Layer, op: Operation): Layer {
    layer[op.Target() := op.State()]
  }

  function RecordAll(layer: Layer, ops: seq<Operation>): Layer {
    if ops == [] then layer else Record(RecordAll(layer, ops[..|ops| - 1]), ops[|ops| - 1])
  }

  lemma OperationTyped(op: Operation)
    ensures Typed(op.Target(), op.State())
  {
  }

  /** Plain maps that answer every lookup alike are the same map. */
  lemma LookupsDetermine(a: Rows, b: Rows)
    requires forall key :: Lookup(a, key) == Lookup(b, key)
    ensures a == b
  {
    assert forall key :: key in a <==> Lookup(a, key).Some?;
    assert forall key :: key in b <==> Lookup(b, key).Some?;
    forall key | key in a ensures a[key] == b[key] {
      assert Lookup(a, key) == Lookup(b, key);
    }
  }

  /** Recording in the layer is the same as applying to what is seen through the layer. */
  lemma ShowsRecord(rows: Rows, layer: Layer, contents: Rows, op: Operation)
    requires Shows(rows, layer, contents)
    ensures Shows(rows, Record(layer, op), Apply(contents, op))
  {
    forall key ensures key != op.Target() ==> Lookup(Apply(contents, op), key) == Lookup(contents, key) {
    }
  }

  lemma {:induction false} ShowsRecordAll(rows: Rows, layer: Layer, contents: Rows, ops: seq<Operation>)
    requires Shows(rows, layer, contents)
    ensures Shows(rows, RecordAll(layer, ops), ApplyAll(contents, ops))
  {
    if ops != [] {
      var before := ops[..|ops| - 1];
      ShowsRecordAll(rows, layer, contents, before);
      ShowsRecord(rows, RecordAll(layer, before), ApplyAll(contents, before), ops[|ops| - 1]);
    }
  }

  /** What is seen through a layer is determined by the layer and the rows below. */
  lemma ShowsUnique(rows: Rows, layer: Layer, contents: Rows, contents': Rows)
    requires Shows(rows, layer, contents) && Shows(rows, layer, contents')
    ensures contents == contents'
  {
    forall key ensures Lookup(contents, key) == Lookup(contents', key) {
    }
    LookupsDetermine(contents, contents');
  }

  lemma {:induction false} RecordAllTyped(layer: Layer, ops: seq<Operation>)
    requires LayerTyped(layer)
    ensures LayerTyped(RecordAll(layer, ops))
  {
    if ops != [] {
      RecordAllTyped(layer, ops[..|ops| - 1]);
      OperationTyped(ops[|ops| - 1]);
    }
  }
}
