/** The in-memory chain of headers whose blocks are not stored yet (sync/src/utils/best_headers_chain.rs). */
module HeadersChain {
  import opened Primitives
  import opened HashQueues
  import opened Ledger
  import opened Sequences

  datatype BestHeadersChain = BestHeadersChain(
    storageBestHash: Hash,
    headers: map<Hash, IndexedHeader>,
    best: HashQueue)
  {
    /** Exactly the queued headers are known, and each one's parent is the one queued before it. */
    ghost predicate Valid() {
      && best.Valid()
      && headers.Keys == best.elements
      && (forall h :: h in headers ==> headers[h].hash == h)
      && forall i :: 0 < i < |best.queue| ==> LinkedAt(i)
    }

    ghost predicate LinkedAt(i: nat) {
      0 < i < |best.queue| && best.queue[i] in headers &&
      headers[best.queue[i]].raw.previousHeaderHash == best.queue[i - 1]
    }

    function BestBlockHash(): Hash {
      match best.Back()
      case Some(hash) => hash
      case None => storageBestHash
    }

    function Insert(header: IndexedHeader): BestHeadersChain
      requires BestBlockHash() == header.raw.previousHeaderHash ==> header.hash !in best.elements
    {
      if BestBlockHash() == header.raw.previousHeaderHash then
        BestHeadersChain(storageBestHash, headers[header.hash := header], best.PushBack(header.hash))
      else
        this
    }

    function Clear(): BestHeadersChain {
      BestHeadersChain(storageBestHash, map[], EMPTY)
    }

    function BlockInsertedToStorage(hash: Hash, newStorageBestHash: Hash): BestHeadersChain {
      if best.queue != [] && best.queue[0] == hash then
        BestHeadersChain(newStorageBestHash, headers - {hash}, best.PopFront())
      else
        this.(storageBestHash := newStorageBestHash)
    }
  }

  /** The header joins the end of the chain. */
  ghost predicate Extends(c: BestHeadersChain, header: IndexedHeader, d: BestHeadersChain) {
    && d.best.queue == c.best.queue + [header.hash]
    && d.headers == c.headers[header.hash := header]
    && d.storageBestHash == c.storageBestHash
  }

  lemma InsertValid(c: BestHeadersChain, header: IndexedHeader)
    requires c.Valid()
    requires c.BestBlockHash() == header.raw.previousHeaderHash ==> header.hash !in c.best.elements
    ensures c.Insert(header).Valid()
    ensures c.best.queue <= c.Insert(header).best.queue
    ensures c.BestBlockHash() == header.raw.previousHeaderHash ==> Extends(c, header, c.Insert(header))
    ensures c.BestBlockHash() != header.raw.previousHeaderHash ==> c.Insert(header) == c
  {
    if c.BestBlockHash() == header.raw.previousHeaderHash {
      var d := c.Insert(header);
      PushBackValid(c.best, header.hash);
      forall i | 0 < i < |d.best.queue| ensures d.LinkedAt(i) {
        assert i < |c.best.queue| ==> c.LinkedAt(i);
      }
    }
  }

  function HashesOf(headers: seq<IndexedHeader>): (hs: seq<Hash>)
    ensures |hs| == |headers| && forall i :: 0 <= i < |headers| ==> hs[i] == headers[i].hash
  {
    seq(|headers|, i requires 0 <= i < |headers| => headers[i].hash)
  }

  /** The headers continue the chain, each the parent of the next. */
  ghost predicate Continues(c: BestHeadersChain, headers: seq<IndexedHeader>) {
    forall i :: 0 <= i < |headers| ==> ContinuesAt(c, headers, i)
  }

  ghost predicate ContinuesAt(c: BestHeadersChain, headers: seq<IndexedHeader>, i: nat)
    requires i < |headers|
  {
    headers[i].raw.previousHeaderHash == if i == 0 then c.BestBlockHash() else headers[i - 1].hash
  }

  /** None of the headers is known, and no two are the same. */
  ghost predicate AreNew(c: BestHeadersChain, headers: seq<IndexedHeader>) {
    Distinct(HashesOf(headers)) && forall i :: 0 <= i < |headers| ==> headers[i].hash !in c.best.queue
  }

  ghost predicate Holds(c: BestHeadersChain, header: IndexedHeader) {
    header.hash in c.headers && c.headers[header.hash] == header
  }

  /** The chain after the first `i` headers were inserted. */
  ghost predicate Inserted(c: BestHeadersChain, headers: seq<IndexedHeader>, i: nat, d: BestHeadersChain)
    requires i <= |headers|
  {
    && d.Valid() && c.best.queue <= d.best.queue && d.storageBestHash == c.storageBestHash
    && From(d.best.queue, c.best.queue, HashesOf(headers)[..i]) && Keeps(c, d)
    && (Continues(c, headers) ==>
          d.best.queue == c.best.queue + HashesOf(headers)[..i] && HoldsAll(d, headers[..i]))
  }

  /** Everything in the queue was in it before or is new. */
  ghost predicate From(queue: seq<Hash>, before: seq<Hash>, added: seq<Hash>) {
    forall h :: h in queue ==> h in before || h in added
  }

  lemma FromPush(queue: seq<Hash>, before: seq<Hash>, added: seq<Hash>, h: Hash)
    requires From(queue, before, added)
    ensures From(queue, before, added + [h]) && From(queue + [h], before, added + [h])
  {
  }

  ghost predicate Keeps(c: BestHeadersChain, d: BestHeadersChain) {
    forall h :: h in c.headers ==> h in d.headers && d.headers[h] == c.headers[h]
  }

  ghost predicate HoldsAll(c: BestHeadersChain, headers: seq<IndexedHeader>) {
    forall j :: 0 <= j < |headers| ==> Holds(c, headers[j])
  }

  lemma KeepsPush(c: BestHeadersChain, headers: seq<IndexedHeader>, i: nat, d: BestHeadersChain)
    requires i < |headers| && c.Valid() && c.best.Valid() && headers[i].hash !in c.best.elements
    requires d.headers == c.headers[headers[i].hash := headers[i]]
    ensures Keeps(c, d) && (HoldsAll(c, headers[..i]) ==> HoldsAll(d, headers[..i + 1]))
  {
    if HoldsAll(c, headers[..i]) {
      var more := headers[..i + 1];
      forall j | 0 <= j < |more| ensures Holds(d, more[j]) {
        assert j < i ==> Holds(c, headers[..i][j]);
      }
    }
  }

  lemma StillNew(c: BestHeadersChain, headers: seq<IndexedHeader>, i: nat, d: BestHeadersChain)
    requires i < |headers| && AreNew(c, headers) && Inserted(c, headers, i, d)
    ensures headers[i].hash !in d.best.queue
  {
    var hashes := HashesOf(headers);
    assert headers[i].hash == hashes[i];
    forall j | 0 <= j < i ensures hashes[..i][j] != hashes[i] {
      assert hashes[..i][j] == hashes[j];
    }
  }

  /** Headers that continue the chain go on continuing it. */
  lemma NextContinues(c: BestHeadersChain, headers: seq<IndexedHeader>, i: nat, d: BestHeadersChain)
    requires i < |headers| && Inserted(c, headers, i, d) && Continues(c, headers)
    ensures d.BestBlockHash() == headers[i].raw.previousHeaderHash
  {
    var hashes := HashesOf(headers);
    assert ContinuesAt(c, headers, i);
    if i > 0 {
      assert d.best.queue[|d.best.queue| - 1] == hashes[..i][i - 1] == headers[i - 1].hash;
    } else {
      assert d.best.queue == c.best.queue;
    }
  }

  lemma InsertedExtended(
    c: BestHeadersChain, headers: seq<IndexedHeader>, i: nat, d: BestHeadersChain, e: BestHeadersChain)
    requires i < |headers| && Inserted(c, headers, i, d) && headers[i].hash !in d.best.elements
    requires Extends(d, headers[i], e) && e.Valid()
    ensures Inserted(c, headers, i + 1, e)
  {
    var hashes := HashesOf(headers);
    assert hashes[..i + 1] == hashes[..i] + [headers[i].hash];
    FromPush(d.best.queue, c.best.queue, hashes[..i], headers[i].hash);
    KeepsPush(d, headers, i, e);
    if Continues(c, headers) {
      Associate(c.best.queue, hashes[..i], [headers[i].hash]);
    }
  }

  lemma InsertedSkipped(c: BestHeadersChain, headers: seq<IndexedHeader>, i: nat, d: BestHeadersChain)
    requires i < |headers| && Inserted(c, headers, i, d) && !Continues(c, headers)
    ensures Inserted(c, headers, i + 1, d)
  {
    var hashes := HashesOf(headers);
    assert hashes[..i + 1] == hashes[..i] + [headers[i].hash];
    FromPush(d.best.queue, c.best.queue, hashes[..i], headers[i].hash);
  }

  lemma InsertedStep(c: BestHeadersChain, headers: seq<IndexedHeader>, i: nat, d: BestHeadersChain)
    requires i < |headers| && Inserted(c, headers, i, d) && headers[i].hash !in d.best.elements
    ensures Inserted(c, headers, i + 1, d.Insert(headers[i]))
  {
    InsertValid(d, headers[i]);
    if Continues(c, headers) {
      NextContinues(c, headers, i, d);
    }
    if d.BestBlockHash() == headers[i].raw.previousHeaderHash {
      InsertedExtended(c, headers, i, d, d.Insert(headers[i]));
    } else {
      InsertedSkipped(c, headers, i, d);
    }
  }

  /** Inserts new headers; if they continue the chain, all are appended, in order. */
  method InsertN(c: BestHeadersChain, headers: seq<IndexedHeader>) returns (d: BestHeadersChain)
    requires c.Valid() && AreNew(c, headers)
    ensures d.Valid() && c.best.queue <= d.best.queue && d.storageBestHash == c.storageBestHash
    ensures From(d.best.queue, c.best.queue, HashesOf(headers))
    ensures Keeps(c, d)
    ensures Continues(c, headers) ==> d.best.queue == c.best.queue + HashesOf(headers) && HoldsAll(d, headers)
  {
    d := c;
    for i := 0 to |headers|
      invariant Inserted(c, headers, i, d)
    {
      StillNew(c, headers, i, d);
      InsertedStep(c, headers, i, d);
      d := d.Insert(headers[i]);
    }
    assert HashesOf(headers)[..|headers|] == HashesOf(headers) && headers[..|headers|] == headers;
  }

  /** The queue starts with the header of the given block. */
  predicate AwaitsFirst(c: BestHeadersChain, hash: Hash) {
    c.best.queue != [] && c.best.queue[0] == hash
  }

  /** The stored block leaves the front, if it was there; all other headers stay, and the chain keeps its order. */
  ghost predicate Loses(c: BestHeadersChain, hash: Hash, d: BestHeadersChain) {
    if AwaitsFirst(c, hash) then d.best.queue == c.best.queue[1..] && d.headers == c.headers - {hash}
    else d.best.queue == c.best.queue && d.headers == c.headers
  }

  lemma BlockInsertedToStorageValid(c: BestHeadersChain, hash: Hash, newStorageBestHash: Hash)
    requires c.Valid()
    ensures var d := c.BlockInsertedToStorage(hash, newStorageBestHash);
            d.Valid() && d.storageBestHash == newStorageBestHash && Loses(c, hash, d)
  {
    var d := c.BlockInsertedToStorage(hash, newStorageBestHash);
    if AwaitsFirst(c, hash) {
      PopFrontValid(c.best);
      forall i | 0 < i < |d.best.queue| ensures d.LinkedAt(i) {
        assert c.LinkedAt(i + 1);
      }
    } else {
      forall i | 0 < i < |d.best.queue| ensures d.LinkedAt(i) {
        assert c.LinkedAt(i);
      }
    }
  }

  /** The best block by headers: the queued headers count on from the best stored block. */
  function BestHeader(c: BestHeadersChain, stored: BestBlock): (best: BestBlock)
    ensures best == BestBlock(stored.number + |c.best.queue|, End(stored.hash, c.best.queue))
  {
    var n := |c.best.queue|;
    if n == 0 then stored else BestBlock(stored.number + n, c.best.At(n - 1).value)
  }

  /** The first queued header is a child of the best stored block. */
  ghost predicate OnStorage(c: BestHeadersChain) {
    c.best.queue != [] ==>
      c.best.queue[0] in c.headers && c.headers[c.best.queue[0]].raw.previousHeaderHash == c.storageBestHash
  }

  /** Storing the first queued block as the best one leaves the rest on top of it, and the best header the same. */
  lemma StaysOnStorage(c: BestHeadersChain, hash: Hash, d: BestHeadersChain, number: nat, stored: Hash)
    requires c.Valid() && AwaitsFirst(c, hash) && d.Valid() && Loses(c, hash, d) && d.storageBestHash == hash
    ensures OnStorage(d) && BestHeader(d, BestBlock(number + 1, hash)) == BestHeader(c, BestBlock(number, stored))
  {
    if |c.best.queue| > 1 {
      assert c.LinkedAt(1);
      assert d.best.queue[0] in d.best.elements;
    }
  }

  /** The chain with only its first `n` headers. */
  ghost predicate IsPrefix(c: BestHeadersChain, n: nat, d: BestHeadersChain) {
    && n <= |c.best.queue|
    && d.Valid()
    && d.storageBestHash == c.storageBestHash
    && d.best.queue == c.best.queue[..n]
    && (forall h :: h in d.headers ==> h in c.headers && d.headers[h] == c.headers[h])
  }

  lemma PrefixOfPrefix(c: BestHeadersChain, d: BestHeadersChain, e: BestHeadersChain, m: nat, n: nat)
    requires IsPrefix(c, n, d) && IsPrefix(d, m, e)
    ensures IsPrefix(c, m, e)
  {
    assert c.best.queue[..n][..m] == c.best.queue[..m];
  }

  /** Only the prefix before the given hash is left; if the hash is not queued, nothing changes. */
  ghost predicate CutAt(c: BestHeadersChain, hash: Hash, d: BestHeadersChain) {
    && (hash !in c.best.queue ==> d == c)
    && forall p :: 0 <= p < |c.best.queue| && c.best.queue[p] == hash ==> IsPrefix(c, p, d)
  }

  /** Removes a header and all headers after it. */
  method Remove(c: BestHeadersChain, hash: Hash) returns (d: BestHeadersChain)
    requires c.Valid()
    ensures CutAt(c, hash, d) && d.Valid()
  {
    if hash !in c.headers {
      return c;
    }
    var rest, position := HashQueues.Remove(c.best, hash);
    var without := BestHeadersChain(c.storageBestHash, c.headers - {hash}, rest);
    match position {
      case Front =>
        d := without.Clear();
        assert IsPrefix(c, 0, d);
      case Inside(p) =>
        d := ClearAfter(c, without, p);
      case Missing =>
        assert false;
    }
  }

  /** `clear_after`: pops headers from the back until `position` are left. */
  method ClearAfter(ghost c: BestHeadersChain, without: BestHeadersChain, position: nat) returns (d: BestHeadersChain)
    requires c.Valid() && without.best.Valid() && without.headers.Keys == without.best.elements
    requires 0 < position <= |without.best.queue| && position <= |c.best.queue|
    requires without.storageBestHash == c.storageBestHash && without.best.queue[..position] == c.best.queue[..position]
    requires forall h :: h in without.headers ==> h in c.headers && without.headers[h] == c.headers[h]
    ensures IsPrefix(c, position, d)
  {
    d := without;
    while |d.best.queue| > position
      invariant d.best.Valid() && d.headers.Keys == d.best.elements && d.storageBestHash == c.storageBestHash
      invariant position <= |d.best.queue| && d.best.queue[..position] == c.best.queue[..position]
      invariant forall h :: h in d.headers ==> h in c.headers && d.headers[h] == c.headers[h]
      decreases |d.best.queue|
    {
      PopBackValid(d.best);
      var last := d.best.queue[|d.best.queue| - 1];
      d := BestHeadersChain(d.storageBestHash, d.headers - {last}, d.best.PopBack());
    }
    assert d.best.queue[..position] == d.best.queue;
    forall i | 0 < i < |d.best.queue| ensures d.LinkedAt(i) {
      assert c.LinkedAt(i) && d.best.queue[i] in d.best.elements;
    }
  }

  /** What `children` answers: the hash queued right after the given one, if any. */
  ghost predicate AreChildren(all: seq<Hash>, next: Hash, children: seq<Hash>) {
    && (next !in all ==> children == [])
    && forall i :: 0 <= i < |all| && all[i] == next ==> children == if i + 1 < |all| then [all[i + 1]] else []
  }

  method Children(c: BestHeadersChain, hash: Hash) returns (children: seq<Hash>)
    requires c.Valid()
    ensures AreChildren(c.best.queue, hash, children)
  {
    var position := Position(c.best, hash);
    children := [];
    match position {
      case None =>
      case Some(p) =>
        match c.best.At(p + 1) {
          case Some(child) => children := [child];
          case None =>
        }
    }
  }
}
