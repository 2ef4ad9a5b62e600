/**
 Headers served to a peer (sync/src/synchronization_server.rs), and what two nodes get from one exchange of a
 block locator for headers.
 */
module HeaderSync {
  import opened Primitives
  import opened Ledger
  import opened BlockChainDb
  import opened Locator
  import opened HashQueues
  import SyncChain

  /** `GETHEADERS_MAX_RESPONSE_HEADERS`. */
  const MAX_RESPONSE_HEADERS: nat := 2000

  /** `GETBLOCKS_MAX_RESPONSE_HASHES`. */
  const MAX_RESPONSE_HASHES: nat := 500

  // ---- The server ----

  /** The height at which a stored block's branch leaves the canonical chain; its own height if it is canonical. */
  function ForkHeight(l: Ledger, h: Hash): (a: nat)
    requires l.Rooted() && h in l.blocks
    ensures a < |l.canon| && a <= l.height[h]
  {
    BranchForks(l, h);
    l.height[h] - |Branch(l, h)|
  }

  /** The first hash that is stored decides. */
  function CommonHeight(l: Ledger, hashes: seq<Hash>): Option<nat>
    requires l.Rooted()
  {
    if hashes == [] then None
    else if hashes[0] in l.blocks then Some(ForkHeight(l, hashes[0]))
    else CommonHeight(l, hashes[1..])
  }

  ghost predicate NoneStored(l: Ledger, hashes: seq<Hash>) {
    forall i :: 0 <= i < |hashes| ==> hashes[i] !in l.blocks
  }

  ghost predicate IsFirstStored(l: Ledger, hashes: seq<Hash>, j: nat) {
    j < |hashes| && hashes[j] in l.blocks && forall i :: 0 <= i < j ==> hashes[i] !in l.blocks
  }

  /** `h` is where the branch of the first stored hash leaves the canonical chain. */
  ghost predicate IsCommonHeight(l: Ledger, hashes: seq<Hash>, h: nat) {
    exists j: nat, route :: IsFirstStored(l, hashes, j) && ForksAt(l, hashes[j], h, route)
  }

  lemma {:induction false} CommonCases(l: Ledger, hashes: seq<Hash>)
    requires l.Rooted()
    ensures CommonHeight(l, hashes) == None <==> NoneStored(l, hashes)
    ensures CommonHeight(l, hashes).Some? ==> IsCommonHeight(l, hashes, CommonHeight(l, hashes).value)
  {
    if hashes != [] {
      if hashes[0] in l.blocks {
        BranchForks(l, hashes[0]);
        assert IsFirstStored(l, hashes, 0) && ForksAt(l, hashes[0], ForkHeight(l, hashes[0]), Branch(l, hashes[0]));
      } else {
        CommonCases(l, hashes[1..]);
        assert forall k :: 0 < k < |hashes| ==> hashes[k] == hashes[1..][k - 1];
        if !NoneStored(l, hashes[1..]) {
          var h := CommonHeight(l, hashes[1..]).value;
          var j: nat, route :| IsFirstStored(l, hashes[1..], j) && ForksAt(l, hashes[1..][j], h, route);
          assert IsFirstStored(l, hashes, j + 1) && ForksAt(l, hashes[j + 1], h, route);
        }
      }
    }
  }

  lemma CommonUnique(l: Ledger, hashes: seq<Hash>, h: nat, h': nat)
    requires l.Rooted() && IsCommonHeight(l, hashes, h) && IsCommonHeight(l, hashes, h')
    ensures h == h'
  {
    var i: nat, route :| IsFirstStored(l, hashes, i) && ForksAt(l, hashes[i], h, route);
    var j: nat, route' :| IsFirstStored(l, hashes, j) && ForksAt(l, hashes[j], h', route');
    ForkUnique(l, hashes[i], h, route);
    ForkUnique(l, hashes[j], h', route');
  }

  /** No common block exactly if no hash is stored; otherwise the common height is what it should be. */
  lemma CommonHeightIs(l: Ledger, hashes: seq<Hash>)
    requires l.Rooted()
    ensures CommonHeight(l, hashes) == None <==> NoneStored(l, hashes)
    ensures forall h: nat :: CommonHeight(l, hashes) == Some(h) <==> IsCommonHeight(l, hashes, h)
  {
    CommonCases(l, hashes);
    forall h: nat | IsCommonHeight(l, hashes, h) ensures CommonHeight(l, hashes) == Some(h) {
      StoredSomewhere(l, hashes, h);
      CommonUnique(l, hashes, h, CommonHeight(l, hashes).value);
    }
  }

  lemma StoredSomewhere(l: Ledger, hashes: seq<Hash>, h: nat)
    requires IsCommonHeight(l, hashes, h)
    ensures !NoneStored(l, hashes)
  {
  }

  method LocateBestCommonBlock(storage: BlockChainDatabase, hashStop: Hash, locator: seq<Hash>)
    returns (height: Option<nat>)
    requires storage.Valid() && storage.ledger.Rooted()
    ensures height == CommonHeight(storage.ledger, locator + [hashStop])
    ensures height == None <==> NoneStored(storage.ledger, locator + [hashStop])
    ensures height.Some? ==> IsCommonHeight(storage.ledger, locator + [hashStop], height.value)
  {
    CommonHeightIs(storage.ledger, locator + [hashStop]);
    var hashes := locator + [hashStop];
    ghost var l := storage.ledger;
    for i := 0 to |hashes|
      invariant CommonHeight(l, hashes) == CommonHeight(l, hashes[i..])
    {
      assert hashes[i..][1..] == hashes[i + 1..];
      var number := storage.BlockNumber(hashes[i]);
      if number.Some? {
        return number;
      }
      height := WalkBack(storage, hashes[i]);
      if height.Some? {
        return;
      }
    }
    height := None;
  }

  /** The inner loop: from a block that is not canonical back to the first canonical parent. */
  method WalkBack(storage: BlockChainDatabase, start: Hash) returns (height: Option<nat>)
    requires storage.Valid() && storage.ledger.Rooted() && !storage.ledger.IsCanonical(start)
    ensures height ==
            if start in storage.ledger.blocks then Some(ForkHeight(storage.ledger, start)) else None
  {
    ghost var l := storage.ledger;
    var hash := start;
    while true
      invariant !l.IsCanonical(hash) && (hash in l.blocks <==> start in l.blocks)
      invariant hash in l.blocks ==> ForkHeight(l, hash) == ForkHeight(l, start)
      decreases if hash in l.blocks then l.height[hash] else 0
    {
      var block := storage.BlockByHash(hash);
      if block.None? {
        return None;
      }
      BranchUnfold(l, hash);
      var parent := block.value.header.previousHeaderHash;
      var number := storage.BlockNumber(parent);
      if number.Some? {
        return number;
      }
      hash := parent;
    }
  }

  /** Canonical hashes from a height on, at most `count` and up to the one to stop at. */
  function HashesFrom(l: Ledger, from: nat, count: nat, hashStop: Hash): (hashes: seq<Hash>)
    ensures
      && |hashes| <= count && (hashes != [] ==> from + |hashes| <= |l.canon|)
      && (hashes != [] ==> hashes == l.canon[from..from + |hashes|])
      && (forall i {:trigger l.canon[i]} :: from <= i < from + |hashes| ==> l.canon[i] != hashStop)
      && (|hashes| == count || from + |hashes| >= |l.canon| || l.canon[from + |hashes|] == hashStop)
    decreases |l.canon| - from
  {
    if count == 0 || from >= |l.canon| || l.canon[from] == hashStop then []
    else
      var rest := HashesFrom(l, from + 1, count - 1, hashStop);
      assert l.canon[from..from + 1 + |rest|] == [l.canon[from]] + l.canon[from + 1..from + 1 + |rest|];
      [l.canon[from]] + rest
  }

  function HeadersOf(blocks: Blocks, hashes: seq<Hash>): seq<BlockHeader>
    requires forall i :: 0 <= i < |hashes| ==> hashes[i] in blocks
  {
    seq(|hashes|, i requires 0 <= i < |hashes| => blocks[hashes[i]].header)
  }

  lemma HashesStored(l: Ledger, from: nat, count: nat, hashStop: Hash)
    requires l.Valid()
    ensures forall i :: 0 <= i < |HashesFrom(l, from, count, hashStop)| ==> HashesFrom(l, from, count, hashStop)[i] in l.blocks
  {
    forall i | 0 <= i < |HashesFrom(l, from, count, hashStop)|
      ensures HashesFrom(l, from, count, hashStop)[i] in l.blocks
    {
      HashAt(l, from, count, hashStop, i);
    }
  }

  /** The reply to `getheaders`; none if no hash of the request is known, which is misbehaviour. */
  function HeadersReply(l: Ledger, hashStop: Hash, locator: seq<Hash>): Option<seq<BlockHeader>>
    requires l.Rooted()
  {
    match CommonHeight(l, locator + [hashStop])
    case None => None
    case Some(h) =>
      HashesStored(l, h + 1, MAX_RESPONSE_HEADERS, hashStop);
      Some(HeadersOf(l.blocks, HashesFrom(l, h + 1, MAX_RESPONSE_HEADERS, hashStop)))
  }

  /** The reply to `getblocks`, in the same way. */
  function BlocksReply(l: Ledger, hashStop: Hash, locator: seq<Hash>): Option<seq<Hash>>
    requires l.Rooted()
  {
    match CommonHeight(l, locator + [hashStop])
    case None => None
    case Some(h) => Some(HashesFrom(l, h + 1, MAX_RESPONSE_HASHES, hashStop))
  }

  /** The canonical chain from right above height `h`: `max` hashes, or all up to the tip or the one to stop at. */
  ghost predicate Serves(l: Ledger, h: nat, max: nat, hashStop: Hash, hashes: seq<Hash>) {
    var end := h + 1 + |hashes|;
    && |hashes| <= max && end <= |l.canon| && hashes == l.canon[h + 1..end] && hashStop !in hashes
    && (|hashes| == max || end == |l.canon| || l.canon[end] == hashStop)
  }

  ghost predicate AreHeaders(blocks: Blocks, hashes: seq<Hash>, headers: seq<BlockHeader>) {
    && |headers| == |hashes|
    && forall i :: 0 <= i < |hashes| ==> hashes[i] in blocks && headers[i] == blocks[hashes[i]].header
  }

  ghost predicate ServesHeaders(l: Ledger, h: nat, hashStop: Hash, headers: seq<BlockHeader>) {
    exists hashes :: Serves(l, h, MAX_RESPONSE_HEADERS, hashStop, hashes) && AreHeaders(l.blocks, hashes, headers)
  }

  lemma HashesServe(l: Ledger, h: nat, max: nat, hashStop: Hash)
    requires h < |l.canon|
    ensures Serves(l, h, max, hashStop, HashesFrom(l, h + 1, max, hashStop))
  {
    var hashes := HashesFrom(l, h + 1, max, hashStop);
    forall i | 0 <= i < |hashes| ensures hashes[i] != hashStop {
      assert hashes[i] == l.canon[h + 1 + i];
    }
  }

  /** `getblocks` is answered exactly if a hash is stored, from right above the common height on. */
  lemma BlocksReplyIs(l: Ledger, hashStop: Hash, locator: seq<Hash>)
    requires l.Rooted()
    ensures var reply, hashes := BlocksReply(l, hashStop, locator), locator + [hashStop];
            && (reply == None <==> NoneStored(l, hashes))
            && forall h: nat :: IsCommonHeight(l, hashes, h) ==>
                 reply.Some? && Serves(l, h, MAX_RESPONSE_HASHES, hashStop, reply.value)
  {
    var hashes := locator + [hashStop];
    CommonHeightIs(l, hashes);
    forall h: nat | IsCommonHeight(l, hashes, h)
      ensures Serves(l, h, MAX_RESPONSE_HASHES, hashStop, HashesFrom(l, h + 1, MAX_RESPONSE_HASHES, hashStop))
    {
      HashesServe(l, h, MAX_RESPONSE_HASHES, hashStop);
    }
  }

  /** `getheaders` in the same way. */
  lemma HeadersReplyIs(l: Ledger, hashStop: Hash, locator: seq<Hash>)
    requires l.Rooted()
    ensures var reply, hashes := HeadersReply(l, hashStop, locator), locator + [hashStop];
            && (reply == None <==> NoneStored(l, hashes))
            && forall h: nat :: IsCommonHeight(l, hashes, h) ==>
                 reply.Some? && ServesHeaders(l, h, hashStop, reply.value)
  {
    var hashes := locator + [hashStop];
    CommonHeightIs(l, hashes);
    forall h: nat | IsCommonHeight(l, hashes, h)
      ensures HeadersReply(l, hashStop, locator).Some?
      ensures ServesHeaders(l, h, hashStop, HeadersReply(l, hashStop, locator).value)
    {
      HashesServe(l, h, MAX_RESPONSE_HEADERS, hashStop);
      var served := HashesFrom(l, h + 1, MAX_RESPONSE_HEADERS, hashStop);
      HashesStored(l, h + 1, MAX_RESPONSE_HEADERS, hashStop);
      assert AreHeaders(l.blocks, served, HeadersOf(l.blocks, served));
    }
  }

  function SelectHashes(storage: BlockChainDatabase, from: nat, count: nat, hashStop: Hash): (hashes: seq<Hash>)
    requires storage.Valid()
    reads storage, storage.db.Target(), storage.db.Base()
    ensures hashes == HashesFrom(storage.ledger, from, count, hashStop)
    decreases |storage.ledger.canon| - from
  {
    if count == 0 then []
    else
      var hash := storage.BlockHash(from);
      if hash.None? || hash.value == hashStop then []
      else [hash.value] + SelectHashes(storage, from + 1, count - 1, hashStop)
  }

  method ServeGetHeaders(storage: BlockChainDatabase, hashStop: Hash, locator: seq<Hash>)
    returns (reply: Option<seq<BlockHeader>>)
    requires storage.Valid() && storage.ledger.Rooted()
    ensures reply == HeadersReply(storage.ledger, hashStop, locator)
    ensures reply == None <==> NoneStored(storage.ledger, locator + [hashStop])
  {
    var height := LocateBestCommonBlock(storage, hashStop, locator);
    match height {
      case None =>
        reply := None;
      case Some(h) =>
        var headers := HeadersAbove(storage, h, MAX_RESPONSE_HEADERS, hashStop);
        reply := Some(headers);
    }
  }

  method HeadersAbove(storage: BlockChainDatabase, h: nat, count: nat, hashStop: Hash) returns (headers: seq<BlockHeader>)
    requires storage.Valid()
    ensures var hashes := HashesFrom(storage.ledger, h + 1, count, hashStop);
            && (forall i :: 0 <= i < |hashes| ==> hashes[i] in storage.ledger.blocks)
            && headers == HeadersOf(storage.ledger.blocks, hashes)
  {
    HashesStored(storage.ledger, h + 1, count, hashStop);
    var hashes := SelectHashes(storage, h + 1, count, hashStop);
    headers := SelectHeaders(storage, hashes);
  }

  method SelectHeaders(storage: BlockChainDatabase, hashes: seq<Hash>) returns (headers: seq<BlockHeader>)
    requires storage.Valid() && forall i :: 0 <= i < |hashes| ==> hashes[i] in storage.ledger.blocks
    ensures headers == HeadersOf(storage.ledger.blocks, hashes)
  {
    headers := [];
    for i := 0 to |hashes|
      invariant |headers| == i
      invariant forall j :: 0 <= j < i ==> headers[j] == storage.ledger.blocks[hashes[j]].header
    {
      var block := storage.BlockByHash(hashes[i]);
      headers := headers + [block.value.header];
    }
  }

  /** An inventory message is sent only if there is something to tell. */
  method ServeGetBlocks(storage: BlockChainDatabase, hashStop: Hash, locator: seq<Hash>)
    returns (reply: Option<seq<Hash>>)
    requires storage.Valid() && storage.ledger.Rooted()
    ensures reply == BlocksReply(storage.ledger, hashStop, locator)
    ensures reply == None <==> NoneStored(storage.ledger, locator + [hashStop])
  {
    var height := LocateBestCommonBlock(storage, hashStop, locator);
    match height {
      case None =>
        reply := None;
      case Some(h) =>
        reply := Some(SelectHashes(storage, h + 1, MAX_RESPONSE_HASHES, hashStop));
    }
  }

  // ---- Two nodes ----

  /** Both nodes mean the same block by the same hash. */
  ghost predicate SameBlocks(r: Ledger, s: Ledger) {
    forall h :: h in r.blocks && h in s.blocks ==> r.blocks[h] == s.blocks[h]
  }

  /** The two canonical chains agree up to height `f` and not one block further. */
  ghost predicate ShareUpTo(r: Ledger, s: Ledger, f: nat) {
    && f < |r.canon| && f < |s.canon|
    && r.canon[..f + 1] == s.canon[..f + 1]
    && (f + 1 < |r.canon| && f + 1 < |s.canon| ==> r.canon[f + 1] != s.canon[f + 1])
  }

  /** Once the chains part they never meet again. */
  lemma {:induction false} StayApart(r: Ledger, s: Ledger, f: nat, x: nat)
    requires r.Rooted() && s.Rooted() && SameBlocks(r, s) && ShareUpTo(r, s, f)
    requires f < x < |r.canon| && x < |s.canon|
    ensures r.canon[x] != s.canon[x]
  {
    if f + 1 < x && r.canon[x] == s.canon[x] {
      assert Linked(r.blocks, ZERO, r.canon, x) && Linked(s.blocks, ZERO, s.canon, x);
      StayApart(r, s, f, x - 1);
      assert false;
    }
  }

  /** A requester's canonical block above the shared part forks off the server's chain at its end. */
  lemma {:induction false} ForkOfShared(r: Ledger, s: Ledger, f: nat, x: nat)
    requires r.Rooted() && s.Rooted() && SameBlocks(r, s) && ShareUpTo(r, s, f)
    requires f <= x < |r.canon| && r.canon[x] in s.blocks
    ensures s.height[r.canon[x]] == x && ForkHeight(s, r.canon[x]) == f
  {
    var h := r.canon[x];
    if x == f {
      assert r.canon[..f + 1][f] == s.canon[..f + 1][f];
      CanonHeight(s, f);
    } else {
      assert Linked(r.blocks, ZERO, r.canon, x);
      CanonHeight(r, x - 1);
      assert Attached(s.blocks, s.height, h);
      ForkOfShared(r, s, f, x - 1);
      if x < |s.canon| {
        StayApart(r, s, f, x);
      }
      BranchUnfold(s, h);
    }
  }

  lemma {:induction false} FirstDecides(l: Ledger, hashes: seq<Hash>, more: seq<Hash>, j: nat)
    requires l.Rooted() && j < |hashes| && hashes[j] in l.blocks
    requires forall i :: 0 <= i < j ==> hashes[i] !in l.blocks
    ensures CommonHeight(l, hashes + more) == Some(ForkHeight(l, hashes[j]))
  {
    if j > 0 {
      assert (hashes + more)[1..] == hashes[1..] + more;
      FirstDecides(l, hashes[1..], more, j - 1);
    }
  }

  lemma FirstStored(blocks: Blocks, hashes: seq<Hash>) returns (j: nat)
    requires hashes != [] && hashes[|hashes| - 1] in blocks
    ensures j < |hashes| && hashes[j] in blocks
    ensures forall i :: 0 <= i < j ==> hashes[i] !in blocks
  {
    j := 0;
    while hashes[j] !in blocks
      invariant j < |hashes| && forall i :: 0 <= i < j ==> hashes[i] !in blocks
      decreases |hashes| - j
    {
      j := j + 1;
    }
  }

  /** The shared part of the chains is stored, and canonical at the same heights, on both sides. */
  lemma SharedStored(r: Ledger, s: Ledger, f: nat, x: nat)
    requires r.Rooted() && s.Rooted() && ShareUpTo(r, s, f) && x <= f
    ensures r.canon[x] == s.canon[x] && r.canon[x] in r.blocks && r.canon[x] in s.blocks
    ensures ForkHeight(s, r.canon[x]) == x
  {
    assert r.canon[..f + 1][x] == s.canon[..f + 1][x];
    CanonHeight(r, x);
    CanonHeight(s, x);
  }

  /** How close to the end of the shared part the best common block is found. */
  lemma CommonHeightNear(r: Ledger, s: Ledger, f: nat, heights: seq<nat>, locator: seq<Hash>) returns (h: nat)
    requires r.Rooted() && s.Rooted() && SameBlocks(r, s) && ShareUpTo(r, s, f)
    requires IsLocator(r.canon, heights, locator)
    ensures CommonHeight(s, locator + [ZERO]) == Some(h)
    ensures h <= f && (h == f || f - h + 9 <= |r.canon| - 1 - f)
  {
    SharedStored(r, s, f, 0);
    var j := FirstStored(s.blocks, locator);
    FirstDecides(s, locator, [ZERO], j);
    if heights[j] >= f {
      ForkOfShared(r, s, f, heights[j]);
      h := f;
    } else {
      SharedStored(r, s, f, heights[j]);
      h := heights[j];
      if heights[j - 1] <= f {
        SharedStored(r, s, f, heights[j - 1]);
        assert false;
      }
      assert Near(|r.canon|, heights, j);
    }
  }

  /** Header `i` of a reply is the server's canonical header at that height; its parent is the one before. */
  ghost predicate RunAt(s: Ledger, h: nat, headers: seq<BlockHeader>, i: nat)
    requires i < |headers|
  {
    var number := h + 1 + i;
    && number < |s.canon| && s.canon[number] in s.blocks
    && headers[i] == s.blocks[s.canon[number]].header
    && headers[i].previousHeaderHash == s.canon[number - 1]
  }

  lemma HashAt(l: Ledger, from: nat, count: nat, hashStop: Hash, i: nat)
    requires l.Valid() && i < |HashesFrom(l, from, count, hashStop)|
    ensures from + i < |l.canon| && HashesFrom(l, from, count, hashStop)[i] == l.canon[from + i]
    ensures l.canon[from + i] in l.blocks
    ensures from + i > 0 ==> ParentOf(l.blocks, l.canon[from + i]) == l.canon[from + i - 1]
  {
    CanonHeight(l, from + i);
    assert Linked(l.blocks, ZERO, l.canon, from + i);
  }

  /** Served headers are a run of the server's canonical chain that starts right above the best common block. */
  lemma HeadersRun(s: Ledger, h: nat, count: nat)
    requires s.Rooted()
    ensures var hashes := HashesFrom(s, h + 1, count, ZERO);
            && (forall i :: 0 <= i < |hashes| ==> hashes[i] in s.blocks)
            && (forall i :: 0 <= i < |hashes| ==> RunAt(s, h, HeadersOf(s.blocks, hashes), i))
            && (|hashes| == count || h + 1 + |hashes| >= |s.canon|)
  {
    var hashes := HashesFrom(s, h + 1, count, ZERO);
    HashesStored(s, h + 1, count, ZERO);
    forall i | 0 <= i < |hashes| ensures RunAt(s, h, HeadersOf(s.blocks, hashes), i) {
      HashAt(s, h + 1, count, ZERO, i);
    }
    if h + 1 + |hashes| < |s.canon| {
      CanonHeight(s, h + 1 + |hashes|);
    }
  }

  lemma ReplyRuns(s: Ledger, locator: seq<Hash>, h: nat)
    requires s.Rooted() && CommonHeight(s, locator + [ZERO]) == Some(h)
    ensures HeadersReply(s, ZERO, locator).Some?
    ensures var headers := HeadersReply(s, ZERO, locator).value;
            && (forall i :: 0 <= i < |headers| ==> RunAt(s, h, headers, i))
            && (|headers| == MAX_RESPONSE_HEADERS || h + 1 + |headers| >= |s.canon|)
  {
    HeadersRun(s, h, MAX_RESPONSE_HEADERS);
  }

  /**
   What an idle requester `r`, whose chain agrees with that of the server `s` up to height `f`, gets from one
   exchange. The best common height `h` is at or below `f`, and no further below it than the requester is above
   it. The reply starts with a child of a block the requester has and runs along the server's chain. Unless the
   requester is more than 2008 blocks past the shared part, the reply brings the first block that it lacks.
   */
  ghost predicate Syncs(r: Ledger, s: Ledger, f: nat, h: nat, reply: Option<seq<BlockHeader>>)
    requires f < |r.canon|
  {
    && h <= f && f - h <= |r.canon| - 1 - f && r.canon[h] in r.blocks
    && reply.Some? && (reply.value != [] ==> reply.value[0].previousHeaderHash == r.canon[h])
    && (forall i :: 0 <= i < |reply.value| ==> RunAt(s, h, reply.value, i))
    && (|r.canon| - 1 - f <= 2008 && f + 1 < |s.canon| ==>
          && f - h < |reply.value| && s.canon[f + 1] in s.blocks
          && reply.value[f - h] == s.blocks[s.canon[f + 1]].header)
  }

  lemma TwoNodeSync(r: Ledger, s: Ledger, f: nat, heights: seq<nat>, locator: seq<Hash>) returns (h: nat)
    requires r.Rooted() && s.Rooted() && SameBlocks(r, s) && ShareUpTo(r, s, f)
    requires IsLocator(r.canon, heights, locator)
    ensures Syncs(r, s, f, h, HeadersReply(s, ZERO, locator))
  {
    var reply := HeadersReply(s, ZERO, locator);
    h := CommonHeightNear(r, s, f, heights, locator);
    SharedStored(r, s, f, h);
    ReplyRuns(s, locator, h);
    assert reply.value != [] ==> RunAt(s, h, reply.value, 0);
    assert f - h < |reply.value| ==> RunAt(s, h, reply.value, f - h);
  }

  /** What an idle node asks with: a locator of its canonical chain. */
  method AskForHeaders(requester: SyncChain.Chain) returns (locator: seq<Hash>)
    requires requester.Valid() && Flat(requester.hashChain) == []
    ensures exists heights :: IsLocator(requester.storage.ledger.canon, heights, locator)
  {
    locator := requester.BlockLocatorHashes();
    assert requester.Hashes() == requester.storage.ledger.canon;
    LocatorIs(requester.storage.ledger.canon);
  }

  /** The whole exchange: an idle node asks with its locator, and another one serves headers. */
  method RequestHeaders(requester: SyncChain.Chain, server: BlockChainDatabase, ghost f: nat)
    returns (reply: Option<seq<BlockHeader>>)
    requires requester.Valid() && Flat(requester.hashChain) == []
    requires server.Valid() && server.ledger.Rooted()
    requires SameBlocks(requester.storage.ledger, server.ledger)
    requires ShareUpTo(requester.storage.ledger, server.ledger, f)
    ensures exists h :: Syncs(requester.storage.ledger, server.ledger, f, h, reply)
  {
    ghost var r, s := requester.storage.ledger, server.ledger;
    var locator := AskForHeaders(requester);
    ghost var heights :| IsLocator(r.canon, heights, locator);
    reply := ServeGetHeaders(server, ZERO, locator);
    ghost var h := TwoNodeSync(r, s, f, heights, locator);
  }
}
