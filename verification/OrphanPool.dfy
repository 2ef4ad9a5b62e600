/** Blocks that wait for their parents (sync/src/utils/orphan_blocks_pool.rs). */
module OrphanPool {
  import opened Primitives

  type Members = map<Hash, IndexedBlock>

  function Hashes(blocks: seq<IndexedBlock>): (hs: seq<Hash>)
    ensures |hs| == |blocks| && forall i :: 0 <= i < |blocks| ==> hs[i] == blocks[i].hash
  {
    seq(|blocks|, i requires 0 <= i < |blocks| => blocks[i].hash)
  }

  ghost predicate DistinctHashes(blocks: seq<IndexedBlock>) {
    forall i, j :: 0 <= i < j < |blocks| ==> blocks[i].hash != blocks[j].hash
  }

  /** The `i`-th hash of a route is pooled and waits for the one before it, the first one for `root`. */
  ghost predicate WaitsAt(members: Members, root: Hash, route: seq<Hash>, i: nat)
    requires i < |route|
  {
    route[i] in members && members[route[i]].Parent() == if i == 0 then root else route[i - 1]
  }

  ghost predicate Descends(members: Members, root: Hash, route: seq<Hash>) {
    forall i :: 0 <= i < |route| ==> WaitsAt(members, root, route, i)
  }

  /** `h` waits, directly or through other pooled blocks, for `root`. */
  ghost predicate IsDescendant(members: Members, root: Hash, h: Hash) {
    exists route :: Descends(members, root, route) && route != [] && route[|route| - 1] == h
  }

  function HashSet(blocks: seq<IndexedBlock>): set<Hash> {
    set i | 0 <= i < |blocks| :: blocks[i].hash
  }

  /** The hashes in the order in which they are looked up as parents: `root`, then the removed blocks. */
  function Visit(root: Hash, removed: seq<IndexedBlock>, k: nat): Hash
    requires k <= |removed|
  {
    if k == 0 then root else removed[k - 1].hash
  }

  /** The parent of the `i`-th removed block was visited before that block. */
  ghost predicate ParentFirst(root: Hash, removed: seq<IndexedBlock>, i: nat)
    requires i < |removed|
  {
    exists k: nat :: k <= i && removed[i].Parent() == Visit(root, removed, k)
  }

  ghost predicate NoneWaits(members: Members, parent: Hash) {
    forall h :: h in members ==> members[h].Parent() != parent
  }

  ghost predicate Among(before: Members, blocks: seq<IndexedBlock>) {
    forall i :: 0 <= i < |blocks| ==> blocks[i].hash in before && before[blocks[i].hash] == blocks[i]
  }

  /** Removal in progress: nothing left in `after` waits for any of the first `done` visited hashes. */
  ghost predicate Removing(before: Members, root: Hash, removed: seq<IndexedBlock>, after: Members, done: nat) {
    && done <= |removed| + 1
    && DistinctHashes(removed)
    && Among(before, removed)
    && (forall i :: 0 <= i < |removed| ==> ParentFirst(root, removed, i))
    && after == before - HashSet(removed)
    && (forall k: nat :: k < done ==> NoneWaits(after, Visit(root, removed, k)))
  }

  /** Everything that waits for `root`, parents first and each block once, has moved to `removed`. */
  ghost predicate RemovedFor(before: Members, root: Hash, removed: seq<IndexedBlock>, after: Members) {
    Removing(before, root, removed, after, |removed| + 1)
  }

  /** `orphaned` is exactly what waits directly for `parent`. */
  ghost predicate IsEntry(members: Members, parent: Hash, orphaned: seq<IndexedBlock>) {
    && DistinctHashes(orphaned)
    && Among(members, orphaned)
    && (forall i :: 0 <= i < |orphaned| ==> orphaned[i].Parent() == parent)
    && NoneWaits(members - HashSet(orphaned), parent)
  }

  lemma AppendDistinct(before: Members, removed: seq<IndexedBlock>, after: Members, orphaned: seq<IndexedBlock>)
    requires DistinctHashes(removed) && Among(before, removed) && after == before - HashSet(removed)
    requires DistinctHashes(orphaned) && Among(after, orphaned)
    ensures DistinctHashes(removed + orphaned) && Among(before, removed + orphaned)
    ensures after - HashSet(orphaned) == before - HashSet(removed + orphaned)
  {
    var longer := removed + orphaned;
    assert forall i :: 0 <= i < |removed| ==> removed[i].hash in HashSet(removed);
    forall h ensures h in HashSet(longer) <==> h in HashSet(removed) + HashSet(orphaned) {
      if h in HashSet(removed) {
        var i :| 0 <= i < |removed| && removed[i].hash == h;
        assert longer[i].hash == h;
      }
      if h in HashSet(orphaned) {
        var i :| 0 <= i < |orphaned| && orphaned[i].hash == h;
        assert longer[|removed| + i].hash == h;
      }
    }
    assert HashSet(longer) == HashSet(removed) + HashSet(orphaned);
  }

  lemma RemovingStep(before: Members, root: Hash, removed: seq<IndexedBlock>, after: Members, done: nat,
                     orphaned: seq<IndexedBlock>)
    requires Removing(before, root, removed, after, done) && done <= |removed|
    requires IsEntry(after, Visit(root, removed, done), orphaned)
    ensures Removing(before, root, removed + orphaned, after - HashSet(orphaned), done + 1)
  {
    var longer, after' := removed + orphaned, after - HashSet(orphaned);
    AppendDistinct(before, removed, after, orphaned);
    assert forall k: nat :: k <= |removed| ==> Visit(root, longer, k) == Visit(root, removed, k);
    forall i | 0 <= i < |longer| ensures ParentFirst(root, longer, i) {
      if i < |removed| {
        assert ParentFirst(root, removed, i);
        var k: nat :| k <= i && removed[i].Parent() == Visit(root, removed, k);
        assert longer[i].Parent() == Visit(root, longer, k);
      } else {
        assert longer[i].Parent() == Visit(root, longer, done);
      }
    }
    forall k: nat | k < done + 1 ensures NoneWaits(after', Visit(root, longer, k)) {
      assert k < done ==> NoneWaits(after, Visit(root, removed, k));
    }
  }

  lemma {:induction false} RemovedDescend(before: Members, root: Hash, removed: seq<IndexedBlock>, after: Members, i: nat)
    requires RemovedFor(before, root, removed, after) && i < |removed|
    ensures IsDescendant(before, root, removed[i].hash)
  {
    var h := removed[i].hash;
    assert ParentFirst(root, removed, i);
    var k: nat :| k <= i && removed[i].Parent() == Visit(root, removed, k);
    if k == 0 {
      assert WaitsAt(before, root, [h], 0);
      assert Descends(before, root, [h]);
    } else {
      RemovedDescend(before, root, removed, after, k - 1);
      var route :| Descends(before, root, route) && route != [] && route[|route| - 1] == removed[k - 1].hash;
      var longer := route + [h];
      forall j | 0 <= j < |longer| ensures WaitsAt(before, root, longer, j) {
        assert j < |route| ==> WaitsAt(before, root, route, j);
      }
      assert Descends(before, root, longer) && longer[|longer| - 1] == h;
    }
  }

  lemma {:induction false} DescendantsRemoved(before: Members, root: Hash, removed: seq<IndexedBlock>, after: Members,
                                              route: seq<Hash>, i: nat)
    requires RemovedFor(before, root, removed, after) && Descends(before, root, route) && i < |route|
    ensures route[i] in HashSet(removed)
  {
    assert WaitsAt(before, root, route, i);
    assert route[i] !in HashSet(removed) ==> route[i] in after && after[route[i]] == before[route[i]];
    if i == 0 {
      assert NoneWaits(after, Visit(root, removed, 0));
    } else {
      DescendantsRemoved(before, root, removed, after, route, i - 1);
      var k :| 0 <= k < |removed| && removed[k].hash == route[i - 1];
      assert NoneWaits(after, Visit(root, removed, k + 1));
    }
  }

  /** What is removed is exactly what descends from `root` in the pool. */
  lemma RemovedExactly(before: Members, root: Hash, removed: seq<IndexedBlock>, after: Members, h: Hash)
    requires RemovedFor(before, root, removed, after)
    ensures h in HashSet(removed) <==> IsDescendant(before, root, h)
  {
    if h in HashSet(removed) {
      var i :| 0 <= i < |removed| && removed[i].hash == h;
      RemovedDescend(before, root, removed, after, i);
    }
    if IsDescendant(before, root, h) {
      var route :| Descends(before, root, route) && route != [] && route[|route| - 1] == h;
      DescendantsRemoved(before, root, removed, after, route, |route| - 1);
    }
  }

  // ---- Removing given blocks and all that depend on them ----

  /** One of the given hashes, or waiting for one of them. */
  ghost predicate Doomed(members: Members, hashes: set<Hash>, h: Hash) {
    h in hashes || exists g :: g in hashes && IsDescendant(members, g, h)
  }

  /** The pool has lost exactly the given blocks and their descendants. */
  ghost predicate Purged(before: Members, hashes: set<Hash>, gone: set<Hash>) {
    gone <= before.Keys && forall h :: h in before ==> (h in gone <==> Doomed(before, hashes, h))
  }

  /** Purging in progress: the given blocks are out, and nothing waits for those already `done`. */
  ghost predicate Purging(before: Members, hashes: set<Hash>, done: set<Hash>, gone: set<Hash>) {
    && gone <= before.Keys && hashes * before.Keys <= gone
    && (forall h {:trigger Doomed(before, hashes, h)} :: h in gone ==> Doomed(before, hashes, h))
    && (forall h {:trigger NoneWaits(before - gone, h)} :: h in done || (h in gone && h !in hashes) ==> NoneWaits(before - gone, h))
  }

  lemma DescendantOfMore(members: Members, gone: set<Hash>, root: Hash, h: Hash)
    requires IsDescendant(members - gone, root, h)
    ensures IsDescendant(members, root, h)
  {
    var route :| Descends(members - gone, root, route) && route != [] && route[|route| - 1] == h;
    forall i | 0 <= i < |route| ensures WaitsAt(members, root, route, i) {
      assert WaitsAt(members - gone, root, route, i);
    }
  }

  lemma PurgingStep(before: Members, hashes: set<Hash>, done: set<Hash>, gone: set<Hash>, g: Hash, removed: seq<IndexedBlock>)
    requires Purging(before, hashes, done, gone) && g in hashes
    requires RemovedFor(before - gone, g, removed, before - gone - HashSet(removed))
    ensures Purging(before, hashes, done + {g}, gone + HashSet(removed))
  {
    var now, out := before - gone, HashSet(removed);
    var after := before - (gone + out);
    assert after == now - out;
    forall h | h in gone + out ensures Doomed(before, hashes, h) {
      if h in out {
        RemovedExactly(now, g, removed, now - out, h);
        DescendantOfMore(before, gone, g, h);
      }
    }
    forall h | h in done + {g} || (h in gone + out && h !in hashes) ensures NoneWaits(after, h) {
      if h in done || (h in gone && h !in hashes) {
        assert NoneWaits(now, h);
      } else if h == g {
        assert NoneWaits(after, Visit(g, removed, 0));
      } else {
        var k :| 0 <= k < |removed| && removed[k].hash == h;
        assert NoneWaits(after, Visit(g, removed, k + 1));
      }
    }
  }

  lemma {:induction false} PurgedRoute(before: Members, hashes: set<Hash>, gone: set<Hash>, g: Hash, route: seq<Hash>, i: nat)
    requires Purging(before, hashes, hashes, gone) && g in hashes && Descends(before, g, route) && i < |route|
    ensures route[i] in gone
  {
    assert WaitsAt(before, g, route, i);
    assert route[i] in gone || route[i] in before - gone;
    if i > 0 {
      PurgedRoute(before, hashes, gone, g, route, i - 1);
      assert NoneWaits(before - gone, route[i - 1]);
    } else {
      assert NoneWaits(before - gone, g);
    }
  }

  lemma PurgingDone(before: Members, hashes: set<Hash>, gone: set<Hash>)
    requires Purging(before, hashes, hashes, gone)
    ensures Purged(before, hashes, gone)
  {
    forall h | h in before && Doomed(before, hashes, h) ensures h in gone {
      if h !in hashes {
        var g :| g in hashes && IsDescendant(before, g, h);
        var route :| Descends(before, g, route) && route != [] && route[|route| - 1] == h;
        PurgedRoute(before, hashes, gone, g, route, |route| - 1);
      }
    }
  }

  type Lists = map<Hash, map<Hash, IndexedBlock>>

  /** A pooled block is listed under its parent. */
  ghost predicate Listed(lists: Lists, members: Members, h: Hash)
    requires h in members
  {
    var p := members[h].Parent();
    members[h].hash == h && p in lists && h in lists[p] && lists[p][h] == members[h]
  }

  /** What is listed under a parent is pooled and waits for that parent; no list is empty. */
  ghost predicate Pooled(lists: Lists, members: Members, p: Hash)
    requires p in lists
  {
    && lists[p].Keys != {}
    && forall h :: h in lists[p] ==> h in members && members[h].Parent() == p && lists[p][h] == members[h]
  }

  /** The lists hold exactly the pooled blocks, each under its parent. */
  ghost predicate Indexed(lists: Lists, members: Members) {
    && (forall h {:trigger Listed(lists, members, h)} :: h in members ==> Listed(lists, members, h))
    && (forall p {:trigger Pooled(lists, members, p)} :: p in lists ==> Pooled(lists, members, p))
  }

  /** The parents that are waited for. */
  ghost function Awaited(members: Members): set<Hash> {
    set h | h in members :: members[h].Parent()
  }

  lemma ListsAwaited(lists: Lists, members: Members)
    requires Indexed(lists, members)
    ensures lists.Keys == Awaited(members)
  {
    forall p ensures p in lists <==> p in Awaited(members) {
      if p in lists {
        assert Pooled(lists, members, p);
        var h :| h in lists[p].Keys;
        assert members[h].Parent() == p;
      }
      if p in Awaited(members) {
        var h :| h in members && members[h].Parent() == p;
        assert Listed(lists, members, h);
      }
    }
  }

  function Siblings(lists: Lists, parent: Hash): map<Hash, IndexedBlock> {
    if parent in lists then lists[parent] else map[]
  }

  lemma InsertIndexed(lists: Lists, members: Members, block: IndexedBlock)
    requires Indexed(lists, members) && (block.hash in members ==> members[block.hash] == block)
    ensures Indexed(
              lists[block.Parent() := Siblings(lists, block.Parent())[block.hash := block]],
              members[block.hash := block])
  {
    var parent := block.Parent();
    var lists', members' := lists[parent := Siblings(lists, parent)[block.hash := block]], members[block.hash := block];
    assert parent in lists ==> Pooled(lists, members, parent);
    forall h | h in members' ensures Listed(lists', members', h) {
      assert h in members ==> Listed(lists, members, h);
    }
    forall p | p in lists' ensures Pooled(lists', members', p) {
      assert p in lists ==> Pooled(lists, members, p);
      assert p == parent ==> block.hash in lists'[p].Keys;
    }
  }

  lemma EntryNamed(lists: Lists, members: Members, parent: Hash)
    requires Indexed(lists, members)
    ensures if parent in lists then forall h :: h in lists[parent] ==> lists[parent][h].hash == h
            else IsEntry(members, parent, []) && members - HashSet([]) == members
  {
    if parent in lists {
      assert Pooled(lists, members, parent);
      forall h | h in lists[parent] ensures lists[parent][h].hash == h {
        assert Listed(lists, members, h);
      }
    } else {
      assert HashSet([]) == {};
      forall h | h in members ensures members[h].Parent() != parent {
        assert Listed(lists, members, h);
      }
    }
  }

  lemma TakeIndexed(lists: Lists, members: Members, parent: Hash, orphaned: seq<IndexedBlock>)
    requires Indexed(lists, members) && parent in lists
    requires DistinctHashes(orphaned) && Among(lists[parent], orphaned) && HashSet(orphaned) == lists[parent].Keys
    ensures Indexed(lists - {parent}, members - HashSet(orphaned)) && IsEntry(members, parent, orphaned)
    ensures |lists - {parent}| == |lists| - 1
  {
    assert (lists - {parent}).Keys == lists.Keys - {parent};
    var lists', members' := lists - {parent}, members - HashSet(orphaned);
    assert Pooled(lists, members, parent);
    forall h | h in members' ensures Listed(lists', members', h) && members'[h].Parent() != parent {
      assert Listed(lists, members, h);
    }
    forall p | p in lists' ensures Pooled(lists', members', p) {
      assert Pooled(lists, members, p);
    }
  }

  /** What is left to visit. */
  ghost predicate IsQueue(root: Hash, removed: seq<IndexedBlock>, done: nat, queue: seq<Hash>) {
    done <= |removed| + 1 && queue == ([root] + Hashes(removed))[done..]
  }

  lemma QueueTurns(root: Hash, removed: seq<IndexedBlock>, orphaned: seq<IndexedBlock>, done: nat, queue: seq<Hash>)
    requires IsQueue(root, removed, done, queue) && queue != []
    ensures IsQueue(root, removed + orphaned, done + 1, queue[1..] + Hashes(orphaned))
  {
    var all := [root] + Hashes(removed);
    assert [root] + Hashes(removed + orphaned) == all + Hashes(orphaned);
    assert (all + Hashes(orphaned))[done + 1..] == all[done + 1..] + Hashes(orphaned);
    assert all[done..][1..] == all[done + 1..];
  }

  class OrphanBlocksPool {
    /** By parent hash, then by the block's own hash. */
    var orphanedBlocks: Lists
    /** Hashes of the blocks that arrived without being requested. */
    var unknownBlocks: set<Hash>
    ghost var members: Members

    ghost predicate Valid()
      reads this
    {
      Indexed(orphanedBlocks, members) && unknownBlocks <= members.Keys
    }

    constructor ()
      ensures Valid() && members == map[] && unknownBlocks == {}
    {
      orphanedBlocks := map[];
      unknownBlocks := {};
      members := map[];
    }

    /** The number of distinct parents that are waited for. */
    function Len(): (n: nat)
      requires Valid()
      reads this
      ensures n == |Awaited(members)|
    {
      ListsAwaited(orphanedBlocks, members);
      |orphanedBlocks|
    }

    method InsertOrphanedBlock(block: IndexedBlock)
      requires Valid() && (block.hash in members ==> members[block.hash] == block)
      modifies this`orphanedBlocks, this`members
      ensures Valid() && members == old(members)[block.hash := block]
    {
      var siblings := Siblings(orphanedBlocks, block.Parent());
      InsertIndexed(orphanedBlocks, members, block);
      orphanedBlocks := orphanedBlocks[block.Parent() := siblings[block.hash := block]];
      members := members[block.hash := block];
    }

    method InsertUnknownBlock(block: IndexedBlock)
      requires Valid() && block.hash !in unknownBlocks
      requires block.hash in members ==> members[block.hash] == block
      modifies this
      ensures Valid() && members == old(members)[block.hash := block]
      ensures unknownBlocks == old(unknownBlocks) + {block.hash}
    {
      InsertOrphanedBlock(block);
      unknownBlocks := unknownBlocks + {block.hash};
    }

    /** Removes every block that waits for `hash`; parents come before their children. */
    method RemoveBlocksForParent(hash: Hash) returns (removed: seq<IndexedBlock>)
      requires Valid()
      modifies this
      ensures Valid() && RemovedFor(old(members), hash, removed, members)
      ensures unknownBlocks == old(unknownBlocks) - HashSet(removed)
    {
      var queue := [hash];
      removed := [];
      ghost var done := 0;
      while queue != []
        invariant Valid() && Removing(old(members), hash, removed, members, done)
        invariant IsQueue(hash, removed, done, queue)
        invariant unknownBlocks == old(unknownBlocks) - HashSet(removed)
        decreases |orphanedBlocks|, |queue|
      {
        assert queue[0] == Visit(hash, removed, done);
        ghost var now := members;
        var orphaned := TakeEntry(queue[0]);
        AppendDistinct(old(members), removed, now, orphaned);
        RemovingStep(old(members), hash, removed, now, done, orphaned);
        QueueTurns(hash, removed, orphaned, done, queue);
        queue := queue[1..] + Hashes(orphaned);
        removed := removed + orphaned;
        done := done + 1;
      }
    }

    /** Removes the given blocks and everything that depends on them, whether or not they are pooled themselves. */
    method RemoveBlocks(hashes: set<Hash>) returns (removed: set<Hash>)
      requires Valid()
      modifies this
      ensures Valid() && Purged(old(members), hashes, removed)
      ensures members == old(members) - removed && unknownBlocks == old(unknownBlocks) - removed
    {
      ghost var before := members;
      removed := DropBlocks(hashes);
      var left := hashes;
      while left != {}
        invariant left <= hashes && Valid() && Purging(before, hashes, hashes - left, removed)
        invariant members == before - removed && unknownBlocks == old(unknownBlocks) - removed
        decreases left
      {
        var hash :| hash in left;
        var children := RemoveBlocksForParent(hash);
        assert members == before - removed - HashSet(children) == before - (removed + HashSet(children));
        PurgingStep(before, hashes, hashes - left, removed, hash, children);
        left := left - {hash};
        removed := removed + HashSet(children);
      }
      PurgingDone(before, hashes, removed);
    }

    /** Takes the given blocks out of the pool, and the entries of parents for which nothing is left. */
    method DropBlocks(hashes: set<Hash>) returns (removed: set<Hash>)
      requires Valid()
      modifies this
      ensures Valid() && removed == hashes * old(members).Keys
      ensures members == old(members) - removed && unknownBlocks == old(unknownBlocks) - removed
    {
      ghost var lists, pool := orphanedBlocks, members;
      removed := set p, h | p in orphanedBlocks && h in orphanedBlocks[p] && h in hashes :: h;
      forall h ensures h in removed <==> h in hashes && h in pool {
        if h in pool {
          assert Listed(lists, pool, h);
        }
        if h in removed {
          var p :| p in lists && h in lists[p];
          assert Pooled(lists, pool, p);
        }
      }
      orphanedBlocks := map p | p in orphanedBlocks && orphanedBlocks[p].Keys - hashes != {} :: orphanedBlocks[p] - hashes;
      unknownBlocks := unknownBlocks - removed;
      members := members - removed;
      forall h | h in members ensures Listed(orphanedBlocks, members, h) {
        assert Listed(lists, pool, h);
        assert h in lists[pool[h].Parent()].Keys - hashes;
      }
      forall p | p in orphanedBlocks ensures Pooled(orphanedBlocks, members, p) {
        assert Pooled(lists, pool, p);
      }
    }

    /**
     Removes the blocks that had been requested. Blocks that came unasked go with them when they descend from
     a requested one; the result lists the requested ones only.
     */
    method RemoveKnownBlocks() returns (known: set<Hash>)
      requires Valid()
      modifies this
      ensures Valid() && known == old(members).Keys - old(unknownBlocks)
      ensures members.Keys <= old(unknownBlocks)
      ensures Purged(old(members), known, old(members).Keys - members.Keys)
    {
      ghost var lists, pool := orphanedBlocks, members;
      known := set p, h | p in orphanedBlocks && h in orphanedBlocks[p] && h !in unknownBlocks :: h;
      forall h ensures h in known <==> h in pool && h !in unknownBlocks {
        if h in pool {
          assert Listed(lists, pool, h);
        }
        if h in known {
          var p :| p in lists && h in lists[p];
          assert Pooled(lists, pool, p);
        }
      }
      var removed := RemoveBlocks(known);
      assert pool.Keys - (pool - removed).Keys == removed;
      forall h | h in members ensures h in old(unknownBlocks) {
        assert h in known ==> Doomed(pool, known, h);
      }
    }

    /** Takes the blocks that wait directly for `parent`, if there are any. */
    method TakeEntry(parent: Hash) returns (orphaned: seq<IndexedBlock>)
      requires Valid()
      modifies this
      ensures Valid() && IsEntry(old(members), parent, orphaned)
      ensures members == old(members) - HashSet(orphaned)
      ensures unknownBlocks == old(unknownBlocks) - HashSet(orphaned)
      ensures |orphanedBlocks| <= |old(orphanedBlocks)|
      ensures orphaned != [] ==> |orphanedBlocks| < |old(orphanedBlocks)|
    {
      EntryNamed(orphanedBlocks, members, parent);
      if parent !in orphanedBlocks {
        return [];
      }
      orphaned := Values(orphanedBlocks[parent]);
      TakeIndexed(orphanedBlocks, members, parent, orphaned);
      orphanedBlocks := orphanedBlocks - {parent};
      members := members - HashSet(orphaned);
      unknownBlocks := unknownBlocks - HashSet(orphaned);
    }
  }

  /** The blocks of one entry in the arbitrary order of a hash map. */
  method Values(entry: map<Hash, IndexedBlock>) returns (blocks: seq<IndexedBlock>)
    requires forall h :: h in entry ==> entry[h].hash == h
    ensures DistinctHashes(blocks) && Among(entry, blocks)
    ensures HashSet(blocks) == entry.Keys
  {
    blocks := [];
    var left := entry.Keys;
    while left != {}
      invariant left <= entry.Keys && DistinctHashes(blocks) && Among(entry, blocks)
      invariant HashSet(blocks) == entry.Keys - left
      decreases left
    {
      var h :| h in left;
      ghost var before := blocks;
      left := left - {h};
      blocks := blocks + [entry[h]];
      assert forall i :: 0 <= i < |before| ==> before[i].hash in HashSet(before);
      assert HashSet(blocks) == HashSet(before) + {h} by {
        assert forall i :: 0 <= i < |before| ==> blocks[i].hash == before[i].hash;
        assert blocks[|before|].hash == h;
      }
    }
  }
}
