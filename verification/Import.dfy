/** What any run of block imports ends with, whatever the order of delivery. */
module Import {
  import opened Primitives
  import opened Ledger
  import opened OrphanPool
  import opened BlocksWriter

  ghost predicate IsRun(states: seq<State>, delivered: seq<IndexedBlock>) {
    && |states| == |delivered| + 1
    && states[0].Valid()
    && forall i :: 0 <= i < |delivered| ==> Appended(states[i], delivered[i], states[i + 1])
  }

  /** A hash names one block: no two different blocks with the same hash are delivered. */
  ghost predicate Consistent(delivered: seq<IndexedBlock>) {
    forall i, j :: 0 <= i < |delivered| && 0 <= j < |delivered| && delivered[i].hash == delivered[j].hash ==>
      delivered[i] == delivered[j]
  }

  /** Every delivered block is known at the end, and nothing else beyond what was stored at the start. */
  ghost predicate Accounts(start: State, delivered: seq<IndexedBlock>, end: State) {
    && (forall h :: h in start.ledger.blocks ==> end.Find(h) == start.Find(h))
    && (forall i :: 0 <= i < |delivered| && delivered[i].hash !in start.ledger.blocks ==>
          end.Find(delivered[i].hash) == Some(delivered[i].raw))
    && (forall h :: h !in start.ledger.blocks && (forall i :: 0 <= i < |delivered| ==> delivered[i].hash != h) ==>
          end.Find(h) == None)
  }

  lemma {:induction false} RunAccounts(states: seq<State>, delivered: seq<IndexedBlock>)
    requires IsRun(states, delivered) && Consistent(delivered) && states[0].members == map[]
    ensures Accounts(states[0], delivered, states[|delivered|])
    ensures states[|delivered|].Valid() && states[|delivered|].ledger.canon[0] == states[0].ledger.canon[0]
    ensures states[0].ledger.blocks.Keys <= states[|delivered|].ledger.blocks.Keys
    decreases |delivered|
  {
    if delivered != [] {
      var n := |delivered| - 1;
      var init, block := delivered[..n], delivered[n];
      RunAccounts(states[..n + 1], init);
      assert Appended(states[n], block, states[n + 1]);
      var start, before, end := states[0], states[n], states[n + 1];
      forall h ensures end.Find(h) ==
                       if h == block.hash && h !in before.ledger.blocks then Some(block.raw) else before.Find(h)
      {
      }
      forall i | 0 <= i < |delivered| && delivered[i].hash !in start.ledger.blocks
        ensures end.Find(delivered[i].hash) == Some(delivered[i].raw)
      {
        assert i < n ==> init[i] == delivered[i];
        if delivered[i].hash == block.hash && i < n {
          assert delivered[i] == block;
        }
        if i == n && block.hash in before.ledger.blocks {
          assert !(forall k :: 0 <= k < |init| ==> init[k].hash != block.hash);
          var k :| 0 <= k < n && init[k].hash == block.hash;
          assert delivered[k] == block;
        }
      }
      forall h | h !in start.ledger.blocks && (forall i :: 0 <= i < |delivered| ==> delivered[i].hash != h)
        ensures end.Find(h) == None
      {
        assert forall i :: 0 <= i < |init| ==> init[i] == delivered[i];
      }
    }
  }

  // ---- What is stored is determined by what is known ----

  lemma {:induction false} StoredAgree(s: State, t: State, h: Hash)
    requires s.Valid() && t.Valid() && s.ledger.canon[0] == t.ledger.canon[0]
    requires forall x :: s.Find(x) == t.Find(x)
    requires h in s.ledger.blocks
    ensures h in t.ledger.blocks && t.ledger.blocks[h] == s.ledger.blocks[h]
    decreases s.ledger.height[h]
  {
    CanonHeight(s.ledger, 0);
    CanonHeight(t.ledger, 0);
    assert s.Find(h) == t.Find(h);
    assert Attached(s.ledger.blocks, s.ledger.height, h);
    if h != s.ledger.canon[0] {
      StoredAgree(s, t, ParentOf(s.ledger.blocks, h));
    }
  }

  lemma {:induction false} HeightsAgree(s: State, t: State)
    requires s.Valid() && t.Valid() && s.ledger.blocks == t.ledger.blocks
    ensures s.ledger.Best().number == t.ledger.Best().number
  {
    TopStored(s.ledger);
    TopStored(t.ledger);
    HeightUnique(s.ledger.blocks, s.ledger.height, t.ledger.height, s.ledger.Top());
    HeightUnique(s.ledger.blocks, s.ledger.height, t.ledger.height, t.ledger.Top());
  }

  lemma StatesAgree(s: State, t: State)
    requires s.Valid() && t.Valid() && s.ledger.canon[0] == t.ledger.canon[0]
    requires forall x :: s.Find(x) == t.Find(x)
    ensures s.ledger.blocks == t.ledger.blocks && s.members == t.members
    ensures s.ledger.Best().number == t.ledger.Best().number
  {
    forall h | h in s.ledger.blocks ensures h in t.ledger.blocks && t.ledger.blocks[h] == s.ledger.blocks[h] {
      StoredAgree(s, t, h);
    }
    forall h | h in t.ledger.blocks ensures h in s.ledger.blocks {
      StoredAgree(t, s, h);
    }
    assert s.ledger.blocks == t.ledger.blocks;
    forall h ensures h in s.members <==> h in t.members {
      assert s.Find(h) == t.Find(h);
    }
    forall h | h in s.members ensures s.members[h] == t.members[h] {
      assert s.Find(h) == t.Find(h);
    }
    HeightsAgree(s, t);
  }

  /**
   Confluence: two error-free deliveries of the same blocks, in whatever order and however often each,
   end with the same stored blocks, the same pool and the same best height.
   */
  lemma Confluence(states: seq<State>, delivered: seq<IndexedBlock>, states': seq<State>, delivered': seq<IndexedBlock>)
    requires IsRun(states, delivered) && IsRun(states', delivered') && states[0] == states'[0]
    requires states[0].members == map[] && Consistent(delivered) && Consistent(delivered')
    requires forall b :: b in delivered <==> b in delivered'
    ensures var end, end' := states[|delivered|], states'[|delivered'|];
            && end.ledger.blocks == end'.ledger.blocks
            && end.members == end'.members
            && end.ledger.Best().number == end'.ledger.Best().number
  {
    var start, end, end' := states[0], states[|delivered|], states'[|delivered'|];
    RunAccounts(states, delivered);
    RunAccounts(states', delivered');
    forall h ensures end.Find(h) == end'.Find(h) {
      if h !in start.ledger.blocks && exists i :: 0 <= i < |delivered| && delivered[i].hash == h {
        var i :| 0 <= i < |delivered| && delivered[i].hash == h;
        assert delivered[i] in delivered';
        var j :| 0 <= j < |delivered'| && delivered'[j] == delivered[i];
      } else if h !in start.ledger.blocks {
        forall j | 0 <= j < |delivered'| ensures delivered'[j].hash != h {
          assert delivered'[j] in delivered;
        }
      }
    }
    StatesAgree(end, end');
  }

  // ---- Exactly the connected blocks are stored ----

  /** `route` leads from the genesis block to its last hash through known blocks. */
  ghost predicate ConnectedAt(s: State, route: seq<Hash>, i: nat)
    requires s.ledger.canon != [] && i < |route|
  {
    var found := s.Find(route[i]);
    found.Some? && found.value.header.previousHeaderHash == End(s.ledger.canon[0], route[..i])
  }

  ghost predicate Connected(s: State, h: Hash)
    requires s.ledger.canon != []
  {
    exists route ::
      End(s.ledger.canon[0], route) == h && forall i :: 0 <= i < |route| ==> ConnectedAt(s, route, i)
  }

  lemma {:induction false} StoredConnected(s: State, h: Hash)
    requires s.Valid() && h in s.ledger.blocks
    ensures Connected(s, h)
    decreases s.ledger.height[h]
  {
    var g := s.ledger.canon[0];
    assert Attached(s.ledger.blocks, s.ledger.height, h);
    if h == g {
      assert End(g, []) == h;
    } else {
      var parent := ParentOf(s.ledger.blocks, h);
      StoredConnected(s, parent);
      var route :| End(g, route) == parent && forall i :: 0 <= i < |route| ==> ConnectedAt(s, route, i);
      var longer := route + [h];
      forall i | 0 <= i < |longer| ensures ConnectedAt(s, longer, i) {
        if i < |route| {
          assert ConnectedAt(s, route, i) && longer[..i] == route[..i];
        } else {
          assert longer[..i] == route;
        }
      }
      assert End(g, longer) == h;
    }
  }

  lemma {:induction false} ConnectedStored(s: State, route: seq<Hash>, n: nat)
    requires s.Valid() && n <= |route| && forall i :: 0 <= i < |route| ==> ConnectedAt(s, route, i)
    ensures End(s.ledger.canon[0], route[..n]) in s.ledger.blocks
  {
    CanonHeight(s.ledger, 0);
    if n > 0 {
      ConnectedStored(s, route, n - 1);
      assert ConnectedAt(s, route, n - 1);
    }
  }

  /** A known block is stored exactly when known blocks connect it to the genesis block; the pool holds the rest. */
  lemma StoredIffConnected(s: State, h: Hash)
    requires s.Valid()
    ensures h in s.ledger.blocks <==> Connected(s, h)
    ensures h in s.members <==> s.Find(h).Some? && !Connected(s, h)
  {
    if h in s.ledger.blocks {
      StoredConnected(s, h);
    }
    if Connected(s, h) {
      var route :| End(s.ledger.canon[0], route) == h && forall i :: 0 <= i < |route| ==> ConnectedAt(s, route, i);
      ConnectedStored(s, route, |route|);
      assert route[..|route|] == route;
    }
  }
}
