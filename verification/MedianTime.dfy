/** Median time past (verification/src/timestamp.rs) and what its check guarantees along a chain. */
module MedianTime {
  import opened Primitives
  import opened Ledger

  /** How many ancestors the source takes; everything below holds for a window of any size. */
  const WINDOW: nat := 11

  /** Walks from a block to its ancestors (storage/src/block_ancestors.rs). */
  class BlockAncestors {
    const headers: Blocks
    var block: Option<Hash>

    constructor (block: Hash, headers: Blocks)
      ensures this.headers == headers && this.block == Some(block)
    {
      this.headers := headers;
      this.block := Some(block);
    }

    method Next() returns (result: Option<BlockHeader>)
      modifies this
      ensures if old(block).Some? && old(block).value in headers then
                result == Some(headers[old(block).value].header) && block == Some(ParentOf(headers, old(block).value))
              else
                result == None && block == None
    {
      match block {
        case Some(hash) =>
          if hash in headers {
            result := Some(headers[hash].header);
            block := Some(headers[hash].header.previousHeaderHash);
          } else {
            result := None;
            block := None;
          }
        case None =>
          result := None;
      }
    }
  }

  /** The times of a block and its stored ancestors, newest first, `n` at most. */
  function AncestorTimes(blocks: Blocks, h: Hash, n: nat): (ts: seq<u32>)
    ensures |ts| <= n
    decreases n
  {
    if n == 0 || h !in blocks then []
    else [blocks[h].header.time] + AncestorTimes(blocks, ParentOf(blocks, h), n - 1)
  }

  ghost predicate TimeBack(blocks: Blocks, route: seq<Hash>, ts: seq<u32>, i: nat)
    requires i < |ts| <= |route|
  {
    var h := route[|route| - 1 - i];
    h in blocks && ts[i] == blocks[h].header.time
  }

  /** The times at the end of a route, newest first: `n` of them, or all if the route is shorter. */
  ghost predicate AreTimesBack(blocks: Blocks, route: seq<Hash>, n: nat, ts: seq<u32>) {
    && |ts| == (if n < |route| then n else |route|)
    && forall i :: 0 <= i < |ts| ==> TimeBack(blocks, route, ts, i)
  }

  /** A route from a parentless block to the given hash. */
  ghost predicate IsHistory(blocks: Blocks, route: seq<Hash>, h: Hash) {
    ZERO !in blocks && Leads(blocks, ZERO, route) && End(ZERO, route) == h
  }

  /** Along every route through the tree, the walk collects the times of the last blocks on it. */
  lemma {:induction false} TimesBack(blocks: Blocks, route: seq<Hash>, n: nat)
    requires IsHistory(blocks, route, End(ZERO, route))
    ensures AreTimesBack(blocks, route, n, AncestorTimes(blocks, End(ZERO, route), n))
    decreases n
  {
    if n > 0 && route != [] {
      var k := |route| - 1;
      assert Linked(blocks, ZERO, route, k);
      LeadsExtend(blocks, ZERO, route[..k], route[k..]);
      assert route == route[..k] + route[k..];
      TimesBack(blocks, route[..k], n - 1);
      var ts, before := AncestorTimes(blocks, route[k], n), AncestorTimes(blocks, End(ZERO, route[..k]), n - 1);
      forall i | 0 <= i < |ts| ensures TimeBack(blocks, route, ts, i) {
        assert i > 0 ==> TimeBack(blocks, route[..k], before, i - 1);
      }
    }
  }

  ghost predicate TimeBelow(l: Ledger, k: nat, ts: seq<u32>, i: nat)
    requires i < |ts|
  {
    && i <= k < |l.canon| && l.canon[k - i] in l.blocks
    && ts[i] == l.blocks[l.canon[k - i]].header.time
  }

  /** On the canonical chain: the i-th time is that of the block i below, as far as the chain goes. */
  lemma CanonTimes(l: Ledger, k: nat, n: nat)
    requires l.Valid() && k < |l.canon|
    ensures var ts := AncestorTimes(l.blocks, l.canon[k], n);
            && |ts| == (if n < k + 1 then n else k + 1)
            && forall i :: 0 <= i < |ts| ==> TimeBelow(l, k, ts, i)
  {
    var route, ts := l.canon[..k + 1], AncestorTimes(l.blocks, l.canon[k], n);
    PrefixValid(l, k + 1);
    TimesBack(l.blocks, route, n);
    forall i | 0 <= i < |ts| ensures TimeBelow(l, k, ts, i) {
      assert TimeBack(l.blocks, route, ts, i);
    }
  }

  // ---- Sorting ----

  ghost predicate IsSorted(s: seq<u32>) {
    forall i, j :: 0 <= i < j < |s| ==> s[i] <= s[j]
  }

  function InsertSorted(x: u32, s: seq<u32>): (r: seq<u32>)
    ensures |r| == |s| + 1
    ensures r[0] == x || (s != [] && r[0] == s[0])
    ensures IsSorted(s) ==> IsSorted(r)
  {
    if s == [] || x <= s[0] then [x] + s else [s[0]] + InsertSorted(x, s[1..])
  }

  function Sort(s: seq<u32>): (r: seq<u32>)
    ensures |r| == |s| && IsSorted(r)
  {
    if s == [] then [] else InsertSorted(s[0], Sort(s[1..]))
  }

  lemma HeadMultiset(s: seq<u32>)
    requires s != []
    ensures multiset(s) == multiset(s[1..]) + multiset{s[0]}
  {
    assert s == [s[0]] + s[1..];
  }

  lemma {:induction false} InsertSortedPermutes(x: u32, s: seq<u32>)
    ensures multiset(InsertSorted(x, s)) == multiset(s) + multiset{x}
  {
    if s != [] && x > s[0] {
      InsertSortedPermutes(x, s[1..]);
      HeadMultiset(s);
    }
  }

  lemma {:induction false} SortPermutes(s: seq<u32>)
    ensures multiset(Sort(s)) == multiset(s)
  {
    if s != [] {
      SortPermutes(s[1..]);
      InsertSortedPermutes(s[0], Sort(s[1..]));
      HeadMultiset(s);
    }
  }

  // ---- The median ----

  function Median(ts: seq<u32>): u32 {
    if ts == [] then 0 else Sort(ts)[|ts| / 2]
  }

  ghost predicate IsOrderOf(sorted: seq<u32>, ts: seq<u32>) {
    IsSorted(sorted) && |sorted| == |ts| && multiset(sorted) == multiset(ts)
  }

  /** The middle of the values in order; of an even number, the upper one. */
  ghost predicate IsMedian(ts: seq<u32>, m: u32) {
    if ts == [] then m == 0
    else exists sorted: seq<u32> :: IsOrderOf(sorted, ts) && m == sorted[|ts| / 2]
  }

  lemma MedianIs(ts: seq<u32>)
    ensures IsMedian(ts, Median(ts))
  {
    SortPermutes(ts);
    assert IsOrderOf(Sort(ts), ts);
  }

  /** `m` is the median of the times at the end of every history of `h`, and zero if `h` is not stored. */
  ghost predicate IsMedianTime(blocks: Blocks, h: Hash, window: nat, m: u32) {
    && (h !in blocks ==> m == 0)
    && forall route :: IsHistory(blocks, route, h) ==> MedianAlong(blocks, route, window, m)
  }

  ghost predicate MedianAlong(blocks: Blocks, route: seq<Hash>, window: nat, m: u32) {
    exists ts :: AreTimesBack(blocks, route, window, ts) && IsMedian(ts, m)
  }

  lemma MedianTimeIs(blocks: Blocks, h: Hash, window: nat)
    ensures IsMedianTime(blocks, h, window, MedianOf(blocks, h, window))
  {
    MedianIs(AncestorTimes(blocks, h, window));
    forall route | IsHistory(blocks, route, h) ensures MedianAlong(blocks, route, window, MedianOf(blocks, h, window)) {
      TimesBack(blocks, route, window);
    }
  }

  /** The median over a block and its ancestors, `window` at most. */
  function MedianOf(blocks: Blocks, h: Hash, window: nat): u32 {
    Median(AncestorTimes(blocks, h, window))
  }

  method CollectTimes(h: Hash, store: Blocks, n: nat) returns (timestamps: seq<u32>)
    ensures timestamps == AncestorTimes(store, h, n)
    ensures forall route :: IsHistory(store, route, h) ==> AreTimesBack(store, route, n, timestamps)
  {
    forall route | IsHistory(store, route, h) ensures AreTimesBack(store, route, n, AncestorTimes(store, h, n)) {
      TimesBack(store, route, n);
    }
    var ancestors := new BlockAncestors(h, store);
    timestamps := [];
    ghost var all := AncestorTimes(store, h, n);
    for i := 0 to n
      invariant ancestors.headers == store && ancestors.block.Some?
      invariant all == timestamps + AncestorTimes(store, ancestors.block.value, n - i)
    {
      var header := ancestors.Next();
      match header {
        case None => return;
        case Some(h) => timestamps := timestamps + [h.time];
      }
    }
  }

  /** `median_timestamp_inclusive`; the source calls it with `WINDOW`. */
  method MedianTimestampInclusive(previousHeaderHash: Hash, store: Blocks, window: nat) returns (median: u32)
    ensures median == MedianOf(store, previousHeaderHash, window)
  {
    var timestamps := CollectTimes(previousHeaderHash, store, window);
    if timestamps == [] {
      return 0;
    }
    var sorted := Sort(timestamps);
    median := sorted[|timestamps| / 2];
  }

  /** `median_timestamp`, over the window of the source. */
  method MedianTimestamp(header: BlockHeader, store: Blocks) returns (median: u32)
    ensures median == MedianOf(store, header.previousHeaderHash, WINDOW)
    ensures IsMedianTime(store, header.previousHeaderHash, WINDOW, median)
  {
    MedianTimeIs(store, header.previousHeaderHash, WINDOW);
    median := MedianTimestampInclusive(header.previousHeaderHash, store, WINDOW);
  }

  /** `HeaderMedianTimestamp::check`. */
  method CheckMedian(header: BlockHeader, store: Blocks) returns (ok: bool)
    ensures ok <==> header.time > MedianOf(store, header.previousHeaderHash, WINDOW)
    ensures exists median ::
              IsMedianTime(store, header.previousHeaderHash, WINDOW, median) && (ok <==> header.time > median)
  {
    var median := MedianTimestamp(header, store);
    ok := header.time > median;
  }

  /** The time of a stored block is later than the median at its parent. */
  predicate PassesMedian(blocks: Blocks, h: Hash, window: nat)
    requires h in blocks
  {
    blocks[h].header.time > MedianOf(blocks, ParentOf(blocks, h), window)
  }

  // ---- Counting ----

  function CountAtLeast(s: seq<u32>, m: int): nat {
    if s == [] then 0 else (if s[0] >= m then 1 else 0) + CountAtLeast(s[1..], m)
  }

  lemma {:induction false} CountConcat(s: seq<u32>, t: seq<u32>, m: int)
    ensures CountAtLeast(s + t, m) == CountAtLeast(s, m) + CountAtLeast(t, m)
  {
    if s == [] {
      assert s + t == t;
    } else {
      assert (s + t)[1..] == s[1..] + t;
      CountConcat(s[1..], t, m);
    }
  }

  lemma {:induction false} CountBound(s: seq<u32>, m: int)
    ensures CountAtLeast(s, m) <= |s|
    ensures (forall i :: 0 <= i < |s| ==> s[i] >= m) ==> CountAtLeast(s, m) == |s|
    ensures (forall i :: 0 <= i < |s| ==> s[i] < m) ==> CountAtLeast(s, m) == 0
  {
    if s != [] {
      CountBound(s[1..], m);
    }
  }

  lemma {:induction false} CountInsertSorted(x: u32, s: seq<u32>, m: int)
    ensures CountAtLeast(InsertSorted(x, s), m) == CountAtLeast(s, m) + if x >= m then 1 else 0
  {
    var r := InsertSorted(x, s);
    if s == [] || x <= s[0] {
      assert r[1..] == s;
    } else {
      CountInsertSorted(x, s[1..], m);
      assert r[1..] == InsertSorted(x, s[1..]);
    }
  }

  /** Sorting does not change how many values reach `m`. */
  lemma {:induction false} CountSorted(s: seq<u32>, m: int)
    ensures CountAtLeast(Sort(s), m) == CountAtLeast(s, m)
  {
    if s != [] {
      CountSorted(s[1..], m);
      CountInsertSorted(s[0], Sort(s[1..]), m);
    }
  }

  /** In a sorted sequence the k-th value reaches `m` exactly when all but the first k values do. */
  lemma SortedCount(s: seq<u32>, k: nat, m: int)
    requires IsSorted(s) && k < |s|
    ensures s[k] >= m <==> CountAtLeast(s, m) >= |s| - k
  {
    assert s == s[..k] + s[k..] && s == s[..k + 1] + s[k + 1..];
    if s[k] >= m {
      CountConcat(s[..k], s[k..], m);
      CountBound(s[k..], m);
    } else {
      CountConcat(s[..k + 1], s[k + 1..], m);
      CountBound(s[..k + 1], m);
      CountBound(s[k + 1..], m);
    }
  }

  /** The median reaches `m` exactly when the upper half of the values does. */
  lemma MedianCount(ts: seq<u32>, m: int)
    requires ts != []
    ensures Median(ts) >= m <==> CountAtLeast(ts, m) >= |ts| - |ts| / 2
  {
    SortedCount(Sort(ts), |ts| / 2, m);
    CountSorted(ts, m);
  }

  // ---- The median never falls ----

  lemma {:induction false} WindowGrows(blocks: Blocks, h: Hash, n: nat)
    ensures var ts, more := AncestorTimes(blocks, h, n), AncestorTimes(blocks, h, n + 1);
            |ts| <= |more| && ts == more[..|ts|]
    ensures |AncestorTimes(blocks, h, n)| < n ==> AncestorTimes(blocks, h, n) == AncestorTimes(blocks, h, n + 1)
    decreases n
  {
    if n > 0 && h in blocks {
      WindowGrows(blocks, ParentOf(blocks, h), n - 1);
    }
  }

  /** A value above the median joins and, when the window is full, some value leaves. */
  lemma MedianKept(times: seq<u32>, kept: seq<u32>, time: u32)
    requires times != [] && (|kept| == |times| || |kept| == |times| - 1) && kept == times[..|kept|]
    requires time > Median(times)
    ensures Median([time] + kept) >= Median(times)
  {
    var m := Median(times);
    var longer := [time] + kept;
    MedianCount(times, m);
    MedianCount(longer, m);
    assert times == kept + times[|kept|..];
    CountConcat(kept, times[|kept|..], m);
    CountBound(times[|kept|..], m);
    assert longer[1..] == kept;
    assert CountAtLeast(longer, m) == 1 + CountAtLeast(kept, m);
  }

  lemma MedianStep(blocks: Blocks, h: Hash, window: nat)
    requires window >= 1 && h in blocks && PassesMedian(blocks, h, window)
    ensures MedianOf(blocks, h, window) >= MedianOf(blocks, ParentOf(blocks, h), window)
  {
    var parent := ParentOf(blocks, h);
    WindowGrows(blocks, parent, window - 1);
    var times, kept := AncestorTimes(blocks, parent, window), AncestorTimes(blocks, parent, window - 1);
    if times != [] {
      MedianKept(times, kept, blocks[h].header.time);
    }
  }

  /** Along any route whose headers all pass the check, the median never falls. */
  lemma {:induction false} MedianMonotone(blocks: Blocks, from: Hash, route: seq<Hash>, i: nat, j: nat, window: nat)
    requires window >= 1 && Leads(blocks, from, route) && i <= j <= |route|
    requires forall k :: i <= k < j ==> route[k] in blocks && PassesMedian(blocks, route[k], window)
    ensures MedianOf(blocks, End(from, route[..i]), window) <= MedianOf(blocks, End(from, route[..j]), window)
    decreases j
  {
    if i < j {
      MedianMonotone(blocks, from, route, i, j - 1, window);
      assert Linked(blocks, from, route, j - 1);
      MedianStep(blocks, route[j - 1], window);
    }
  }

  /** Each header's time exceeds the median computed at every one of its ancestors on such a route. */
  lemma TimeExceedsAncestorMedians(blocks: Blocks, from: Hash, route: seq<Hash>, i: nat, j: nat, window: nat)
    requires window >= 1 && Leads(blocks, from, route) && i <= j < |route|
    requires forall k :: i <= k <= j ==> route[k] in blocks && PassesMedian(blocks, route[k], window)
    ensures route[j] in blocks && blocks[route[j]].header.time > MedianOf(blocks, End(from, route[..i]), window)
  {
    MedianMonotone(blocks, from, route, i, j, window);
    assert Linked(blocks, from, route, j);
  }
}
