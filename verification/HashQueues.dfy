/** Ordered queues of hashes without repetition (sync/src/utils/hash_queue.rs). */
module HashQueues {
  import opened Primitives
  import opened Sequences

  datatype HashPosition = Missing | Front | Inside(position: nat)

  ghost predicate Distinct(s: seq<Hash>) {
    forall i, j :: 0 <= i < j < |s| ==> s[i] != s[j]
  }

  lemma DistinctSplit(a: seq<Hash>, b: seq<Hash>, hash: Hash)
    requires Distinct(a + b)
    ensures Distinct(a) && Distinct(b) && !(hash in a && hash in b)
  {
    var all := a + b;
    assert all[..|a|] == a && all[|a|..] == b;
    forall i, j | 0 <= i < |a| && 0 <= j < |b| ensures a[i] != b[j] {
      assert all[i] == a[i] && all[|a| + j] == b[j];
    }
  }

  /** `elements` answers membership, `queue` keeps the order; both hold the same hashes. */
  datatype HashQueue = HashQueue(queue: seq<Hash>, elements: set<Hash>) {

    ghost predicate Valid() {
      Distinct(queue) && forall h :: h in elements <==> h in queue
    }

    function PopFront(): HashQueue
      requires queue != []
    {
      HashQueue(queue[1..], elements - {queue[0]})
    }

    function PopBack(): HashQueue
      requires queue != []
    {
      HashQueue(queue[..|queue| - 1], elements - {queue[|queue| - 1]})
    }

    /** Pushing a hash that is already queued is a panic: callers must check. */
    function PushBack(hash: Hash): HashQueue
      requires hash !in elements
    {
      HashQueue(queue + [hash], elements + {hash})
    }

    function At(position: nat): Option<Hash> {
      if position < |queue| then Some(queue[position]) else None
    }

    function Back(): Option<Hash> {
      if queue == [] then None else Some(queue[|queue| - 1])
    }
  }

  const EMPTY := HashQueue([], {})

  lemma PopFrontValid(q: HashQueue)
    requires q.Valid() && q.queue != []
    ensures q.PopFront().Valid()
  {
    assert q.queue == [q.queue[0]] + q.queue[1..];
  }

  lemma PopBackValid(q: HashQueue)
    requires q.Valid() && q.queue != []
    ensures q.PopBack().Valid()
  {
    assert q.queue == q.queue[..|q.queue| - 1] + [q.queue[|q.queue| - 1]];
  }

  lemma PushBackValid(q: HashQueue, hash: Hash)
    requires q.Valid() && hash !in q.elements
    ensures q.PushBack(hash).Valid()
  {
  }

  /** The first position of a hash. */
  method Position(q: HashQueue, hash: Hash) returns (position: Option<nat>)
    requires q.Valid()
    ensures position.None? <==> hash !in q.queue
    ensures position.Some? ==> position.value < |q.queue| && q.queue[position.value] == hash
  {
    for i := 0 to |q.queue|
      invariant hash !in q.queue[..i]
    {
      if q.queue[i] == hash {
        return Some(i);
      }
    }
    assert q.queue[..|q.queue|] == q.queue;
    position := None;
  }

  method PopFrontN(q: HashQueue, n: nat) returns (rest: HashQueue, popped: seq<Hash>)
    requires q.Valid()
    ensures rest.Valid() && q.queue == popped + rest.queue
    ensures |popped| == if n < |q.queue| then n else |q.queue|
  {
    rest, popped := q, [];
    for i := 0 to n
      invariant rest.Valid() && q.queue == popped + rest.queue && |popped| == i
    {
      if rest.queue == [] {
        return;
      }
      PopFrontValid(rest);
      popped := popped + [rest.queue[0]];
      rest := rest.PopFront();
    }
  }

  method PushBackN(q: HashQueue, hashes: seq<Hash>) returns (longer: HashQueue)
    requires q.Valid() && Distinct(q.queue + hashes)
    ensures longer.Valid() && longer.queue == q.queue + hashes
  {
    longer := q;
    for i := 0 to |hashes|
      invariant longer.Valid() && longer.queue == q.queue + hashes[..i]
    {
      assert hashes[i] !in longer.queue by {
        assert (q.queue + hashes)[|q.queue| + i] == hashes[i];
        assert forall k :: 0 <= k < |q.queue| + i ==> longer.queue[k] == (q.queue + hashes)[k];
      }
      PushBackValid(longer, hashes[i]);
      longer := longer.PushBack(hashes[i]);
    }
  }

  /** Takes one hash out of the queue and says where it was. */
  method Remove(q: HashQueue, hash: Hash) returns (rest: HashQueue, position: HashPosition)
    requires q.Valid()
    ensures rest.Valid() && rest.queue == Except(q.queue, {hash})
    ensures position == Missing <==> hash !in q.queue
    ensures position == Missing ==> rest == q
    ensures position == Front ==> q.queue != [] && q.queue[0] == hash && rest.queue == q.queue[1..]
    ensures position.Inside? ==>
              && 0 < position.position < |q.queue| && q.queue[position.position] == hash
              && rest.queue == q.queue[..position.position] + q.queue[position.position + 1..]
  {
    if hash !in q.elements {
      ExceptAbsent(q.queue, hash);
      return q, Missing;
    }
    if q.queue[0] == hash {
      ExceptAt(q.queue, 0);
      PopFrontValid(q);
      return q.PopFront(), Front;
    }
    var i := 1;
    while q.queue[i] != hash
      invariant 0 < i < |q.queue| && hash !in q.queue[..i]
      decreases |q.queue| - i
    {
      i := i + 1;
    }
    ExceptAt(q.queue, i);
    RemoveAtValid(q, i);
    rest, position := HashQueue(q.queue[..i] + q.queue[i + 1..], q.elements - {hash}), Inside(i);
  }

  lemma RemoveAtValid(q: HashQueue, i: nat)
    requires q.Valid() && i < |q.queue|
    ensures HashQueue(q.queue[..i] + q.queue[i + 1..], q.elements - {q.queue[i]}).Valid()
  {
    var rest := q.queue[..i] + q.queue[i + 1..];
    assert q.queue == q.queue[..i] + [q.queue[i]] + q.queue[i + 1..];
    forall h ensures h in q.elements - {q.queue[i]} <==> h in rest {
    }
  }

  // ---- Sequences without some of their elements ----

  /** The elements that are not in `gone`, in order. */
  function Except(s: seq<Hash>, gone: set<Hash>): seq<Hash> {
    if s == [] then [] else (if s[0] in gone then [] else [s[0]]) + Except(s[1..], gone)
  }

  lemma {:induction false} ExceptConcat(a: seq<Hash>, b: seq<Hash>, gone: set<Hash>)
    ensures Except(a + b, gone) == Except(a, gone) + Except(b, gone)
  {
    if a == [] {
      assert a + b == b;
    } else {
      assert (a + b)[1..] == a[1..] + b;
      ExceptConcat(a[1..], b, gone);
    }
  }

  lemma {:induction false} ExceptAbsent(s: seq<Hash>, hash: Hash)
    requires hash !in s
    ensures Except(s, {hash}) == s
  {
    if s != [] {
      ExceptAbsent(s[1..], hash);
    }
  }

  lemma {:induction false} ExceptNothing(s: seq<Hash>)
    ensures Except(s, {}) == s
  {
    if s != [] {
      ExceptNothing(s[1..]);
    }
  }

  lemma {:induction false} ExceptTwice(s: seq<Hash>, a: set<Hash>, b: set<Hash>)
    ensures Except(Except(s, a), b) == Except(s, a + b)
  {
    if s != [] {
      ExceptTwice(s[1..], a, b);
      if s[0] in a {
        assert Except(s, a) == Except(s[1..], a);
      } else {
        assert Except(s, a)[1..] == Except(s[1..], a);
      }
    }
  }

  /** Cutting out one element of a sequence without repetition. */
  lemma {:induction false} ExceptAt(s: seq<Hash>, i: nat)
    requires Distinct(s) && i < |s|
    ensures Except(s, {s[i]}) == s[..i] + s[i + 1..]
  {
    var tail := s[1..];
    if i == 0 {
      ExceptAbsent(tail, s[0]);
    } else {
      ExceptAt(tail, i - 1);
      assert tail[..i - 1] == s[1..i] && tail[i..] == s[i + 1..];
      assert [s[0]] + s[1..i] == s[..i];
    }
  }

  lemma {:induction false} ExceptKeeps(s: seq<Hash>, gone: set<Hash>, hash: Hash)
    ensures hash in Except(s, gone) <==> hash in s && hash !in gone
  {
    if s != [] {
      ExceptKeeps(s[1..], gone, hash);
    }
  }

  lemma {:induction false} ExceptDistinct(s: seq<Hash>, gone: set<Hash>)
    requires Distinct(s)
    ensures Distinct(Except(s, gone))
  {
    if s != [] {
      ExceptDistinct(s[1..], gone);
      ExceptKeeps(s[1..], gone, s[0]);
    }
  }

  // ---- Queues in a row ----

  /** All hashes of a row of queues, in order. */
  function Flat(queues: seq<HashQueue>): seq<Hash> {
    if queues == [] then [] else queues[0].queue + Flat(queues[1..])
  }

  function Len(queues: seq<HashQueue>): (n: nat)
    ensures n == |Flat(queues)|
  {
    if queues == [] then 0 else |queues[0].queue| + Len(queues[1..])
  }

  lemma FlatOfThree(a: HashQueue, b: HashQueue, c: HashQueue)
    ensures Flat([a, b, c]) == a.queue + b.queue + c.queue
  {
    assert [a, b, c][1..] == [b, c] && [b, c][1..] == [c] && [c][1..] == [];
    assert Flat([c]) == c.queue;
    assert Flat([b, c]) == b.queue + c.queue;
  }

  /** Indexing the row of queues as one sequence. */
  method FlatAt(queues: seq<HashQueue>, index: nat) returns (r: Option<Hash>)
    ensures r == if index < |Flat(queues)| then Some(Flat(queues)[index]) else None
  {
    var left := index;
    ghost var passed: seq<Hash> := [];
    for i := 0 to |queues|
      invariant 0 <= left && index == |passed| + left
      invariant Flat(queues) == passed + Flat(queues[i..])
    {
      assert queues[i..][1..] == queues[i + 1..];
      var here := queues[i].queue;
      if left < |here| {
        return queues[i].At(left);
      }
      Associate(passed, here, Flat(queues[i + 1..]));
      left := left - |here|;
      passed := passed + here;
    }
    assert queues[|queues|..] == [];
    r := None;
  }
}
