/**
 Responses leave for a peer in the order in which they were declared (p2p/src/net/peer_context.rs,
 p2p/src/util/synchronizer.rs, p2p/src/util/response_queue.rs). Ids are 32-bit and wrap around.
 */
module Responses {
  import opened Primitives
  import opened ResponseLog

  // ---- The synchronizer ----

  /** `ThresholdSynchronizer` with its inner `FifoSynchronizer`. */
  datatype Synchronizer = Synchronizer(
    declaredResponses: u32, nextToGrant: u32, toGrantMin: u32, toGrantMax: u32)
  {
    predicate WithinThreshold(id: u32) {
      if toGrantMin <= toGrantMax then toGrantMin <= id && id < toGrantMax
      else toGrantMin <= id || id < toGrantMax
    }

    predicate IsPermitted(id: u32) {
      id == nextToGrant || WithinThreshold(id)
    }

    /** `permission_for_response`: whether permission is given, and the synchronizer after it. */
    function PermissionFor(id: u32): (bool, Synchronizer) {
      if id == nextToGrant then (true, this.(nextToGrant := Next(nextToGrant)))
      else (WithinThreshold(id), this)
    }
  }

  /** `ConfigurableSynchronizer::new(true)`. */
  const SYNCHRONOUS := Synchronizer(0, 0, 0, 0)

  /** `overflowing_add(1)`. */
  function Next(id: u32): u32 {
    if id + 1 < TWO_POW_32 then id + 1 else 0
  }

  // ---- The queue of responses that are ready too early ----

  datatype Ready = Unfinished(messages: seq<Message>) | Finished(messages: seq<Message>) | Ignored

  datatype ResponseQueue = ResponseQueue(
    unfinished: map<u32, seq<Message>>, finished: map<u32, seq<Message>>, ignored: set<u32>)
  {
    function PushUnfinished(id: u32, message: Message): ResponseQueue {
      var before := if id in unfinished then unfinished[id] else [];
      this.(unfinished := unfinished[id := before + [message]])
    }

    /** Finishing the same response twice is a panic. */
    function PushFinished(id: u32, message: Message): ResponseQueue
      requires id !in finished
    {
      var before := if id in unfinished then unfinished[id] else [];
      ResponseQueue(unfinished - {id}, finished[id := before + [message]], ignored)
    }

    /** Ignoring the same response twice is a panic. */
    function PushIgnored(id: u32): ResponseQueue
      requires id !in ignored
    {
      this.(ignored := ignored + {id})
    }

    function Take(id: u32): (Option<Ready>, ResponseQueue) {
      if id in unfinished then (Some(Unfinished(unfinished[id])), this.(unfinished := unfinished - {id}))
      else if id in finished then (Some(Finished(finished[id])), this.(finished := finished - {id}))
      else if id in ignored then (Some(Ignored), this.(ignored := ignored - {id}))
      else (None, this)
    }
  }

  // ---- Ids and places in the declaration order ----

  /** The id of the response that is declared after `k` others. */
  function Wrap(k: nat): u32 {
    if k < TWO_POW_32 then k else Wrap(k - TWO_POW_32)
  }

  /** The place of an id in the declaration order, given that `base` or one of the next 2^32 - 1 is meant. */
  function Unwrap(id: u32, base: nat): nat {
    if Wrap(base) <= id then base + id - Wrap(base) else base + id - Wrap(base) + TWO_POW_32
  }

  lemma {:induction false} WrapAdd(k: nat, d: nat)
    requires d < TWO_POW_32
    ensures Wrap(k + d) == if Wrap(k) + d < TWO_POW_32 then Wrap(k) + d else Wrap(k) + d - TWO_POW_32
  {
    if k >= TWO_POW_32 {
      WrapAdd(k - TWO_POW_32, d);
    }
  }

  lemma WrapNext(k: nat)
    ensures Wrap(k + 1) == Next(Wrap(k))
  {
    WrapAdd(k, 1);
  }

  lemma UnwrapWrap(k: nat, base: nat)
    requires base <= k < base + TWO_POW_32
    ensures Unwrap(Wrap(k), base) == k
  {
    WrapAdd(base, k - base);
  }

  lemma WrapUnwrap(id: u32, base: nat)
    ensures Wrap(Unwrap(id, base)) == id && base <= Unwrap(id, base) < base + TWO_POW_32
  {
    WrapAdd(base, Unwrap(id, base) - base);
  }

  lemma UnwrapNext(id: u32, base: nat)
    requires id != Wrap(base)
    ensures Unwrap(id, base + 1) == Unwrap(id, base) > base
  {
    WrapUnwrap(id, base);
    UnwrapWrap(Unwrap(id, base), base + 1);
  }

  /** How the queue holds a response that waits for earlier ones. */
  ghost predicate Held(q: ResponseQueue, r: Response, id: u32) {
    match r.status
    case Pending =>
      && id !in q.finished && id !in q.ignored
      && (r.messages == [] ==> id !in q.unfinished)
      && (r.messages != [] ==> id in q.unfinished && q.unfinished[id] == r.messages)
    case Final => id !in q.unfinished && id in q.finished && q.finished[id] == r.messages && id !in q.ignored
    case Dropped => id !in q.unfinished && id !in q.finished && id in q.ignored && r.messages == []
    case Stalled =>
      && r.messages != [] && id in q.unfinished && q.unfinished[id] == r.messages
      && id !in q.finished && id in q.ignored
  }

  predicate Mentions(q: ResponseQueue, id: u32) {
    id in q.unfinished || id in q.finished || id in q.ignored
  }

  /** The queue holds exactly the responses from `from` on. */
  ghost predicate Holds(q: ResponseQueue, log: seq<Response>, from: nat) {
    && from <= |log| < from + TWO_POW_32
    && (forall k {:trigger log[k]} :: from <= k < |log| ==> Held(q, log[k], Wrap(k)))
    && (forall id {:trigger Mentions(q, id)} :: Mentions(q, id) ==> Unwrap(id, from) < |log|)
  }

  /** A queue that differs from another only at one id. */
  ghost predicate SameBut(a: ResponseQueue, b: ResponseQueue, id: u32) {
    && a.unfinished - {id} == b.unfinished - {id}
    && a.finished - {id} == b.finished - {id}
    && a.ignored - {id} == b.ignored - {id}
  }

  lemma SameButHeld(a: ResponseQueue, b: ResponseQueue, id: u32, other: u32, r: Response)
    requires SameBut(a, b, id) && other != id
    ensures Held(a, r, other) <==> Held(b, r, other)
    ensures Mentions(a, other) <==> Mentions(b, other)
  {
    assert other in a.unfinished <==> other in a.unfinished - {id};
    assert other in b.unfinished <==> other in b.unfinished - {id};
    assert other in a.unfinished ==> a.unfinished[other] == (a.unfinished - {id})[other];
    assert other in b.unfinished ==> b.unfinished[other] == (b.unfinished - {id})[other];
    assert other in a.finished <==> other in a.finished - {id};
    assert other in b.finished <==> other in b.finished - {id};
    assert other in a.finished ==> a.finished[other] == (a.finished - {id})[other];
    assert other in b.finished ==> b.finished[other] == (b.finished - {id})[other];
    assert other in a.ignored <==> other in a.ignored - {id};
    assert other in b.ignored <==> other in b.ignored - {id};
  }

  /** Updating the queue at one waiting id along with the response keeps the two in step. */
  lemma HoldsUpdate(q: ResponseQueue, q': ResponseQueue, log: seq<Response>, from: nat, k: nat, r: Response)
    requires Holds(q, log, from) && from <= k < |log|
    requires SameBut(q, q', Wrap(k)) && Held(q', r, Wrap(k))
    ensures Holds(q', log[k := r], from)
  {
    var log' := log[k := r];
    forall j | from <= j < |log'| ensures Held(q', log'[j], Wrap(j)) {
      if j != k {
        UnwrapWrap(j, from);
        UnwrapWrap(k, from);
        SameButHeld(q, q', Wrap(k), Wrap(j), log[j]);
      }
    }
    forall id | Mentions(q', id) ensures Unwrap(id, from) < |log'| {
      UnwrapWrap(k, from);
      if id != Wrap(k) {
        SameButHeld(q, q', Wrap(k), id, r);
        assert Mentions(q, id);
      }
    }
  }

  /** Forgetting the first id that is held leaves exactly the later ones. */
  lemma HoldsNext(q: ResponseQueue, q': ResponseQueue, log: seq<Response>, from: nat)
    requires Holds(q, log, from) && from < |log|
    requires SameBut(q, q', Wrap(from)) && !Mentions(q', Wrap(from))
    ensures Holds(q', log, from + 1)
  {
    forall j | from + 1 <= j < |log| ensures Held(q', log[j], Wrap(j)) {
      UnwrapWrap(j, from);
      UnwrapWrap(from, from);
      SameButHeld(q, q', Wrap(from), Wrap(j), log[j]);
    }
    forall id | Mentions(q', id) ensures Unwrap(id, from + 1) < |log| {
      SameButHeld(q, q', Wrap(from), id, log[from]);
      assert Mentions(q, id);
      UnwrapNext(id, from);
    }
  }

  lemma HoldsDeclared(q: ResponseQueue, log: seq<Response>, from: nat)
    requires Holds(q, log, from) && |log| + 1 < from + TWO_POW_32
    ensures Holds(q, log + [Response([], Pending)], from)
  {
    var log' := log + [Response([], Pending)];
    UnwrapWrap(|log|, from);
    assert !Mentions(q, Wrap(|log|));
    forall j | from <= j < |log'| ensures Held(q, log'[j], Wrap(j)) {
      if j < |log| {
        assert log'[j] == log[j];
      }
    }
  }

  lemma HoldsNothing(q: ResponseQueue, log: seq<Response>)
    requires Holds(q, log, |log|)
    ensures Holds(q, log + [Response([], Pending)], |log| + 1)
  {
    forall id ensures !Mentions(q, id) {
      WrapUnwrap(id, |log|);
    }
  }

  /** The queue without a mark that an id is ignored. */
  function Unmarked(q: ResponseQueue, id: u32): ResponseQueue {
    q.(ignored := q.ignored - {id})
  }

  /** The queue once response `n` is looked at: it holds the later ones, and a mark if `n` is stalled. */
  ghost predicate HoldsAfter(q: ResponseQueue, log: seq<Response>, n: nat) {
    && n < |log|
    && Holds(Unmarked(q, Wrap(n)), log, n + 1)
    && (Wrap(n) in q.ignored <==> log[n].status == Stalled)
  }

  lemma HoldsAfterPlain(q: ResponseQueue, log: seq<Response>, n: nat)
    requires n < |log| && log[n].status != Stalled && |log| < n + TWO_POW_32
    ensures HoldsAfter(q, log, n) <==> Holds(q, log, n + 1)
  {
    UnwrapWrap(n, n);
    if Wrap(n) in q.ignored {
      assert Mentions(q, Wrap(n));
      LastId(n);
    } else {
      assert Unmarked(q, Wrap(n)) == q;
    }
  }

  /** The id of response `n`, read as one after `n`, is 2^32 later. */
  lemma LastId(n: nat)
    ensures Unwrap(Wrap(n), n + 1) == n + TWO_POW_32
  {
    WrapNext(n);
  }

  /** What taking the next id from the queue yields. */
  lemma TakeNext(q: ResponseQueue, log: seq<Response>, from: nat)
    requires Holds(q, log, from)
    ensures
      var (ready, q') := q.Take(Wrap(from));
      if from == |log| then ready == None && q' == q
      else
        && HoldsAfter(q', log, from)
        && match log[from].status
           case Pending =>
             if log[from].messages == [] then ready == None && q' == q
             else ready == Some(Unfinished(log[from].messages))
           case Final => ready == Some(Finished(log[from].messages))
           case Dropped => ready == Some(Ignored) && log[from].messages == []
           case Stalled => ready == Some(Unfinished(log[from].messages))
  {
    var id := Wrap(from);
    UnwrapWrap(from, from);
    if from == |log| {
      assert !Mentions(q, id);
    } else {
      assert Held(q, log[from], id);
      HoldsNext(q, Unmarked(q.Take(id).1, id), log, from);
    }
  }

  // ---- The invariant and the steps, on values ----

  /** `n` responses are closed and the counters agree with the log. */
  ghost predicate Counted(sync: Synchronizer, log: seq<Response>, n: nat) {
    && Settled(log, n)
    && |log| < n + TWO_POW_32
    && sync == Synchronizer(Wrap(|log|), Wrap(n), 0, 0)
  }

  /** Between two calls: response `n` is the first that is not closed, and everything up to it is sent. */
  ghost predicate InStep(sync: Synchronizer, q: ResponseQueue, sent: seq<Message>, log: seq<Response>, n: nat) {
    && Counted(sync, log, n)
    && (n < |log| ==> !log[n].Closed())
    && (if n < |log| then HoldsAfter(q, log, n) else Holds(q, log, n))
    && sent == Delivered(log)
  }

  /** Within `send_awaiting`: the responses before `n` are closed and sent, `n` was not looked at yet. */
  ghost predicate Closing(sync: Synchronizer, q: ResponseQueue, sent: seq<Message>, log: seq<Response>, n: nat) {
    && Counted(sync, log, n)
    && Holds(q, log, n)
    && sent == Messages(log, n)
  }

  lemma Declared(sync: Synchronizer, q: ResponseQueue, sent: seq<Message>, log: seq<Response>, n: nat)
    requires InStep(sync, q, sent, log, n) && |log| + 1 < n + TWO_POW_32
    ensures
      var sync' := sync.(declaredResponses := Next(sync.declaredResponses));
      InStep(sync', q, sent, log + [Response([], Pending)], n)
  {
    var log' := log + [Response([], Pending)];
    WrapNext(|log|);
    if n < |log| {
      HoldsDeclared(Unmarked(q, Wrap(n)), log, n + 1);
      assert HoldsAfter(q, log', n);
    } else {
      HoldsNothing(q, log);
      HoldsAfterPlain(q, log', n);
    }
    DeliveredLater(log, log', n);
  }

  /** One round of `send_awaiting`; the asserted permissions are given. */
  lemma Awaited(sync: Synchronizer, q: ResponseQueue, sent: seq<Message>, log: seq<Response>, n: nat)
    requires Closing(sync, q, sent, log, n)
    ensures
      var (ready, q') := q.Take(Wrap(n));
      var (permitted, sync') := sync.PermissionFor(Wrap(n));
      match ready
      case None => InStep(sync, q', sent, log, n)
      case Some(Unfinished(messages)) => sync.IsPermitted(Wrap(n)) && InStep(sync, q', sent + messages, log, n)
      case Some(Finished(messages)) =>
        permitted && n < |log| && Closing(sync', q', sent + messages, log, n + 1)
      case Some(Ignored) => permitted && n < |log| && Closing(sync', q', sent, log, n + 1)
  {
    var q' := q.Take(Wrap(n)).1;
    WrapNext(n);
    TakeNext(q, log, n);
    if n == |log| || !log[n].Closed() {
      DeliveredAt(log, n);
    } else {
      HoldsAfterPlain(q', log, n);
    }
  }

  /** Something is said for the first response that is not closed. */
  lemma SaidFirst(
    sync: Synchronizer, q: ResponseQueue, sent: seq<Message>, log: seq<Response>, n: nat, more: seq<Message>, status: Status)
    requires InStep(sync, q, sent, log, n) && n < |log| && log[n].status == Pending && status != Stalled
    ensures sync.PermissionFor(Wrap(n)).0
    ensures
      var log' := log[n := Response(log[n].messages + more, status)];
      if status == Pending then InStep(sync, q, sent + more, log', n)
      else Closing(sync.PermissionFor(Wrap(n)).1, q, sent + more, log', n + 1)
  {
    var log' := log[n := Response(log[n].messages + more, status)];
    WrapNext(n);
    MessagesPrefix(log, log', n);
    DeliveredAt(log, n);
    HoldsAfterPlain(q, log, n);
    HoldsAfterPlain(q, log', n);
    if status == Pending {
      DeliveredAt(log', n);
    }
  }

  /** Something is said for a response that waits. */
  lemma SaidLater(
    sync: Synchronizer, q: ResponseQueue, q': ResponseQueue, sent: seq<Message>, log: seq<Response>, n: nat, k: nat, r: Response)
    requires InStep(sync, q, sent, log, n) && n < k < |log|
    requires SameBut(q, q', Wrap(k)) && Held(q', r, Wrap(k))
    ensures InStep(sync, q', sent, log[k := r], n)
  {
    var u, u' := Unmarked(q, Wrap(n)), Unmarked(q', Wrap(n));
    UnwrapWrap(n, n);
    UnwrapWrap(k, n);
    assert u.ignored - {Wrap(k)} == q.ignored - {Wrap(k)} - {Wrap(n)};
    assert u'.ignored - {Wrap(k)} == q'.ignored - {Wrap(k)} - {Wrap(n)};
    assert SameBut(u, u', Wrap(k)) && Held(u', r, Wrap(k));
    HoldsUpdate(u, u', log, n + 1, k, r);
    assert Wrap(n) in q'.ignored <==> Wrap(n) in q.ignored by {
      assert Wrap(n) in q.ignored <==> Wrap(n) in q.ignored - {Wrap(k)};
      assert Wrap(n) in q'.ignored <==> Wrap(n) in q'.ignored - {Wrap(k)};
    }
    assert HoldsAfter(q', log[k := r], n);
    DeliveredLater(log, log[k := r], n);
  }

  /** Permission is given for the first response that is not closed, and for no other. */
  lemma Permitted(sync: Synchronizer, q: ResponseQueue, sent: seq<Message>, log: seq<Response>, n: nat, id: u32)
    requires InStep(sync, q, sent, log, n)
    requires Unwrap(id, n) < |log|
    ensures Wrap(Unwrap(id, n)) == id
    ensures sync.IsPermitted(id) <==> Unwrap(id, n) == n
    ensures sync.PermissionFor(id).0 == sync.IsPermitted(id)
    ensures Unwrap(id, n) > n ==> sync.PermissionFor(id).1 == sync && Held(q, log[Unwrap(id, n)], id)
    ensures First(log) == n
  {
    WrapUnwrap(id, n);
    UnwrapWrap(n, n);
    FirstIs(log, n);
    if Unwrap(id, n) > n {
      assert Held(Unmarked(q, Wrap(n)), log[Unwrap(id, n)], id);
    }
  }

  // ---- The context of one peer ----

  /**
   `PeerContext` in synchronous mode; each method is one step under both locks.
   `sent` is what was handed to the network. `log` tells what was declared and said, and `granted` how many
   responses are closed.
   */
  class PeerContext {
    var sync: Synchronizer
    var queue: ResponseQueue
    var sent: seq<Message>
    ghost var log: Log
    ghost var granted: nat

    /** In particular `sent == Delivered(log)`, and the next id to grant is that of the first open response. */
    ghost predicate Valid()
      reads this
    {
      InStep(sync, queue, sent, log, granted)
    }

    /** The id names a declared response that is not complete yet. */
    ghost predicate IsPending(id: u32)
      reads this
    {
      Unwrap(id, granted) < |log| && log[Unwrap(id, granted)].status == Pending
    }

    constructor ()
      ensures Valid() && log == [] && sent == [] && sync == SYNCHRONOUS
    {
      sync, queue, sent := SYNCHRONOUS, ResponseQueue(map[], map[], {}), [];
      log, granted := [], 0;
    }

    method DeclareResponse() returns (id: u32)
      requires Valid() && |log| + 1 < granted + TWO_POW_32
      modifies this
      ensures Valid() && Allowed(old(log), Declare) && log == Called(old(log), Declare)
      ensures id == Wrap(old(|log|)) && granted == old(granted)
    {
      Declared(sync, queue, sent, log, granted);
      FirstIs(log, granted);
      id := sync.declaredResponses;
      sync := sync.(declaredResponses := Next(id));
      log := log + [Response([], Pending)];
    }

    method SendAwaiting(startId: u32)
      requires Closing(sync, queue, sent, log, granted) && Next(startId) == Wrap(granted)
      modifies this
      ensures Valid() && log == old(log)
    {
      var nextId := startId;
      while true
        invariant Closing(sync, queue, sent, log, granted) && Next(nextId) == Wrap(granted) && log == old(log)
        decreases |log| - granted
      {
        nextId := Next(nextId);
        Awaited(sync, queue, sent, log, granted);
        var (ready, rest) := queue.Take(nextId);
        queue := rest;
        if ready == None {
          break;
        }
        if ready.value.Unfinished? {
          assert sync.IsPermitted(nextId);
          sent := sent + ready.value.messages;
          break;
        }
        var (permitted, sync') := sync.PermissionFor(nextId);
        assert permitted;
        WrapNext(granted);
        sync, granted := sync', granted + 1;
        if ready.value.Finished? {
          sent := sent + ready.value.messages;
        }
      }
    }

    method SendResponse(payload: Message, id: u32, isFinal: bool)
      requires Valid() && IsPending(id)
      modifies this
      ensures Valid()
      ensures
        var call := Send(Unwrap(id, old(granted)), payload, isFinal);
        Allowed(old(log), call) && log == Called(old(log), call)
    {
      ghost var k := Unwrap(id, granted);
      ghost var r := Response(log[k].messages + [payload], if isFinal then Final else Pending);
      Permitted(sync, queue, sent, log, granted, id);
      if k == granted {
        SaidFirst(sync, queue, sent, log, granted, [payload], r.status);
        WrapNext(granted);
      }
      if isFinal {
        var (permitted, sync') := sync.PermissionFor(id);
        if permitted {
          sync, sent, log, granted := sync', sent + [payload], log[k := r], granted + 1;
          SendAwaiting(id);
        } else {
          SaidLater(sync, queue, queue.PushFinished(id, payload), sent, log, granted, k, r);
          queue, log := queue.PushFinished(id, payload), log[k := r];
        }
      } else if sync.IsPermitted(id) {
        sent, log := sent + [payload], log[k := r];
      } else {
        SaidLater(sync, queue, queue.PushUnfinished(id, payload), sent, log, granted, k, r);
        queue, log := queue.PushUnfinished(id, payload), log[k := r];
      }
    }

    /** The last clause is what a caller can look at before the call. */
    method IgnoreResponse(id: u32)
      requires Valid() && IsPending(id)
      modifies this
      ensures Valid()
      ensures
        var call := Ignore(Unwrap(id, old(granted)));
        Allowed(old(log), call) && log == Called(old(log), call)
      ensures Queued(old(log), Unwrap(id, old(granted))) <==> old(id != sync.nextToGrant && id in queue.unfinished)
    {
      ghost var k := Unwrap(id, granted);
      ghost var r := Response(log[k].messages, if Queued(log, k) then Stalled else Dropped);
      Permitted(sync, queue, sent, log, granted, id);
      if k == granted {
        SaidFirst(sync, queue, sent, log, granted, [], Dropped);
        WrapNext(granted);
        assert sent + [] == sent && log[k].messages + [] == log[k].messages;
      }
      var (permitted, sync') := sync.PermissionFor(id);
      if permitted {
        sync, log, granted := sync', log[k := r], granted + 1;
        SendAwaiting(id);
      } else {
        SaidLater(sync, queue, queue.PushIgnored(id), sent, log, granted, k, r);
        queue, log := queue.PushIgnored(id), log[k := r];
      }
    }
  }

  /** Declares three responses. */
  method DeclareThree() returns (context: PeerContext)
    ensures fresh(context) && context.Valid() && context.granted == 0
    ensures var p := Response([], Pending); context.log == [p, p, p]
  {
    context := new PeerContext();
    FirstIs([], 0);
    var id0 := context.DeclareResponse();
    var id1 := context.DeclareResponse();
    var id2 := context.DeclareResponse();
  }

  /** The run of `StallExample` on the code: the last response is complete and is not sent. */
  method Stall(a: Message, b: Message, c: Message) returns (context: PeerContext)
    ensures fresh(context) && context.Valid() && context.log == StallLog(a, b, c)
    ensures context.sent == [a, b] && context.sync.nextToGrant == 1
  {
    context := DeclareThree();
    StallSteps(a, b, c);
    StallExample(a, b, c, []);
    context.SendResponse(b, 1, false);
    FirstIs(context.log, context.granted);
    context.IgnoreResponse(1);
    FirstIs(context.log, context.granted);
    context.SendResponse(a, 0, true);
    FirstIs(context.log, context.granted);
    context.SendResponse(c, 2, true);
    FirstIs(context.log, context.granted);
  }
}
