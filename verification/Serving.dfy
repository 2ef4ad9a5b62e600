/**
 The server's worker (sync/src/synchronization_server.rs): it takes one task at a time, executes it once and puts
 back what is left, while requests arrive and the store grows. What a peer receives in the end does not depend on
 how all these steps interleave.
 */
module Serving {
  import opened Primitives
  import opened Ledger
  import opened Sequences
  import opened BlockChainDb
  import opened ServerTasks
  import opened Replies
  import HeaderSync

  // ---- The code ----

  class ServerTaskExecutor {
    const storage: BlockChainDatabase
    var sent: seq<Output>

    ghost predicate Valid()
      reads this, storage, storage.db.Target(), storage.db.Base()
    {
      this !in {storage.db.Target(), storage.db.Base()} && storage.Valid() && storage.ledger.Rooted()
    }

    constructor (storage: BlockChainDatabase)
      requires storage.Valid() && storage.ledger.Rooted()
      ensures this.storage == storage && sent == [] && Valid()
    {
      this.storage, this.sent := storage, [];
    }

    method Execute(task: ServerTask) returns (rest: Option<ServerTask>)
      requires Valid()
      modifies this
      ensures Valid()
      ensures sent == old(sent) + Executed(storage.ledger, task).0 && rest == Executed(storage.ledger, task).1
    {
      match task {
        case GetData(peer, inventory) =>
          rest := ServeGetData(peer, inventory);
          assert sent == sent + [];
        case ReversedGetData(peer, inventory, notFound) =>
          rest := ServeReversedGetData(peer, inventory, notFound);
        case _ =>
          ServeAtOnce(task);
          rest := None;
      }
    }

    /** Items are taken from the back, so the list is turned around first. */
    method ServeGetData(peer: nat, inventory: seq<Item>) returns (rest: Option<ServerTask>)
      ensures rest == Some(ReversedGetData(peer, Reversed(inventory), []))
    {
      var reversed := Reversed(inventory);
      rest := Some(ReversedGetData(peer, reversed, []));
    }

    method ServeReversedGetData(peer: nat, inventory: seq<Item>, notFound: seq<Item>)
      returns (rest: Option<ServerTask>)
      requires Valid()
      modifies this
      ensures Valid()
      ensures
        var task := ReversedGetData(peer, inventory, notFound);
        sent == old(sent) + Executed(storage.ledger, task).0 && rest == Executed(storage.ledger, task).1
    {
      assert sent == sent + [];
      if inventory == [] {
        if notFound != [] {
          sent := sent + [SendNotFound(peer, notFound)];
        }
        return None;
      }
      var left, nextItem := inventory[..|inventory| - 1], inventory[|inventory| - 1];
      match nextItem.kind {
        case MessageBlock =>
          var block := storage.BlockByHash(nextItem.hash);
          if block.Some? {
            sent := sent + [SendBlock(peer, block.value)];
            rest := Some(ReversedGetData(peer, left, notFound));
          } else {
            rest := Some(ReversedGetData(peer, left, notFound + [nextItem]));
          }
        case ErrorItem =>
          rest := Some(ReversedGetData(peer, left, notFound));
      }
    }

    /** The requests that one execution answers; the one for the memory pool is ignored. */
    method ServeAtOnce(task: ServerTask)
      requires Valid() && !task.GetData? && !task.ReversedGetData?
      modifies this
      ensures Valid() && sent == old(sent) + OneShot(storage.ledger, task)
    {
      if task.GetBlocks? {
        ServeGetBlocks(task);
      } else if task.GetHeaders? {
        ServeGetHeaders(task);
      } else {
        assert sent == sent + [];
      }
    }

    /** An inventory is sent only if there is something in it. */
    method ServeGetBlocks(task: ServerTask)
      requires Valid() && task.GetBlocks?
      modifies this
      ensures Valid() && sent == old(sent) + OneShot(storage.ledger, task)
    {
      var reply := HeaderSync.ServeGetBlocks(storage, task.hashStop, task.locator);
      var message := InventoryMessage(task.peer, reply);
      sent := sent + message;
    }

    method ServeGetHeaders(task: ServerTask)
      requires Valid() && task.GetHeaders?
      modifies this
      ensures Valid() && sent == old(sent) + OneShot(storage.ledger, task)
    {
      var reply := HeaderSync.ServeGetHeaders(storage, task.hashStop, task.locator);
      var message := HeadersMessage(task.peer, reply, task.requestId);
      sent := sent + message;
    }
  }

  // ---- All interleavings ----

  /** Between the locked sections the worker holds a task it took, or what is left of it. */
  datatype Worker = Idle | Taken(task: ServerTask) | Leftover(task: ServerTask)

  /** One execution: for whom, and with which store. */
  datatype Look = Look(peer: nat, store: Store)

  /** `looks` records all executions. */
  datatype Server = Server(queue: Queue, worker: Worker, sent: seq<Output>, store: Store, looks: seq<Look>)

  datatype Event =
    | Receive(task: ServerTask)
    | Disconnect(peer: nat)
    | Import(store: Store)
    | Take
    | Execute
    | Return

  ghost function Start(store: Store): Server {
    Server(Queue([], map[]), Idle, [], store, [])
  }

  /** One step of the server; the worker's steps come in the order take, execute, return. */
  ghost function After(s: Server, event: Event): (s': Server)
    requires s.queue.Valid()
    ensures s'.queue.Valid()
  {
    match event
    case Receive(task) => s.(queue := Apply(s.queue, Add(task)))
    case Disconnect(peer) => s.(queue := Apply(s.queue, Remove(peer)))
    case Import(store) => if Grows(s.store, store) then s.(store := store) else s
    case Take =>
      if s.worker != Idle || s.queue.peers == [] then s
      else s.(queue := Apply(s.queue, Next), worker := Taken(NextOf(s.queue)))
    case Execute =>
      if !s.worker.Taken? then s
      else
        var task := s.worker.task;
        var (sent, rest) := Executed(s.store, task);
        Server(
          s.queue,
          if rest.Some? then Leftover(rest.value) else Idle,
          s.sent + sent,
          s.store,
          s.looks + [Look(task.peer, s.store)])
    case Return =>
      if !s.worker.Leftover? then s else s.(queue := Apply(s.queue, AddFront(s.worker.task)), worker := Idle)
  }

  function NextOf(q: Queue): ServerTask
    requires q.Valid() && q.peers != []
  {
    NextValid(q);
    q.tasks[q.peers[0]][0]
  }

  ghost function Run(s: Server, events: seq<Event>): (s': Server)
    requires s.queue.Valid()
    ensures s'.queue.Valid()
    decreases |events|
  {
    if events == [] then s else Run(After(s, events[0]), events[1..])
  }

  /** What a peer has asked for, in order. */
  function Received(events: seq<Event>, p: nat): seq<ServerTask> {
    if events == [] then []
    else
      (if events[0].Receive? && events[0].task.peer == p then [events[0].task] else []) + Received(events[1..], p)
  }

  function To(sent: seq<Output>, p: nat): seq<Output> {
    if sent == [] then [] else (if sent[0].peer == p then [sent[0]] else []) + To(sent[1..], p)
  }

  /** The stores that a peer's executions have found. */
  ghost function SeenIn(looks: seq<Look>, p: nat): seq<Store> {
    if looks == [] then []
    else
      var n := |looks| - 1;
      SeenIn(looks[..n], p) + if looks[n].peer == p then [looks[n].store] else []
  }

  lemma {:induction false} ToAppend(a: seq<Output>, b: seq<Output>, p: nat)
    ensures To(a + b, p) == To(a, p) + To(b, p)
  {
    if a == [] {
      assert a + b == b;
    } else {
      assert (a + b)[0] == a[0] && (a + b)[1..] == a[1..] + b;
      ToAppend(a[1..], b, p);
      Associate(if a[0].peer == p then [a[0]] else [], To(a[1..], p), To(b, p));
    }
  }

  lemma SeenPush(looks: seq<Look>, look: Look, p: nat)
    ensures SeenIn(looks + [look], p) == SeenIn(looks, p) + if look.peer == p then [look.store] else []
  {
    assert (looks + [look])[..|looks|] == looks;
  }

  /** The snapshots agree with all executions so far. */
  ghost predicate Agrees(seen: Snapshots, looks: seq<Look>, p: nat) {
    forall k {:trigger seen(k)} :: 0 <= k < |SeenIn(looks, p)| ==> seen(k) == SeenIn(looks, p)[k]
  }

  /** What a peer has asked for and not been answered in full: first what the worker holds, then what is queued. */
  function Pending(s: Server, p: nat): seq<ServerTask> {
    (if s.worker != Idle && s.worker.task.peer == p then [s.worker.task] else []) + s.queue.TasksOf(p)
  }

  /** What was sent to a peer and what it is still owed add up to the answers to all it has asked for. */
  ghost predicate Balanced(seen: Snapshots, s: Server, p: nat, received: seq<ServerTask>) {
    && s.queue.Valid()
    && Owes(seen, |SeenIn(s.looks, p)|, To(s.sent, p), Pending(s, p), received)
  }

  ghost predicate Owes(seen: Snapshots, k: nat, sent: seq<Output>, pending: seq<ServerTask>, received: seq<ServerTask>) {
    && sent + Answers(seen, k, pending) == Answers(seen, 0, received)
    && k + AllSteps(pending) == AllSteps(received)
  }

  lemma OwesMore(
    seen: Snapshots, k: nat, sent: seq<Output>, pending: seq<ServerTask>, received: seq<ServerTask>, task: ServerTask)
    requires Owes(seen, k, sent, pending, received)
    ensures Owes(seen, k, sent, pending + [task], received + [task])
  {
    ChainOwesMore(AnswerOf(seen), Steps, k, sent, pending, received, task);
  }

  lemma OwesLess(
    seen: Snapshots, k: nat, sent: seq<Output>, task: ServerTask, more: seq<ServerTask>, received: seq<ServerTask>)
    requires Owes(seen, k, sent, [task] + more, received)
    ensures var (now, rest) := Executed(seen(k), task);
            Owes(seen, k + 1, sent + now, Left(rest) + more, received)
  {
    var (now, rest) := Executed(seen(k), task);
    AnswersExecute(seen, k, task, more);
    Associate(sent, now, Answers(seen, k + 1, Left(rest) + more));
  }

  lemma SentTo(l: Store, task: ServerTask, p: nat)
    ensures To(Executed(l, task).0, p) == if task.peer == p then Executed(l, task).0 else []
  {
    SentToPeer(l, task);
  }

  lemma ReceivePending(s: Server, p: nat, task: ServerTask)
    requires s.queue.Valid()
    ensures Pending(After(s, Receive(task)), p) == Pending(s, p) + if task.peer == p then [task] else []
  {
  }

  lemma TakePending(s: Server, p: nat)
    requires s.queue.Valid()
    ensures Pending(After(s, Take), p) == Pending(s, p)
  {
    if s.worker == Idle && s.queue.peers != [] {
      NextValid(s.queue);
      var first := s.queue.peers[0];
      assert s.queue.tasks[first] == [s.queue.tasks[first][0]] + s.queue.tasks[first][1..];
    }
  }

  lemma ExecuteBalanced(seen: Snapshots, s: Server, p: nat, received: seq<ServerTask>)
    requires Balanced(seen, s, p, received) && s.worker.Taken? && Agrees(seen, After(s, Execute).looks, p)
    ensures Balanced(seen, After(s, Execute), p, received)
  {
    var task, k := s.worker.task, |SeenIn(s.looks, p)|;
    var (sent, rest) := Executed(s.store, task);
    ToAppend(s.sent, sent, p);
    SentTo(s.store, task, p);
    SeenPush(s.looks, Look(task.peer, s.store), p);
    ExecutePending(s, p);
    if task.peer == p {
      assert seen(k) == s.store;
      OwesLess(seen, k, To(s.sent, p), task, s.queue.TasksOf(p), received);
    } else {
      assert To(s.sent, p) + [] == To(s.sent, p);
      assert SeenIn(s.looks, p) + [] == SeenIn(s.looks, p);
    }
  }

  lemma ExecutePending(s: Server, p: nat)
    requires s.queue.Valid() && s.worker.Taken?
    ensures var task, s' := s.worker.task, After(s, Execute);
            if task.peer == p then
              && Pending(s, p) == [task] + s.queue.TasksOf(p)
              && Pending(s', p) == Left(Executed(s.store, task).1) + s.queue.TasksOf(p)
            else Pending(s', p) == Pending(s, p)
  {
    SentToPeer(s.store, s.worker.task);
  }

  lemma ReceiveBalanced(seen: Snapshots, s: Server, p: nat, received: seq<ServerTask>, task: ServerTask)
    requires Balanced(seen, s, p, received) && task.peer == p
    ensures Balanced(seen, After(s, Receive(task)), p, received + [task])
  {
    ReceivePending(s, p, task);
    OwesMore(seen, |SeenIn(s.looks, p)|, To(s.sent, p), Pending(s, p), received, task);
  }

  /** Every other step leaves what is pending for the peer as it is. */
  lemma OtherPending(s: Server, p: nat, event: Event)
    requires s.queue.Valid() && event != Execute && event != Disconnect(p)
    requires event.Receive? ==> event.task.peer != p
    ensures var s' := After(s, event);
            s'.sent == s.sent && s'.looks == s.looks && Pending(s', p) == Pending(s, p)
  {
    match event
    case Receive(task) =>
      ReceivePending(s, p, task);
      assert Pending(s, p) + [] == Pending(s, p);
    case Take =>
      TakePending(s, p);
    case _ =>
  }

  lemma StepBalanced(seen: Snapshots, s: Server, p: nat, received: seq<ServerTask>, event: Event)
    requires Balanced(seen, s, p, received) && event != Disconnect(p) && Agrees(seen, After(s, event).looks, p)
    ensures Balanced(seen, After(s, event), p, received + Received([event], p))
  {
    assert Received([event], p) == if event.Receive? && event.task.peer == p then [event.task] else [];
    assert received + [] == received;
    if event.Receive? && event.task.peer == p {
      ReceiveBalanced(seen, s, p, received, event.task);
    } else if event == Execute {
      if s.worker.Taken? {
        ExecuteBalanced(seen, s, p, received);
      }
    } else {
      OtherPending(s, p, event);
    }
  }

  // ---- Runs ----

  lemma AgreesBefore(seen: Snapshots, s: Server, event: Event, p: nat)
    requires s.queue.Valid() && Agrees(seen, After(s, event).looks, p)
    ensures Agrees(seen, s.looks, p)
  {
    if event == Execute && s.worker.Taken? {
      SeenPush(s.looks, Look(s.worker.task.peer, s.store), p);
    }
  }

  lemma {:induction false} AgreesAlong(seen: Snapshots, s: Server, events: seq<Event>, p: nat)
    requires s.queue.Valid() && Agrees(seen, Run(s, events).looks, p)
    ensures Agrees(seen, s.looks, p)
    decreases |events|
  {
    if events != [] {
      AgreesAlong(seen, After(s, events[0]), events[1..], p);
      AgreesBefore(seen, s, events[0], p);
    }
  }

  lemma ReceivedFirst(events: seq<Event>, p: nat)
    requires events != []
    ensures Received(events, p) == Received([events[0]], p) + Received(events[1..], p)
  {
    assert Received([events[0]][1..], p) == [];
  }

  lemma {:induction false} RunBalanced(seen: Snapshots, s: Server, p: nat, received: seq<ServerTask>, events: seq<Event>)
    requires Balanced(seen, s, p, received) && Disconnect(p) !in events && Agrees(seen, Run(s, events).looks, p)
    ensures Balanced(seen, Run(s, events), p, received + Received(events, p))
    decreases |events|
  {
    if events == [] {
      assert received + [] == received;
    } else {
      var first := Received([events[0]], p);
      AgreesAlong(seen, After(s, events[0]), events[1..], p);
      StepBalanced(seen, s, p, received, events[0]);
      RunBalanced(seen, After(s, events[0]), p, received + first, events[1..]);
      ReceivedFirst(events, p);
      Associate(received, first, Received(events[1..], p));
    }
  }

  /** What each execution for a peer has found, and after that the store as it is now. */
  ghost function SeenBy(s: Server, p: nat): Snapshots {
    (k: nat) => StoreAt(s, p, k)
  }

  ghost function StoreAt(s: Server, p: nat, k: nat): Store {
    if k < |SeenIn(s.looks, p)| then SeenIn(s.looks, p)[k] else s.store
  }

  /**
   However the steps interleave and the store grows, a peer that stays connected is sent the answers to its
   requests, in the order of the requests, with nothing lost, repeated or out of place; when nothing is pending they
   are complete.
   */
  lemma EverythingAnswered(store: Store, events: seq<Event>, p: nat)
    requires Disconnect(p) !in events
    ensures var s := Run(Start(store), events);
            && To(s.sent, p) <= Answers(SeenBy(s, p), 0, Received(events, p))
            && (Pending(s, p) == [] ==> To(s.sent, p) == Answers(SeenBy(s, p), 0, Received(events, p)))
  {
    var s := Run(Start(store), events);
    RunBalanced(SeenBy(s, p), Start(store), p, [], events);
    assert [] + Received(events, p) == Received(events, p);
  }

  // ---- Only what was asked for ----

  /** Only requests arrive; the reversed form is the server's own. */
  ghost predicate OnlyRequests(events: seq<Event>) {
    forall i {:trigger events[i]} :: 0 <= i < |events| && events[i].Receive? ==> IsRequest(events[i].task)
  }

  lemma {:induction false} ReceivedRequests(events: seq<Event>, p: nat)
    requires OnlyRequests(events)
    ensures AreRequests(Received(events, p))
  {
    if events != [] {
      ReceivedRequests(events[1..], p);
      assert events[0].Receive? ==> IsRequest(events[0].task);
    }
  }

  /** Every execution so far has found a store between the first one and the present one. */
  ghost predicate Grown(first: Store, s: Server) {
    && Grows(first, s.store)
    && forall i {:trigger s.looks[i]} :: 0 <= i < |s.looks| ==> Grows(first, s.looks[i].store) && Grows(s.looks[i].store, s.store)
  }

  lemma GrowsTransitive(a: Ledger, b: Ledger, c: Ledger)
    requires Grows(a, b) && Grows(b, c)
    ensures Grows(a, c)
  {
    forall h | h in a.blocks ensures h in c.blocks && c.blocks[h] == a.blocks[h] {
      assert h in b.blocks;
    }
  }

  lemma StepGrown(first: Store, s: Server, event: Event)
    requires s.queue.Valid() && Grown(first, s)
    ensures Grown(first, After(s, event))
  {
    if event.Import? && Grows(s.store, event.store) {
      GrowsTransitive(first, s.store, event.store);
      forall i | 0 <= i < |s.looks| ensures Grows(s.looks[i].store, event.store) {
        GrowsTransitive(s.looks[i].store, s.store, event.store);
      }
    }
  }

  lemma {:induction false} RunGrown(first: Store, s: Server, events: seq<Event>)
    requires s.queue.Valid() && Grown(first, s)
    ensures Grown(first, Run(s, events))
    decreases |events|
  {
    if events != [] {
      StepGrown(first, s, events[0]);
      RunGrown(first, After(s, events[0]), events[1..]);
    }
  }

  lemma {:induction false} SeenFrom(looks: seq<Look>, p: nat, k: nat) returns (i: nat)
    requires k < |SeenIn(looks, p)|
    ensures i < |looks| && looks[i].store == SeenIn(looks, p)[k]
    decreases |looks|
  {
    var n := |looks| - 1;
    if k < |SeenIn(looks[..n], p)| {
      i := SeenFrom(looks[..n], p, k);
    } else {
      i := n;
    }
  }

  lemma SeenBetween(first: Store, s: Server, p: nat)
    requires Grown(first, s)
    ensures Between(first, SeenBy(s, p), s.store)
  {
    var seen := SeenBy(s, p);
    forall j: nat ensures Grows(first, seen(j)) && Grows(seen(j), s.store) {
      if j < |SeenIn(s.looks, p)| {
        var i := SeenFrom(s.looks, p, j);
        assert Grows(first, s.looks[i].store);
      }
    }
  }

  /**
   Over every run, each block that a connected peer is sent is the stored block of an item that it asked for, each item
   reported missing is one that it asked for and that was not stored at the start, and all hashes and headers are from
   right above the common height of one of its requests, in a store of that run.
   */
  lemma OnlyWhatWasAsked(store: Store, events: seq<Event>, p: nat, output: Output)
    requires Disconnect(p) !in events && OnlyRequests(events)
    requires output in To(Run(Start(store), events).sent, p)
    ensures Justified(store, Run(Start(store), events).store, Received(events, p), output)
  {
    var s, received := Run(Start(store), events), Received(events, p);
    EverythingAnswered(store, events, p);
    RunGrown(store, Start(store), events);
    SeenBetween(store, s, p);
    ReceivedRequests(events, p);
    assert output in Answers(SeenBy(s, p), 0, received) by {
      var i :| 0 <= i < |To(s.sent, p)| && To(s.sent, p)[i] == output;
      assert Answers(SeenBy(s, p), 0, received)[i] == output;
    }
    AnswersJustified(store, s.store, received, SeenBy(s, p), output);
  }

  /**
   Over every run, once nothing is pending for a connected peer, each block it asked for has been sent if it was stored
   from the start, and reported missing if it is still not stored.
   */
  lemma AskedIsServed(store: Store, events: seq<Event>, p: nat, i: nat, item: Item)
    requires Disconnect(p) !in events && Pending(Run(Start(store), events), p) == []
    requires i < |Received(events, p)| && Received(events, p)[i].GetData?
    requires item in Received(events, p)[i].inventory && item.kind == MessageBlock
    ensures var s := Run(Start(store), events);
            Served(store, s.store, p, item, To(s.sent, p))
  {
    var s, received := Run(Start(store), events), Received(events, p);
    EverythingAnswered(store, events, p);
    RunGrown(store, Start(store), events);
    SeenBetween(store, s, p);
    ReceivedFrom(events, p, i);
    AnswersServe(store, s.store, received, SeenBy(s, p), i, item);
  }

  lemma {:induction false} ReceivedFrom(events: seq<Event>, p: nat, i: nat)
    requires i < |Received(events, p)|
    ensures Received(events, p)[i].peer == p
  {
    var first := if events[0].Receive? && events[0].task.peer == p then [events[0].task] else [];
    if i >= |first| {
      ReceivedFrom(events[1..], p, i - |first|);
    }
  }

  /** Importing a block is such a growth of the store. */
  lemma InsertGrows(l: Store, block: IndexedBlock)
    requires l.Longest() && block.hash !in l.blocks && block.hash != ZERO
    ensures var l' := InsertBest(l, block).0; l'.Rooted() && Grows(l, l')
  {
    InsertBestStep(l, block);
    InsertBestErrors(l, block);
  }

  // ---- A store that does not change ----

  ghost predicate NoImports(events: seq<Event>) {
    forall i {:trigger events[i]} :: 0 <= i < |events| ==> !events[i].Import?
  }

  lemma {:induction false} RunFixed(store: Store, s: Server, events: seq<Event>)
    requires s.queue.Valid() && NoImports(events) && s.store == store
    requires forall i {:trigger s.looks[i]} :: 0 <= i < |s.looks| ==> s.looks[i].store == store
    ensures var s' := Run(s, events);
            s'.store == store && forall i {:trigger s'.looks[i]} :: 0 <= i < |s'.looks| ==> s'.looks[i].store == store
    decreases |events|
  {
    if events != [] {
      assert !events[0].Import?;
      RunFixed(store, After(s, events[0]), events[1..]);
    }
  }

  /**
   While the store does not change, a peer's requests are answered by exactly the stored blocks of the requested
   hashes in order, then one list of exactly those that are not stored.
   */
  lemma FixedStoreAnswered(store: Store, events: seq<Event>, p: nat)
    requires Disconnect(p) !in events && NoImports(events)
    ensures var s := Run(Start(store), events);
            && To(s.sent, p) <= FixedAnswers(store, Received(events, p))
            && (Pending(s, p) == [] ==> To(s.sent, p) == FixedAnswers(store, Received(events, p)))
  {
    var s := Run(Start(store), events);
    var seen := SeenBy(s, p);
    EverythingAnswered(store, events, p);
    RunFixed(store, Start(store), events);
    forall j: nat ensures seen(j) == store {
      if j < |SeenIn(s.looks, p)| {
        var i := SeenFrom(s.looks, p, j);
      }
    }
    AnswersFixed(seen, store, Received(events, p));
  }

  // ---- The worker ----

  /** One round of the worker: the next task, one execution, and what is left goes back to the front. */
  ghost predicate IsRound(q: Queue, sent: seq<Output>, store: Store, q': Queue, sent': seq<Output>)
    requires q.Valid()
  {
    if q.peers == [] then q' == q && sent' == sent
    else
      var (now, rest) := Executed(store, NextOf(q));
      && sent' == sent + now
      && q' == if rest.Some? then AddedFront(Apply(q, Next), rest.value) else Apply(q, Next)
  }

  /** A round is the three steps of the state machine with nothing in between. */
  lemma RoundIs(s: Server)
    requires s.queue.Valid() && s.worker == Idle
    ensures var s' := After(After(After(s, Take), Execute), Return);
            s'.worker == Idle && IsRound(s.queue, s.sent, s.store, s'.queue, s'.sent)
  {
  }

  /** What other threads may do to the queue: requests arrive and peers leave. */
  predicate Foreign(ops: seq<Operation>) {
    forall i :: 0 <= i < |ops| ==> ops[i].Add? || ops[i].Remove?
  }

  function Applied(q: Queue, ops: seq<Operation>): (q': Queue)
    requires q.Valid()
    ensures q'.Valid()
  {
    if ops == [] then q else Apply(Applied(q, ops[..|ops| - 1]), ops[|ops| - 1])
  }

  /** Waiting for work lets other threads in: `meanwhile` is what they do until the worker wakes up. */
  method Wait(queue: ServerQueue, meanwhile: seq<Operation>)
    requires queue.Valid() && Foreign(meanwhile)
    modifies queue
    ensures queue.Valid() && queue.View() == Applied(old(queue.View()), meanwhile)
  {
    for i := 0 to |meanwhile|
      invariant queue.Valid() && queue.View() == Applied(old(queue.View()), meanwhile[..i])
    {
      assert meanwhile[..i + 1][..i] == meanwhile[..i];
      match meanwhile[i] {
        case Add(task) =>
          queue.AddTask(task);
        case Remove(peer) =>
          queue.RemovePeerTasks(peer);
      }
    }
    assert meanwhile[..|meanwhile|] == meanwhile;
  }

  /** One round of the worker loop; if there is nothing to do it waits once and looks again. */
  method WorkerStep(queue: ServerQueue, executor: ServerTaskExecutor, meanwhile: seq<Operation>)
    requires queue.Valid() && executor.Valid() && Foreign(meanwhile)
    requires {queue, executor} !! {executor.storage, executor.storage.db.Target(), executor.storage.db.Base()}
    modifies queue, executor
    ensures queue.Valid() && executor.Valid()
    ensures
      var q := if old(queue.peersQueue) == [] then Applied(old(queue.View()), meanwhile) else old(queue.View());
      IsRound(q, old(executor.sent), executor.storage.ledger, queue.View(), executor.sent)
  {
    if queue.peersQueue == [] {
      Wait(queue, meanwhile);
    }
    Round(queue, executor);
  }

  method Round(queue: ServerQueue, executor: ServerTaskExecutor)
    requires queue.Valid() && executor.Valid()
    requires {queue, executor} !! {executor.storage, executor.storage.db.Target(), executor.storage.db.Base()}
    modifies queue, executor
    ensures queue.Valid() && executor.Valid()
    ensures IsRound(old(queue.View()), old(executor.sent), executor.storage.ledger, queue.View(), executor.sent)
  {
    var task := queue.NextTask();
    if task.Some? {
      var rest := executor.Execute(task.value);
      if rest.Some? {
        queue.AddTaskFront(rest.value);
      }
    }
  }
}
