/** The round-robin queue of requests that peers have sent (`ServerQueue` of sync/src/synchronization_server.rs). */
module ServerTasks {
  import opened Primitives
  import opened Sequences

  datatype InventoryType = ErrorItem | MessageBlock

  datatype Item = Item(kind: InventoryType, hash: Hash)

  datatype ServerTask =
    | GetData(peer: nat, inventory: seq<Item>)
    | ReversedGetData(peer: nat, inventory: seq<Item>, notFound: seq<Item>)
    | GetBlocks(peer: nat, locator: seq<Hash>, hashStop: Hash)
    | GetHeaders(peer: nat, locator: seq<Hash>, hashStop: Hash, requestId: u32)
    | Mempool(peer: nat)

  /** The ring of peers that have tasks, and each one's tasks, oldest first. */
  datatype Queue = Queue(peers: seq<nat>, tasks: map<nat, seq<ServerTask>>) {

    /** Every peer with tasks is in the ring once, and nobody else is. */
    ghost predicate Valid() {
      && (forall i, j {:trigger peers[i], peers[j]} :: 0 <= i < j < |peers| ==> peers[i] != peers[j])
      && (forall i {:trigger peers[i]} :: 0 <= i < |peers| ==> peers[i] in tasks)
      && (forall p {:trigger Served(p)} :: p in tasks ==> Served(p))
    }

    ghost predicate Served(p: nat) {
      p in tasks && p in peers && tasks[p] != [] && AllFrom(p, tasks[p])
    }

    function TasksOf(p: nat): seq<ServerTask> {
      if p in tasks then tasks[p] else []
    }
  }

  ghost predicate AllFrom(p: nat, tasks: seq<ServerTask>) {
    forall i {:trigger tasks[i]} :: 0 <= i < |tasks| ==> tasks[i].peer == p
  }

  /** What `next_task` leaves behind. */
  function AfterNext(q: Queue): Queue
    requires q.peers != [] ==> q.peers[0] in q.tasks && q.tasks[q.peers[0]] != []
  {
    if q.peers == [] then q
    else
      var p := q.peers[0];
      var rest := q.tasks[p][1..];
      if rest == [] then Queue(q.peers[1..], q.tasks - {p})
      else Queue(q.peers[1..] + [p], q.tasks[p := rest])
  }

  function Added(q: Queue, task: ServerTask): Queue {
    var p := task.peer;
    Queue(if p in q.tasks then q.peers else q.peers + [p], q.tasks[p := q.TasksOf(p) + [task]])
  }

  function AddedFront(q: Queue, task: ServerTask): Queue {
    var p := task.peer;
    Queue(if p in q.tasks then q.peers else q.peers + [p], q.tasks[p := [task] + q.TasksOf(p)])
  }

  lemma AddedValid(q: Queue, task: ServerTask)
    requires q.Valid()
    ensures Added(q, task).Valid() && AddedFront(q, task).Valid()
  {
    var p, added := task.peer, Added(q, task);
    assert p in q.tasks ==> q.Served(p);
    forall r | r in added.tasks ensures added.Served(r) && AddedFront(q, task).Served(r) {
      assert r in q.tasks ==> q.Served(r);
      assert p !in q.tasks ==> added.peers[|q.peers|] == p;
    }
  }

  lemma NextValid(q: Queue)
    requires q.Valid() && q.peers != []
    ensures q.Served(q.peers[0]) && AfterNext(q).Valid()
  {
    var p := q.peers[0];
    assert p in q.tasks && q.Served(p);
    var q' := AfterNext(q);
    assert q.peers == [p] + q.peers[1..];
    forall r | r in q'.tasks ensures q'.Served(r) {
      assert q.Served(r);
      assert r in q.peers ==> r == p || r in q.peers[1..];
    }
  }

  function Removed(q: Queue, p: nat): Queue {
    var i := IndexOf(q.peers, p);
    if i < |q.peers| then Queue(q.peers[..i] + q.peers[i + 1..], q.tasks - {p}) else q
  }

  lemma RemovedValid(q: Queue, p: nat)
    requires q.Valid()
    ensures Removed(q, p).Valid() && p !in Removed(q, p).tasks
  {
    var i, q' := IndexOf(q.peers, p), Removed(q, p);
    assert p in q.tasks ==> q.Served(p);
    if i < |q.peers| {
      forall r | r in q'.tasks ensures q'.Served(r) {
        assert q.Served(r);
        RemovedOther(q, p, r);
      }
    }
  }

  lemma RemovedOther(q: Queue, p: nat, r: nat)
    requires r != p && r in q.peers
    ensures r in Removed(q, p).peers && IndexOf(Removed(q, p).peers, r) <= IndexOf(q.peers, r)
  {
    var i, k, peers := IndexOf(q.peers, p), IndexOf(q.peers, r), Removed(q, p).peers;
    if i < |q.peers| {
      assert peers[if k < i then k else k - 1] == r;
    }
  }

  class ServerQueue {
    var peersQueue: seq<nat>
    var tasksQueue: map<nat, seq<ServerTask>>

    ghost function View(): Queue
      reads this
    {
      Queue(peersQueue, tasksQueue)
    }

    ghost predicate Valid()
      reads this
    {
      View().Valid()
    }

    constructor ()
      ensures Valid() && View() == Queue([], map[])
    {
      peersQueue, tasksQueue := [], map[];
    }

    /** The oldest task of the first peer in the ring; that peer goes to the end of the ring. */
    method NextTask() returns (task: Option<ServerTask>)
      requires Valid()
      modifies this
      ensures Valid()
      ensures old(peersQueue) == [] ==> task == None && View() == old(View())
      ensures old(peersQueue) != [] ==>
                && old(View().Served(peersQueue[0]))
                && task == Some(old(tasksQueue[peersQueue[0]][0])) && View() == AfterNext(old(View()))
    {
      if peersQueue == [] {
        return None;
      }
      NextValid(View());
      var peer, peerTasks := peersQueue[0], tasksQueue[peersQueue[0]];
      task := Some(peerTasks[0]);
      if |peerTasks| > 1 {
        peersQueue, tasksQueue := peersQueue[1..] + [peer], tasksQueue[peer := peerTasks[1..]];
      } else {
        peersQueue, tasksQueue := peersQueue[1..], tasksQueue - {peer};
      }
    }

    method AddTask(task: ServerTask)
      requires Valid()
      modifies this
      ensures Valid() && View() == Added(old(View()), task)
    {
      AddedValid(View(), task);
      var peer := task.peer;
      if peer in tasksQueue {
        assert View().Served(peer);
        var addToPeersQueue := tasksQueue[peer] == [];
        tasksQueue := tasksQueue[peer := tasksQueue[peer] + [task]];
        peersQueue := if addToPeersQueue then peersQueue + [peer] else peersQueue;
      } else {
        assert [task] == [] + [task];
        tasksQueue, peersQueue := tasksQueue[peer := [task]], peersQueue + [peer];
      }
    }

    method AddTaskFront(task: ServerTask)
      requires Valid()
      modifies this
      ensures Valid() && View() == AddedFront(old(View()), task)
    {
      AddedValid(View(), task);
      var peer := task.peer;
      if peer in tasksQueue {
        assert View().Served(peer);
        var addToPeersQueue := tasksQueue[peer] == [];
        tasksQueue := tasksQueue[peer := [task] + tasksQueue[peer]];
        peersQueue := if addToPeersQueue then peersQueue + [peer] else peersQueue;
      } else {
        assert [task] == [task] + [];
        tasksQueue, peersQueue := tasksQueue[peer := [task]], peersQueue + [peer];
      }
    }

    /** A peer that has left is forgotten, its place in the ring with it. */
    method RemovePeerTasks(peer: nat)
      requires Valid()
      modifies this
      ensures Valid() && View() == Removed(old(View()), peer)
    {
      RemovedValid(View(), peer);
      if peer in tasksQueue {
        assert View().Served(peer);
        var position := 0;
        while peersQueue[position] != peer
          invariant 0 <= position <= IndexOf(peersQueue, peer) < |peersQueue|
          invariant peersQueue == old(peersQueue) && tasksQueue == old(tasksQueue)
          decreases |peersQueue| - position
        {
          position := position + 1;
        }
        tasksQueue := tasksQueue - {peer};
        peersQueue := peersQueue[..position] + peersQueue[position + 1..];
      }
    }
  }

  // ---- Every peer gets its turn ----

  datatype Operation = Next | Add(task: ServerTask) | AddFront(task: ServerTask) | Remove(peer: nat)

  function Apply(q: Queue, op: Operation): (q': Queue)
    requires q.Valid()
    ensures q'.Valid()
  {
    match op
    case Next => if q.peers == [] then q else NextValid(q); AfterNext(q)
    case Add(task) => AddedValid(q, task); Added(q, task)
    case AddFront(task) => AddedValid(q, task); AddedFront(q, task)
    case Remove(peer) => RemovedValid(q, peer); Removed(q, peer)
  }

  /** How many tasks a run asks for. */
  function Nexts(ops: seq<Operation>): nat {
    if ops == [] then 0 else (if ops[0] == Next then 1 else 0) + Nexts(ops[1..])
  }

  /** The peer is not removed in this run. */
  predicate Stays(ops: seq<Operation>, p: nat) {
    ops == [] || (ops[0] != Remove(p) && Stays(ops[1..], p))
  }

  predicate NobodyLeaves(ops: seq<Operation>) {
    ops == [] || (!ops[0].Remove? && NobodyLeaves(ops[1..]))
  }

  /** In this run, after `n` calls of `next_task`, the next such call yields a task of peer `p`. */
  predicate ServedAfter(q: Queue, ops: seq<Operation>, p: nat, n: nat)
    requires q.Valid()
    decreases |ops|
  {
    ops != [] &&
    if ops[0] == Next && n == 0 then q.peers != [] && q.peers[0] == p
    else ServedAfter(Apply(q, ops[0]), ops[1..], p, if ops[0] == Next then n - 1 else n)
  }

  /**
   A peer at position `i` of the ring is served by the `i + 1`-st call of `next_task` at the latest, whatever is
   added or removed in between, as long as the peer itself stays; exactly then if nobody is removed.
   */
  lemma {:induction false} Fair(q: Queue, ops: seq<Operation>, p: nat) returns (n: nat)
    requires q.Valid() && p in q.peers && Stays(ops, p)
    requires Nexts(ops) > IndexOf(q.peers, p)
    ensures n <= IndexOf(q.peers, p) && ServedAfter(q, ops, p, n)
    ensures NobodyLeaves(ops) ==> n == IndexOf(q.peers, p)
    decreases |ops|
  {
    if ops[0] == Next && q.peers[0] == p {
      n := 0;
    } else {
      StillQueued(q, ops[0], p);
      var m := Fair(Apply(q, ops[0]), ops[1..], p);
      n := if ops[0] == Next then m + 1 else m;
      ServedStep(q, ops, p, m);
    }
  }

  lemma ServedStep(q: Queue, ops: seq<Operation>, p: nat, m: nat)
    requires q.Valid() && ops != [] && ServedAfter(Apply(q, ops[0]), ops[1..], p, m)
    ensures ServedAfter(q, ops, p, if ops[0] == Next then m + 1 else m)
  {
  }

  /** One step closer to the front with every `next_task`, and never further away. */
  lemma StillQueued(q: Queue, op: Operation, p: nat)
    requires q.Valid() && p in q.peers && op != Remove(p) && !(op == Next && q.peers[0] == p)
    ensures var q' := Apply(q, op);
            && p in q'.peers
            && (op == Next ==> IndexOf(q'.peers, p) == IndexOf(q.peers, p) - 1)
            && (op.Remove? ==> IndexOf(q'.peers, p) <= IndexOf(q.peers, p))
            && (op.Add? || op.AddFront? ==> IndexOf(q'.peers, p) == IndexOf(q.peers, p))
  {
    match op
    case Next =>
      RingTurns(q.peers, p);
    case Add(task) =>
      IndexAppend(q.peers, task.peer, p);
    case AddFront(task) =>
      IndexAppend(q.peers, task.peer, p);
    case Remove(r) =>
      RemovedOther(q, r, p);
  }

  lemma RingTurns(peers: seq<nat>, p: nat)
    requires p in peers && peers[0] != p
    ensures p in peers[1..] && IndexOf(peers[1..], p) == IndexOf(peers, p) - 1
    ensures p in peers[1..] + [peers[0]] && IndexOf(peers[1..] + [peers[0]], p) == IndexOf(peers, p) - 1
  {
    assert peers == [peers[0]] + peers[1..];
    IndexAppend(peers[1..], peers[0], p);
  }

  lemma {:induction false} IndexAppend(peers: seq<nat>, r: nat, p: nat)
    requires p in peers
    ensures p in peers + [r] && IndexOf(peers + [r], p) == IndexOf(peers, p)
  {
    assert (peers + [r])[IndexOf(peers, p)] == p;
    if peers[0] != p {
      assert (peers + [r])[1..] == peers[1..] + [r];
      IndexAppend(peers[1..], r, p);
    }
  }
}
