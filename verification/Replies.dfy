/**
 What a peer's requests are to be answered with (`ServerTaskExecutor` of sync/src/synchronization_server.rs). A
 request is served in several executions, and the store may change in between.
 */
module Replies {
  import opened Primitives
  import opened Ledger
  import opened Sequences
  import opened ServerTasks
  import HeaderSync

  /** A store that descends from one genesis block. */
  type Store = l: Ledger | l.Rooted()
    ghost witness Genesis(IndexedBlock(1, Block(BlockHeader(0, ZERO, 0, 0, [], 0, 0), [])))

  /** The store as each execution for a peer finds it: the first, the second and so on. */
  type Snapshots = nat -> Store

  datatype Output =
    | SendBlock(peer: nat, block: Block)
    | SendNotFound(peer: nat, inventory: seq<Item>)
    | SendInventory(peer: nat, hashes: seq<Hash>)
    | SendHeaders(peer: nat, headers: seq<BlockHeader>, requestId: u32)

  // ---- One execution ----

  /** Nothing is sent to a peer that misbehaves, nor an empty inventory. */
  function InventoryMessage(peer: nat, reply: Option<seq<Hash>>): seq<Output> {
    if reply.Some? && reply.value != [] then [SendInventory(peer, reply.value)] else []
  }

  /** Nothing is sent to a peer that misbehaves; an empty list of headers is. */
  function HeadersMessage(peer: nat, reply: Option<seq<BlockHeader>>, requestId: u32): seq<Output> {
    if reply.Some? then [SendHeaders(peer, reply.value, requestId)] else []
  }

  /** Requests that one execution answers. */
  ghost function OneShot(l: Store, task: ServerTask): seq<Output> {
    match task
    case GetBlocks(peer, locator, hashStop) =>
      InventoryMessage(peer, HeaderSync.BlocksReply(l, hashStop, locator))
    case GetHeaders(peer, locator, hashStop, requestId) =>
      HeadersMessage(peer, HeaderSync.HeadersReply(l, hashStop, locator), requestId)
    case _ => []
  }

  /**
   The answer to `getheaders` and `getblocks`: nothing if no hash of the request is stored; otherwise the canonical
   chain from right above the common height on, with the id of the request if there is one.
   */
  lemma OneShotAnswers(l: Store, task: ServerTask, h: nat)
    requires task.GetBlocks? || task.GetHeaders?
    ensures var hashes := task.locator + [task.hashStop];
            && (HeaderSync.NoneStored(l, hashes) ==> OneShot(l, task) == [])
            && (HeaderSync.IsCommonHeight(l, hashes, h) && task.GetHeaders? ==>
                  exists headers :: HeaderSync.ServesHeaders(l, h, task.hashStop, headers) &&
                    OneShot(l, task) == [SendHeaders(task.peer, headers, task.requestId)])
            && (HeaderSync.IsCommonHeight(l, hashes, h) && task.GetBlocks? ==>
                  exists served :: HeaderSync.Serves(l, h, HeaderSync.MAX_RESPONSE_HASHES, task.hashStop, served) &&
                    OneShot(l, task) == if served == [] then [] else [SendInventory(task.peer, served)])
  {
    HeaderSync.HeadersReplyIs(l, task.hashStop, task.locator);
    HeaderSync.BlocksReplyIs(l, task.hashStop, task.locator);
  }

  /** One execution of a task: what is sent, and what is left of the task. */
  ghost function Executed(l: Store, task: ServerTask): (seq<Output>, Option<ServerTask>) {
    match task
    case GetData(peer, inventory) => ([], Some(ReversedGetData(peer, Reversed(inventory), [])))
    case ReversedGetData(peer, inventory, notFound) =>
      if inventory == [] then
        (NotFoundFor(peer, notFound), None)
      else
        var rest, item := inventory[..|inventory| - 1], inventory[|inventory| - 1];
        if item.kind == ErrorItem then ([], Some(ReversedGetData(peer, rest, notFound)))
        else if item.hash in l.blocks then
          ([SendBlock(peer, l.blocks[item.hash])], Some(ReversedGetData(peer, rest, notFound)))
        else ([], Some(ReversedGetData(peer, rest, notFound + [item])))
    case _ => (OneShot(l, task), None)
  }

  function NotFoundFor(p: nat, items: seq<Item>): seq<Output> {
    if items == [] then [] else [SendNotFound(p, items)]
  }

  // ---- Whole answers ----

  /** The stored blocks of a list of items, in order; the `i`-th item is looked up in snapshot `k + i`. */
  ghost function Sends(seen: Snapshots, p: nat, k: nat, items: seq<Item>): seq<Output>
    decreases items
  {
    if items == [] then []
    else
      var item, l := items[0], seen(k);
      (if item.kind == MessageBlock && item.hash in l.blocks then [SendBlock(p, l.blocks[item.hash])] else [])
      + Sends(seen, p, k + 1, items[1..])
  }

  /** The items that are not stored when they are looked up, in order. */
  ghost function Missing(seen: Snapshots, k: nat, items: seq<Item>): seq<Item>
    decreases items
  {
    if items == [] then []
    else
      (if items[0].kind == MessageBlock && items[0].hash !in seen(k).blocks then [items[0]] else [])
      + Missing(seen, k + 1, items[1..])
  }

  /** What is still to be sent for items of which some before are already known to be missing. */
  ghost function AnswerItems(seen: Snapshots, p: nat, k: nat, items: seq<Item>, notFound: seq<Item>): seq<Output>
    decreases items
  {
    if items == [] then NotFoundFor(p, notFound)
    else
      var item, l := items[0], seen(k);
      if item.kind == ErrorItem then AnswerItems(seen, p, k + 1, items[1..], notFound)
      else if item.hash in l.blocks then
        [SendBlock(p, l.blocks[item.hash])] + AnswerItems(seen, p, k + 1, items[1..], notFound)
      else AnswerItems(seen, p, k + 1, items[1..], notFound + [item])
  }

  /** The whole answer to a task whose first execution is the `k`-th for its peer. */
  ghost function Answer(seen: Snapshots, k: nat, task: ServerTask): seq<Output> {
    match task
    case GetData(p, items) => AnswerItems(seen, p, k + 1, items, [])
    case ReversedGetData(p, inventory, notFound) => AnswerItems(seen, p, k, Reversed(inventory), notFound)
    case _ => OneShot(seen(k), task)
  }

  /** How many executions a task takes. */
  function Steps(task: ServerTask): nat {
    match task
    case GetData(_, items) => |items| + 2
    case ReversedGetData(_, inventory, _) => |inventory| + 1
    case _ => 1
  }

  /** The answer is the blocks that are stored, in the order asked for, then one list of all that are missing. */
  ghost predicate HasShape(seen: Snapshots, p: nat, k: nat, items: seq<Item>, notFound: seq<Item>) {
    AnswerItems(seen, p, k, items, notFound) ==
    Sends(seen, p, k, items) + NotFoundFor(p, notFound + Missing(seen, k, items))
  }

  lemma {:induction false} AnswerShape(seen: Snapshots, p: nat, k: nat, items: seq<Item>, notFound: seq<Item>)
    ensures HasShape(seen, p, k, items, notFound)
    decreases items
  {
    if items == [] {
      assert notFound + [] == notFound;
    } else if items[0].kind == MessageBlock && items[0].hash !in seen(k).blocks {
      AnswerShape(seen, p, k + 1, items[1..], notFound + [items[0]]);
      ShapeOfMissing(seen, p, k, items, notFound);
    } else {
      AnswerShape(seen, p, k + 1, items[1..], notFound);
      ShapeOfOther(seen, p, k, items, notFound);
    }
  }

  lemma ShapeOfMissing(seen: Snapshots, p: nat, k: nat, items: seq<Item>, notFound: seq<Item>)
    requires items != [] && items[0].kind == MessageBlock && items[0].hash !in seen(k).blocks
    requires HasShape(seen, p, k + 1, items[1..], notFound + [items[0]])
    ensures HasShape(seen, p, k, items, notFound)
  {
    Associate(notFound, [items[0]], Missing(seen, k + 1, items[1..]));
    assert Sends(seen, p, k, items) == [] + Sends(seen, p, k + 1, items[1..]);
  }

  lemma ShapeOfOther(seen: Snapshots, p: nat, k: nat, items: seq<Item>, notFound: seq<Item>)
    requires items != [] && (items[0].kind == ErrorItem || items[0].hash in seen(k).blocks)
    requires HasShape(seen, p, k + 1, items[1..], notFound)
    ensures HasShape(seen, p, k, items, notFound)
  {
    var missing := Missing(seen, k + 1, items[1..]);
    assert Missing(seen, k, items) == [] + missing == missing;
    var first := if items[0].kind == ErrorItem then [] else [SendBlock(p, seen(k).blocks[items[0].hash])];
    Associate(first, Sends(seen, p, k + 1, items[1..]), NotFoundFor(p, notFound + missing));
    assert items[0].kind == ErrorItem ==> first + Sends(seen, p, k + 1, items[1..]) == Sends(seen, p, k + 1, items[1..]);
  }

  // ---- One execution of many ----

  /** `sent` and the task that is left together make up what `task` owed. */
  ghost predicate Continues(seen: Snapshots, k: nat, task: ServerTask, sent: seq<Output>, rest: Option<ServerTask>) {
    match rest
    case None => Answer(seen, k, task) == sent && Steps(task) == 1
    case Some(left) =>
      && left.peer == task.peer
      && Answer(seen, k, task) == sent + Answer(seen, k + 1, left)
      && Steps(task) == 1 + Steps(left)
  }

  /** Executing a task once sends the beginning of its answer and leaves a task that owes the rest. */
  lemma ExecutedContinues(seen: Snapshots, k: nat, task: ServerTask)
    ensures Continues(seen, k, task, Executed(seen(k), task).0, Executed(seen(k), task).1)
  {
    if task.GetData? {
      ReversedTwice(task.inventory);
    } else if task.ReversedGetData? && task.inventory != [] {
      ItemContinues(seen, k, task);
    }
  }

  lemma ItemContinues(seen: Snapshots, k: nat, task: ServerTask)
    requires task.ReversedGetData? && task.inventory != []
    ensures Continues(seen, k, task, Executed(seen(k), task).0, Executed(seen(k), task).1)
  {
    var items, left := Reversed(task.inventory), Reversed(task.inventory[..|task.inventory| - 1]);
    ReversedTake(task.inventory);
    assert items[0] == task.inventory[|task.inventory| - 1] && items[1..] == left;
  }

  /** Everything that one execution sends goes to the peer that asked. */
  lemma SentToPeer(l: Store, task: ServerTask)
    ensures forall i :: 0 <= i < |Executed(l, task).0| ==> Executed(l, task).0[i].peer == task.peer
    ensures |Executed(l, task).0| <= 1
    ensures Executed(l, task).1.Some? ==> Executed(l, task).1.value.peer == task.peer
  {
  }

  // ---- Many tasks ----

  function AllSteps(tasks: seq<ServerTask>): nat {
    Total(Steps, tasks)
  }

  ghost function AnswerOf(seen: Snapshots): (nat, ServerTask) -> seq<Output> {
    (k: nat, task: ServerTask) => Answer(seen, k, task)
  }

  /** The answers to a peer's tasks, one after the other. */
  ghost function Answers(seen: Snapshots, k: nat, tasks: seq<ServerTask>): seq<Output> {
    Chain(AnswerOf(seen), Steps, k, tasks)
  }

  function Left(rest: Option<ServerTask>): seq<ServerTask> {
    if rest.Some? then [rest.value] else []
  }

  /** Taking the first task one execution further. */
  lemma AnswersExecute(seen: Snapshots, k: nat, task: ServerTask, more: seq<ServerTask>)
    ensures
      var (sent, rest) := Executed(seen(k), task);
      && Answers(seen, k, [task] + more) == sent + Answers(seen, k + 1, Left(rest) + more)
      && AllSteps([task] + more) == 1 + AllSteps(Left(rest) + more)
  {
    var (sent, rest) := Executed(seen(k), task);
    ExecutedContinues(seen, k, task);
    ChainStep(AnswerOf(seen), Steps, k, task, Left(rest), sent, more);
  }

  /** A request as peers send it; the reversed form only exists within the server. */
  predicate IsRequest(task: ServerTask) {
    !task.ReversedGetData?
  }

  ghost predicate AreRequests(tasks: seq<ServerTask>) {
    forall i {:trigger tasks[i]} :: 0 <= i < |tasks| ==> IsRequest(tasks[i])
  }

  // ---- A store that does not change ----

  /** The stored blocks of the requested hashes, in order. */
  ghost function StoredOf(l: Ledger, p: nat, items: seq<Item>): seq<Output> {
    if items == [] then []
    else
      var item := items[0];
      (if item.kind == MessageBlock && item.hash in l.blocks then [SendBlock(p, l.blocks[item.hash])] else [])
      + StoredOf(l, p, items[1..])
  }

  /** The requested items that are not stored, in order. */
  ghost function UnstoredOf(l: Ledger, items: seq<Item>): seq<Item> {
    if items == [] then []
    else
      (if items[0].kind == MessageBlock && items[0].hash !in l.blocks then [items[0]] else [])
      + UnstoredOf(l, items[1..])
  }

  /** The answer to a task from a store that stays as it is. */
  ghost function FixedAnswer(l: Store, task: ServerTask): seq<Output> {
    match task
    case GetData(p, items) => StoredOf(l, p, items) + NotFoundFor(p, UnstoredOf(l, items))
    case ReversedGetData(p, inventory, notFound) =>
      var items := Reversed(inventory);
      StoredOf(l, p, items) + NotFoundFor(p, notFound + UnstoredOf(l, items))
    case _ => OneShot(l, task)
  }

  ghost function FixedAnswerOf(l: Store): (nat, ServerTask) -> seq<Output> {
    (k: nat, task: ServerTask) => FixedAnswer(l, task)
  }

  ghost function FixedAnswers(l: Store, tasks: seq<ServerTask>): seq<Output> {
    Chain(FixedAnswerOf(l), Steps, 0, tasks)
  }

  lemma {:induction false} ItemsFixed(seen: Snapshots, l: Store, p: nat, k: nat, items: seq<Item>)
    requires forall j {:trigger seen(j)} :: seen(j) == l
    ensures Sends(seen, p, k, items) == StoredOf(l, p, items) && Missing(seen, k, items) == UnstoredOf(l, items)
    decreases items
  {
    if items != [] {
      ItemsFixed(seen, l, p, k + 1, items[1..]);
      assert seen(k) == l;
    }
  }

  lemma AnswerFixed(seen: Snapshots, l: Store, k: nat, task: ServerTask)
    requires forall j {:trigger seen(j)} :: seen(j) == l
    ensures Answer(seen, k, task) == FixedAnswer(l, task)
  {
    match task
    case GetData(p, items) =>
      AnswerShape(seen, p, k + 1, items, []);
      ItemsFixed(seen, l, p, k + 1, items);
      assert [] + UnstoredOf(l, items) == UnstoredOf(l, items);
    case ReversedGetData(p, inventory, notFound) =>
      AnswerShape(seen, p, k, Reversed(inventory), notFound);
      ItemsFixed(seen, l, p, k, Reversed(inventory));
    case _ =>
      assert seen(k) == l;
  }

  /** With an unchanging store, requests are answered by the stored blocks asked for, then the items not stored. */
  lemma AnswersFixed(seen: Snapshots, l: Store, tasks: seq<ServerTask>)
    requires forall j {:trigger seen(j)} :: seen(j) == l
    ensures Answers(seen, 0, tasks) == FixedAnswers(l, tasks)
  {
    var piece, other := AnswerOf(seen), FixedAnswerOf(l);
    forall i, j, n | 0 <= i < |tasks| ensures piece(j, tasks[i]) == other(n, tasks[i]) {
      AnswerFixed(seen, l, j, tasks[i]);
    }
    ChainSame(piece, other, Steps, 0, 0, tasks);
  }

  // ---- A store that only grows ----

  /** Nothing stored is lost or altered. */
  ghost predicate Grows(a: Ledger, b: Ledger) {
    forall h {:trigger h in a.blocks} :: h in a.blocks ==> h in b.blocks && b.blocks[h] == a.blocks[h]
  }

  /** An item that a peer has asked for. */
  ghost predicate Asked(tasks: seq<ServerTask>, item: Item) {
    exists i {:trigger tasks[i]} :: 0 <= i < |tasks| && tasks[i].GetData? && item in tasks[i].inventory
  }

  /** A sent block is the stored block of an item asked for; an item reported missing was asked for and not stored. */
  ghost predicate Justified(first: Ledger, last: Ledger, tasks: seq<ServerTask>, output: Output) {
    match output
    case SendBlock(_, block) =>
      exists item :: Asked(tasks, item) && item.hash in last.blocks && last.blocks[item.hash] == block
    case SendNotFound(_, items) =>
      forall item :: item in items ==> Asked(tasks, item) && item.hash !in first.blocks
    case _ =>
      exists i, l: Store {:trigger Told(l, tasks, i, output)} ::
        Told(l, tasks, i, output) && Grows(first, l) && Grows(l, last)
  }

  /** The output answers the `i`-th task, for hashes or for headers, from the given store. */
  ghost predicate Told(l: Store, tasks: seq<ServerTask>, i: int, output: Output) {
    && 0 <= i < |tasks| && (tasks[i].GetBlocks? || tasks[i].GetHeaders?) && tasks[i].peer == output.peer
    && var task := tasks[i];
       match output
       case SendInventory(_, hashes) =>
         task.GetBlocks? && exists h: nat ::
           && HeaderSync.IsCommonHeight(l, task.locator + [task.hashStop], h)
           && HeaderSync.Serves(l, h, HeaderSync.MAX_RESPONSE_HASHES, task.hashStop, hashes)
       case SendHeaders(_, headers, id) =>
         task.GetHeaders? && id == task.requestId && exists h: nat ::
           && HeaderSync.IsCommonHeight(l, task.locator + [task.hashStop], h)
           && HeaderSync.ServesHeaders(l, h, task.hashStop, headers)
       case _ => false
  }

  lemma OneShotTold(l: Store, tasks: seq<ServerTask>, i: nat, output: Output)
    requires i < |tasks| && IsRequest(tasks[i]) && !tasks[i].GetData? && output in OneShot(l, tasks[i])
    ensures Told(l, tasks, i, output) && !output.SendBlock? && !output.SendNotFound?
  {
    var task := tasks[i];
    var hashes := task.locator + [task.hashStop];
    HeaderSync.CommonHeightIs(l, hashes);
    HeaderSync.HeadersReplyIs(l, task.hashStop, task.locator);
    HeaderSync.BlocksReplyIs(l, task.hashStop, task.locator);
    var h := HeaderSync.CommonHeight(l, hashes).value;
    assert HeaderSync.IsCommonHeight(l, hashes, h);
  }

  /** Every snapshot lies between the first and the last store. */
  ghost predicate Between(first: Ledger, seen: Snapshots, last: Ledger) {
    forall j {:trigger seen(j)} :: Grows(first, seen(j)) && Grows(seen(j), last)
  }

  lemma {:induction false} SendsJustified(
    first: Ledger, last: Ledger, tasks: seq<ServerTask>, seen: Snapshots, p: nat, k: nat, items: seq<Item>, output: Output)
    requires Between(first, seen, last) && output in Sends(seen, p, k, items)
    requires forall item :: item in items ==> Asked(tasks, item)
    ensures Justified(first, last, tasks, output)
    decreases items
  {
    var item, l := items[0], seen(k);
    if item.kind == MessageBlock && item.hash in l.blocks && output == SendBlock(p, l.blocks[item.hash]) {
      assert Asked(tasks, item) && Grows(l, last);
    } else {
      SendsJustified(first, last, tasks, seen, p, k + 1, items[1..], output);
    }
  }

  lemma {:induction false} MissingJustified(first: Ledger, last: Ledger, seen: Snapshots, k: nat, items: seq<Item>, item: Item)
    requires Between(first, seen, last) && item in Missing(seen, k, items)
    ensures item in items && item.hash !in first.blocks
    decreases items
  {
    if !(item == items[0] && item.hash !in seen(k).blocks) {
      MissingJustified(first, last, seen, k + 1, items[1..], item);
    } else {
      assert Grows(first, seen(k));
    }
  }

  lemma AnswerJustified(
    first: Ledger, last: Ledger, tasks: seq<ServerTask>, i: nat, seen: Snapshots, k: nat, output: Output)
    requires Between(first, seen, last) && i < |tasks| && IsRequest(tasks[i]) && output in Answer(seen, k, tasks[i])
    ensures Justified(first, last, tasks, output)
  {
    if tasks[i].GetData? {
      var p, items := tasks[i].peer, tasks[i].inventory;
      assert forall item :: item in items ==> Asked(tasks, item);
      AnswerShape(seen, p, k + 1, items, []);
      assert [] + Missing(seen, k + 1, items) == Missing(seen, k + 1, items);
      if output in Sends(seen, p, k + 1, items) {
        SendsJustified(first, last, tasks, seen, p, k + 1, items, output);
      } else {
        assert output == SendNotFound(p, Missing(seen, k + 1, items));
        forall item | item in output.inventory ensures Asked(tasks, item) && item.hash !in first.blocks {
          MissingJustified(first, last, seen, k + 1, items, item);
        }
      }
    } else {
      OneShotTold(seen(k), tasks, i, output);
      assert Grows(first, seen(k)) && Grows(seen(k), last);
    }
  }

  /** Whatever requests are answered with is justified by them and by what was stored. */
  lemma AnswersJustified(first: Ledger, last: Ledger, tasks: seq<ServerTask>, seen: Snapshots, output: Output)
    requires Between(first, seen, last) && AreRequests(tasks) && output in Answers(seen, 0, tasks)
    ensures Justified(first, last, tasks, output)
  {
    var i, k := ChainMember(AnswerOf(seen), Steps, 0, tasks, output);
    AnswerJustified(first, last, tasks, i, seen, k, output);
  }

  // ---- Everything that was asked for ----

  /** The item is sent if it was stored from the start, and reported missing if it is not stored at the end. */
  ghost predicate Served(first: Ledger, last: Ledger, p: nat, item: Item, outputs: seq<Output>) {
    && (item.hash in first.blocks ==> SendBlock(p, first.blocks[item.hash]) in outputs)
    && (item.hash !in last.blocks ==> exists items :: item in items && SendNotFound(p, items) in outputs)
  }

  lemma {:induction false} ItemServed(
    first: Ledger, last: Ledger, seen: Snapshots, p: nat, k: nat, items: seq<Item>, item: Item)
    requires Between(first, seen, last) && item in items && item.kind == MessageBlock
    ensures item.hash in first.blocks ==> SendBlock(p, first.blocks[item.hash]) in Sends(seen, p, k, items)
    ensures item.hash !in last.blocks ==> item in Missing(seen, k, items)
    decreases items
  {
    if item == items[0] {
      assert Grows(first, seen(k)) && Grows(seen(k), last);
    } else {
      ItemServed(first, last, seen, p, k + 1, items[1..], item);
    }
  }

  lemma AnswerServes(first: Ledger, last: Ledger, seen: Snapshots, k: nat, task: ServerTask, item: Item)
    requires Between(first, seen, last) && task.GetData? && item in task.inventory && item.kind == MessageBlock
    ensures Served(first, last, task.peer, item, Answer(seen, k, task))
  {
    var p, items := task.peer, task.inventory;
    ItemServed(first, last, seen, p, k + 1, items, item);
    AnswerShape(seen, p, k + 1, items, []);
    var missing := Missing(seen, k + 1, items);
    assert [] + missing == missing;
    assert Answer(seen, k, task) == Sends(seen, p, k + 1, items) + NotFoundFor(p, missing);
    assert item in missing ==> SendNotFound(p, missing) in Answer(seen, k, task);
  }

  lemma ServedAmongMore(first: Ledger, last: Ledger, p: nat, item: Item, some: seq<Output>, all: seq<Output>)
    requires Served(first, last, p, item, some) && forall output :: output in some ==> output in all
    ensures Served(first, last, p, item, all)
  {
  }

  /** No item that a peer asks for goes without an answer. */
  lemma AnswersServe(first: Ledger, last: Ledger, tasks: seq<ServerTask>, seen: Snapshots, i: nat, item: Item)
    requires Between(first, seen, last) && i < |tasks| && tasks[i].GetData?
    requires item in tasks[i].inventory && item.kind == MessageBlock
    ensures Served(first, last, tasks[i].peer, item, Answers(seen, 0, tasks))
  {
    var k := ChainHas(AnswerOf(seen), Steps, 0, tasks, i);
    AnswerServes(first, last, seen, k, tasks[i], item);
    ServedAmongMore(first, last, tasks[i].peer, item, AnswerOf(seen)(k, tasks[i]), Answers(seen, 0, tasks));
  }
}
