/**
 What is declared and said to one peer, by declaration order, and what of it the peer is to receive. This is the
 specification of the per-peer release of responses (p2p/src/net/peer_context.rs).
 */
module ResponseLog {
  import opened Primitives

  type Message = seq<byte>

  /**
   A response is `Stalled` when it was ignored while messages for it were waiting already: the queue then holds it
   both as unfinished and as ignored.
   */
  datatype Status = Pending | Final | Dropped | Stalled

  /** One declared response: the messages given for it so far, and how it stands. */
  datatype Response = Response(messages: seq<Message>, status: Status) {

    /** The code moves on to the next response after this one. */
    predicate Closed() {
      status == Final || status == Dropped
    }
  }

  type Log = seq<Response>

  /** All messages of the first `n` responses, in order. */
  ghost function Messages(log: Log, n: nat): seq<Message>
    requires n <= |log|
  {
    if n == 0 then [] else Messages(log, n - 1) + log[n - 1].messages
  }

  /** What the code sends: whole responses up to the first that is not closed, and what that one has. */
  ghost function Delivered(log: Log, i: nat := 0): seq<Message>
    requires i <= |log|
    decreases |log| - i
  {
    if i == |log| then []
    else if log[i].Closed() then log[i].messages + Delivered(log, i + 1)
    else log[i].messages
  }

  /** What is due: whole responses up to the first that its owner has not completed, and what that one has. */
  ghost function Due(log: Log, i: nat := 0): seq<Message>
    requires i <= |log|
    decreases |log| - i
  {
    if i == |log| then []
    else if log[i].status == Pending then log[i].messages
    else log[i].messages + Due(log, i + 1)
  }

  /** The first response that is not closed. */
  function First(log: Log, i: nat := 0): (n: nat)
    requires i <= |log|
    ensures i <= n <= |log| && (n < |log| ==> !log[n].Closed())
    ensures forall k {:trigger log[k]} :: i <= k < n ==> log[k].Closed()
    decreases |log| - i
  {
    if i == |log| || !log[i].Closed() then i else First(log, i + 1)
  }

  ghost predicate Settled(log: Log, n: nat) {
    n <= |log| && forall k {:trigger log[k]} :: 0 <= k < n ==> log[k].Closed()
  }

  lemma FirstIs(log: Log, n: nat)
    requires Settled(log, n) && (n < |log| ==> !log[n].Closed())
    ensures First(log) == n
  {
  }

  lemma {:induction false} DeliveredSplit(log: Log, n: nat)
    requires Settled(log, n)
    ensures Delivered(log) == Messages(log, n) + Delivered(log, n)
  {
    if n > 0 {
      DeliveredSplit(log, n - 1);
      assert log[n - 1].Closed();
    }
  }

  lemma {:induction false} MessagesPrefix(a: Log, b: Log, n: nat)
    requires n <= |a| && n <= |b| && a[..n] == b[..n]
    ensures Messages(a, n) == Messages(b, n)
  {
    if n > 0 {
      assert a[..n - 1] == a[..n][..n - 1] == b[..n - 1];
      assert a[n - 1] == a[..n][n - 1] == b[n - 1];
      MessagesPrefix(a, b, n - 1);
    }
  }

  /** Delivery in terms of the first response that is not closed. */
  lemma DeliveredAt(log: Log, n: nat)
    requires Settled(log, n) && (n < |log| ==> !log[n].Closed())
    ensures Delivered(log) == Messages(log, n) + if n < |log| then log[n].messages else []
  {
    DeliveredSplit(log, n);
  }

  /** What is said for responses after the first that is not closed is not delivered yet. */
  lemma DeliveredLater(log: Log, log': Log, n: nat)
    requires Settled(log, n) && (n < |log| ==> !log[n].Closed())
    requires n < |log'| && log'[..n] == log[..n]
    requires log'[n] == if n < |log| then log[n] else Response([], Pending)
    ensures Delivered(log') == Delivered(log) && Settled(log', n) && First(log') == First(log) == n
  {
    forall k | 0 <= k < n ensures log'[k].Closed() {
      assert log'[k] == log'[..n][k] == log[..n][k] == log[k];
    }
    DeliveredAt(log, n);
    DeliveredAt(log', n);
    MessagesPrefix(log, log', n);
    FirstIs(log, n);
    FirstIs(log', n);
  }

  // ---- Runs ----

  /** The calls that a peer's protocols make; `k` is a place in the declaration order. */
  datatype Call = Declare | Send(k: nat, message: Message, isFinal: bool) | Ignore(k: nat)

  /** Fewer than 2^32 responses are open at a time, and nothing is said for a response that is complete. */
  predicate Allowed(log: Log, call: Call) {
    match call
    case Declare => |log| + 1 < First(log) + TWO_POW_32
    case Send(k, _, _) => k < |log| && log[k].status == Pending
    case Ignore(k) => k < |log| && log[k].status == Pending
  }

  /** Messages for the response wait in the queue. */
  predicate Queued(log: Log, k: nat) {
    First(log) < k < |log| && log[k].messages != []
  }

  function Called(log: Log, call: Call): Log
    requires Allowed(log, call)
  {
    match call
    case Declare => log + [Response([], Pending)]
    case Send(k, message, isFinal) =>
      log[k := Response(log[k].messages + [message], if isFinal then Final else Pending)]
    case Ignore(k) => log[k := Response(log[k].messages, if Queued(log, k) then Stalled else Dropped)]
  }

  predicate AllAllowed(log: Log, calls: seq<Call>)
    decreases |calls|
  {
    calls == [] || (Allowed(log, calls[0]) && AllAllowed(Called(log, calls[0]), calls[1..]))
  }

  function AllCalled(log: Log, calls: seq<Call>): Log
    requires AllAllowed(log, calls)
    decreases |calls|
  {
    if calls == [] then log else AllCalled(Called(log, calls[0]), calls[1..])
  }

  // ---- A stalled response stops the peer for good ----

  /** What comes first is stalled: nothing that anybody can still do sends another message. */
  lemma {:induction false} StalledForever(log: Log, calls: seq<Call>)
    requires First(log) < |log| && log[First(log)].status == Stalled && AllAllowed(log, calls)
    ensures var log' := AllCalled(log, calls);
            && Delivered(log') == Delivered(log) && First(log') == First(log)
            && First(log') < |log'| && log'[First(log')] == log[First(log)]
    decreases |calls|
  {
    if calls != [] {
      var log' := Called(log, calls[0]);
      DeliveredLater(log, log', First(log));
      StalledForever(log', calls[1..]);
    }
  }

  lemma OneMore(log: Log, call: Call, calls: seq<Call>)
    requires Allowed(log, call) && AllAllowed(Called(log, call), calls)
    ensures AllAllowed(log, [call] + calls)
    ensures AllCalled(log, [call] + calls) == AllCalled(Called(log, call), calls)
  {
    assert ([call] + calls)[1..] == calls;
  }

  function StallLog(a: Message, b: Message, c: Message): Log {
    [Response([a], Final), Response([b], Stalled), Response([c], Final)]
  }

  function StallCalls(a: Message, b: Message, c: Message): seq<Call> {
    [Declare, Declare, Declare, Send(1, b, false), Ignore(1), Send(0, a, true), Send(2, c, true)]
  }

  /** The log after each of the last four calls of the run below. */
  lemma StallSteps(a: Message, b: Message, c: Message)
    ensures var p := Response([], Pending);
            var told, ignored := [p, Response([b], Pending), p], [p, Response([b], Stalled), p];
            var answered := [Response([a], Final), Response([b], Stalled), p];
            && First(told) == 0 && First(ignored) == 0 && First(answered) == 1 && First([p, p, p]) == 0
            && Called([p, p, p], Send(1, b, false)) == told && Called(told, Ignore(1)) == ignored
            && Called(ignored, Send(0, a, true)) == answered && Called(answered, Send(2, c, true)) == StallLog(a, b, c)
  {
    var none: seq<Message> := [];
    assert none + [a] == [a] && none + [b] == [b] && none + [c] == [c];
    var p := Response([], Pending);
    FirstIs([p, Response([b], Pending), p], 0);
    FirstIs([Response([a], Final), Response([b], Stalled), p], 1);
  }

  /** From three declared responses on. */
  lemma StallSaid(a: Message, b: Message, c: Message)
    ensures var p, calls := Response([], Pending), StallCalls(a, b, c)[3..];
            AllAllowed([p, p, p], calls) && AllCalled([p, p, p], calls) == StallLog(a, b, c)
  {
    var p := Response([], Pending);
    var told, ignored := [p, Response([b], Pending), p], [p, Response([b], Stalled), p];
    var answered := [Response([a], Final), Response([b], Stalled), p];
    StallSteps(a, b, c);
    OneMore(answered, Send(2, c, true), []);
    OneMore(ignored, Send(0, a, true), [Send(2, c, true)] + []);
    var calls := [Send(0, a, true)] + ([Send(2, c, true)] + []);
    OneMore(told, Ignore(1), calls);
    OneMore([p, p, p], Send(1, b, false), [Ignore(1)] + calls);
    assert StallCalls(a, b, c)[3..] == [Send(1, b, false)] + ([Ignore(1)] + calls);
  }

  lemma StallReached(a: Message, b: Message, c: Message)
    ensures AllAllowed([], StallCalls(a, b, c)) && AllCalled([], StallCalls(a, b, c)) == StallLog(a, b, c)
  {
    var p, calls := Response([], Pending), StallCalls(a, b, c)[3..];
    StallSaid(a, b, c);
    FirstIs([p, p], 0);
    FirstIs([p], 0);
    FirstIs([], 0);
    assert [p, p] + [p] == [p, p, p] && [p] + [p] == [p, p] && [] + [p] == [p];
    OneMore([p, p], Declare, calls);
    OneMore([p], Declare, [Declare] + calls);
    OneMore([], Declare, [Declare] + ([Declare] + calls));
    assert StallCalls(a, b, c) == [Declare] + ([Declare] + ([Declare] + calls));
  }

  /** Three responses, of which the second is ignored after a first message: the third is never sent. */
  lemma StallExample(a: Message, b: Message, c: Message, later: seq<Call>)
    requires AllAllowed(StallLog(a, b, c), later)
    ensures AllAllowed([], StallCalls(a, b, c)) && AllCalled([], StallCalls(a, b, c)) == StallLog(a, b, c)
    ensures var log := AllCalled(StallLog(a, b, c), later);
            Delivered(log) == [a, b] && First(log) == 1 && Due(StallLog(a, b, c)) == [a, b, c]
  {
    StallReached(a, b, c);
    var log := StallLog(a, b, c);
    FirstIs(log, 1);
    DeliveredAt(log, 1);
    assert Messages(log, 1) == Messages(log, 0) + [a];
    assert Due(log, 2) == [c] + Due(log, 3) && Due(log, 1) == [b] + Due(log, 2) && Due(log) == [a] + Due(log, 1);
    StalledForever(log, later);
  }

  // ---- Ignoring is safe exactly when nothing is queued ----

  ghost predicate NoneStalled(log: Log) {
    forall k {:trigger log[k]} :: 0 <= k < |log| ==> log[k].status != Stalled
  }

  /** Nobody ignores a response for which messages wait. */
  ghost predicate Careful(log: Log, calls: seq<Call>)
    requires AllAllowed(log, calls)
    decreases |calls|
  {
    calls == [] ||
    (!(calls[0].Ignore? && Queued(log, calls[0].k)) && Careful(Called(log, calls[0]), calls[1..]))
  }

  lemma {:induction false} NoneStalledDue(log: Log, i: nat)
    requires NoneStalled(log) && i <= |log|
    ensures Delivered(log, i) == Due(log, i)
    decreases |log| - i
  {
    if i < |log| {
      NoneStalledDue(log, i + 1);
    }
  }

  lemma {:induction false} CarefulRun(log: Log, calls: seq<Call>)
    requires NoneStalled(log) && AllAllowed(log, calls) && Careful(log, calls)
    ensures NoneStalled(AllCalled(log, calls))
    decreases |calls|
  {
    if calls != [] {
      CarefulRun(Called(log, calls[0]), calls[1..]);
    }
  }

  /** Everything up to the first incomplete response is delivered, whatever careful calls follow. */
  ghost predicate StaysDue(log: Log) {
    forall calls {:trigger AllCalled(log, calls)} ::
      AllAllowed(log, calls) && Careful(log, calls) ==>
        Delivered(AllCalled(log, calls)) == Due(AllCalled(log, calls))
  }

  lemma NoneStalledStaysDue(log: Log)
    requires NoneStalled(log)
    ensures StaysDue(log)
  {
    forall calls | AllAllowed(log, calls) && Careful(log, calls)
      ensures Delivered(AllCalled(log, calls)) == Due(AllCalled(log, calls))
    {
      CarefulRun(log, calls);
      NoneStalledDue(AllCalled(log, calls), 0);
    }
  }

  lemma {:induction false} DueSplit(log: Log, n: nat)
    requires n <= |log| && forall k {:trigger log[k]} :: 0 <= k < n ==> log[k].status != Pending
    ensures Due(log) == Messages(log, n) + Due(log, n)
  {
    if n > 0 {
      DueSplit(log, n - 1);
      assert log[n - 1].status != Pending;
    }
  }

  lemma {:induction false} MessagesGrow(log: Log, m: nat, n: nat)
    requires m <= n <= |log|
    ensures |Messages(log, m)| <= |Messages(log, n)|
  {
    if m < n {
      MessagesGrow(log, m, n - 1);
    }
  }

  /** Response `k` is the only stalled one, and no response before `i` is pending. */
  ghost predicate StalledAt(log: Log, k: nat, i: nat) {
    && k < |log| && i <= |log|
    && (forall j {:trigger log[j]} :: 0 <= j < |log| ==> (log[j].status == Stalled <==> j == k))
    && (forall j {:trigger log[j]} :: 0 <= j < i ==> log[j].status != Pending)
  }

  lemma StalledFirst(log: Log, k: nat)
    requires StalledAt(log, k, |log|)
    ensures Settled(log, k) && !log[k].Closed() && First(log) == k
    ensures Delivered(log) == Messages(log, k + 1)
  {
    forall j | 0 <= j < k ensures log[j].Closed() {
      assert log[j].status != Pending && log[j].status != Stalled;
    }
    assert log[k].status == Stalled;
    FirstIs(log, k);
    DeliveredAt(log, k);
  }

  /** With everything complete but one response stalled, a complete response after it is due and not delivered. */
  lemma Withheld(log: Log, k: nat)
    requires StalledAt(log, k, |log|) && k < |log| - 1 && log[|log| - 1].messages != []
    ensures |Delivered(log)| < |Due(log)|
  {
    var n := |log|;
    StalledFirst(log, k);
    MessagesGrow(log, k + 1, n - 1);
    assert |Messages(log, n)| > |Messages(log, n - 1)|;
    DueSplit(log, n);
  }

  /** Completing what is pending and one response more shows a stall. */
  lemma {:induction false} Exposed(log: Log, k: nat, i: nat) returns (calls: seq<Call>)
    requires StalledAt(log, k, i) && |log| + 1 < k + TWO_POW_32
    ensures AllAllowed(log, calls) && Careful(log, calls)
    ensures Delivered(AllCalled(log, calls)) != Due(AllCalled(log, calls))
    decreases |log| - i
  {
    if i == |log| {
      calls := ExposedLast(log, k);
    } else if log[i].status == Pending {
      var call := Send(i, [], true);
      var log' := Called(log, call);
      assert StalledAt(log', k, i + 1) by {
        assert log[k].status == Stalled;
      }
      var rest := Exposed(log', k, i + 1);
      OneMore(log, call, rest);
      assert ([call] + rest)[1..] == rest;
      calls := [call] + rest;
    } else {
      calls := Exposed(log, k, i + 1);
    }
  }

  lemma ExposedLast(log: Log, k: nat) returns (calls: seq<Call>)
    requires StalledAt(log, k, |log|) && |log| + 1 < k + TWO_POW_32
    ensures AllAllowed(log, calls) && Careful(log, calls)
    ensures Delivered(AllCalled(log, calls)) != Due(AllCalled(log, calls))
  {
    StalledFirst(log, k);
    var declared := Called(log, Declare);
    var call := Send(|log|, [], true);
    var last := Called(declared, call);
    var none: seq<Message> := [];
    assert none + [[]] == [[]];
    assert last == log + [Response([[]], Final)];
    OneMore(declared, call, []);
    OneMore(log, Declare, [call] + []);
    calls := [Declare] + ([call] + []);
    assert calls[1..] == [call] + [] && ([call] + [])[1..] == [];
    Withheld(last, k);
  }

  /**
   Ignoring a response that waits for others: everything up to the first incomplete response is delivered in every
   continuation exactly when no message was queued for it.
   */
  lemma IgnoreSafely(log: Log, k: nat)
    requires NoneStalled(log) && |log| < First(log) + TWO_POW_32
    requires First(log) < k < |log| && log[k].status == Pending
    ensures StaysDue(Called(log, Ignore(k))) <==> log[k].messages == []
  {
    var log' := Called(log, Ignore(k));
    if log[k].messages == [] {
      NoneStalledStaysDue(log');
    } else {
      var calls := Exposed(log', k, 0);
      assert AllCalled(log', calls) == AllCalled(log', calls);
    }
  }
}
