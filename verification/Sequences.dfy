/** Sequence facts that several modules need. */
module Sequences {

  /** The first place of an element; past the end if it is not there. */
  function IndexOf<T(==)>(s: seq<T>, x: T): (i: nat)
    ensures i <= |s| && (i < |s| ==> s[i] == x) && (i == |s| ==> x !in s)
    ensures forall j {:trigger s[j]} :: 0 <= j < |s| && s[j] == x ==> i <= j < |s|
  {
    if s == [] || s[0] == x then 0
    else
      assert forall j :: 0 < j < |s| ==> s[1..][j - 1] == s[j];
      1 + IndexOf(s[1..], x)
  }

  lemma Associate<T>(a: seq<T>, b: seq<T>, c: seq<T>)
    ensures (a + b) + c == a + (b + c)
  {
  }

  function Reversed<T>(s: seq<T>): (r: seq<T>)
    ensures |r| == |s| && forall i :: 0 <= i < |s| ==> r[i] == s[|s| - 1 - i]
  {
    if s == [] then [] else [s[|s| - 1]] + Reversed(s[..|s| - 1])
  }

  lemma ReversedPush<T>(s: seq<T>, x: T)
    ensures Reversed(s + [x]) == [x] + Reversed(s)
  {
    assert (s + [x])[..|s|] == s;
  }

  lemma ReversedTwice<T>(s: seq<T>)
    ensures Reversed(Reversed(s)) == s
  {
  }

  /** Taking from the back is taking the reversed sequence from the front. */
  lemma ReversedTake<T>(s: seq<T>)
    requires s != []
    ensures Reversed(s)[0] == s[|s| - 1] && Reversed(s)[1..] == Reversed(s[..|s| - 1])
  {
  }

  // ---- Pieces one after the other ----

  function Total<T>(cost: T -> nat, s: seq<T>): nat {
    if s == [] then 0 else cost(s[0]) + Total(cost, s[1..])
  }

  /** The pieces of the elements; each piece depends on the total cost of the elements before. */
  function Chain<T, U>(piece: (nat, T) -> seq<U>, cost: T -> nat, k: nat, s: seq<T>): seq<U>
    decreases s
  {
    if s == [] then [] else piece(k, s[0]) + Chain(piece, cost, k + cost(s[0]), s[1..])
  }

  lemma ChainFirst<T, U>(piece: (nat, T) -> seq<U>, cost: T -> nat, k: nat, x: T, s: seq<T>)
    ensures Chain(piece, cost, k, [x] + s) == piece(k, x) + Chain(piece, cost, k + cost(x), s)
    ensures Total(cost, [x] + s) == cost(x) + Total(cost, s)
  {
    assert ([x] + s)[1..] == s;
  }

  lemma {:induction false} ChainPush<T, U>(piece: (nat, T) -> seq<U>, cost: T -> nat, k: nat, s: seq<T>, x: T)
    ensures Chain(piece, cost, k, s + [x]) == Chain(piece, cost, k, s) + piece(k + Total(cost, s), x)
    ensures Total(cost, s + [x]) == Total(cost, s) + cost(x)
    decreases s
  {
    if s == [] {
      ChainFirst(piece, cost, k, x, []);
      assert s + [x] == [x] + [];
    } else {
      var first, rest := s[0], s[1..];
      ChainPush(piece, cost, k + cost(first), rest, x);
      assert s == [first] + rest;
      Associate([first], rest, [x]);
      ChainFirst(piece, cost, k, first, rest);
      ChainFirst(piece, cost, k, first, rest + [x]);
      Associate(piece(k, first), Chain(piece, cost, k + cost(first), rest), piece(k + Total(cost, s), x));
    }
  }

  /** One element more at the end of a chain of which a first part is already `done`. */
  lemma ChainOwesMore<T, U>(
    piece: (nat, T) -> seq<U>, cost: T -> nat, k: nat, done: seq<U>, pending: seq<T>, all: seq<T>, x: T)
    requires done + Chain(piece, cost, k, pending) == Chain(piece, cost, 0, all)
    requires k + Total(cost, pending) == Total(cost, all)
    ensures done + Chain(piece, cost, k, pending + [x]) == Chain(piece, cost, 0, all + [x])
    ensures k + Total(cost, pending + [x]) == Total(cost, all + [x])
  {
    ChainPush(piece, cost, k, pending, x);
    ChainPush(piece, cost, 0, all, x);
    Associate(done, Chain(piece, cost, k, pending), piece(Total(cost, all), x));
  }

  /** Replacing the first element by one of cost one less, or by none, takes the beginning off its piece. */
  lemma ChainStep<T, U>(
    piece: (nat, T) -> seq<U>, cost: T -> nat, k: nat, x: T, left: seq<T>, taken: seq<U>, more: seq<T>)
    requires |left| <= 1
    requires if left == [] then piece(k, x) == taken && cost(x) == 1
             else piece(k, x) == taken + piece(k + 1, left[0]) && cost(x) == 1 + cost(left[0])
    ensures Chain(piece, cost, k, [x] + more) == taken + Chain(piece, cost, k + 1, left + more)
    ensures Total(cost, [x] + more) == 1 + Total(cost, left + more)
  {
    ChainFirst(piece, cost, k, x, more);
    if left == [] {
      assert left + more == more;
    } else {
      assert left == [left[0]];
      ChainFirst(piece, cost, k + 1, left[0], more);
      Associate(taken, piece(k + 1, left[0]), Chain(piece, cost, k + cost(x), more));
    }
  }

  /** Everything in the chain comes from the piece of some element. */
  lemma {:induction false} ChainMember<T, U>(piece: (nat, T) -> seq<U>, cost: T -> nat, k: nat, s: seq<T>, u: U)
    returns (i: nat, j: nat)
    requires u in Chain(piece, cost, k, s)
    ensures i < |s| && u in piece(j, s[i])
    decreases s
  {
    if u in piece(k, s[0]) {
      i, j := 0, k;
    } else {
      i, j := ChainMember(piece, cost, k + cost(s[0]), s[1..], u);
      i := i + 1;
    }
  }

  /** The piece of every element is in the chain. */
  lemma {:induction false} ChainHas<T, U>(piece: (nat, T) -> seq<U>, cost: T -> nat, k: nat, s: seq<T>, i: nat)
    returns (j: nat)
    requires i < |s|
    ensures forall u :: u in piece(j, s[i]) ==> u in Chain(piece, cost, k, s)
    decreases s
  {
    if i == 0 {
      j := k;
    } else {
      j := ChainHas(piece, cost, k + cost(s[0]), s[1..], i - 1);
    }
  }

  /** Pieces that agree for every element make the same chain, wherever it starts if they do not depend on that. */
  lemma {:induction false} ChainSame<T, U>(
    piece: (nat, T) -> seq<U>, other: (nat, T) -> seq<U>, cost: T -> nat, k: nat, m: nat, s: seq<T>)
    requires forall i, j, n {:trigger piece(j, s[i]), other(n, s[i])} :: 0 <= i < |s| ==> piece(j, s[i]) == other(n, s[i])
    ensures Chain(piece, cost, k, s) == Chain(other, cost, m, s)
    decreases s
  {
    if s != [] {
      assert piece(k, s[0]) == other(m, s[0]);
      forall i, j, n | 0 <= i < |s[1..]| ensures piece(j, s[1..][i]) == other(n, s[1..][i]) {
        assert s[1..][i] == s[i + 1];
        assert piece(j, s[i + 1]) == other(n, s[i + 1]);
      }
      ChainSame(piece, other, cost, k + cost(s[0]), m + cost(s[0]), s[1..]);
    }
  }
}
