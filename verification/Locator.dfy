/**
 The heights a block locator names (sync/src/synchronization_chain.rs): ten consecutive ones from the tip
 down, then gaps that double, then genesis. The layout is the one of the getblocks section of the Bitcoin
 wiki's protocol documentation.
 */
module Locator {
  import opened Primitives
  import opened Powers

  /** How far below the tip the `i`-th entry lies. */
  function Descent(i: nat): nat {
    if i <= 9 then i else 7 + Pow2(i - 8)
  }

  /** The gap in use once `i` entries are listed. */
  function Gap(i: nat): nat {
    if i <= 9 then 1 else Pow2(i - 9)
  }

  /** The gap the loop moves down by after listing entry `i`, and the step it then carries on with. */
  lemma StepDown(i: nat)
    ensures Gap(i + 1) == if i + 1 >= 10 then 2 * Gap(i) else Gap(i)
    ensures Descent(i + 1) == Descent(i) + Gap(i + 1)
    ensures Descent(i) >= i && Gap(i) >= 1
  {
    if i > 9 {
      assert Pow2(i - 7) == 2 * Pow2(i - 8) && Pow2(i - 8) == 2 * Pow2(i - 9);
    }
  }

  /** Entries down to, but not including, the first one that would fall below height zero. */
  function Entries(tip: nat, i: nat := 0): (n: nat)
    requires i == 0 || Descent(i - 1) <= tip
    ensures n > 0 && n >= i && Descent(n - 1) <= tip < Descent(n)
    decreases if tip < Descent(i) then 0 else tip - Descent(i) + 1
  {
    StepDown(i);
    if tip < Descent(i) then i else Entries(tip, i + 1)
  }

  function LocatorHeights(tip: nat): seq<nat> {
    var n := Entries(tip);
    DescentGrows(n - 1);
    seq(n, i requires 0 <= i < n => tip - Descent(i)) + if tip == Descent(n - 1) then [] else [0]
  }

  lemma {:induction false} DescentGrows(n: nat)
    ensures forall i :: 0 <= i < n ==> Descent(i) < Descent(n)
  {
    if n > 0 {
      StepDown(n - 1);
      DescentGrows(n - 1);
    }
  }

  lemma EntriesUnique(tip: nat, n: nat)
    requires n > 0 && Descent(n - 1) <= tip < Descent(n)
    ensures n == Entries(tip)
  {
    DescentGrows(n - 1);
    DescentGrows(Entries(tip) - 1);
  }

  /** Where the locator's entries lie; the one after the last regular entry, if there is one, is genesis. */
  lemma LocatorAt(tip: nat, i: nat)
    requires i < |LocatorHeights(tip)|
    ensures Entries(tip) <= |LocatorHeights(tip)| <= Entries(tip) + 1
    ensures i < Entries(tip) ==> Descent(i) <= tip && LocatorHeights(tip)[i] == tip - Descent(i)
    ensures i == Entries(tip) ==> LocatorHeights(tip)[i] == 0 && Descent(i - 1) < tip < Descent(i)
  {
    DescentGrows(Entries(tip) - 1);
  }

  lemma LocatorFallsAt(tip: nat, i: nat, j: nat)
    requires i < j < |LocatorHeights(tip)|
    ensures LocatorHeights(tip)[i] > LocatorHeights(tip)[j]
  {
    LocatorAt(tip, i);
    LocatorAt(tip, j);
    DescentGrows(j);
    DescentGrows(Entries(tip) - 1);
  }

  /** The locator starts at the tip, falls strictly and ends in genesis. */
  lemma LocatorFalls(tip: nat)
    ensures var heights := LocatorHeights(tip);
            && heights != [] && heights[0] == tip && heights[|heights| - 1] == 0
            && forall i, j :: 0 <= i < j < |heights| ==> heights[i] > heights[j]
  {
    var heights := LocatorHeights(tip);
    LocatorAt(tip, 0);
    LocatorAt(tip, |heights| - 1);
    forall i, j | 0 <= i < j < |heights| ensures heights[i] > heights[j] {
      LocatorFallsAt(tip, i, j);
    }
  }

  /** Ten heights in a row come first; after that each gap is twice the one before, up to the last. */
  lemma LocatorGaps(tip: nat, i: nat)
    requires i + 1 < |LocatorHeights(tip)|
    ensures var heights := LocatorHeights(tip);
            && (i < 10 ==> heights[i] == tip - i)
            && (9 <= i < |heights| - 2 ==> heights[i] - heights[i + 1] == 2 * (heights[i - 1] - heights[i]))
  {
    LocatorAt(tip, i);
    LocatorAt(tip, i + 1);
    if 9 <= i {
      LocatorAt(tip, i - 1);
      StepDown(i);
      StepDown(i - 1);
    }
  }

  /** The locator has at most 11 + log2(tip + 1) entries. */
  lemma LocatorShort(tip: nat)
    ensures var n := |LocatorHeights(tip)|;
            n <= 11 || Pow2(n - 11) <= tip + 1
  {
    var n := Entries(tip);
    if n > 10 {
      assert Descent(n - 1) == 7 + Pow2(n - 9);
      assert Pow2(n - 9) == 2 * Pow2(n - 10);
    }
  }

  /** The step never leaves 32 bits when heights do not. */
  lemma StepFits(tip: nat, i: nat)
    requires tip < TWO_POW_32 && i <= Entries(tip)
    ensures Gap(i) < TWO_POW_32
  {
    if i > 9 {
      assert Descent(i - 1) <= tip by {
        DescentGrows(Entries(tip) - 1);
      }
      if i > 10 {
        assert Descent(i - 1) == 7 + Pow2(i - 9);
      } else {
        assert Pow2(1) == 2 * Pow2(0);
      }
    }
  }

  /** Two neighbouring entries are consecutive, or the gap between them is less than the way up to the tip. */
  ghost predicate Near(length: nat, heights: seq<nat>, j: nat)
    requires 0 < j < |heights|
  {
    heights[j - 1] <= heights[j] + 1 || 2 * heights[j - 1] + 8 <= length + heights[j]
  }

  lemma LocatorNear(tip: nat, j: nat)
    requires 0 < j < |LocatorHeights(tip)|
    ensures Near(tip + 1, LocatorHeights(tip), j)
  {
    LocatorAt(tip, j - 1);
    LocatorAt(tip, j);
    StepDown(j - 1);
    if j > 10 {
      assert Descent(j - 1) == 7 + Pow2(j - 9) && Descent(j) == 7 + Pow2(j - 8);
    }
  }

  /** The hashes at given heights of a chain. */
  function HashesAt(chain: seq<Hash>, heights: seq<nat>): seq<Hash>
    requires forall i :: 0 <= i < |heights| ==> heights[i] < |chain|
  {
    seq(|heights|, i requires 0 <= i < |heights| => chain[heights[i]])
  }

  /** The locator of a chain: hashes at the locator heights of its tip. */
  function LocatorOf(chain: seq<Hash>): seq<Hash>
    requires chain != []
  {
    LocatorFalls(|chain| - 1);
    HashesAt(chain, LocatorHeights(|chain| - 1))
  }

  ghost predicate Names(chain: seq<Hash>, heights: seq<nat>, hashes: seq<Hash>) {
    |hashes| == |heights| && forall i :: 0 <= i < |heights| ==> heights[i] < |chain| && hashes[i] == chain[heights[i]]
  }

  /** A locator as whoever receives it may see it. */
  ghost predicate IsLocator(chain: seq<Hash>, heights: seq<nat>, hashes: seq<Hash>) {
    && Names(chain, heights, hashes)
    && heights != [] && heights[0] == |chain| - 1 && heights[|heights| - 1] == 0
    && forall j :: 0 < j < |heights| ==> Near(|chain|, heights, j)
  }

  lemma LocatorIs(chain: seq<Hash>)
    requires chain != []
    ensures IsLocator(chain, LocatorHeights(|chain| - 1), LocatorOf(chain))
  {
    var tip := |chain| - 1;
    LocatorFalls(tip);
    forall j | 0 < j < |LocatorHeights(tip)| ensures Near(|chain|, LocatorHeights(tip), j) {
      LocatorNear(tip, j);
    }
  }

  /** The first entries of a locator, as the loops list them. */
  ghost predicate Listed(chain: seq<Hash>, hashes: seq<Hash>) {
    && chain != []
    && (hashes == [] || Descent(|hashes| - 1) < |chain|)
    && forall i :: 0 <= i < |hashes| ==> EntryAt(chain, hashes, i)
  }

  ghost predicate EntryAt(chain: seq<Hash>, hashes: seq<Hash>, i: nat)
    requires i < |hashes|
  {
    Descent(i) < |chain| && hashes[i] == chain[|chain| - 1 - Descent(i)]
  }

  lemma ListedPush(chain: seq<Hash>, hashes: seq<Hash>)
    requires Listed(chain, hashes) && Descent(|hashes|) < |chain|
    ensures Listed(chain, hashes + [chain[|chain| - 1 - Descent(|hashes|)]])
  {
    var more := hashes + [chain[|chain| - 1 - Descent(|hashes|)]];
    forall i | 0 <= i < |more| ensures EntryAt(chain, more, i) {
      assert i < |hashes| ==> EntryAt(chain, hashes, i);
    }
  }

  /** Listing stops when the next entry would be below genesis; genesis closes the list. */
  lemma ListedAll(chain: seq<Hash>, hashes: seq<Hash>)
    requires Listed(chain, hashes) && hashes != [] && Descent(|hashes|) >= |chain|
    ensures LocatorOf(chain) == hashes + if Descent(|hashes| - 1) == |chain| - 1 then [] else [chain[0]]
  {
    var tip := |chain| - 1;
    EntriesUnique(tip, |hashes|);
    var heights := LocatorHeights(tip);
    var all := hashes + if Descent(|hashes| - 1) == tip then [] else [chain[0]];
    LocatorFalls(tip);
    LocatorAt(tip, 0);
    forall i | 0 <= i < |heights| ensures chain[heights[i]] == all[i] {
      LocatorAt(tip, i);
      assert i < |hashes| ==> EntryAt(chain, hashes, i);
    }
  }

  /**
   The locator loops: the listed hashes, the height listed next and the step. The height is that of the next
   entry, or zero if that entry would lie below genesis and genesis is not listed yet.
   */
  ghost predicate Listing(chain: seq<Hash>, hashes: seq<Hash>, height: nat, step: nat) {
    && Listed(chain, hashes) && step == Gap(|hashes|) && height < |chain|
    && if Descent(|hashes|) < |chain| then height == |chain| - 1 - Descent(|hashes|)
       else height == 0 && hashes != [] && Descent(|hashes| - 1) < |chain| - 1
  }

  /** One round: list the hash at this height, and go on below or stop. */
  lemma ListingStep(chain: seq<Hash>, hashes: seq<Hash>, height: nat, step: nat)
    requires Listing(chain, hashes, height, step)
    ensures
      var more := hashes + [chain[height]];
      var step' := if |more| >= 10 then 2 * step else step;
      && step' >= 1
      && if height < step' then LocatorOf(chain) == more + (if height != 0 then [chain[0]] else [])
         else Listing(chain, more, height - step', step')
  {
    var more := hashes + [chain[height]];
    StepDown(|hashes|);
    if Descent(|hashes|) < |chain| {
      ListedPush(chain, hashes);
      if Descent(|more|) >= |chain| {
        ListedAll(chain, more);
        assert more + [] == more;
      }
    } else {
      ListedAll(chain, hashes);
      assert more + [] == more;
    }
  }
}
