/** Greedy packing, newest first, under a byte budget and a count limit. */
module GreedyPacking {

  const BUDGET: nat := 64 * 1024
  const LIMIT: nat := 31

  datatype Item = Item(eligible: bool, size: nat)

  /** The indices below `k` that the backward loop takes, with `bytes` used and `count` messages taken. */
  function Pack(items: seq<Item>, k: nat, bytes: nat, count: nat): (picked: set<nat>)
    requires k <= |items|
    ensures forall i :: i in picked ==> i < k
  {
    if k == 0 || count >= LIMIT then {}
    else if items[k - 1].eligible && bytes + items[k - 1].size <= BUDGET then
      Pack(items, k - 1, bytes + items[k - 1].size, count + 1) + {k - 1}
    else Pack(items, k - 1, bytes, count)
  }

  lemma PackRound(items: seq<Item>, k: nat, bytes: nat, count: nat, newer: set<nat>)
    requires 0 < k <= |items| && count < LIMIT
    ensures newer + Pack(items, k, bytes, count) ==
            if items[k - 1].eligible && bytes + items[k - 1].size <= BUDGET
            then (newer + {k - 1}) + Pack(items, k - 1, bytes + items[k - 1].size, count + 1)
            else newer + Pack(items, k - 1, bytes, count)
  {
  }

  // ---------- What greedy packing means ----------

  /** Bytes of the picked items at index `j` or later. */
  function BytesFrom(items: seq<Item>, picked: set<nat>, j: nat): nat
    decreases |items| - j
  {
    if j >= |items| then 0 else BytesFrom(items, picked, j + 1) + if j in picked then items[j].size else 0
  }

  /** Number of picked items at index `j` or later. */
  function CountFrom(items: seq<Item>, picked: set<nat>, j: nat): nat
    decreases |items| - j
  {
    if j >= |items| then 0 else CountFrom(items, picked, j + 1) + if j in picked then 1 else 0
  }

  function PickedFrom(items: seq<Item>, picked: set<nat>, j: nat): set<nat> {
    set i | i in picked && j <= i && i < |items|
  }

  /** The count is that of the newer picks. */
  lemma {:induction false} CountOfPicked(items: seq<Item>, picked: set<nat>, j: nat)
    ensures CountFrom(items, picked, j) == |PickedFrom(items, picked, j)|
    decreases |items| - j
  {
    if j < |items| {
      CountOfPicked(items, picked, j + 1);
      assert PickedFrom(items, picked, j) == PickedFrom(items, picked, j + 1) + if j in picked then {j} else {};
    } else {
      assert PickedFrom(items, picked, j) == {};
    }
  }

  /** An item is left out for one of three reasons: it is not eligible, thirty-one newer ones were picked,
      or it does not fit beside them within 65,536 bytes. */
  lemma LeftOut(items: seq<Item>, base: nat, j: nat)
    requires j < |items|
    ensures var picked := Pack(items, |items|, base, 0);
            j !in picked <==>
            || !items[j].eligible
            || |PickedFrom(items, picked, j + 1)| >= 31
            || base + BytesFrom(items, picked, j + 1) + items[j].size > 65536
  {
    var picked := Pack(items, |items|, base, 0);
    PackIsGreedy(items, base);
    CountOfPicked(items, picked, j + 1);
    assert j in picked <==> Deserves(items, base, picked, j);
  }

  /** Item `j` is eligible, the newer picks leave a place for it, and it fits beside them. */
  predicate Deserves(items: seq<Item>, base: nat, picked: set<nat>, j: nat)
    requires j < |items|
  {
    && items[j].eligible
    && CountFrom(items, picked, j + 1) < LIMIT
    && base + BytesFrom(items, picked, j + 1) + items[j].size <= BUDGET
  }

  /** From `low` up, exactly the deserving items are picked. */
  ghost predicate GreedyFrom(items: seq<Item>, base: nat, picked: set<nat>, low: nat) {
    forall j: nat :: low <= j < |items| ==> (j in picked <==> Deserves(items, base, picked, j))
  }

  lemma {:induction false} FrameFrom(items: seq<Item>, p: set<nat>, q: set<nat>, j: nat)
    requires forall i: nat :: j <= i < |items| ==> (i in p <==> i in q)
    ensures BytesFrom(items, p, j) == BytesFrom(items, q, j) && CountFrom(items, p, j) == CountFrom(items, q, j)
    decreases |items| - j
  {
    if j < |items| {
      FrameFrom(items, p, q, j + 1);
    }
  }

  lemma {:induction false} CountGrows(items: seq<Item>, picked: set<nat>, i: nat, j: nat)
    requires i <= j
    ensures CountFrom(items, picked, i) >= CountFrom(items, picked, j)
    decreases j - i
  {
    if i < j {
      CountGrows(items, picked, i + 1, j);
    }
  }

  /** The rule determines the choice: two greedy choices pick the same items. */
  lemma {:induction false} GreedyIsUnique(items: seq<Item>, base: nat, p: set<nat>, q: set<nat>, j: nat)
    requires GreedyFrom(items, base, p, j) && GreedyFrom(items, base, q, j)
    ensures forall i: nat :: j <= i < |items| ==> (i in p <==> i in q)
    decreases |items| - j
  {
    if j < |items| {
      GreedyIsUnique(items, base, p, q, j + 1);
      FrameFrom(items, p, q, j + 1);
    }
  }

  /** The loop, with the items from `k` on already decided by `newer`, completes a greedy choice. */
  lemma {:induction false} PackContinues(items: seq<Item>, base: nat, k: nat, newer: set<nat>, all: set<nat>)
    requires k <= |items| && (forall i :: i in newer ==> k <= i < |items|) && GreedyFrom(items, base, newer, k)
    requires all == newer + Pack(items, k, base + BytesFrom(items, newer, k), CountFrom(items, newer, k))
    ensures GreedyFrom(items, base, all, 0)
    decreases k
  {
    var bytes, count := base + BytesFrom(items, newer, k), CountFrom(items, newer, k);
    if k == 0 || count >= LIMIT {
      assert all == newer;
      forall j: nat | j < k ensures !Deserves(items, base, newer, j) {
        CountGrows(items, newer, j + 1, k);
      }
    } else {
      var taken := items[k - 1].eligible && bytes + items[k - 1].size <= BUDGET;
      var next := if taken then newer + {k - 1} else newer;
      FrameFrom(items, newer, next, k);
      GreedyExtends(items, base, k, newer, next);
      assert all == next + Pack(items, k - 1, base + BytesFrom(items, next, k - 1), CountFrom(items, next, k - 1));
      PackContinues(items, base, k - 1, next, all);
    }
  }

  lemma GreedyExtends(items: seq<Item>, base: nat, k: nat, newer: set<nat>, next: set<nat>)
    requires 0 < k <= |items| && GreedyFrom(items, base, newer, k) && k - 1 !in newer
    requires next == if Deserves(items, base, newer, k - 1) then newer + {k - 1} else newer
    ensures GreedyFrom(items, base, next, k - 1)
  {
    forall j: nat | k - 1 <= j < |items| ensures j in next <==> Deserves(items, base, next, j) {
      FrameFrom(items, newer, next, j + 1);
    }
  }

  lemma PackIsGreedy(items: seq<Item>, base: nat)
    ensures GreedyFrom(items, base, Pack(items, |items|, base, 0), 0)
  {
    PackContinues(items, base, |items|, {}, Pack(items, |items|, base, 0));
  }

  /** A greedy choice respects both limits. */
  lemma {:induction false} GreedyWithinLimits(items: seq<Item>, base: nat, picked: set<nat>, j: nat)
    requires GreedyFrom(items, base, picked, j)
    ensures CountFrom(items, picked, j) <= LIMIT
    ensures base + BytesFrom(items, picked, j) <= if base > BUDGET then base else BUDGET
    decreases |items| - j
  {
    if j < |items| {
      GreedyWithinLimits(items, base, picked, j + 1);
    }
  }
}
