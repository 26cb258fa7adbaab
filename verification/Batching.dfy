/** Greedy batching of translation items, which is sound and cannot be beaten. */
module Batching {
  import opened Text

  datatype Item = Item(key: string, text: string)

  const MAX_BATCH_ITEMS: nat := 20

  /** `estimateBatchChars`: two brackets, and eight characters of quoting per item. */
  function EstimateBatchChars(items: seq<Item>): nat {
    if items == [] then 2
    else EstimateBatchChars(items[..|items| - 1]) + |items[|items| - 1].key| + |items[|items| - 1].text| + 8
  }

  /** What the running total of a batch comes to: every item brings its own brackets. */
  function Cost(items: seq<Item>): nat {
    if items == [] then 2 else Cost(items[..|items| - 1]) + EstimateBatchChars([items[|items| - 1]])
  }

  /** A single item may exceed the budget; longer batches may not. */
  predicate ValidBatch(batch: seq<Item>, budget: nat) {
    0 < |batch| <= MAX_BATCH_ITEMS && (|batch| > 1 ==> Cost(batch) <= budget)
  }

  function Flatten(batches: seq<seq<Item>>): seq<Item> {
    if batches == [] then [] else batches[0] + Flatten(batches[1..])
  }

  /** An order-preserving split of the items into batches. */
  predicate IsSplit(items: seq<Item>, batches: seq<seq<Item>>, budget: nat) {
    Flatten(batches) == items && forall i | 0 <= i < |batches| :: ValidBatch(batches[i], budget)
  }

  // Costs ------------------------------------------------------------------------

  lemma CostAppend(items: seq<Item>, item: Item)
    ensures Cost(items + [item]) == Cost(items) + EstimateBatchChars([item])
  {
    var all := items + [item];
    assert all[..|all| - 1] == items && all[|all| - 1] == item;
    hide EstimateBatchChars;
  }

  lemma {:induction false} CostOfTail(items: seq<Item>)
    requires items != []
    ensures Cost(items[1..]) <= Cost(items)
  {
    hide EstimateBatchChars;
    if |items| == 1 {
      assert items[1..] == [];
    } else {
      var front, last := items[..|items| - 1], items[|items| - 1];
      CostOfTail(front);
      assert items[1..] == front[1..] + [last];
      CostAppend(front[1..], last);
    }
  }

  lemma {:induction false} CostOfPrefix(items: seq<Item>, k: nat)
    requires k <= |items|
    ensures Cost(items[..k]) <= Cost(items)
  {
    hide EstimateBatchChars;
    if k == |items| {
      assert items[..k] == items;
    } else {
      assert items[..|items| - 1][..k] == items[..k];
      CostOfPrefix(items[..|items| - 1], k);
    }
  }

  lemma PrefixIsValid(batch: seq<Item>, k: nat, budget: nat)
    requires ValidBatch(batch, budget) && 0 < k <= |batch|
    ensures ValidBatch(batch[..k], budget)
  {
    CostOfPrefix(batch, k);
    hide Cost;
  }

  lemma {:induction false} SuffixIsValid(batch: seq<Item>, k: nat, budget: nat)
    requires ValidBatch(batch, budget) && k < |batch|
    ensures ValidBatch(batch[k..], budget)
  {
    if k == 0 {
      assert batch[k..] == batch;
    } else {
      CostOfTail(batch);
      assert batch[1..][k - 1..] == batch[k..];
      hide Cost;
      SuffixIsValid(batch[1..], k - 1, budget);
    }
  }

  // The greedy split ---------------------------------------------------------------

  /** Whether the next item starts a new batch. */
  predicate Closes(current: seq<Item>, item: Item, budget: nat) {
    (current != [] && Cost(current) + EstimateBatchChars([item]) > budget) || |current| >= MAX_BATCH_ITEMS
  }

  /** The loop with `current` open and `items` to come. */
  function Greedy(current: seq<Item>, items: seq<Item>, budget: nat): seq<seq<Item>>
    decreases |items|
  {
    if items == [] then if current == [] then [] else [current]
    else if Closes(current, items[0], budget) then [current] + Greedy([items[0]], items[1..], budget)
    else Greedy(current + [items[0]], items[1..], budget)
  }

  lemma ClosesIffInvalid(current: seq<Item>, item: Item, budget: nat)
    requires current == [] || ValidBatch(current, budget)
    ensures Closes(current, item, budget) <==> !ValidBatch(current + [item], budget)
  {
    CostAppend(current, item);
    hide Cost, EstimateBatchChars;
  }

  lemma {:induction false} GreedyIsSplit(current: seq<Item>, items: seq<Item>, budget: nat)
    requires current == [] || ValidBatch(current, budget)
    ensures IsSplit(current + items, Greedy(current, items, budget), budget)
    decreases |items|
  {
    hide ValidBatch, Closes, Cost;
    if items == [] {
      NothingAdded(current);
      if current != [] {
        assert Flatten([current]) == current + Flatten([current][1..]);
        assert [current][1..] == [];
        NothingAdded(current);
      }
    } else {
      var item, rest := items[0], items[1..];
      HeadTail(items);
      Assoc(current, [item], rest);
      ClosesIffInvalid(current, item, budget);
      SingleIsValid(item, budget);
      if Closes(current, item, budget) {
        var later := Greedy([item], rest, budget);
        GreedyIsSplit([item], rest, budget);
        assert ([current] + later)[0] == current && ([current] + later)[1..] == later;
        ClosedIsValid(current, item, budget);
      } else {
        GreedyIsSplit(current + [item], rest, budget);
      }
    }
  }

  lemma SingleIsValid(item: Item, budget: nat)
    ensures ValidBatch([item], budget) && ValidBatch([] + [item], budget)
  {
    assert [] + [item] == [item];
  }

  lemma ClosedIsValid(current: seq<Item>, item: Item, budget: nat)
    requires current == [] || ValidBatch(current, budget)
    requires Closes(current, item, budget)
    ensures ValidBatch(current, budget)
  {
  }

  /** How many batches the greedy split makes of the items still to come. */
  function Count(current: seq<Item>, items: seq<Item>, budget: nat): nat {
    |Greedy(current, items, budget)|
  }

  predicate IsOpen(current: seq<Item>, budget: nat) {
    current == [] || ValidBatch(current, budget)
  }

  lemma OpenSuffix(current: seq<Item>, k: nat, budget: nat)
    requires IsOpen(current, budget) && k <= |current|
    ensures IsOpen(current[k..], budget)
  {
    if k < |current| {
      SuffixIsValid(current, k, budget);
    }
  }

  /** What fits a batch fits every shorter end of it. */
  lemma SuffixClosesLater(current: seq<Item>, k: nat, item: Item, budget: nat)
    requires IsOpen(current, budget) && k <= |current|
    ensures Closes(current[k..], item, budget) ==> Closes(current, item, budget)
    ensures current[k..] + [item] == (current + [item])[k..]
    ensures !Closes(current, item, budget) ==> IsOpen(current + [item], budget)
  {
    hide Closes, Cost;
    OpenSuffix(current, k, budget);
    ClosesIffInvalid(current, item, budget);
    ClosesIffInvalid(current[k..], item, budget);
    assert current[k..] + [item] == (current + [item])[k..];
    if !Closes(current, item, budget) {
      SuffixIsValid(current + [item], k, budget);
    }
  }

  /** With fewer items in the open batch the greedy loop does not make more batches. */
  lemma {:induction false} FewerOpenNotWorse(current: seq<Item>, k: nat, items: seq<Item>, budget: nat)
    requires IsOpen(current, budget) && k <= |current|
    ensures Count(current[k..], items, budget) <= Count(current, items, budget)
    decreases |items|
  {
    hide ValidBatch, Closes, Cost, IsOpen;
    var short := current[k..];
    OpenSuffix(current, k, budget);
    if items == [] {
    } else {
      var item, rest := items[0], items[1..];
      SuffixClosesLater(current, k, item, budget);
      SuffixClosesLater(short, 0, item, budget);
      if !Closes(current, item, budget) {
        FewerOpenNotWorse(current + [item], k, rest, budget);
      } else if !Closes(short, item, budget) {
        assert (short + [item])[|short|..] == [item];
        OpenCostsOneAtMost(short + [item], |short|, rest, budget);
      }
    }
  }

  /** An open batch is worth at most one batch. */
  lemma {:induction false} OpenCostsOneAtMost(current: seq<Item>, k: nat, items: seq<Item>, budget: nat)
    requires IsOpen(current, budget) && k <= |current|
    ensures Count(current, items, budget) <= 1 + Count(current[k..], items, budget)
    decreases |items|
  {
    hide ValidBatch, Closes, Cost, IsOpen;
    var short := current[k..];
    OpenSuffix(current, k, budget);
    if items == [] {
    } else {
      var item, rest := items[0], items[1..];
      SuffixClosesLater(current, k, item, budget);
      SuffixClosesLater(short, 0, item, budget);
      if !Closes(current, item, budget) {
        OpenCostsOneAtMost(current + [item], k, rest, budget);
      } else if !Closes(short, item, budget) {
        assert (short + [item])[|short|..] == [item];
        FewerOpenNotWorse(short + [item], |short|, rest, budget);
      }
    }
  }

  /** Items that together form a valid batch go into the open batch one after the other. */
  lemma {:induction false} GreedyFillsBatch(batch: seq<Item>, k: nat, items: seq<Item>, budget: nat)
    requires ValidBatch(batch, budget) && k <= |batch|
    ensures Greedy(batch[..k], batch[k..] + items, budget) == Greedy(batch, items, budget)
    decreases |batch| - k
  {
    hide Closes, Cost, ValidBatch;
    if k == |batch| {
      assert batch[..k] == batch && batch[k..] + items == items;
    } else {
      var item := batch[k];
      assert batch[..k] + [item] == batch[..k + 1];
      assert (batch[k..] + items)[0] == item && (batch[k..] + items)[1..] == batch[k + 1..] + items;
      PrefixIsValid(batch, k + 1, budget);
      if k > 0 {
        PrefixIsValid(batch, k, budget);
      }
      ClosesIffInvalid(batch[..k], item, budget);
      GreedyFillsBatch(batch, k + 1, items, budget);
    }
  }

  /** No order-preserving split into valid batches is shorter than the greedy one. */
  lemma {:induction false} GreedyIsOptimal(items: seq<Item>, batches: seq<seq<Item>>, budget: nat)
    requires IsSplit(items, batches, budget)
    ensures |Greedy([], items, budget)| <= |batches|
    decreases |batches|
  {
    if batches == [] {
    } else {
      var batch, rest := batches[0], Flatten(batches[1..]);
      GreedyIsOptimal(rest, batches[1..], budget);
      GreedyFillsBatch(batch, 0, rest, budget);
      assert batch[..0] == [] && batch[0..] == batch && batch[|batch|..] == [];
      OpenCostsOneAtMost(batch, |batch|, rest, budget);
    }
    hide ValidBatch, Closes, Greedy, Cost;
  }

  /**
   The loop over the items. Its batches concatenate to the input, respect both
   limits, and are as few as any order-preserving split can have.
   */
  method BuildTranslationBatches(items: seq<Item>, budget: nat) returns (batches: seq<seq<Item>>)
    ensures batches == Greedy([], items, budget)
    ensures IsSplit(items, batches, budget)
    ensures forall other | IsSplit(items, other, budget) :: |batches| <= |other|
  {
    hide EstimateBatchChars, Cost, IsSplit;
    batches := [];
    var current: seq<Item> := [];
    var currentChars := 2;
    assert items[0..] == items;
    NothingAdded(Greedy([], items, budget));
    CostOfNothing();
    for i := 0 to |items|
      invariant currentChars == Cost(current)
      invariant batches + Greedy(current, items[i..], budget) == Greedy([], items, budget)
    {
      var item := items[i];
      assert items[i..][0] == item && items[i..][1..] == items[i + 1..];
      var itemChars := EstimateBatchChars([item]);
      var wouldOverflow := |current| > 0 && currentChars + itemChars > budget;
      var reachedMaxItems := |current| >= MAX_BATCH_ITEMS;
      CostAppend(current, item);
      CostAppend([], item);
      NothingAdded([item]);
      if wouldOverflow || reachedMaxItems {
        Assoc(batches, [current], Greedy([item], items[i + 1..], budget));
        batches := batches + [current];
        current := [];
        currentChars := 2;
      }
      current := current + [item];
      currentChars := currentChars + itemChars;
    }
    if |current| > 0 {
      batches := batches + [current];
    }
    NothingAdded(batches);
    GreedyIsSplit([], items, budget);
    NothingAdded(items);
    forall other | IsSplit(items, other, budget)
      ensures |batches| <= |other|
    {
      GreedyIsOptimal(items, other, budget);
    }
  }

  lemma CostOfNothing()
    ensures Cost([]) == 2
  {
  }

  /** What a caller gets: no batch is empty or over the item limit, and batches of several items fit the budget. */
  lemma SplitRespectsLimits(items: seq<Item>, batches: seq<seq<Item>>, budget: nat, i: nat)
    requires IsSplit(items, batches, budget) && i < |batches|
    ensures 0 < |batches[i]| <= 20
    ensures |batches[i]| > 1 ==> EstimateBatchChars(batches[i]) < Cost(batches[i]) <= budget
  {
    EstimateBelowCost(batches[i]);
    hide Flatten, Cost, EstimateBatchChars;
  }

  /** The running total overestimates: it counts the brackets once per item and once more. */
  lemma {:induction false} EstimateBelowCost(items: seq<Item>)
    ensures Cost(items) == EstimateBatchChars(items) + 2 * |items|
  {
    if items == [] {
    } else {
      EstimateBelowCost(items[..|items| - 1]);
      var single := [items[|items| - 1]];
      assert single[..|single| - 1] == [];
      assert EstimateBatchChars(single) == EstimateBatchChars([]) + |single[0].key| + |single[0].text| + 8;
    }
  }

  function AllText(items: seq<Item>): string {
    if items == [] then "" else AllText(items[..|items| - 1]) + items[|items| - 1].key + items[|items| - 1].text
  }

  /** The running total is the characters of all keys and texts, ten more for every item, and two. */
  lemma {:induction false} CostCounts(items: seq<Item>)
    ensures Cost(items) == |AllText(items)| + 10 * |items| + 2
  {
    if items == [] {
    } else {
      CostCounts(items[..|items| - 1]);
      var last := items[|items| - 1];
      CostOfOne(last);
    }
    hide EstimateBatchChars;
  }

  lemma CostOfOne(item: Item)
    ensures EstimateBatchChars([item]) == |item.key| + |item.text| + 10
  {
    assert [item][..0] == [] && [item][0] == item;
    assert EstimateBatchChars([]) == 2;
  }
}
