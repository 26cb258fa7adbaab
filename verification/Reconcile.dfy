/** Bringing a locale up to date with its source: reuse, translate, or fall back to English. */
module Reconcile {
  import opened Wrappers
  import opened Text
  import opened Batching
  import opened TranslateBatch
  import opened NestedKeys
  import opened SegmentText

  type Memory = map<CacheKey, string>
  type Values = map<string, string>

  datatype Mode = Mode(allowTranslate: bool, force: bool, budget: nat)

  /** What a run starts from besides the source. */
  datatype Known = Known(existing: Values, fallbackKeys: set<string>, memory: Memory)

  datatype Synced = Synced(values: Values, fallbackKeys: set<string>, memory: Memory)

  // One run as functions -----------------------------------------------------------

  datatype Decision = Reuse(value: string) | Pending

  predicate MayReuse(known: Known, mode: Mode, key: string) {
    !(mode.allowTranslate && key in known.fallbackKeys)
  }

  function Decide(known: Known, mode: Mode, key: string, text: string): Decision {
    if Slot(key, text) in known.memory && MayReuse(known, mode, key) then
      Reuse(known.memory[Slot(key, text)])
    else if key in known.existing && MayReuse(known, mode, key) then Reuse(known.existing[key])
    else Pending
  }

  /** The first loop: what is kept, and which of the kept keys stay fallbacks. */
  datatype Sorted = Sorted(values: Values, fallbackKeys: set<string>, pending: seq<Item>)

  function SortKeys(source: Flat, known: Known, mode: Mode): Sorted {
    if source == [] then Sorted(map[], {}, [])
    else
      var before := SortKeys(source[..|source| - 1], known, mode);
      var Binding(key, text) := source[|source| - 1];
      match Decide(known, mode, key, text)
      case Reuse(value) =>
        Sorted(before.values[key := value],
               if key in known.fallbackKeys then before.fallbackKeys + {key} else before.fallbackKeys,
               before.pending)
      case Pending => before.(pending := before.pending + [Item(key, text)])
  }

  /** What the translated batches add to the values and to the memory. */
  function Store(items: seq<Item>, translated: Translations, values: Values, memory: Memory): (Values, Memory) {
    if items == [] then (values, memory)
    else
      var (v, m) := Store(items[..|items| - 1], translated, values, memory);
      var item := items[|items| - 1];
      if item.key in translated && translated[item.key] != "" then
        (v[item.key := translated[item.key]], m[Slot(item.key, item.text) := translated[item.key]])
      else (v, m)
  }

  function TranslateAll(batches: seq<seq<Item>>, reply: Replies, prompt: nat, values: Values, memory: Memory)
    : Option<(Values, Memory)>
    decreases |batches|
  {
    if batches == [] then Some((values, memory))
    else
      var outcome := Translate(batches[0], reply, prompt, 0, 0);
      if outcome.result.None? then None
      else
        var (v, m) := Store(batches[0], outcome.result.value, values, memory);
        TranslateAll(batches[1..], reply, outcome.next, v, m)
  }

  /** The last loop: English for whatever is still missing. */
  function FillIn(pending: seq<Item>, known: Known, mode: Mode, values: Values, fallbackKeys: set<string>)
    : (Values, set<string>)
  {
    if pending == [] then (values, fallbackKeys)
    else
      var (v, f) := FillIn(pending[..|pending| - 1], known, mode, values, fallbackKeys);
      var item := pending[|pending| - 1];
      if item.key in v then (v, f)
      else if item.key in known.existing && !mode.force then
        (v[item.key := known.existing[item.key]], if item.key in known.fallbackKeys then f + {item.key} else f)
      else (v[item.key := item.text], f + {item.key})
  }

  /** The values and the memory once the pending keys have been translated, if there is a provider. */
  function Stored(sorted: Sorted, memory: Memory, mode: Mode, reply: Replies): Option<(Values, Memory)> {
    if mode.allowTranslate && sorted.pending != [] then
      TranslateAll(Greedy([], sorted.pending, mode.budget), reply, 0, sorted.values, memory)
    else Some((sorted.values, memory))
  }

  function Sync(source: Flat, known: Known, mode: Mode, reply: Replies): Option<Synced> {
    var sorted := SortKeys(source, known, mode);
    var stored := Stored(sorted, known.memory, mode, reply);
    if stored.None? then None
    else
      var (values, fallbackKeys) := FillIn(sorted.pending, known, mode, stored.value.0, sorted.fallbackKeys);
      Some(Synced(values, fallbackKeys, stored.value.1))
  }

  // The run --------------------------------------------------------------------------

  method StoreBatch(batch: seq<Item>, translated: Translations, values: Values, memory: Memory)
    returns (v: Values, m: Memory)
    ensures (v, m) == Store(batch, translated, values, memory)
  {
    v, m := values, memory;
    for i := 0 to |batch|
      invariant (v, m) == Store(batch[..i], translated, values, memory)
    {
      assert batch[..i + 1][..i] == batch[..i];
      var item := batch[i];
      if item.key !in translated || translated[item.key] == "" {
        continue;
      }
      v := v[item.key := translated[item.key]];
      m := m[Slot(item.key, item.text) := translated[item.key]];
    }
    assert batch[..|batch|] == batch;
  }

  /** The first loop: reuse what is known, and queue the rest. */
  method QueuePending(source: Flat, known: Known, mode: Mode)
    returns (nextFlat: Values, fallbackKeys: set<string>, pending: seq<Item>)
    ensures Sorted(nextFlat, fallbackKeys, pending) == SortKeys(source, known, mode)
  {
    hide Slot;
    nextFlat, fallbackKeys, pending := map[], {}, [];
    for i := 0 to |source|
      invariant Sorted(nextFlat, fallbackKeys, pending) == SortKeys(source[..i], known, mode)
    {
      assert source[..i + 1][..i] == source[..i];
      var Binding(key, text) := source[i];
      var shouldRefreshFallback := key in known.fallbackKeys;
      if Slot(key, text) in known.memory && !(mode.allowTranslate && shouldRefreshFallback) {
        nextFlat := nextFlat[key := known.memory[Slot(key, text)]];
        if shouldRefreshFallback {
          fallbackKeys := fallbackKeys + {key};
        }
        continue;
      }
      if key in known.existing && !(mode.allowTranslate && shouldRefreshFallback) {
        nextFlat := nextFlat[key := known.existing[key]];
        if shouldRefreshFallback {
          fallbackKeys := fallbackKeys + {key};
        }
        continue;
      }
      pending := pending + [Item(key, text)];
    }
    assert source[..|source|] == source;
  }

  /** The second loop: translate batch by batch, up to the first batch that fails. */
  method TranslatePending(pending: seq<Item>, mode: Mode, reply: Replies, values: Values, memory: Memory)
    returns (r: Option<(Values, Memory)>)
    ensures r == TranslateAll(Greedy([], pending, mode.budget), reply, 0, values, memory)
  {
    hide Translate, Greedy, IsSplit, Store;
    var batches := BuildTranslationBatches(pending, mode.budget);
    var prompt: nat := 0;
    var nextFlat, tm := values, memory;
    assert batches[0..] == batches;
    for i := 0 to |batches|
      invariant TranslateAll(batches[i..], reply, prompt, nextFlat, tm) == TranslateAll(batches, reply, 0, values, memory)
    {
      assert batches[i..][0] == batches[i] && batches[i..][1..] == batches[i + 1..];
      var outcome := TranslateItems(batches[i], reply, prompt, 0);
      if outcome.result.None? {
        return None;
      }
      nextFlat, tm := StoreBatch(batches[i], outcome.result.value, nextFlat, tm);
      prompt := outcome.next;
    }
    return Some((nextFlat, tm));
  }

  /** The last loop: an earlier translation or English for what has no value yet. */
  method FillPending(pending: seq<Item>, known: Known, mode: Mode, values: Values, fallbacks: set<string>)
    returns (nextFlat: Values, fallbackKeys: set<string>)
    ensures (nextFlat, fallbackKeys) == FillIn(pending, known, mode, values, fallbacks)
  {
    nextFlat, fallbackKeys := values, fallbacks;
    for i := 0 to |pending|
      invariant (nextFlat, fallbackKeys) == FillIn(pending[..i], known, mode, values, fallbacks)
    {
      assert pending[..i + 1][..i] == pending[..i];
      var item := pending[i];
      if item.key in nextFlat {
        continue;
      }
      if item.key in known.existing && !mode.force {
        nextFlat := nextFlat[item.key := known.existing[item.key]];
        if item.key in known.fallbackKeys {
          fallbackKeys := fallbackKeys + {item.key};
        }
        continue;
      }
      nextFlat := nextFlat[item.key := item.text];
      fallbackKeys := fallbackKeys + {item.key};
    }
    assert pending[..|pending|] == pending;
  }

  method SyncLocale(source: Flat, known: Known, mode: Mode, reply: Replies) returns (r: Option<Synced>)
    ensures r == Sync(source, known, mode, reply)
  {
    hide SortKeys, TranslateAll, Greedy, FillIn;
    var nextFlat, fallbackKeys, pending := QueuePending(source, known, mode);
    var memory := known.memory;
    if mode.allowTranslate && |pending| > 0 {
      var translated := TranslatePending(pending, mode, reply, nextFlat, memory);
      if translated.None? {
        return None;
      }
      nextFlat, memory := translated.value.0, translated.value.1;
    }
    nextFlat, fallbackKeys := FillPending(pending, known, mode, nextFlat, fallbackKeys);
    return Some(Synced(nextFlat, fallbackKeys, memory));
  }

  // What the first loop leaves ---------------------------------------------------------

  predicate Bound(source: Flat, key: string, text: string) {
    Binding(key, text) in source
  }

  /** The sorted keys: every source key is kept with its decision, or pending. */
  lemma {:induction false} SortCovers(source: Flat, known: Known, mode: Mode, key: string, text: string)
    requires DistinctKeys(source) && Bound(source, key, text)
    ensures var s := SortKeys(source, known, mode);
            match Decide(known, mode, key, text)
            case Reuse(value) => key in s.values && s.values[key] == value
            case Pending => key !in s.values && Item(key, text) in s.pending
    ensures var s := SortKeys(source, known, mode);
            key in s.fallbackKeys <==> key in known.fallbackKeys && Decide(known, mode, key, text).Reuse?
  {
    hide Decide;
    var front, last := source[..|source| - 1], source[|source| - 1];
    if last == Binding(key, text) {
      SortStaysInside(front, known, mode, key);
    } else {
      var i :| 0 <= i < |source| && source[i] == Binding(key, text);
      assert front[i] == source[i];
      assert last.key != key;
      SortCovers(front, known, mode, key, text);
    }
  }

  lemma {:induction false} SortStaysInside(source: Flat, known: Known, mode: Mode, key: string)
    requires forall i | 0 <= i < |source| :: source[i].key != key
    ensures var s := SortKeys(source, known, mode);
            key !in s.values && key !in s.fallbackKeys && forall item | item in s.pending :: item.key != key
  {
    hide Decide;
    if source == [] {
    } else {
      SortStaysInside(source[..|source| - 1], known, mode, key);
    }
  }

  lemma {:induction false} PendingIsSource(source: Flat, known: Known, mode: Mode)
    ensures var s := SortKeys(source, known, mode);
            && (forall item | item in s.pending ::
                  Bound(source, item.key, item.text) && Decide(known, mode, item.key, item.text) == Pending)
            && (forall key | key in s.values :: Has(source, key))
            && (forall key | key in s.fallbackKeys :: Has(source, key) && MayReuse(known, mode, key))
  {
    if source == [] {
    } else {
      var front, last := source[..|source| - 1], source[|source| - 1];
      PendingIsSource(front, known, mode);
      InitLast(source);
      forall key {
        HasAppend(front, [last], key);
      }
      assert [last][0].key == last.key;
      hide Has;
    }
  }

  lemma {:induction false} PendingIsDistinct(source: Flat, known: Known, mode: Mode)
    requires DistinctKeys(source)
    ensures var p := SortKeys(source, known, mode).pending;
            forall i, j | 0 <= i < j < |p| :: p[i].key != p[j].key
  {
    if source == [] {
    } else {
      var front, last := source[..|source| - 1], source[|source| - 1];
      PendingIsDistinct(front, known, mode);
      SortStaysInside(front, known, mode, last.key);
      hide Decide;
    }
  }

  // What the batches add -----------------------------------------------------------------

  predicate DistinctItems(items: seq<Item>) {
    forall i, j | 0 <= i < j < |items| :: items[i].key != items[j].key
  }

  predicate Asked(items: seq<Item>, slot: CacheKey) {
    exists i :: 0 <= i < |items| && Slot(items[i].key, items[i].text) == slot
  }

  lemma AskedAppend(a: seq<Item>, b: seq<Item>, slot: CacheKey)
    ensures Asked(a + b, slot) <==> Asked(a, slot) || Asked(b, slot)
  {
    hide Slot;
    var all := a + b;
    if i :| 0 <= i < |all| && Slot(all[i].key, all[i].text) == slot {
      assert all[i] == if i < |a| then a[i] else b[i - |a|];
    }
    if i :| 0 <= i < |a| && Slot(a[i].key, a[i].text) == slot {
      assert all[i] == a[i];
    }
    if i :| 0 <= i < |b| && Slot(b[i].key, b[i].text) == slot {
      assert all[|a| + i] == b[i];
    }
  }

  lemma AskedSingle(item: Item, slot: CacheKey)
    ensures Asked([item], slot) <==> slot == Slot(item.key, item.text)
  {
    assert [item][0] == item;
    hide Slot;
  }

  /** Only the slots of the items' own keys are asked for. */
  lemma AskedHasKey(items: seq<Item>, slot: CacheKey)
    requires Asked(items, slot)
    ensures slot.key in Keys(items)
  {
    var i :| 0 <= i < |items| && Slot(items[i].key, items[i].text) == slot;
    assert items[i] in items;
    KeysMember(items, items[i]);
    hide Keys, NormalizeText;
  }

  lemma NotAsked(items: seq<Item>, key: string, text: string)
    requires key !in Keys(items)
    ensures !Asked(items, Slot(key, text))
  {
    if Asked(items, Slot(key, text)) {
      AskedHasKey(items, Slot(key, text));
      SlotHasKey(key, text);
    }
    hide Asked, Keys, Slot;
  }


  /** The items' keys join the others, whose values stay. */
  ghost predicate ValuesKept(items: seq<Item>, values: Values, v: Values) {
    && v.Keys == values.Keys + Keys(items)
    && forall key | key in values && key !in Keys(items) :: v[key] == values[key]
  }

  /** Every item has a non-blank text, which is also remembered. */
  ghost predicate TextsAdded(items: seq<Item>, v: Values, m: Memory) {
    forall item | item in items ::
      && item.key in v && Trim(JavaScript, v[item.key]) != ""
      && Slot(item.key, item.text) in m && m[Slot(item.key, item.text)] == v[item.key]
  }

  /** Nothing else is remembered or forgotten. */
  ghost predicate MemoryKept(items: seq<Item>, memory: Memory, m: Memory) {
    forall slot | !Asked(items, slot) ::
      (slot in m <==> slot in memory) && (slot in memory ==> m[slot] == memory[slot])
  }

  /** Nothing but the keys of the items changes, and each of those gets a non-blank text that is also remembered. */
  ghost predicate Added(items: seq<Item>, values: Values, memory: Memory, v: Values, m: Memory) {
    ValuesKept(items, values, v) && TextsAdded(items, v, m) && MemoryKept(items, memory, m)
  }

  lemma KeysMember(items: seq<Item>, item: Item)
    requires item in items
    ensures item.key in Keys(items)
  {
  }

  lemma KeysAppend(items: seq<Item>, more: seq<Item>)
    ensures Keys(items + more) == Keys(items) + Keys(more)
  {
    var all := items + more;
    KeysOfHalves(all, |items|);
    SplitSum(items, more);
  }

  lemma KeysSingle(item: Item)
    ensures Keys([item]) == {item.key}
  {
    assert [item][0] == item;
  }

  lemma NothingToAdd(values: Values, memory: Memory)
    ensures Added([], values, memory, values, memory)
  {
  }

  /** One more item stored. */
  lemma StoreOne(front: seq<Item>, last: Item, value: string, values: Values, memory: Memory, v: Values, m: Memory)
    requires Added(front, values, memory, v, m)
    requires last.key !in Keys(front) && Trim(JavaScript, value) != ""
    ensures Added(front + [last], values, memory, v[last.key := value], m[Slot(last.key, last.text) := value])
  {
    hide Keys, Trim, Slot, Asked;
    KeysAppend(front, [last]);
    KeysSingle(last);
    forall item | item in front
      ensures Slot(item.key, item.text) != Slot(last.key, last.text) && item.key != last.key
    {
      KeysMember(front, item);
      SlotHasKey(item.key, item.text);
      SlotHasKey(last.key, last.text);
    }
    forall slot
      ensures Asked(front + [last], slot) <==> Asked(front, slot) || slot == Slot(last.key, last.text)
    {
      AskedAppend(front, [last], slot);
      AskedSingle(last, slot);
    }
    forall item: Item
      ensures item in front + [last] <==> item in front || item == last
    {
    }
  }

  lemma DistinctFront(items: seq<Item>)
    requires items != [] && DistinctItems(items)
    ensures DistinctItems(items[..|items| - 1]) && items[|items| - 1].key !in Keys(items[..|items| - 1])
  {
  }

  lemma {:induction false} StoreAdds(items: seq<Item>, translated: Translations, values: Values, memory: Memory)
    requires DistinctItems(items)
    requires forall item | item in items :: item.key in translated && Trim(JavaScript, translated[item.key]) != ""
    ensures var (v, m) := Store(items, translated, values, memory); Added(items, values, memory, v, m)
  {
    hide Added, DistinctItems, Trim, Keys;
    if items == [] {
      NothingToAdd(values, memory);
    } else {
      var front, last := items[..|items| - 1], items[|items| - 1];
      InitLast(items);
      DistinctFront(items);
      TrimOfNothing();
      assert translated[last.key] != "";
      StoreAdds(front, translated, values, memory);
      var (v, m) := Store(front, translated, values, memory);
      StoreOne(front, last, translated[last.key], values, memory, v, m);
    }
  }

  lemma TrimOfNothing()
    ensures Trim(JavaScript, "") == ""
  {
  }

  lemma AddedTwice(
    a: seq<Item>, b: seq<Item>, values: Values, memory: Memory, v: Values, m: Memory, v': Values, m': Memory)
    requires DistinctItems(a + b)
    requires Added(a, values, memory, v, m) && Added(b, v, m, v', m')
    ensures Added(a + b, values, memory, v', m')
  {
    hide ValuesKept, TextsAdded, MemoryKept, DistinctItems;
    KeysApart(a, b);
    ValuesKeptTwice(a, b, values, v, v');
    TextsAddedTwice(a, b, v, m, v', m');
    MemoryKeptTwice(a, b, memory, m, m');
  }

  lemma ValuesKeptTwice(a: seq<Item>, b: seq<Item>, values: Values, v: Values, v': Values)
    requires ValuesKept(a, values, v) && ValuesKept(b, v, v')
    ensures ValuesKept(a + b, values, v')
  {
    hide Keys;
    KeysAppend(a, b);
  }

  lemma MemoryKeptTwice(a: seq<Item>, b: seq<Item>, memory: Memory, m: Memory, m': Memory)
    requires MemoryKept(a, memory, m) && MemoryKept(b, m, m')
    ensures MemoryKept(a + b, memory, m')
  {
    forall slot | !Asked(a + b, slot)
      ensures !Asked(a, slot) && !Asked(b, slot)
    {
      AskedAppend(a, b, slot);
    }
    hide Asked;
  }

  lemma InSum(a: seq<Item>, b: seq<Item>, item: Item)
    ensures item in a + b <==> item in a || item in b
  {
  }

  lemma TextsAddedTwice(a: seq<Item>, b: seq<Item>, v: Values, m: Memory, v': Values, m': Memory)
    requires Keys(a) !! Keys(b) && ValuesKept(b, v, v') && MemoryKept(b, m, m')
    requires TextsAdded(a, v, m) && TextsAdded(b, v', m')
    ensures TextsAdded(a + b, v', m')
  {
    hide Keys, Trim, Slot, Asked;
    forall item | item in a + b
      ensures item.key in v' && Trim(JavaScript, v'[item.key]) != ""
      ensures Slot(item.key, item.text) in m' && m'[Slot(item.key, item.text)] == v'[item.key]
    {
      InSum(a, b, item);
      if item !in b {
        KeysMember(a, item);
        NotAsked(b, item.key, item.text);
      }
    }
  }

  lemma KeysApart(a: seq<Item>, b: seq<Item>)
    requires DistinctItems(a + b)
    ensures DistinctItems(a) && DistinctItems(b) && Keys(a) !! Keys(b)
  {
    var all := a + b;
    forall i, j | 0 <= i < |a| && 0 <= j < |b|
      ensures a[i].key != b[j].key
    {
      assert all[i] == a[i] && all[|a| + j] == b[j];
    }
    forall i, j | 0 <= i < j < |a|
      ensures a[i].key != a[j].key
    {
      assert all[i] == a[i] && all[j] == a[j];
    }
    forall i, j | 0 <= i < j < |b|
      ensures b[i].key != b[j].key
    {
      assert all[|a| + i] == b[i] && all[|a| + j] == b[j];
    }
  }

  /** A translated batch has a non-blank text for each of its items. */
  lemma TranslatedIsUsable(batch: seq<Item>, reply: Replies, prompt: nat, item: Item)
    requires Translate(batch, reply, prompt, 0, 0).result.Some? && item in batch
    ensures var t := Translate(batch, reply, prompt, 0, 0).result.value;
            item.key in t && Trim(JavaScript, t[item.key]) != ""
  {
    AllOrNothing(batch, reply, prompt, 0, 0);
    KeysMember(batch, item);
    hide Translate, Keys, Trim, Answered;
  }

  lemma FlattenStep(batches: seq<seq<Item>>)
    requires batches != []
    ensures Batching.Flatten(batches) == batches[0] + Batching.Flatten(batches[1..])
  {
  }

  /** A run whose batches all succeed adds every pending item. */
  lemma {:induction false} TranslateAllAdds(
    batches: seq<seq<Item>>, reply: Replies, prompt: nat, values: Values, memory: Memory)
    requires DistinctItems(Batching.Flatten(batches))
    requires TranslateAll(batches, reply, prompt, values, memory).Some?
    ensures var (v, m) := TranslateAll(batches, reply, prompt, values, memory).value;
            Added(Batching.Flatten(batches), values, memory, v, m)
    decreases |batches|
  {
    hide Added, DistinctItems, Translate, Store, Trim, Batching.Flatten;
    if batches == [] {
      NothingFlattened();
      NothingToAdd(values, memory);
    } else {
      var batch, rest := batches[0], Batching.Flatten(batches[1..]);
      FlattenStep(batches);
      KeysApart(batch, rest);
      var outcome := Translate(batch, reply, prompt, 0, 0);
      forall item | item in batch
        ensures item.key in outcome.result.value && Trim(JavaScript, outcome.result.value[item.key]) != ""
      {
        TranslatedIsUsable(batch, reply, prompt, item);
      }
      StoreAdds(batch, outcome.result.value, values, memory);
      var (v, m) := Store(batch, outcome.result.value, values, memory);
      TranslateAllAdds(batches[1..], reply, outcome.next, v, m);
      var (v', m') := TranslateAll(batches[1..], reply, outcome.next, v, m).value;
      AddedTwice(batch, rest, values, memory, v, m, v', m');
    }
  }

  lemma NothingFlattened()
    ensures Batching.Flatten([]) == []
  {
  }

  // What the last loop does ----------------------------------------------------------------

  /** Translated keys are skipped. */
  lemma {:induction false} FillInSkips(
    pending: seq<Item>, known: Known, mode: Mode, values: Values, fallbackKeys: set<string>)
    requires forall item | item in pending :: item.key in values
    ensures FillIn(pending, known, mode, values, fallbackKeys) == (values, fallbackKeys)
  {
    if pending == [] {
    } else {
      FillInSkips(pending[..|pending| - 1], known, mode, values, fallbackKeys);
    }
  }

  /** English for every pending key, and a note that it is English. */
  ghost predicate Englished(
    pending: seq<Item>, values: Values, fallbackKeys: set<string>, v: Values, f: set<string>)
  {
    && v.Keys == values.Keys + Keys(pending) && f == fallbackKeys + Keys(pending)
    && (forall key | key in values && key !in Keys(pending) :: v[key] == values[key])
    && (forall item | item in pending :: v[item.key] == item.text)
  }

  lemma EnglishOne(
    front: seq<Item>, last: Item, values: Values, fallbackKeys: set<string>, v: Values, f: set<string>)
    requires Englished(front, values, fallbackKeys, v, f) && last.key !in Keys(front)
    ensures Englished(front + [last], values, fallbackKeys, v[last.key := last.text], f + {last.key})
  {
    hide Keys;
    KeysAppend(front, [last]);
    KeysSingle(last);
    forall item | item in front
      ensures item.key != last.key
    {
      KeysMember(front, item);
    }
    forall item: Item
      ensures item in front + [last] <==> item in front || item == last
    {
    }
  }

  lemma NothingEnglished(values: Values, fallbackKeys: set<string>)
    ensures Englished([], values, fallbackKeys, values, fallbackKeys)
  {
  }

  lemma {:induction false} FillInEnglishes(
    pending: seq<Item>, known: Known, mode: Mode, values: Values, fallbackKeys: set<string>)
    requires DistinctItems(pending)
    requires forall item | item in pending :: item.key !in values && item.key !in known.existing
    ensures var (v, f) := FillIn(pending, known, mode, values, fallbackKeys);
            Englished(pending, values, fallbackKeys, v, f)
  {
    if pending == [] {
      NothingEnglished(values, fallbackKeys);
    } else {
      var front, last := pending[..|pending| - 1], pending[|pending| - 1];
      InitLast(pending);
      DistinctFront(pending);
      FillInEnglishes(front, known, mode, values, fallbackKeys);
      var (v, f) := FillIn(front, known, mode, values, fallbackKeys);
      assert last.key !in v;
      EnglishOne(front, last, values, fallbackKeys, v, f);
    }
    hide Englished, DistinctItems, Keys;
  }

  // What a run comes to ----------------------------------------------------------------------

  lemma StoredAdds(sorted: Sorted, memory: Memory, mode: Mode, reply: Replies)
    requires DistinctItems(sorted.pending) && Stored(sorted, memory, mode, reply).Some?
    ensures var (v, m) := Stored(sorted, memory, mode, reply).value;
            if mode.allowTranslate then Added(sorted.pending, sorted.values, memory, v, m)
            else (v, m) == (sorted.values, memory)
  {
    hide Added, DistinctItems, TranslateAll, Greedy, ValidBatch;
    if mode.allowTranslate {
      if sorted.pending == [] {
        NothingToAdd(sorted.values, memory);
      } else {
        GreedyIsSplit([], sorted.pending, mode.budget);
        NothingAdded(sorted.pending);
        TranslateAllAdds(Greedy([], sorted.pending, mode.budget), reply, 0, sorted.values, memory);
      }
    }
  }

  /** A pending key has no value yet, and without a provider no earlier one either. */
  lemma PendingIsNew(source: Flat, known: Known, mode: Mode, item: Item)
    requires DistinctKeys(source) && item in SortKeys(source, known, mode).pending
    ensures item.key !in SortKeys(source, known, mode).values
    ensures !mode.allowTranslate ==> item.key !in known.existing
  {
    PendingIsSource(source, known, mode);
    SortCovers(source, known, mode, item.key, item.text);
    hide SortKeys;
  }

  /**
   The branch of the last loop that falls back on an earlier translation is never
   taken: whenever it is reached, the key has been translated or has none.
   */
  lemma ReuseBranchIsDead(source: Flat, known: Known, mode: Mode, reply: Replies, k: nat)
    requires DistinctKeys(source)
    requires var sorted := SortKeys(source, known, mode);
             k < |sorted.pending| && Stored(sorted, known.memory, mode, reply).Some?
    ensures var sorted := SortKeys(source, known, mode);
            var values := Stored(sorted, known.memory, mode, reply).value.0;
            var (v, f) := FillIn(sorted.pending[..k], known, mode, values, sorted.fallbackKeys);
            sorted.pending[k].key in v || sorted.pending[k].key !in known.existing
  {
    hide SortKeys, Stored, FillIn, Added, DistinctItems, Keys, DistinctKeys;
    var sorted := SortKeys(source, known, mode);
    var values := Stored(sorted, known.memory, mode, reply).value.0;
    PendingIsNew(source, known, mode, sorted.pending[k]);
    if mode.allowTranslate {
      SortedIsDistinct(source, known, mode);
      StoredAdds(sorted, known.memory, mode, reply);
      forall item | item in sorted.pending
        ensures item.key in values
      {
        AddedHas(sorted.pending, sorted.values, known.memory, values,
                 Stored(sorted, known.memory, mode, reply).value.1, item);
      }
      assert forall item | item in sorted.pending[..k] :: item in sorted.pending;
      FillInSkips(sorted.pending[..k], known, mode, values, sorted.fallbackKeys);
    }
  }

  lemma SortedIsDistinct(source: Flat, known: Known, mode: Mode)
    requires DistinctKeys(source)
    ensures DistinctItems(SortKeys(source, known, mode).pending)
  {
    PendingIsDistinct(source, known, mode);
    hide SortKeys;
  }

  lemma AddedHas(items: seq<Item>, values: Values, memory: Memory, v: Values, m: Memory, item: Item)
    requires Added(items, values, memory, v, m) && item in items
    ensures item.key in v && v.Keys == values.Keys + Keys(items)
  {
    hide Keys, Trim;
  }

  /** How a run ends, in terms of its first loop. */
  ghost predicate Settled(sorted: Sorted, known: Known, mode: Mode, r: Synced) {
    if mode.allowTranslate then
      Added(sorted.pending, sorted.values, known.memory, r.values, r.memory) && r.fallbackKeys == sorted.fallbackKeys
    else
      r.memory == known.memory && Englished(sorted.pending, sorted.values, sorted.fallbackKeys, r.values, r.fallbackKeys)
  }

  lemma SyncSettles(source: Flat, known: Known, mode: Mode, reply: Replies)
    requires DistinctKeys(source) && Sync(source, known, mode, reply).Some?
    ensures Settled(SortKeys(source, known, mode), known, mode, Sync(source, known, mode, reply).value)
  {
    hide SortKeys, Stored, FillIn, Added, Englished, DistinctItems, Keys, DistinctKeys;
    var sorted := SortKeys(source, known, mode);
    SortedIsDistinct(source, known, mode);
    StoredAdds(sorted, known.memory, mode, reply);
    var (values, memory) := Stored(sorted, known.memory, mode, reply).value;
    if mode.allowTranslate {
      forall item | item in sorted.pending
        ensures item.key in values
      {
        AddedHas(sorted.pending, sorted.values, known.memory, values, memory, item);
      }
      FillInSkips(sorted.pending, known, mode, values, sorted.fallbackKeys);
    } else {
      forall item | item in sorted.pending
        ensures item.key !in values && item.key !in known.existing
      {
        PendingIsNew(source, known, mode, item);
      }
      FillInEnglishes(sorted.pending, known, mode, values, sorted.fallbackKeys);
    }
  }

  lemma StoredIgnoresForce(sorted: Sorted, memory: Memory, mode: Mode, force: bool, reply: Replies)
    ensures Stored(sorted, memory, mode, reply) == Stored(sorted, memory, mode.(force := force), reply)
  {
    hide TranslateAll, Greedy;
  }

  lemma {:induction false} SortIgnoresForce(source: Flat, known: Known, mode: Mode, force: bool)
    ensures SortKeys(source, known, mode) == SortKeys(source, known, mode.(force := force))
  {
    if source == [] {
    } else {
      SortIgnoresForce(source[..|source| - 1], known, mode, force);
    }
  }

  /** So `--force` makes no difference to what a run produces. */
  lemma ForceIsIrrelevant(source: Flat, known: Known, mode: Mode, force: bool, reply: Replies)
    requires DistinctKeys(source)
    ensures Sync(source, known, mode, reply) == Sync(source, known, mode.(force := force), reply)
  {
    hide SortKeys, Stored, FillIn, Added, DistinctItems, Keys, DistinctKeys;
    var other := mode.(force := force);
    var sorted := SortKeys(source, known, mode);
    SortIgnoresForce(source, known, mode, force);
    StoredIgnoresForce(sorted, known.memory, mode, force, reply);
    if Stored(sorted, known.memory, mode, reply).Some? {
      SyncSettles(source, known, mode, reply);
      SyncSettles(source, known, other, reply);
      if mode.allowTranslate {
        var (values, memory) := Stored(sorted, known.memory, mode, reply).value;
        SortedIsDistinct(source, known, mode);
        StoredAdds(sorted, known.memory, mode, reply);
        forall item | item in sorted.pending
          ensures item.key in values
        {
          AddedHas(sorted.pending, sorted.values, known.memory, values, memory, item);
        }
        FillInSkips(sorted.pending, known, mode, values, sorted.fallbackKeys);
        FillInSkips(sorted.pending, known, other, values, sorted.fallbackKeys);
      } else {
        EnglishedOnce(sorted.pending, sorted.values, sorted.fallbackKeys,
                      Sync(source, known, mode, reply).value, Sync(source, known, other, reply).value);
      }
    }
  }

  lemma EnglishedOnce(pending: seq<Item>, values: Values, fallbackKeys: set<string>, a: Synced, b: Synced)
    requires a.memory == b.memory
    requires Englished(pending, values, fallbackKeys, a.values, a.fallbackKeys)
    requires Englished(pending, values, fallbackKeys, b.values, b.fallbackKeys)
    ensures a == b
  {
    forall key | key in a.values
      ensures a.values[key] == b.values[key]
    {
      if key in Keys(pending) {
        var i :| 0 <= i < |pending| && pending[i].key == key;
        assert pending[i] in pending;
      }
    }
    assert a.values == b.values;
  }

  // The laws of a run --------------------------------------------------------------------------

  lemma SameText(source: Flat, key: string, text: string, other: string)
    requires DistinctKeys(source) && Bound(source, key, text) && Bound(source, key, other)
    ensures text == other
  {
    var i :| 0 <= i < |source| && source[i] == Binding(key, text);
    var j :| 0 <= j < |source| && source[j] == Binding(key, other);
  }

  lemma BoundIsHas(source: Flat, key: string)
    ensures Has(source, key) <==> exists text :: Bound(source, key, text)
  {
    if Has(source, key) {
      var i :| 0 <= i < |source| && source[i].key == key;
      assert source[i] == Binding(key, source[i].value);
      assert Bound(source, key, source[i].value);
    }
    if text :| Bound(source, key, text) {
      var i :| 0 <= i < |source| && source[i] == Binding(key, text);
      assert source[i].key == key;
    }
  }

  /** A key is among the pending ones exactly when its own binding is. */
  lemma PendingKey(source: Flat, known: Known, mode: Mode, key: string, text: string)
    requires DistinctKeys(source) && Bound(source, key, text)
    ensures var pending := SortKeys(source, known, mode).pending;
            && (key in Keys(pending) <==> Decide(known, mode, key, text).Pending?)
            && (Item(key, text) in pending <==> Decide(known, mode, key, text).Pending?)
  {
    PendingIsSource(source, known, mode);
    SortCovers(source, known, mode, key, text);
    var pending := SortKeys(source, known, mode).pending;
    if Item(key, text) in pending {
      KeysMember(pending, Item(key, text));
    }
    forall item | item in pending && item.key == key
      ensures item == Item(key, text)
    {
      SameText(source, key, text, item.text);
    }
    hide SortKeys, Decide, Bound;
  }

  /**
   What a successful run makes of a source binding. A kept translation stays as it
   was; a pending key is translated and remembered, or becomes an English fallback.
   */
  lemma BindingSettles(source: Flat, known: Known, mode: Mode, reply: Replies, key: string, text: string)
    requires DistinctKeys(source) && Bound(source, key, text) && Sync(source, known, mode, reply).Some?
    ensures var r := Sync(source, known, mode, reply).value;
            && key in r.values
            && (Decide(known, mode, key, text).Reuse? ==> r.values[key] == Decide(known, mode, key, text).value)
            && (Decide(known, mode, key, text).Pending? ==>
                 if mode.allowTranslate then Trim(JavaScript, r.values[key]) != "" && Remembers(r, key, text)
                 else r.values[key] == text)
            && (Decide(known, mode, key, text).Reuse? || !mode.allowTranslate ==>
                 SameSlot(known.memory, r.memory, Slot(key, text)))
    ensures key in Sync(source, known, mode, reply).value.fallbackKeys
            <==> !mode.allowTranslate && (key in known.fallbackKeys || Decide(known, mode, key, text).Pending?)
  {
    hide SortKeys, Sync, Decide, Keys, Trim, DistinctKeys, Bound, Slot, Asked;
    SyncSettles(source, known, mode, reply);
    SortCovers(source, known, mode, key, text);
    PendingKey(source, known, mode, key, text);
    FallbackMayBeReused(source, known, mode, key);
    if Decide(known, mode, key, text).Reuse? {
      NotAsked(SortKeys(source, known, mode).pending, key, text);
    }
    assert Decide(known, mode, key, text).Pending? ==> SortKeys(source, known, mode).pending != [];
  }

  predicate Remembers(r: Synced, key: string, text: string) {
    && Slot(key, text) in r.memory && key in r.values
    && r.memory[Slot(key, text)] == r.values[key]
  }

  predicate SameSlot(a: Memory, b: Memory, slot: CacheKey) {
    (slot in a <==> slot in b) && (slot in a ==> a[slot] == b[slot])
  }

  lemma FallbackMayBeReused(source: Flat, known: Known, mode: Mode, key: string)
    ensures key in SortKeys(source, known, mode).fallbackKeys ==> !(mode.allowTranslate && key in known.fallbackKeys)
    ensures key in SortKeys(source, known, mode).fallbackKeys ==> Has(source, key)
  {
    PendingIsSource(source, known, mode);
    hide SortKeys, Has;
  }

  /** Every source key gets a value and no other key does; fallbacks are source keys. */
  lemma RunIsTotal(source: Flat, known: Known, mode: Mode, reply: Replies)
    requires DistinctKeys(source) && Sync(source, known, mode, reply).Some?
    ensures var r := Sync(source, known, mode, reply).value;
            && (forall key :: key in r.values <==> Has(source, key))
            && (forall key | key in r.fallbackKeys :: Has(source, key))
  {
    hide SortKeys, Sync, Decide, Trim, DistinctKeys, Has;
    var r := Sync(source, known, mode, reply).value;
    var sorted := SortKeys(source, known, mode);
    SyncSettles(source, known, mode, reply);
    PendingIsSource(source, known, mode);
    forall key | key in Keys(sorted.pending)
      ensures Has(source, key)
    {
      var i :| 0 <= i < |sorted.pending| && sorted.pending[i].key == key;
      assert sorted.pending[i] in sorted.pending;
      BoundIsHas(source, key);
    }
    forall key | Has(source, key)
      ensures key in r.values
    {
      BoundIsHas(source, key);
      var text :| Bound(source, key, text);
      BindingSettles(source, known, mode, reply, key, text);
    }
  }

  /** A run with a provider leaves no fallback; one without keeps those it knew of and adds what was pending. */
  lemma FallbacksAreExact(source: Flat, known: Known, mode: Mode, reply: Replies)
    requires DistinctKeys(source) && Sync(source, known, mode, reply).Some?
    ensures var r := Sync(source, known, mode, reply).value;
            if mode.allowTranslate then r.fallbackKeys == {}
            else forall key ::
                   key in r.fallbackKeys
                   <==> Has(source, key) && (key in known.fallbackKeys || Unknown(source, known, key))
  {
    hide SortKeys, Sync, Decide, Trim, DistinctKeys, Has;
    var r := Sync(source, known, mode, reply).value;
    RunIsTotal(source, known, mode, reply);
    forall key
      ensures mode.allowTranslate ==> key !in r.fallbackKeys
      ensures !mode.allowTranslate ==>
                (key in r.fallbackKeys
                 <==> Has(source, key) && (key in known.fallbackKeys || Unknown(source, known, key)))
    {
      if Has(source, key) {
        BoundIsHas(source, key);
        var text :| Bound(source, key, text);
        BindingSettles(source, known, mode, reply, key, text);
        if !mode.allowTranslate {
          UnknownIsPending(source, known, mode, key, text);
        }
      }
    }
  }

  /** No translation is at hand for the key: neither remembered for its text, nor in the locale file. */
  ghost predicate Unknown(source: Flat, known: Known, key: string) {
    && key !in known.existing
    && forall text | Bound(source, key, text) :: Slot(key, text) !in known.memory
  }

  lemma UnknownIsPending(source: Flat, known: Known, mode: Mode, key: string, text: string)
    requires DistinctKeys(source) && Bound(source, key, text) && !mode.allowTranslate
    ensures Unknown(source, known, key) <==> Decide(known, mode, key, text).Pending?
  {
    forall other | Bound(source, key, other)
      ensures other == text
    {
      SameText(source, key, text, other);
    }
    hide Bound, DistinctKeys;
  }

  // Where the values come from ----------------------------------------------------------------

  /** Some prompt gave `text` for the key. */
  ghost predicate Told(reply: Replies, key: string, text: string) {
    exists p: nat :: reply(p).Parsed? && IsTranslation(reply(p).values, key) && reply(p).values[key].text == text
  }

  lemma TranslatedIsTold(batch: seq<Item>, reply: Replies, prompt: nat, item: Item)
    requires Translate(batch, reply, prompt, 0, 0).result.Some? && item in batch
    ensures var t := Translate(batch, reply, prompt, 0, 0).result.value;
            item.key in t && t[item.key] != "" && Told(reply, item.key, t[item.key])
  {
    AllOrNothing(batch, reply, prompt, 0, 0);
    KeysMember(batch, item);
    TrimOfNothing();
    hide Translate, Keys, Trim;
  }

  lemma {:induction false} StorePuts(items: seq<Item>, translated: Translations, values: Values, memory: Memory, item: Item)
    requires DistinctItems(items) && item in items && item.key in translated && translated[item.key] != ""
    ensures var (v, m) := Store(items, translated, values, memory); item.key in v && v[item.key] == translated[item.key]
  {
    hide Slot;
    var front, last := items[..|items| - 1], items[|items| - 1];
    InitLast(items);
    DistinctFront(items);
    if item != last {
      StorePuts(front, translated, values, memory, item);
      KeysMember(front, item);
    }
    hide Keys, DistinctItems;
  }

  /** What one batch has put stays when the later batches are stored. */
  lemma LaterBatchesKeep(
    batches: seq<seq<Item>>, reply: Replies, prompt: nat, values: Values, memory: Memory, key: string)
    requires DistinctItems(Batching.Flatten(batches)) && key in values && key !in Keys(Batching.Flatten(batches))
    requires TranslateAll(batches, reply, prompt, values, memory).Some?
    ensures var (v, m) := TranslateAll(batches, reply, prompt, values, memory).value; key in v && v[key] == values[key]
  {
    hide TranslateAll, Keys, DistinctItems, Trim, Batching.Flatten, TextsAdded, MemoryKept;
    TranslateAllAdds(batches, reply, prompt, values, memory);
  }

  lemma {:induction false} TranslateAllTells(
    batches: seq<seq<Item>>, reply: Replies, prompt: nat, values: Values, memory: Memory, item: Item)
    requires DistinctItems(Batching.Flatten(batches)) && item in Batching.Flatten(batches)
    requires TranslateAll(batches, reply, prompt, values, memory).Some?
    ensures var (v, m) := TranslateAll(batches, reply, prompt, values, memory).value;
            item.key in v && Told(reply, item.key, v[item.key])
    decreases |batches|
  {
    hide Told, DistinctItems, Translate, Store, Trim, Batching.Flatten, Keys;
    if batches == [] {
      NothingFlattened();
      assert false;
    } else {
      var batch, rest := batches[0], Batching.Flatten(batches[1..]);
      FlattenStep(batches);
      KeysApart(batch, rest);
      InSum(batch, rest, item);
      var outcome := Translate(batch, reply, prompt, 0, 0);
      var (v, m) := Store(batch, outcome.result.value, values, memory);
      if item in batch {
        TranslatedIsTold(batch, reply, prompt, item);
        StorePuts(batch, outcome.result.value, values, memory, item);
        KeysMember(batch, item);
        LaterBatchesKeep(batches[1..], reply, outcome.next, v, m, item.key);
      } else {
        TranslateAllTells(batches[1..], reply, outcome.next, v, m, item);
      }
    }
  }

  /** With a provider, a pending key ends with a text that a prompt of this run gave for it. */
  lemma PendingIsTold(source: Flat, known: Known, mode: Mode, reply: Replies, item: Item)
    requires DistinctKeys(source) && Sync(source, known, mode, reply).Some? && mode.allowTranslate
    requires item in SortKeys(source, known, mode).pending
    ensures var r := Sync(source, known, mode, reply).value;
            item.key in r.values && Told(reply, item.key, r.values[item.key])
  {
    hide SortKeys, FillIn, Told, TranslateAll, DistinctItems, Greedy, ValidBatch, DistinctKeys, Added, Englished, Keys;
    var sorted := SortKeys(source, known, mode);
    SortedIsDistinct(source, known, mode);
    StoredAdds(sorted, known.memory, mode, reply);
    var (values, memory) := Stored(sorted, known.memory, mode, reply).value;
    forall other | other in sorted.pending
      ensures other.key in values
    {
      AddedHas(sorted.pending, sorted.values, known.memory, values, memory, other);
    }
    FillInSkips(sorted.pending, known, mode, values, sorted.fallbackKeys);
    GreedyIsSplit([], sorted.pending, mode.budget);
    NothingAdded(sorted.pending);
    TranslateAllTells(Greedy([], sorted.pending, mode.budget), reply, 0, sorted.values, known.memory, item);
  }

  /**
   Where the value of a source key comes from. Unless it is a fallback that is to be
   translated, it is the text remembered for the key and the same words, or else the
   existing one. Otherwise a prompt of this run gave it, or it is English.
   */
  lemma ValueComesFrom(source: Flat, known: Known, mode: Mode, reply: Replies, key: string, text: string, other: string)
    requires DistinctKeys(source) && Bound(source, key, text) && Sync(source, known, mode, reply).Some?
    requires Slot(key, other) in known.memory ==> Words(other) == Words(text)
    requires Slot(key, other) !in known.memory ==> forall t :: Words(t) == Words(text) ==> Slot(key, t) !in known.memory
    ensures var r := Sync(source, known, mode, reply).value;
            var refreshed := mode.allowTranslate && key in known.fallbackKeys;
            && key in r.values
            && if !refreshed && Slot(key, other) in known.memory then r.values[key] == known.memory[Slot(key, other)]
               else if !refreshed && key in known.existing then r.values[key] == known.existing[key]
               else if mode.allowTranslate then Told(reply, key, r.values[key])
               else r.values[key] == text
  {
    hide SortKeys, Sync, Trim, DistinctKeys, Bound, Slot, Words, Told;
    SlotIff(key, other, key, text);
    BindingSettles(source, known, mode, reply, key, text);
    if Decide(known, mode, key, text).Pending? && mode.allowTranslate {
      PendingKey(source, known, mode, key, text);
      PendingIsTold(source, known, mode, reply, Item(key, text));
    }
  }

  /** Translations remembered for other words are not reused: without an existing value the key is translated anew. */
  lemma StaleIsTranslated(source: Flat, known: Known, mode: Mode, reply: Replies, key: string, text: string)
    requires DistinctKeys(source) && Bound(source, key, text) && key !in known.existing
    requires forall t | Slot(key, t) in known.memory :: Words(t) != Words(text)
    ensures Item(key, text) in SortKeys(source, known, mode).pending
    ensures Sync(source, known, mode, reply).Some? ==>
              var r := Sync(source, known, mode, reply).value;
              key in r.values && if mode.allowTranslate then Told(reply, key, r.values[key]) else r.values[key] == text
  {
    hide SortKeys, Sync, DistinctKeys, Bound, Slot, Words, Told;
    PendingKey(source, known, mode, key, text);
    if Sync(source, known, mode, reply).Some? {
      ValueComesFrom(source, known, mode, reply, key, text, text);
    }
  }

  // A run on its own output ---------------------------------------------------------------------

  /** What the next run finds. */
  function NextKnown(r: Synced): Known {
    Known(r.values, r.fallbackKeys, r.memory)
  }

  lemma NextDecides(source: Flat, known: Known, mode: Mode, again: Mode, reply: Replies, key: string, text: string)
    requires DistinctKeys(source) && Bound(source, key, text) && Sync(source, known, mode, reply).Some?
    requires again.allowTranslate == mode.allowTranslate
    ensures var r := Sync(source, known, mode, reply).value;
            key in r.values && Decide(NextKnown(r), again, key, text) == Reuse(r.values[key])
  {
    hide Sync, DistinctKeys, Bound, Trim;
    BindingSettles(source, known, mode, reply, key, text);
  }

  lemma HasMember(items: seq<Item>)
    ensures items != [] ==> exists item :: item in items
  {
    if items != [] {
      assert items[0] in items;
    }
  }

  /** When everything may be reused, the first loop settles the run. */
  lemma AllReused(source: Flat, known: Known, mode: Mode, reply: Replies, values: Values)
    requires DistinctKeys(source) && (forall key :: key in values <==> Has(source, key))
    requires forall key | key in known.fallbackKeys :: Has(source, key)
    requires forall key, text | Bound(source, key, text) ::
               key in values && Decide(known, mode, key, text) == Reuse(values[key])
    ensures SortKeys(source, known, mode).pending == []
    ensures Sync(source, known, mode, reply) == Some(Synced(values, known.fallbackKeys, known.memory))
  {
    hide SortKeys, Decide, Has, Bound, DistinctKeys;
    var sorted := SortKeys(source, known, mode);
    PendingIsSource(source, known, mode);
    HasMember(sorted.pending);
    forall key
      ensures key in sorted.values <==> key in values
      ensures key in values ==> sorted.values[key] == values[key]
      ensures key in sorted.fallbackKeys <==> key in known.fallbackKeys
    {
      if Has(source, key) {
        BoundIsHas(source, key);
        var text :| Bound(source, key, text);
        SortCovers(source, known, mode, key, text);
      }
    }
    assert sorted.values == values && sorted.fallbackKeys == known.fallbackKeys;
    FillInSkips([], known, mode, values, known.fallbackKeys);
  }

  /**
   Running again in the same mode, on what a run left, changes nothing: no prompt is
   made, so no reply matters, and values, fallbacks and memory stay as they are.
   */
  lemma RerunChangesNothing(
    source: Flat, known: Known, mode: Mode, reply: Replies, again: Mode, otherReply: Replies)
    requires DistinctKeys(source) && Sync(source, known, mode, reply).Some?
    requires again.allowTranslate == mode.allowTranslate
    ensures var r := Sync(source, known, mode, reply).value;
            && SortKeys(source, NextKnown(r), again).pending == []
            && Sync(source, NextKnown(r), again, otherReply) == Some(r)
  {
    hide *;
    var r := Sync(source, known, mode, reply).value;
    RunIsTotal(source, known, mode, reply);
    NextKnownFields(r);
    forall key, text | Bound(source, key, text)
      ensures key in r.values && Decide(NextKnown(r), again, key, text) == Reuse(r.values[key])
    {
      NextDecides(source, known, mode, again, reply, key, text);
    }
    AllReused(source, NextKnown(r), again, otherReply, r.values);
  }

  lemma NextKnownFields(r: Synced)
    ensures NextKnown(r).existing == r.values && NextKnown(r).fallbackKeys == r.fallbackKeys
    ensures NextKnown(r).memory == r.memory
  {
  }

  // Locale files ----------------------------------------------------------------------------------

  /** What the locale file is written from: the values, in the order of the source. */
  function Written(source: Flat, values: Values): (r: Flat)
    requires forall i | 0 <= i < |source| :: source[i].key in values
    ensures |r| == |source|
    ensures forall i | 0 <= i < |r| :: r[i] == Binding(source[i].key, values[source[i].key])
  {
    seq(|source|, i requires 0 <= i < |source| => Binding(source[i].key, values[source[i].key]))
  }

  /** The flat form has exactly the bindings of the map. */
  predicate Reads(flat: Flat, values: Values) {
    && (forall b | b in flat :: b.key in values && values[b.key] == b.value)
    && (forall key | key in values :: Binding(key, values[key]) in flat)
  }

  lemma KeysHaveValues(source: Flat, values: Values)
    requires forall key | Has(source, key) :: key in values
    ensures forall i | 0 <= i < |source| :: source[i].key in values
  {
    forall i | 0 <= i < |source|
      ensures source[i].key in values
    {
      assert Has(source, source[i].key);
    }
  }

  lemma WrittenReads(source: Flat, values: Values)
    requires forall i | 0 <= i < |source| :: source[i].key in values
    requires forall key | key in values :: Has(source, key)
    ensures Reads(Written(source, values), values)
  {
    var written := Written(source, values);
    forall key | key in values
      ensures Binding(key, values[key]) in written
    {
      var i :| 0 <= i < |source| && source[i].key == key;
      assert written[i] == Binding(key, values[key]);
    }
    hide Written;
  }

  lemma SameContentsIff(a: Flat, b: Flat, values: Values)
    requires Reads(a, values)
    ensures Reads(b, values) <==> forall x :: x in b <==> x in a
  {
  }

  /** The map that a flat form amounts to. */
  function ReadMap(flat: Flat): Values {
    if flat == [] then map[] else ReadMap(flat[..|flat| - 1])[flat[|flat| - 1].key := flat[|flat| - 1].value]
  }

  lemma {:induction false} ReadMapOf(flat: Flat)
    ensures forall b | b in flat :: b.key in ReadMap(flat)
    ensures forall key | key in ReadMap(flat) :: Binding(key, ReadMap(flat)[key]) in flat
  {
    if flat == [] {
      assert ReadMap(flat) == map[];
    } else {
      InitLast(flat);
      ReadMapOf(flat[..|flat| - 1]);
    }
  }

  lemma ReadMapReads(flat: Flat, values: Values)
    requires DistinctKeys(flat)
    ensures ReadMap(flat) == values <==> Reads(flat, values)
  {
    ReadMapOf(flat);
    forall b | b in flat
      ensures ReadMap(flat)[b.key] == b.value
    {
      var read := Binding(b.key, ReadMap(flat)[b.key]);
      var i :| 0 <= i < |flat| && flat[i] == b;
      var j :| 0 <= j < |flat| && flat[j] == read;
    }
    if Reads(flat, values) {
      forall key | key in ReadMap(flat)
        ensures key in values && values[key] == ReadMap(flat)[key]
      {
        assert Binding(key, ReadMap(flat)[key]) in flat;
      }
      forall key | key in values
        ensures key in ReadMap(flat)
      {
        assert Binding(key, values[key]) in flat;
      }
      assert ReadMap(flat) == values;
    }
    hide ReadMap;
  }

  /**
   The file written for a source with plain keys and no empty sub-objects reads back as
   the values that went into it exactly when the source has no inherited keys.
   */
  lemma WrittenReadsBackIff(sourceTree: Entries, values: Values)
    requires WellShaped(sourceTree) && PlainKeys(sourceTree)
    requires forall key :: key in values <==> Has(NestedKeys.Flatten(sourceTree), key)
    ensures var source := NestedKeys.Flatten(sourceTree);
            && DistinctKeys(source)
            && (forall i | 0 <= i < |source| :: source[i].key in values)
            && (ReadMap(NestedKeys.Flatten(Rebuild(Written(source, values)))) == values <==> OwnKeys(sourceTree))
  {
    hide *;
    var source := NestedKeys.Flatten(sourceTree);
    KeysHaveValues(source, values);
    FlattenNamesLeaves(sourceTree);
    FlatIsSettableIff(sourceTree);
    PlainHasNoLeadingDots(sourceTree);
    var written := Written(source, values);
    SameKeysSameLaws(source, written);
    FlattenInvertsRebuildIff(written);
    WrittenReads(source, values);
    SameContentsIff(written, NestedKeys.Flatten(Rebuild(written)), values);
    ReadMapReads(NestedKeys.Flatten(Rebuild(written)), values);
  }

  lemma SameKeysSameLaws(a: Flat, b: Flat)
    requires |a| == |b| && forall i | 0 <= i < |a| :: a[i].key == b[i].key
    ensures PrefixFree(a) ==> PrefixFree(b)
    ensures NoLeadingDots(a) ==> NoLeadingDots(b)
    ensures AllSettable(a) <==> AllSettable(b)
  {
    hide Split, Clash, LeadingDot, Settable;
  }

  /**
   From one run to the next by way of the file: the values of a run are written as a tree
   and read back, and the next run in the same mode makes no prompt and changes nothing.
   */
  lemma RerunFromFileChangesNothing(
    sourceTree: Entries, known: Known, mode: Mode, reply: Replies, again: Mode, otherReply: Replies)
    requires WellShaped(sourceTree) && PlainKeys(sourceTree) && OwnKeys(sourceTree)
    requires Sync(NestedKeys.Flatten(sourceTree), known, mode, reply).Some?
    requires again.allowTranslate == mode.allowTranslate
    ensures var source := NestedKeys.Flatten(sourceTree);
            var r := Sync(source, known, mode, reply).value;
            && (forall i | 0 <= i < |source| :: source[i].key in r.values)
            && var file := Rebuild(Written(source, r.values));
               var next := Known(ReadMap(NestedKeys.Flatten(file)), r.fallbackKeys, r.memory);
               && SortKeys(source, next, again).pending == []
               && Sync(source, next, again, otherReply) == Some(r)
               && Rebuild(Written(source, Sync(source, next, again, otherReply).value.values)) == file
  {
    hide *;
    var source := NestedKeys.Flatten(sourceTree);
    FlattenNamesLeaves(sourceTree);
    RunIsTotal(source, known, mode, reply);
    var r := Sync(source, known, mode, reply).value;
    WrittenReadsBackIff(sourceTree, r.values);
    RerunChangesNothing(source, known, mode, reply, again, otherReply);
    NextKnownOf(r);
  }

  lemma NextKnownOf(r: Synced)
    ensures NextKnown(r) == Known(r.values, r.fallbackKeys, r.memory)
  {
  }
}
