/** Translating one batch: two attempts, and a split in halves when a prompt times out. */
module TranslateBatch {
  import opened Wrappers
  import opened Text
  import opened Batching

  const TRANSLATE_MAX_ATTEMPTS: nat := 2

  /** A member of the parsed reply: only strings are translations. */
  datatype Value = Str(text: string) | NotAString

  /**
   What a prompt comes to: it throws, with a message that speaks of a timeout or
   not (unparsable replies included), or it is parsed. `reply(k)` is the outcome
   of the k-th prompt of a run, whatever was asked.
   */
  datatype Reply = Threw(timedOut: bool) | Parsed(values: map<string, Value>)

  type Replies = nat -> Reply
  type Translations = map<string, string>

  predicate IsTranslation(values: map<string, Value>, key: string) {
    key in values && values[key].Str? && Trim(JavaScript, values[key].text) != ""
  }

  /** The error message names the missing key, so a key can make it look like a timeout. */
  function LowerAscii(c: char): char {
    if 'A' <= c <= 'Z' then ((c as int) + 32) as char else c
  }

  function Lower(s: string): string {
    if s == "" then "" else [LowerAscii(s[0])] + Lower(s[1..])
  }

  const TIMED_OUT := "timed out"
  const MISSING := "missing translation for "

  predicate MentionsTimeout(message: string) {
    Index(Lower(message), TIMED_OUT) != -1
  }

  /** What one attempt makes of a reply: all translations, or an error that is a timeout or not. */
  datatype Attempt = Done(translated: Translations) | Error(timedOut: bool)

  function Collect(items: seq<Item>, values: map<string, Value>, translated: Translations): Attempt
    decreases |items|
  {
    if items == [] then Done(translated)
    else if !IsTranslation(values, items[0].key) then Error(MentionsTimeout(MISSING + items[0].key))
    else Collect(items[1..], values, translated[items[0].key := values[items[0].key].text])
  }

  function Judge(items: seq<Item>, reply: Reply): Attempt {
    match reply
    case Threw(timedOut) => Error(timedOut)
    case Parsed(values) => Collect(items, values, map[])
  }

  /** The outcome, the number of the next prompt, and how deep the splits went. */
  datatype Outcome = Outcome(result: Option<Translations>, next: nat, deepest: nat)

  function Max(a: nat, b: nat): nat {
    if a >= b then a else b
  }

  function Midpoint(items: seq<Item>): nat {
    (|items| + 1) / 2
  }

  function Translate(items: seq<Item>, reply: Replies, prompt: nat, depth: nat, attempt: nat): Outcome
    decreases |items|, TRANSLATE_MAX_ATTEMPTS - attempt
  {
    if attempt >= TRANSLATE_MAX_ATTEMPTS then Outcome(None, prompt, depth)
    else
      var tried := Judge(items, reply(prompt));
      if tried.Done? then Outcome(Some(tried.translated), prompt + 1, depth)
      else if tried.timedOut && |items| > 1 then
        var mid := Midpoint(items);
        var left := Translate(items[..mid], reply, prompt + 1, depth + 1, 0);
        if left.result.None? then left
        else
          var right := Translate(items[mid..], reply, left.next, depth + 1, 0);
          if right.result.None? then right.(deepest := Max(left.deepest, right.deepest))
          else Outcome(Some(left.result.value + right.result.value), right.next, Max(left.deepest, right.deepest))
      else if tried.timedOut then Outcome(None, prompt + 1, depth)
      else Translate(items, reply, prompt + 1, depth, attempt + 1)
  }

  // The loop over attempts -----------------------------------------------------------

  method CollectTranslations(items: seq<Item>, values: map<string, Value>) returns (r: Attempt)
    ensures r == Collect(items, values, map[])
  {
    var translated: Translations := map[];
    assert items[0..] == items;
    for i := 0 to |items|
      invariant Collect(items[i..], values, translated) == Collect(items, values, map[])
    {
      assert items[i..][0] == items[i] && items[i..][1..] == items[i + 1..];
      if !IsTranslation(values, items[i].key) {
        return Error(MentionsTimeout(MISSING + items[i].key));
      }
      translated := translated[items[i].key := values[items[i].key].text];
    }
    return Done(translated);
  }

  method TranslateItems(items: seq<Item>, reply: Replies, prompt: nat, splitDepth: nat) returns (r: Outcome)
    ensures r == Translate(items, reply, prompt, splitDepth, 0)
    decreases |items|
  {
    hide Collect;
    var next := prompt;
    for attempt := 0 to TRANSLATE_MAX_ATTEMPTS
      invariant Translate(items, reply, next, splitDepth, attempt) == Translate(items, reply, prompt, splitDepth, 0)
    {
      var answer := reply(next);
      var tried: Attempt;
      match answer {
        case Threw(timedOut) => tried := Error(timedOut);
        case Parsed(values) => tried := CollectTranslations(items, values);
      }
      next := next + 1;
      if tried.Done? {
        return Outcome(Some(tried.translated), next, splitDepth);
      }
      if tried.timedOut && |items| > 1 {
        var midpoint := (|items| + 1) / 2;
        var left := TranslateItems(items[..midpoint], reply, next, splitDepth + 1);
        if left.result.None? {
          return left;
        }
        var right := TranslateItems(items[midpoint..], reply, left.next, splitDepth + 1);
        var deepest := Max(left.deepest, right.deepest);
        if right.result.None? {
          return Outcome(None, right.next, deepest);
        }
        return Outcome(Some(left.result.value + right.result.value), right.next, deepest);
      }
      if tried.timedOut {
        return Outcome(None, next, splitDepth);
      }
    }
    return Outcome(None, next, splitDepth);
  }

  // How long it takes ------------------------------------------------------------------

  /** The smallest `d` with `n <= 2^d`. */
  function CeilLog2(n: nat): nat {
    if n <= 1 then 0 else 1 + CeilLog2((n + 1) / 2)
  }

  function Pow2(d: nat): nat {
    if d == 0 then 1 else 2 * Pow2(d - 1)
  }

  lemma {:induction false} CeilLog2IsLeast(n: nat, d: nat)
    ensures n <= Pow2(CeilLog2(n))
    ensures n <= Pow2(d) ==> CeilLog2(n) <= d
  {
    if n > 1 {
      var half := (n + 1) / 2;
      CeilLog2IsLeast(half, if d == 0 then 0 else d - 1);
    }
  }

  lemma {:induction false} CeilLog2Grows(m: nat, n: nat)
    requires m <= n
    ensures CeilLog2(m) <= CeilLog2(n)
  {
    if m > 1 {
      CeilLog2Grows((m + 1) / 2, (n + 1) / 2);
    }
  }

  /** A batch of `n` items takes at most `4 n - 2` prompts, and nests splits at most `ceil(log2 n)` deep. */
  lemma {:induction false} PromptBound(items: seq<Item>, reply: Replies, prompt: nat, depth: nat, attempt: nat)
    requires items != [] && attempt <= TRANSLATE_MAX_ATTEMPTS
    ensures var r := Translate(items, reply, prompt, depth, attempt);
            && prompt <= r.next <= prompt + 4 * |items| - 2 - attempt
            && depth <= r.deepest <= depth + CeilLog2(|items|)
    decreases |items|, TRANSLATE_MAX_ATTEMPTS - attempt
  {
    hide Judge;
    if attempt < TRANSLATE_MAX_ATTEMPTS {
      var tried := Judge(items, reply(prompt));
      if tried.Error? && tried.timedOut && |items| > 1 {
        var mid := Midpoint(items);
        CeilLog2Grows(|items| - mid, mid);
        PromptBound(items[..mid], reply, prompt + 1, depth + 1, 0);
        var left := Translate(items[..mid], reply, prompt + 1, depth + 1, 0);
        if left.result.Some? {
          PromptBound(items[mid..], reply, left.next, depth + 1, 0);
        }
      } else if tried.Error? && !tried.timedOut {
        PromptBound(items, reply, prompt + 1, depth, attempt + 1);
      }
    }
  }

  // What it returns ----------------------------------------------------------------------

  function Keys(items: seq<Item>): set<string> {
    set i | 0 <= i < |items| :: items[i].key
  }

  lemma {:induction false} CollectIsComplete(items: seq<Item>, values: map<string, Value>, translated: Translations)
    requires Collect(items, values, translated).Done?
    ensures var r := Collect(items, values, translated).translated;
            && r.Keys == translated.Keys + Keys(items)
            && forall key | key in r :: if key in Keys(items) then IsTranslation(values, key) && r[key] == values[key].text
                                        else r[key] == translated[key]
    decreases |items|
  {
    hide Trim, MentionsTimeout;
    if items == [] {
    } else {
      var first := items[0];
      CollectIsComplete(items[1..], values, translated[first.key := values[first.key].text]);
      assert Keys(items) == {first.key} + Keys(items[1..]) by {
        assert forall i | 0 < i < |items| :: items[i] == items[1..][i - 1];
      }
    }
  }

  /** `text` is what some prompt in the range gave for `key`. */
  ghost predicate Answered(reply: Replies, from: nat, to: nat, key: string, text: string) {
    exists p: nat ::
      && from <= p < to && reply(p).Parsed?
      && IsTranslation(reply(p).values, key) && reply(p).values[key].text == text
  }

  /** Exactly the keys of the batch, each with a non-blank text that a prompt of this batch gave for it. */
  ghost predicate Complete(items: seq<Item>, reply: Replies, from: nat, to: nat, r: Translations) {
    && r.Keys == Keys(items)
    && forall key | key in r :: Answered(reply, from, to, key, r[key]) && Trim(JavaScript, r[key]) != ""
  }

  lemma ParsedIsComplete(items: seq<Item>, reply: Replies, prompt: nat)
    requires Judge(items, reply(prompt)).Done?
    ensures Complete(items, reply, prompt, prompt + 1, Judge(items, reply(prompt)).translated)
  {
    CollectIsComplete(items, reply(prompt).values, map[]);
    hide Collect, Trim, Keys;
  }

  lemma HalvesAreComplete(
    items: seq<Item>, mid: nat, reply: Replies, a: nat, b: nat, c: nat, left: Translations, right: Translations)
    requires mid <= |items| && a <= b <= c
    requires Complete(items[..mid], reply, a, b, left) && Complete(items[mid..], reply, b, c, right)
    ensures Complete(items, reply, a, c, left + right)
  {
    KeysOfHalves(items, mid);
    hide Keys, Trim, IsTranslation;
    forall key | key in left + right
      ensures Answered(reply, a, c, key, (left + right)[key])
    {
      assert (left + right)[key] == if key in right then right[key] else left[key];
    }
  }

  lemma CompleteWidens(items: seq<Item>, reply: Replies, from: nat, to: nat, from': nat, r: Translations)
    requires from' <= from && Complete(items, reply, from, to, r)
    ensures Complete(items, reply, from', to, r)
  {
    hide Keys, Trim, IsTranslation;
  }

  /** Either everything fails, or the result is complete. */
  lemma {:induction false} AllOrNothing(items: seq<Item>, reply: Replies, prompt: nat, depth: nat, attempt: nat)
    ensures var r := Translate(items, reply, prompt, depth, attempt);
            r.result.Some? ==> prompt <= r.next && Complete(items, reply, prompt, r.next, r.result.value)
    decreases |items|, TRANSLATE_MAX_ATTEMPTS - attempt
  {
    hide Judge, Complete;
    var r := Translate(items, reply, prompt, depth, attempt);
    if attempt < TRANSLATE_MAX_ATTEMPTS && r.result.Some? {
      var tried := Judge(items, reply(prompt));
      if tried.Done? {
        ParsedIsComplete(items, reply, prompt);
      } else if tried.timedOut {
        var mid := Midpoint(items);
        var left := Translate(items[..mid], reply, prompt + 1, depth + 1, 0);
        var right := Translate(items[mid..], reply, left.next, depth + 1, 0);
        AllOrNothing(items[..mid], reply, prompt + 1, depth + 1, 0);
        AllOrNothing(items[mid..], reply, left.next, depth + 1, 0);
        HalvesAreComplete(items, mid, reply, prompt + 1, left.next, right.next, left.result.value, right.result.value);
        CompleteWidens(items, reply, prompt + 1, r.next, prompt, r.result.value);
      } else {
        AllOrNothing(items, reply, prompt + 1, depth, attempt + 1);
        CompleteWidens(items, reply, prompt + 1, r.next, prompt, r.result.value);
      }
    }
  }

  lemma KeysOfHalves(items: seq<Item>, mid: nat)
    requires mid <= |items|
    ensures Keys(items) == Keys(items[..mid]) + Keys(items[mid..])
  {
    assert forall i | 0 <= i < mid :: items[i] == items[..mid][i];
    assert forall i | mid <= i < |items| :: items[i] == items[mid..][i - mid];
  }

  // The bounds are attained ----------------------------------------------------------------

  /** Replies that make every batch fail once, time out, and be split down to single items. */
  function Worst(items: seq<Item>): seq<Reply>
    decreases |items|
  {
    if |items| <= 1 then
      if items == [] then [] else [Threw(false), Parsed(map[items[0].key := Str("x")])]
    else
      [Threw(false), Threw(true)] + (Worst(items[..Midpoint(items)]) + Worst(items[Midpoint(items)..]))
  }

  ghost predicate Follows(reply: Replies, prompt: nat, replies: seq<Reply>) {
    forall k | 0 <= k < |replies| :: reply(prompt + k) == replies[k]
  }

  lemma FollowsAt(reply: Replies, prompt: nat, replies: seq<Reply>, k: nat)
    requires k < |replies| && Follows(reply, prompt, replies)
    ensures reply(prompt + k) == replies[k]
  {
  }

  lemma FollowsTwo(reply: Replies, prompt: nat, a: Reply, b: Reply)
    requires Follows(reply, prompt, [a, b])
    ensures reply(prompt) == a && reply(prompt + 1) == b
  {
    FollowsAt(reply, prompt, [a, b], 0);
    FollowsAt(reply, prompt, [a, b], 1);
  }

  lemma FollowsParts(reply: Replies, prompt: nat, a: seq<Reply>, b: seq<Reply>)
    requires Follows(reply, prompt, a + b)
    ensures Follows(reply, prompt, a) && Follows(reply, prompt + |a|, b)
  {
    forall k | 0 <= k < |b|
      ensures reply(prompt + |a| + k) == b[k]
    {
      assert (a + b)[|a| + k] == b[k];
    }
    forall k | 0 <= k < |a|
      ensures reply(prompt + k) == a[k]
    {
      assert (a + b)[k] == a[k];
    }
  }

  lemma {:induction false} WorstLength(items: seq<Item>)
    requires items != []
    ensures |Worst(items)| == 4 * |items| - 2
    decreases |items|
  {
    if |items| <= 1 {
    } else {
      WorstLength(items[..Midpoint(items)]);
      WorstLength(items[Midpoint(items)..]);
    }
  }

  lemma SingleReply(item: Item)
    ensures Judge([item], Parsed(map[item.key := Str("x")])) == Done(map[item.key := "x"])
  {
    TrimOfTight(JavaScript, "x");
    hide Trim;
    var values := map[item.key := Str("x")];
    assert IsTranslation(values, item.key) && values[item.key].text == "x";
    assert [item][1..] == [];
    assert Collect([item], values, map[]) == Collect([], values, map[][item.key := "x"]);
  }

  lemma WorstSingle(item: Item, reply: Replies, prompt: nat, depth: nat)
    requires Follows(reply, prompt, Worst([item]))
    ensures Translate([item], reply, prompt, depth, 0) == Outcome(Some(map[item.key := "x"]), prompt + 2, depth)
  {
    var good := map[item.key := Str("x")];
    FollowsTwo(reply, prompt, Threw(false), Parsed(good));
    SingleReply(item);
    hide Judge, Worst;
    assert Translate([item], reply, prompt + 1, depth, 1) == Outcome(Some(map[item.key := "x"]), prompt + 2, depth);
  }

  lemma WorstParts(items: seq<Item>)
    requires |items| > 1
    ensures Worst(items)
            == [Threw(false), Threw(true)] + (Worst(items[..Midpoint(items)]) + Worst(items[Midpoint(items)..]))
  {
  }

  /** The worst replies of a batch that is split, seen as those of its halves. */
  lemma WorstSplits(items: seq<Item>, reply: Replies, prompt: nat)
    requires |items| > 1 && Follows(reply, prompt, Worst(items))
    ensures var left, right := items[..Midpoint(items)], items[Midpoint(items)..];
            && 0 < |right| <= |left| < |items|
            && reply(prompt) == Threw(false) && reply(prompt + 1) == Threw(true)
            && Follows(reply, prompt + 2, Worst(left))
            && Follows(reply, prompt + 2 + (4 * |left| - 2), Worst(right))
  {
    hide Worst, Follows;
    var left, right := items[..Midpoint(items)], items[Midpoint(items)..];
    WorstParts(items);
    FollowsParts(reply, prompt, [Threw(false), Threw(true)], Worst(left) + Worst(right));
    FollowsParts(reply, prompt + 2, Worst(left), Worst(right));
    WorstLength(left);
    FollowsTwo(reply, prompt, Threw(false), Threw(true));
  }

  lemma FailedAttempt(items: seq<Item>, reply: Replies, prompt: nat, depth: nat)
    requires reply(prompt) == Threw(false)
    ensures Translate(items, reply, prompt, depth, 0) == Translate(items, reply, prompt + 1, depth, 1)
  {
  }

  /** For every batch there are replies that need all `4 n - 2` prompts and all `ceil(log2 n)` levels. */
  lemma {:induction false} BoundsAreAttained(items: seq<Item>, reply: Replies, prompt: nat, depth: nat)
    requires items != [] && Follows(reply, prompt, Worst(items))
    ensures var r := Translate(items, reply, prompt, depth, 0);
            r.result.Some? && r.next == prompt + 4 * |items| - 2 && r.deepest == depth + CeilLog2(|items|)
    decreases |items|
  {
    hide Translate, Worst, Follows;
    if |items| == 1 {
      assert items == [items[0]];
      WorstSingle(items[0], reply, prompt, depth);
    } else {
      var left, right := items[..Midpoint(items)], items[Midpoint(items)..];
      WorstSplits(items, reply, prompt);
      FailedAttempt(items, reply, prompt, depth);
      BoundsAreAttained(left, reply, prompt + 2, depth + 1);
      BoundsAreAttained(right, reply, prompt + 2 + (4 * |left| - 2), depth + 1);
      CeilLog2Grows(|right|, |left|);
      SplitStep(items, reply, prompt + 1, depth, 1);
    }
  }

  lemma SplitStep(items: seq<Item>, reply: Replies, prompt: nat, depth: nat, attempt: nat)
    requires attempt < TRANSLATE_MAX_ATTEMPTS && |items| > 1 && reply(prompt) == Threw(true)
    requires var left := Translate(items[..Midpoint(items)], reply, prompt + 1, depth + 1, 0);
             left.result.Some? && Translate(items[Midpoint(items)..], reply, left.next, depth + 1, 0).result.Some?
    ensures var left := Translate(items[..Midpoint(items)], reply, prompt + 1, depth + 1, 0);
            var right := Translate(items[Midpoint(items)..], reply, left.next, depth + 1, 0);
            Translate(items, reply, prompt, depth, attempt)
            == Outcome(Some(left.result.value + right.result.value), right.next, Max(left.deepest, right.deepest))
  {
  }

  // Missing translations that look like timeouts ---------------------------------------------

  lemma {:induction false} LowerOfSum(a: string, b: string)
    ensures Lower(a + b) == Lower(a) + Lower(b) && |Lower(a)| == |a|
    ensures forall i | 0 <= i < |a| :: Lower(a)[i] == LowerAscii(a[i])
  {
    hide LowerAscii;
    if a == "" {
      NothingAdded(b);
      NothingAdded(Lower(b));
    } else {
      assert (a + b)[1..] == a[1..] + b;
      LowerOfSum(a[1..], b);
      Assoc([LowerAscii(a[0])], Lower(a[1..]), Lower(b));
    }
  }

  /** The fixed start of the message is in small letters and has no `ti` before an `m`. */
  lemma MissingLetters()
    ensures forall i | 0 <= i < |MISSING| :: LowerAscii(MISSING[i]) == MISSING[i]
    ensures forall i | 0 <= i < |MISSING| && MISSING[i] == 't' ::
              i + 2 < |MISSING| && (MISSING[i + 1] != 'i' || MISSING[i + 2] != 'm')
  {
  }

  lemma TimedOutLetters(s: string, i: int)
    requires OccursAt(s, TIMED_OUT, i)
    ensures s[i] == 't' && s[i + 1] == 'i' && s[i + 2] == 'm'
  {
    var t := s[i..i + |TIMED_OUT|];
    assert t[0] == s[i] && t[1] == s[i + 1] && t[2] == s[i + 2];
  }

  lemma NotInMissing(rest: string, i: nat)
    requires i < |MISSING|
    ensures !OccursAt(MISSING + rest, TIMED_OUT, i)
  {
    MissingLetters();
    hide OccursAt;
    if OccursAt(MISSING + rest, TIMED_OUT, i) {
      TimedOutLetters(MISSING + rest, i);
      SumAt(MISSING, rest, i);
      SumAt(MISSING, rest, i + 1);
      SumAt(MISSING, rest, i + 2);
      assert false;
    }
  }

  /** The error for a missing translation counts as a timeout exactly when its key speaks of one. */
  lemma MissingLooksTimedOutIff(key: string)
    ensures MentionsTimeout(MISSING + key) <==> Contains(Lower(key), TIMED_OUT)
  {
    hide Lower, LowerAscii, OccursAt;
    LowerOfSum(MISSING, key);
    MissingLetters();
    var low := Lower(key);
    assert Lower(MISSING) == MISSING;
    IndexFacts(MISSING + low, TIMED_OUT);
    if i :| OccursAt(low, TIMED_OUT, i) {
      OccursInSum(MISSING, low, TIMED_OUT, i);
    }
    if i :| OccursAt(MISSING + low, TIMED_OUT, i) {
      OccurrenceIsNat(MISSING + low, TIMED_OUT, i);
      if i < |MISSING| {
        NotInMissing(low, i);
      }
      OccurrenceInTail(MISSING, low, TIMED_OUT, i);
    }
  }

  predicate FirstMissing(items: seq<Item>, values: map<string, Value>, k: nat) {
    && k < |items| && !IsTranslation(values, items[k].key)
    && forall i | 0 <= i < k :: IsTranslation(values, items[i].key)
  }

  /** A parsed reply fails with the first key it does not translate, and as a timeout exactly when that key says so. */
  lemma {:induction false} CollectFailsIff(items: seq<Item>, values: map<string, Value>, translated: Translations, k: nat)
    requires FirstMissing(items, values, k)
    ensures Collect(items, values, translated) == Error(Contains(Lower(items[k].key), TIMED_OUT))
    decreases |items|
  {
    hide Trim, MentionsTimeout, Contains, Lower;
    if k == 0 {
      MissingLooksTimedOutIff(items[0].key);
    } else {
      assert items[1..][k - 1] == items[k];
      assert forall i | 0 <= i < k - 1 :: items[1..][i] == items[i + 1];
      CollectFailsIff(items[1..], values, translated[items[0].key := values[items[0].key].text], k - 1);
    }
  }

  /**
   So a batch of several items whose reply only misses a key is split at once when that
   key contains `timed out`, and tried again otherwise.
   */
  lemma MissingSplitsIff(items: seq<Item>, reply: Replies, prompt: nat, depth: nat, k: nat)
    requires |items| > 1 && reply(prompt).Parsed? && FirstMissing(items, reply(prompt).values, k)
    ensures var r := Translate(items, reply, prompt, depth, 0);
            if Contains(Lower(items[k].key), TIMED_OUT) then
              var left := Translate(items[..Midpoint(items)], reply, prompt + 1, depth + 1, 0);
              r.deepest > depth && (left.result.None? ==> r == left)
            else r == Translate(items, reply, prompt + 1, depth, 1)
  {
    hide Collect, FirstMissing, Contains, Lower, TIMED_OUT;
    CollectFailsIff(items, reply(prompt).values, map[], k);
    var mid := Midpoint(items);
    PromptBound(items[..mid], reply, prompt + 1, depth + 1, 0);
    var left := Translate(items[..mid], reply, prompt + 1, depth + 1, 0);
    PromptBound(items[mid..], reply, left.next, depth + 1, 0);
  }

  // An empty reply is tried again for ordinary keys, but this batch is split because of the
  // name of its first key.
  lemma KeyLooksLikeTimeout(reply: Replies)
    requires reply(0) == Parsed(map[])
    ensures Translate([Item("error.Timed out", "a"), Item("b", "b")], reply, 0, 0, 0).deepest > 0
  {
    var items := [Item("error.Timed out", "a"), Item("b", "b")];
    assert !IsTranslation(map[], items[0].key);
    assert FirstMissing(items, map[], 0);
    LowerTimedOut();
    hide *;
    MissingSplitsIff(items, reply, 0, 0, 0);
  }

  lemma LowerTimedOut()
    ensures Contains(Lower("error.Timed out"), TIMED_OUT)
  {
    hide Lower;
    var t := "Timed out";
    LowerOfSum("error.", t);
    LowerOfSum(t, "");
    assert "error." + t == "error.Timed out";
    assert |t| == 9 == |TIMED_OUT| && forall i | 0 <= i < 9 :: LowerAscii(t[i]) == TIMED_OUT[i];
    assert Lower(t) == TIMED_OUT;
    SplitSum(Lower("error."), TIMED_OUT);
    assert OccursAt(Lower("error.") + TIMED_OUT, TIMED_OUT, 6);
  }

  // Which prompt decides -------------------------------------------------------------------

  predicate Answers(items: seq<Item>, reply: Reply) {
    reply.Parsed? && forall i | 0 <= i < |items| :: IsTranslation(reply.values, items[i].key)
  }

  /** The prompt threw a timeout, or its reply first misses a key that speaks of one. */
  ghost predicate TimesOut(items: seq<Item>, reply: Reply) {
    match reply
    case Threw(timedOut) => timedOut
    case Parsed(values) => exists k: nat :: FirstMissing(items, values, k) && Contains(Lower(items[k].key), TIMED_OUT)
  }

  function Given(items: seq<Item>, values: map<string, Value>): Translations {
    map key | key in Keys(items) && IsTranslation(values, key) :: values[key].text
  }

  lemma SomeFirstMissing(items: seq<Item>, values: map<string, Value>) returns (k: nat)
    requires !Answers(items, Parsed(values))
    ensures FirstMissing(items, values, k)
  {
    hide IsTranslation;
    k := 0;
    while k < |items| && IsTranslation(values, items[k].key)
      invariant k <= |items| && forall i | 0 <= i < k :: IsTranslation(values, items[i].key)
    {
      k := k + 1;
    }
  }

  lemma {:induction false} CollectAnswers(items: seq<Item>, values: map<string, Value>, translated: Translations)
    requires Answers(items, Parsed(values))
    ensures Collect(items, values, translated).Done?
    decreases |items|
  {
    hide Trim;
    if items == [] {
    } else {
      CollectAnswers(items[1..], values, translated[items[0].key := values[items[0].key].text]);
    }
  }

  /** What an attempt comes to, in terms of the reply. */
  lemma JudgeIs(items: seq<Item>, reply: Reply)
    ensures Answers(items, reply) ==> !TimesOut(items, reply)
    ensures var r := Judge(items, reply);
            if Answers(items, reply) then r == Done(Given(items, reply.values))
            else r == Error(TimesOut(items, reply))
  {
    if reply.Parsed? {
      hide Collect, IsTranslation, Contains, Lower, TIMED_OUT, Keys;
      var values := reply.values;
      if Answers(items, reply) {
        CollectAnswers(items, values, map[]);
        CollectIsComplete(items, values, map[]);
        GivenIs(items, values, Collect(items, values, map[]).translated);
      } else {
        var k := SomeFirstMissing(items, values);
        CollectFailsIff(items, values, map[], k);
        forall j: nat | FirstMissing(items, values, j)
          ensures j == k
        {
        }
      }
    }
  }

  lemma GivenIs(items: seq<Item>, values: map<string, Value>, r: Translations)
    requires r.Keys == Keys(items)
    requires forall key | key in r :: IsTranslation(values, key) && r[key] == values[key].text
    ensures r == Given(items, values)
  {
    hide IsTranslation, Keys;
  }

  /**
   A batch is decided by its first prompt, when that answers or times out, and by its second
   one otherwise. An answer is taken; a timeout splits several items and fails a single one;
   a second failure of another kind fails the batch.
   */
  lemma DecidingPrompt(items: seq<Item>, reply: Replies, prompt: nat, depth: nat)
    ensures var r := Translate(items, reply, prompt, depth, 0);
            var last := if Answers(items, reply(prompt)) || TimesOut(items, reply(prompt)) then prompt else prompt + 1;
            if Answers(items, reply(last)) then
              r == Outcome(Some(Given(items, reply(last).values)), last + 1, depth)
            else if TimesOut(items, reply(last)) && |items| > 1 then
              var half := (|items| + 1) / 2;
              var left := Translate(items[..half], reply, last + 1, depth + 1, 0);
              var right := Translate(items[half..], reply, left.next, depth + 1, 0);
              if left.result.None? then r == left
              else r.next == right.next && r.result == (if right.result.None? then None
                                                        else Some(left.result.value + right.result.value))
            else r == Outcome(None, last + 1, depth)
  {
    hide Judge, Answers, TimesOut;
    JudgeIs(items, reply(prompt));
    JudgeIs(items, reply(prompt + 1));
    OneAttempt(items, reply, prompt, depth, 0);
    OneAttempt(items, reply, prompt + 1, depth, 1);
    OneAttempt(items, reply, prompt + 2, depth, 2);
    hide Translate;
  }

  /** One turn of the loop over attempts. */
  lemma OneAttempt(items: seq<Item>, reply: Replies, prompt: nat, depth: nat, attempt: nat)
    ensures var r, tried := Translate(items, reply, prompt, depth, attempt), Judge(items, reply(prompt));
            if attempt >= TRANSLATE_MAX_ATTEMPTS then r == Outcome(None, prompt, depth)
            else if tried.Done? then r == Outcome(Some(tried.translated), prompt + 1, depth)
            else if tried.timedOut && |items| > 1 then
              var left := Translate(items[..Midpoint(items)], reply, prompt + 1, depth + 1, 0);
              var right := Translate(items[Midpoint(items)..], reply, left.next, depth + 1, 0);
              if left.result.None? then r == left
              else r.next == right.next && r.result == (if right.result.None? then None
                                                        else Some(left.result.value + right.result.value))
            else if tried.timedOut then r == Outcome(None, prompt + 1, depth)
            else r == Translate(items, reply, prompt + 1, depth, attempt + 1)
  {
    hide Judge;
  }

  /** A single item whose prompt times out fails with that prompt, at the first attempt and at the second. */
  lemma SingleTimeoutFails(item: Item, reply: Replies, prompt: nat, depth: nat)
    requires reply(prompt) == Threw(true) || (reply(prompt) == Threw(false) && reply(prompt + 1) == Threw(true))
    ensures Translate([item], reply, prompt, depth, 0)
            == Outcome(None, if reply(prompt) == Threw(true) then prompt + 1 else prompt + 2, depth)
  {
    DecidingPrompt([item], reply, prompt, depth);
    hide Translate;
  }
}
