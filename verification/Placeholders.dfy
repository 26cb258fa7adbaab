/** Numbered placeholders, and a counter that skips those already in a text. */
module Placeholders {
  import opened Text

  const CORE := "OC_I18N_"
  const PREFIX := "__OC_I18N_"
  const SUFFIX := "__"
  const FIRST_NUMBER: nat := 900_000

  // Decimal numbers -------------------------------------------------------------

  predicate IsDigit(c: char) {
    '0' <= c <= '9'
  }

  function Digit(d: nat): (c: char)
    requires d < 10
    ensures IsDigit(c) && c as int == 48 + d
  {
    (48 + d) as char
  }

  function Digits(n: nat): (s: string)
    ensures s != "" && (|s| == 1 <==> n < 10)
  {
    if n < 10 then [Digit(n)] else Digits(n / 10) + [Digit(n % 10)]
  }

  predicate AllDigits(s: string) {
    forall i | 0 <= i < |s| :: IsDigit(s[i])
  }

  lemma {:induction false} DigitsAreDigits(n: nat)
    ensures AllDigits(Digits(n))
  {
    if n >= 10 {
      DigitsAreDigits(n / 10);
    }
  }

  lemma {:induction false} DigitsInjective(m: nat, n: nat)
    requires Digits(m) == Digits(n)
    ensures m == n
  {
    var s := Digits(m);
    assert s[|s| - 1] as int == 48 + m % 10 == 48 + n % 10;
    if m >= 10 && n >= 10 {
      assert s[..|s| - 1] == Digits(m / 10) == Digits(n / 10);
      DigitsInjective(m / 10, n / 10);
    }
  }

  function Placeholder(n: nat): (s: string)
    ensures |s| >= 13
  {
    PREFIX + Digits(n) + SUFFIX
  }

  lemma PlaceholderInjective(m: nat, n: nat)
    requires Placeholder(m) == Placeholder(n)
    ensures m == n
  {
    assert Placeholder(m)[10..|Placeholder(m)| - 2] == Digits(m);
    assert Placeholder(n)[10..|Placeholder(n)| - 2] == Digits(n);
    DigitsInjective(m, n);
    hide Digits;
  }

  // The placeholders already in a text ---------------------------------------------

  function DigitRun(text: string, i: nat): (d: nat)
    ensures i <= |text| ==> i + d <= |text|
    ensures forall k | i <= k < i + d :: k < |text| && IsDigit(text[k])
    ensures i + d < |text| ==> !IsDigit(text[i + d])
    decreases |text| - i
  {
    if i < |text| && IsDigit(text[i]) then 1 + DigitRun(text, i + 1) else 0
  }

  /** The pattern `__OC_I18N_\d+__` matches here: the digits are taken greedily. */
  predicate MatchAt(text: string, i: nat) {
    && OccursAt(text, PREFIX, i) && DigitRun(text, i + 10) > 0
    && OccursAt(text, SUFFIX, i + 10 + DigitRun(text, i + 10))
  }

  function MatchLength(text: string, i: nat): nat {
    10 + DigitRun(text, i + 10) + 2
  }

  /** The leftmost non-overlapping matches. */
  function HitsFrom(text: string, i: nat): (hits: seq<nat>)
    ensures forall k | 0 <= k < |hits| :: i <= hits[k] && MatchAt(text, hits[k])
    decreases |text| - i
  {
    if i >= |text| then []
    else if MatchAt(text, i) then [i] + HitsFrom(text, i + MatchLength(text, i))
    else HitsFrom(text, i + 1)
  }

  function Found(text: string, i: nat): string
    requires MatchAt(text, i)
  {
    text[i..i + MatchLength(text, i)]
  }

  function HitStrings(text: string): set<string> {
    var hits := HitsFrom(text, 0);
    set k | 0 <= k < |hits| :: Found(text, hits[k])
  }

  /** An earlier match covers the start of this one, so the scan does not see it. */
  ghost predicate Swallowed(text: string, i: nat) {
    exists h :: h in HitsFrom(text, 0) && h < i < h + MatchLength(text, h)
  }

  lemma {:induction false} HitsCover(text: string, from: nat, i: nat)
    requires from <= i && MatchAt(text, i)
    ensures var hits := HitsFrom(text, from);
            i in hits <==> !exists h :: h in hits && h < i < h + MatchLength(text, h)
    decreases |text| - from
  {
    hide MatchAt;
    assert i < |text| by {
      MatchIsInside(text, i);
    }
    if MatchAt(text, from) {
      var next := from + MatchLength(text, from);
      var later := HitsFrom(text, next);
      assert HitsFrom(text, from) == [from] + later;
      forall h
        ensures h in HitsFrom(text, from) <==> h == from || h in later
      {
      }
      if from < i && next <= i {
        HitsCover(text, next, i);
      } else if from < i {
        assert from in HitsFrom(text, from);
      }
    } else {
      HitsCover(text, from + 1, i);
    }
  }

  lemma MatchIsInside(text: string, i: nat)
    requires MatchAt(text, i)
    ensures i + MatchLength(text, i) <= |text|
  {
  }

  lemma MatchCharacters(text: string, i: nat)
    requires MatchAt(text, i)
    ensures i + MatchLength(text, i) <= |text| && MatchLength(text, i) >= 13
    ensures text[i] == '_' && text[i + 1] == '_' && text[i + 2] == 'O' && text[i + 3] == 'C' && text[i + 4] == '_'
    ensures text[i + 5] == 'I' && text[i + 6] == '1' && text[i + 7] == '8' && text[i + 8] == 'N' && text[i + 9] == '_'
    ensures forall k | i + 10 <= k < i + MatchLength(text, i) - 2 :: IsDigit(text[k])
  {
    var s := text[i..i + 10];
    assert s == PREFIX;
    assert forall k | 0 <= k < 10 :: text[i + k] == s[k];
  }

  /** Two matches overlap in nothing but the underscores between them. */
  lemma OverlapIsUnderscores(text: string, h: nat, i: nat)
    requires MatchAt(text, h) && MatchAt(text, i) && h < i < h + MatchLength(text, h)
    ensures i == h + MatchLength(text, h) - 2 || i == h + MatchLength(text, h) - 1
  {
    MatchCharacters(text, h);
    MatchCharacters(text, i);
    hide MatchAt, MatchLength;
    assert text[i] == '_' && text[i + 1] == '_';
  }

  /** The scan misses a match exactly when an earlier hit has taken its first underscores. */
  lemma MissedIffSwallowed(text: string, i: nat)
    requires MatchAt(text, i)
    ensures i !in HitsFrom(text, 0)
            <==> exists h :: h in HitsFrom(text, 0)
                             && (i == h + MatchLength(text, h) - 2 || i == h + MatchLength(text, h) - 1)
    ensures i !in HitsFrom(text, 0) <==> Swallowed(text, i)
  {
    hide MatchAt, HitsFrom;
    HitsCover(text, 0, i);
    if h :| h in HitsFrom(text, 0) && h < i < h + MatchLength(text, h) {
      OverlapIsUnderscores(text, h, i);
    }
    forall h | h in HitsFrom(text, 0)
      ensures MatchLength(text, h) >= 13
    {
      MatchCharacters(text, h);
    }
  }

  lemma PartsOfOccurrence(text: string, a: string, b: string, i: nat)
    requires OccursAt(text, a + b, i)
    ensures OccursAt(text, a, i) && OccursAt(text, b, i + |a|)
  {
    SplitSum(a, b);
    var s := text[i..i + |a + b|];
    assert text[i..i + |a|] == s[..|a|] && text[i + |a|..i + |a| + |b|] == s[|a|..];
  }

  lemma RunOfDigits(text: string, digits: string, i: nat)
    requires AllDigits(digits) && OccursAt(text, digits, i)
    requires i + |digits| < |text| && !IsDigit(text[i + |digits|])
    ensures DigitRun(text, i) == |digits|
  {
    var d := DigitRun(text, i);
    assert forall k | 0 <= k < |digits| :: text[i + k] == digits[k];
    hide DigitRun;
  }

  /** A placeholder in the text is a match, of just its own length. */
  lemma PlaceholderMatches(text: string, n: nat, i: nat)
    requires OccursAt(text, Placeholder(n), i)
    ensures MatchAt(text, i) && MatchLength(text, i) == |Placeholder(n)| && Found(text, i) == Placeholder(n)
  {
    hide Digits, DigitRun;
    DigitsAreDigits(n);
    PartsOfOccurrence(text, PREFIX + Digits(n), SUFFIX, i);
    PartsOfOccurrence(text, PREFIX, Digits(n), i);
    var end := i + 10 + |Digits(n)|;
    assert text[end] == text[end..end + 2][0] == '_';
    RunOfDigits(text, Digits(n), i + 10);
  }

  /**
   A number whose placeholder is not among the hits of a text can still occur in it,
   but only swallowed: with its first underscores taken by an earlier hit. So the
   placeholders that are handed out are absent from the text exactly when each
   swallowed one stands free somewhere else.
   */
  lemma FreshIsAbsentIff(text: string, from: nat)
    ensures (forall n: nat | n >= from && Placeholder(n) !in HitStrings(text) :: !Contains(text, Placeholder(n)))
            <==> (forall n: nat, i: nat | n >= from && OccursAt(text, Placeholder(n), i) && Swallowed(text, i) ::
                    Placeholder(n) in HitStrings(text))
  {
    hide Swallowed, Placeholder, HitStrings, MatchAt;
    forall n: nat | Contains(text, Placeholder(n)) && Placeholder(n) !in HitStrings(text)
      ensures exists i: nat :: OccursAt(text, Placeholder(n), i) && Swallowed(text, i)
    {
      var i :| OccursAt(text, Placeholder(n), i);
      if !Swallowed(text, i) {
        FreeIsHit(text, n, i);
      }
    }
    forall n: nat, i: nat | OccursAt(text, Placeholder(n), i)
      ensures Contains(text, Placeholder(n))
    {
    }
  }

  lemma FreeIsHit(text: string, n: nat, i: nat)
    requires OccursAt(text, Placeholder(n), i) && !Swallowed(text, i)
    ensures Placeholder(n) in HitStrings(text)
  {
    hide Swallowed, Placeholder, MatchAt, Found;
    PlaceholderMatches(text, n, i);
    MissedIffSwallowed(text, i);
    var hits := HitsFrom(text, 0);
    var k :| 0 <= k < |hits| && hits[k] == i;
    assert Found(text, hits[k]) == Placeholder(n);
  }

  const CHAINED := "__OC_I18N_1__OC_I18N_900000__"

  /** The numbering can repeat what a text contains: here the second placeholder is swallowed by the first. */
  lemma FreshCanOccur()
    ensures Contains(CHAINED, Placeholder(FIRST_NUMBER)) && Placeholder(FIRST_NUMBER) !in HitStrings(CHAINED)
  {
    hide *;
    ChainedOccurrences();
    ChainedLetters();
    PlaceholderMatches(CHAINED, 1, 0);
    LateHits(CHAINED, 13);
    FirstHit(CHAINED);
    OccurrenceIsContained(CHAINED, Placeholder(FIRST_NUMBER), 11);
    OneHit(CHAINED);
    assert |Placeholder(FIRST_NUMBER)| != |Placeholder(1)|;
  }

  lemma ChainedOccurrences()
    ensures OccursAt(CHAINED, Placeholder(1), 0) && OccursAt(CHAINED, Placeholder(FIRST_NUMBER), 11)
    ensures |Placeholder(1)| == 13 && |Placeholder(FIRST_NUMBER)| == 18
  {
    hide Placeholder, Digits;
    FirstPlaceholder();
    assert |CHAINED| == 29;
    assert CHAINED[0..13] == "__OC_I18N_1__";
    assert CHAINED[11..29] == "__OC_I18N_900000__";
  }

  lemma ChainedLetters()
    ensures forall k | 15 <= k < |CHAINED| :: CHAINED[k] != 'O'
  {
    assert CHAINED[15..] == "_I18N_900000__";
    assert forall k | 0 <= k < 14 :: CHAINED[15..][k] != 'O';
    assert forall k | 15 <= k < |CHAINED| :: CHAINED[k] == CHAINED[15..][k - 15];
  }

  lemma FirstPlaceholder()
    ensures Placeholder(1) == "__OC_I18N_1__"
    ensures Placeholder(FIRST_NUMBER) == "__OC_I18N_900000__"
  {
    assert Digits(1) == "1";
    assert Digits(9) == "9";
    assert Digits(90) == "90";
    assert Digits(900) == "900";
    assert Digits(9000) == "9000";
    assert Digits(90000) == "90000";
    assert Digits(900000) == "900000";
  }

  lemma OccurrenceIsContained(text: string, pat: string, i: nat)
    requires OccursAt(text, pat, i)
    ensures Contains(text, pat)
  {
  }

  lemma FirstHit(text: string)
    requires MatchAt(text, 0) && HitsFrom(text, MatchLength(text, 0)) == []
    ensures HitsFrom(text, 0) == [0]
  {
  }

  lemma OneHit(text: string)
    requires HitsFrom(text, 0) == [0]
    ensures MatchAt(text, 0) && forall p | p in HitStrings(text) :: p == Found(text, 0)
  {
    assert HitsFrom(text, 0)[0] == 0;
    hide MatchAt, Found, HitsFrom;
  }

  lemma {:induction false} LateHits(text: string, i: nat)
    requires forall k | i + 2 <= k < |text| :: text[k] != 'O'
    ensures HitsFrom(text, i) == []
    decreases |text| - i
  {
    if i < |text| {
      if MatchAt(text, i) {
        MatchCharacters(text, i);
        assert false;
      }
      LateHits(text, i + 1);
    }
    hide MatchAt;
  }

  // The numbering ------------------------------------------------------------------

  /** The used placeholders that a counter has still before it. */
  ghost function Ahead(counter: nat, used: set<string>): set<string> {
    set p | p in used && forall j: nat | j < counter :: p != Placeholder(j)
  }

  lemma AheadShrinks(counter: nat, used: set<string>)
    requires Placeholder(counter) in used
    ensures Ahead(counter + 1, used) < Ahead(counter, used)
  {
    forall j: nat | j < counter
      ensures Placeholder(counter) != Placeholder(j)
    {
      if Placeholder(counter) == Placeholder(j) {
        PlaceholderInjective(counter, j);
      }
    }
    hide Placeholder;
    assert Placeholder(counter) in Ahead(counter, used) && Placeholder(counter) !in Ahead(counter + 1, used);
  }

  /** The first number from `counter` on whose placeholder is not in use. */
  function Fresh(counter: nat, used: set<string>): (n: nat)
    ensures n >= counter && Placeholder(n) !in used
    ensures forall j: nat | counter <= j < n :: Placeholder(j) in used
    decreases Ahead(counter, used)
  {
    if Placeholder(counter) in used then
      AheadShrinks(counter, used);
      Fresh(counter + 1, used)
    else counter
  }

  /** Every placeholder in use was found at the start or handed out; the numbers handed out ascend. */
  ghost predicate Accounted(hits: set<string>, used: set<string>, counter: nat, issued: seq<nat>) {
    && FIRST_NUMBER <= counter
    && (forall i, j | 0 <= i < j < |issued| :: issued[i] < issued[j])
    && (forall i | 0 <= i < |issued| :: FIRST_NUMBER <= issued[i] < counter && Placeholder(issued[i]) !in hits)
    && used == hits + PlaceholdersOf(issued)
  }

  function PlaceholdersOf(numbers: seq<nat>): set<string> {
    set i | 0 <= i < |numbers| :: Placeholder(numbers[i])
  }

  lemma IssueOne(hits: set<string>, used: set<string>, counter: nat, issued: seq<nat>, n: nat)
    requires Accounted(hits, used, counter, issued) && n >= counter && Placeholder(n) !in used
    ensures Accounted(hits, used + {Placeholder(n)}, n + 1, issued + [n])
  {
    hide Placeholder;
    var more := issued + [n];
    forall p
      ensures p in PlaceholdersOf(more) <==> p in PlaceholdersOf(issued) || p == Placeholder(n)
    {
      if i :| 0 <= i < |issued| && p == Placeholder(issued[i]) {
        assert more[i] == issued[i];
      }
      assert more[|issued|] == n;
    }
  }

  class PlaceholderState {
    var counter: nat
    var used: set<string>
    ghost const hits: set<string>
    ghost var issued: seq<nat>

    /** The placeholders in use are those found at the start and those handed out, which were all new. */
    ghost predicate Valid()
      reads this
    {
      Accounted(hits, used, counter, issued)
    }

    constructor (text: string)
      ensures Valid() && issued == [] && hits == HitStrings(text)
      ensures counter == FIRST_NUMBER && used == HitStrings(text)
    {
      used := HitStrings(text);
      hits := HitStrings(text);
      counter := FIRST_NUMBER;
      issued := [];
    }

    method Next() returns (candidate: string)
      requires Valid()
      modifies this
      ensures Valid() && issued == old(issued) + [Fresh(old(counter), old(used))]
      ensures candidate == Placeholder(Fresh(old(counter), old(used)))
      ensures counter == Fresh(old(counter), old(used)) + 1 && used == old(used) + {candidate}
    {
      hide Placeholder, Ahead, Accounted;
      ghost var n := Fresh(counter, used);
      while true
        invariant old(counter) <= counter && used == old(used) && issued == old(issued)
        invariant Fresh(counter, used) == n
        decreases Ahead(counter, used)
      {
        candidate := Placeholder(counter);
        counter := counter + 1;
        if candidate in used {
          AheadShrinks(counter - 1, used);
          continue;
        }
        used := used + {candidate};
        IssueOne(hits, old(used), old(counter), issued, n);
        issued := issued + [n];
        return;
      }
    }
  }

  /** Everything handed out is different. */
  lemma IssuedAreDistinct(issued: seq<nat>, i: nat, j: nat)
    requires i < j < |issued| && forall a, b | 0 <= a < b < |issued| :: issued[a] < issued[b]
    ensures Placeholder(issued[i]) != Placeholder(issued[j])
  {
    if Placeholder(issued[i]) == Placeholder(issued[j]) {
      PlaceholderInjective(issued[i], issued[j]);
    }
    hide Placeholder;
  }
}
