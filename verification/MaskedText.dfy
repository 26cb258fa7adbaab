/**
 Masked text as a document: literals with numbered holes between them, each hole
 keeping what it stands for, which may have holes of its own. Replacing placeholders
 one after the other is plugging holes.
 */
module MaskedText {
  import opened Text
  import opened Placeholders

  datatype Doc = End(lit: string) | Part(lit: string, n: nat, inner: Doc, rest: Doc)

  /** The masked text: a placeholder for every outer hole. */
  function Render(d: Doc): string {
    match d
    case End(lit) => lit
    case Part(lit, n, _, rest) => lit + (Placeholder(n) + Render(rest))
  }

  /** The text before any masking. */
  function Fill(d: Doc): string {
    match d
    case End(lit) => lit
    case Part(lit, _, inner, rest) => lit + (Fill(inner) + Fill(rest))
  }

  datatype Entry = Entry(n: nat, value: string)

  /** The holes at the surface, with the masked text they stand for. */
  function Top(d: Doc): set<Entry> {
    match d
    case End(_) => {}
    case Part(_, n, inner, rest) => {Entry(n, Render(inner))} + Top(rest)
  }

  /** All holes, at any depth. */
  function Deep(d: Doc): set<Entry> {
    match d
    case End(_) => {}
    case Part(_, n, inner, rest) => {Entry(n, Render(inner))} + Deep(inner) + Deep(rest)
  }

  /** Holes stand for text that was masked before them. */
  predicate Nested(d: Doc) {
    match d
    case End(_) => true
    case Part(_, n, inner, rest) => (forall e | e in Deep(inner) :: e.n < n) && Nested(inner) && Nested(rest)
  }

  /** No hole stands for text with holes. */
  predicate Flat(d: Doc) {
    match d
    case End(_) => true
    case Part(_, _, inner, rest) => inner.End? && Flat(rest)
  }

  // Putting documents together and taking them apart ----------------------------------

  function Prepend(lit: string, d: Doc): Doc {
    d.(lit := lit + d.lit)
  }

  function Append(d: Doc, e: Doc): Doc {
    match d
    case End(lit) => Prepend(lit, e)
    case Part(lit, n, inner, rest) => Part(lit, n, inner, Append(rest, e))
  }

  /** A position of the masked text that is not inside a placeholder. */
  predicate Boundary(d: Doc, a: int) {
    0 <= a &&
    match d
    case End(lit) => a <= |lit|
    case Part(lit, n, _, rest) =>
      a <= |lit| || (a >= |lit| + |Placeholder(n)| && Boundary(rest, a - |lit| - |Placeholder(n)|))
  }

  function Take(d: Doc, a: nat): Doc
    requires Boundary(d, a)
  {
    match d
    case End(lit) => End(lit[..a])
    case Part(lit, n, inner, rest) =>
      if a <= |lit| then End(lit[..a]) else Part(lit, n, inner, Take(rest, a - |lit| - |Placeholder(n)|))
  }

  function Drop(d: Doc, a: nat): Doc
    requires Boundary(d, a)
  {
    match d
    case End(lit) => End(lit[a..])
    case Part(lit, n, inner, rest) =>
      if a <= |lit| then Part(lit[a..], n, inner, rest) else Drop(rest, a - |lit| - |Placeholder(n)|)
  }

  lemma PrependFacts(lit: string, d: Doc)
    ensures Render(Prepend(lit, d)) == lit + Render(d) && Fill(Prepend(lit, d)) == lit + Fill(d)
    ensures Top(Prepend(lit, d)) == Top(d) && Deep(Prepend(lit, d)) == Deep(d)
    ensures Nested(Prepend(lit, d)) <==> Nested(d)
    ensures Flat(Prepend(lit, d)) <==> Flat(d)
  {
    match d {
      case End(_) =>
      case Part(l, n, inner, rest) =>
        Assoc(lit, l, Placeholder(n) + Render(rest));
        Assoc(lit, l, Fill(inner) + Fill(rest));
    }
  }

  lemma {:induction false} AppendFacts(d: Doc, e: Doc)
    ensures Render(Append(d, e)) == Render(d) + Render(e) && Fill(Append(d, e)) == Fill(d) + Fill(e)
    ensures Top(Append(d, e)) == Top(d) + Top(e) && Deep(Append(d, e)) == Deep(d) + Deep(e)
    ensures Nested(Append(d, e)) <==> Nested(d) && Nested(e)
    ensures Flat(Append(d, e)) <==> Flat(d) && Flat(e)
  {
    match d {
      case End(lit) => PrependFacts(lit, e);
      case Part(lit, n, inner, rest) =>
        AppendFacts(rest, e);
        Assoc(Placeholder(n), Render(rest), Render(e));
        Assoc(lit, Placeholder(n) + Render(rest), Render(e));
        Assoc(Fill(inner), Fill(rest), Fill(e));
        Assoc(lit, Fill(inner) + Fill(rest), Fill(e));
    }
    hide Placeholder;
  }

  lemma {:induction false} TakeDrop(d: Doc, a: nat)
    requires Boundary(d, a)
    ensures Append(Take(d, a), Drop(d, a)) == d
  {
    hide Placeholder;
    match d {
      case End(lit) => assert lit[..a] + lit[a..] == lit;
      case Part(lit, n, _, rest) =>
        if a <= |lit| {
          assert lit[..a] + lit[a..] == lit;
        } else {
          TakeDrop(rest, a - |lit| - |Placeholder(n)|);
        }
    }
  }

  lemma {:induction false} TakeRenders(d: Doc, a: nat)
    requires Boundary(d, a)
    ensures a <= |Render(d)| && Render(Take(d, a)) == Render(d)[..a] && Render(Drop(d, a)) == Render(d)[a..]
  {
    TakeDrop(d, a);
    AppendFacts(Take(d, a), Drop(d, a));
    TakeLength(d, a);
    SplitSum(Render(Take(d, a)), Render(Drop(d, a)));
    hide *;
  }

  lemma {:induction false} TakeLength(d: Doc, a: nat)
    requires Boundary(d, a)
    ensures |Render(Take(d, a))| == a
  {
    hide Placeholder;
    if d.Part? && a > |d.lit| {
      TakeLength(d.rest, a - |d.lit| - |Placeholder(d.n)|);
    }
  }

  // Positions next to foreign characters are boundaries ----------------------------------

  /** A character that no placeholder contains. */
  predicate Foreign(c: char) {
    !(c == '_' || c == 'O' || c == 'C' || c == 'I' || c == 'N' || IsDigit(c))
  }

  lemma NoForeignInside(n: nat, i: nat)
    requires i < |Placeholder(n)|
    ensures !Foreign(Placeholder(n)[i])
  {
    DigitsAreDigits(n);
    var p := Placeholder(n);
    assert p == PREFIX + (Digits(n) + SUFFIX);
    hide Digits;
    ThreePartsAt(PREFIX, Digits(n), SUFFIX, i);
  }

  lemma {:induction false} ForeignMarksBoundary(d: Doc, a: nat)
    requires a <= |Render(d)|
    requires (a < |Render(d)| && Foreign(Render(d)[a])) || (a > 0 && Foreign(Render(d)[a - 1]))
    ensures Boundary(d, a)
  {
    hide Placeholder, Foreign;
    match d {
      case End(_) =>
      case Part(lit, n, _, rest) =>
        var p := Placeholder(n);
        if |lit| < a {
          var k := a - |lit|;
          ThreePartsAt(lit, p, Render(rest), a - 1);
          if a < |Render(d)| {
            ThreePartsAt(lit, p, Render(rest), a);
          }
          if k < |p| {
            NoForeignInside(n, k);
            NoForeignInside(n, k - 1);
          } else if k == |p| {
            StartIsBoundary(rest);
          } else {
            ForeignMarksBoundary(rest, k - |p|);
          }
        }
    }
  }

  lemma ThreePartsAt(a: string, b: string, c: string, i: nat)
    requires i < |a + (b + c)|
    ensures i < |a| ==> (a + (b + c))[i] == a[i]
    ensures |a| <= i < |a| + |b| ==> (a + (b + c))[i] == b[i - |a|]
    ensures |a| + |b| <= i ==> (a + (b + c))[i] == c[i - |a| - |b|]
    ensures |a + (b + c)| == |a| + |b| + |c|
  {
  }

  lemma StartIsBoundary(d: Doc)
    ensures Boundary(d, 0)
  {
  }

  // Where placeholders can occur -------------------------------------------------------------

  /** What every placeholder has after its first underscores: the core and a digit. */
  predicate StemAt(s: string, j: int) {
    OccursAt(s, CORE, j) && j + 8 < |s| && IsDigit(s[j + 8])
  }

  lemma CoreCharacters(s: string, j: int)
    requires OccursAt(s, CORE, j)
    ensures s[j] == 'O' && s[j + 1] == 'C' && s[j + 2] == '_' && s[j + 3] == 'I'
    ensures s[j + 4] == '1' && s[j + 5] == '8' && s[j + 6] == 'N' && s[j + 7] == '_'
  {
    var c := s[j..j + 8];
    assert c == CORE;
    assert forall k | 0 <= k < 8 :: s[j + k] == c[k];
  }

  /** What follows a literal: a placeholder, or nothing. */
  predicate Follows(tail: string) {
    tail == "" || (|tail| >= 2 && tail[0] == '_' && tail[1] == '_')
  }

  /** No stem starts in a literal that lacks the core. */
  lemma LiteralHasNoStem(lit: string, tail: string, j: nat)
    requires !Contains(lit, CORE) && Follows(tail) && j < |lit|
    ensures !StemAt(lit + tail, j)
  {
    var s := lit + tail;
    if StemAt(s, j) {
      CoreCharacters(s, j);
      if j + 8 <= |lit| {
        assert s[j..j + 8] == lit[j..j + 8];
        assert OccursAt(lit, CORE, j);
      } else {
        SumAt(lit, tail, |lit|);
        SumAt(lit, tail, |lit| + 1);
      }
      assert false;
    }
  }

  /** In a placeholder the only stem is its own, whatever follows. */
  lemma PlaceholderHasOneStem(n: nat, tail: string, j: nat)
    requires j < |Placeholder(n)| && StemAt(Placeholder(n) + tail, j)
    ensures j == 2
  {
    var p := Placeholder(n);
    var s := p + tail;
    CoreCharacters(s, j);
    SumAt(p, tail, j);
    hide StemAt;
    OnlyO(n, j);
  }

  lemma OnlyO(n: nat, j: nat)
    requires j < |Placeholder(n)| && Placeholder(n)[j] == 'O'
    ensures j == 2
  {
    DigitsAreDigits(n);
    var p := Placeholder(n);
    assert p == PREFIX + (Digits(n) + SUFFIX);
    hide Digits;
    ThreePartsAt(PREFIX, Digits(n), SUFFIX, j);
  }

  lemma OccurrenceHasStem(s: string, n: nat, i: int)
    requires OccursAt(s, Placeholder(n), i)
    ensures StemAt(s, i + 2)
  {
    DigitsAreDigits(n);
    var p := Placeholder(n);
    assert p == "__" + CORE + Digits(n) + SUFFIX;
    hide Digits;
    assert p[2..10] == CORE && p[10] == Digits(n)[0];
    assert forall k | 0 <= k < |p| :: s[i + k] == s[i..i + |p|][k] == p[k];
    assert s[i + 2..i + 10] == p[2..10];
  }

  lemma RenderFollows(d: Doc)
    ensures d.lit == "" ==> Follows(Render(d))
    ensures d.Part? ==> Follows(Placeholder(d.n) + Render(d.rest))
  {
    if d.Part? {
      assert Placeholder(d.n)[..10] == PREFIX;
      assert Placeholder(d.n)[0] == PREFIX[0] && Placeholder(d.n)[1] == PREFIX[1];
    }
  }

  lemma PartsLackCore(a: string, b: string)
    ensures Contains(a, CORE) || Contains(b, CORE) ==> Contains(a + b, CORE)
  {
    if i :| OccursAt(a, CORE, i) {
      OccursInSum(a, b, CORE, i);
    }
    if i :| OccursAt(b, CORE, i) {
      OccursInSum(a, b, CORE, i);
    }
    hide OccursAt;
  }

  /** Two characters into a masked text there is no stem yet. */
  lemma NoEarlyStem(d: Doc, j: nat)
    requires !Contains(Fill(d), CORE) && j < 2
    ensures !StemAt(Render(d), j)
  {
    RenderFollows(d);
    match d {
      case End(lit) =>
        if j < |lit| {
          NothingAdded(lit);
          LiteralHasNoStem(lit, "", j);
        }
      case Part(lit, n, inner, rest) =>
        var tail := Placeholder(n) + Render(rest);
        PartsLackCore(lit, Fill(inner) + Fill(rest));
        hide Placeholder;
        if j < |lit| {
          LiteralHasNoStem(lit, tail, j);
        } else if StemAt(lit + tail, j) {
          CoreCharacters(lit + tail, j);
          SumAt(lit, tail, j);
          assert false;
        }
    }
  }

  /** A placeholder that occurs at the first hole of a masked text, or before its end, is that hole's. */
  lemma FirstOccurrence(d: Doc, n: nat, i: nat)
    requires d.Part? && !Contains(Fill(d), CORE)
    requires OccursAt(Render(d), Placeholder(n), i) && i < |d.lit| + |Placeholder(d.n)|
    ensures i == |d.lit| && n == d.n
  {
    hide *;
    var s := Render(d);
    var p, tail := Placeholder(d.n), Render(d.rest);
    RenderFollows(d);
    RenderPart(d);
    PartsLackCore(d.lit, Fill(d.inner) + Fill(d.rest));
    PartsLackCore(Fill(d.inner), Fill(d.rest));
    OccurrenceHasStem(s, n, i);
    if i + 2 < |d.lit| {
      LiteralHasNoStem(d.lit, p + tail, i + 2);
    } else if i + 2 < |d.lit| + |p| {
      StemInTail(d.lit, p + tail, i + 2);
      PlaceholderHasOneStem(d.n, tail, i + 2 - |d.lit|);
      OccurrenceInTail(d.lit, p + tail, Placeholder(n), i);
      SamePlaceholder(p + tail, n, d.n);
    } else {
      StemInTail(d.lit, p + tail, i + 2);
      StemInTail(p, tail, i + 2 - |d.lit|);
      NoEarlyStem(d.rest, i + 2 - |d.lit| - |p|);
    }
  }

  lemma RenderPart(d: Doc)
    requires d.Part?
    ensures Render(d) == d.lit + (Placeholder(d.n) + Render(d.rest))
    ensures Fill(d) == d.lit + (Fill(d.inner) + Fill(d.rest))
  {
  }

  lemma StemInTail(a: string, b: string, j: nat)
    requires StemAt(a + b, j) && j >= |a|
    ensures StemAt(b, j - |a|)
  {
    OccurrenceInTail(a, b, CORE, j);
    SumAt(a, b, j + 8);
  }

  lemma SamePlaceholder(s: string, m: nat, n: nat)
    requires OccursAt(s, Placeholder(m), 0) && Placeholder(n) <= s
    ensures m == n
  {
    hide Placeholder, MatchAt, MatchLength;
    assert s[0..|Placeholder(n)|] == Placeholder(n);
    PlaceholderMatches(s, m, 0);
    PlaceholderMatches(s, n, 0);
    PlaceholderInjective(m, n);
  }

  // Replacing a placeholder plugs its hole ------------------------------------------------------

  /** `strings.ReplaceAll`, for a pattern that is not empty. */
  function ReplaceAll(s: string, pat: string, value: string): string
    requires pat != ""
    decreases |s|
  {
    var i := Index(s, pat);
    if i == -1 then s else s[..i] + (value + ReplaceAll(s[i + |pat|..], pat, value))
  }

  lemma ReplaceAt(s: string, pat: string, value: string, i: nat)
    requires pat != "" && Index(s, pat) == i
    ensures i + |pat| <= |s|
    ensures ReplaceAll(s, pat, value) == s[..i] + (value + ReplaceAll(s[i + |pat|..], pat, value))
  {
  }

  lemma NotReplaced(s: string, pat: string, value: string)
    requires pat != "" && Index(s, pat) == -1
    ensures ReplaceAll(s, pat, value) == s
  {
  }

  lemma CutBehind(a: string, b: string, j: nat, k: nat)
    requires j <= k <= |b|
    ensures (a + b)[..|a| + j] == a + b[..j] && (a + b)[|a| + k..] == b[k..]
  {
  }

  /** Text before which nothing matches stays in front. */
  lemma ReplaceBehind(a: string, b: string, pat: string, value: string)
    requires pat != "" && forall i | 0 <= i < |a| :: !OccursAt(a + b, pat, i)
    ensures ReplaceAll(a + b, pat, value) == a + ReplaceAll(b, pat, value)
  {
    hide *;
    IndexInTail(a, b, pat);
    var j := Index(b, pat);
    if j == -1 {
      NotReplaced(b, pat, value);
      NotReplaced(a + b, pat, value);
    } else {
      IndexFacts(b, pat);
      ReplaceAt(b, pat, value, j);
      ReplaceAt(a + b, pat, value, |a| + j);
      CutBehind(a, b, j, j + |pat|);
      Assoc(a, b[..j], value + ReplaceAll(b[j + |pat|..], pat, value));
    }
  }

  lemma ReplaceFirst(pat: string, b: string, value: string)
    requires pat != ""
    ensures ReplaceAll(pat + b, pat, value) == value + ReplaceAll(b, pat, value)
  {
    assert (pat + b)[0..|pat|] == pat && (pat + b)[|pat|..] == b;
    assert OccursAt(pat + b, pat, 0);
    assert Index(pat + b, pat) == 0;
    hide Index;
    NothingAdded(value + ReplaceAll(b, pat, value));
    assert (pat + b)[..0] == "";
  }

  function Plug(d: Doc, n: nat): Doc {
    match d
    case End(_) => d
    case Part(lit, m, inner, rest) =>
      if m == n then Prepend(lit, Append(inner, Plug(rest, n))) else Part(lit, m, inner, Plug(rest, n))
  }

  lemma NoOccurrence(lit: string, n: nat)
    requires !Contains(lit, CORE)
    ensures forall i :: !OccursAt(lit, Placeholder(n), i)
  {
    hide Placeholder, OccursAt;
    forall i
      ensures !OccursAt(lit, Placeholder(n), i)
    {
      if OccursAt(lit, Placeholder(n), i) {
        OccurrenceHasStem(lit, n, i);
        assert false;
      }
    }
  }

  lemma NothingToReplace(s: string, pat: string, value: string)
    requires pat != "" && forall i :: !OccursAt(s, pat, i)
    ensures ReplaceAll(s, pat, value) == s
  {
    hide Index, OccursAt;
    assert Index(s, pat) == -1;
  }

  /**
   Replacing a placeholder everywhere in a masked text, by what its holes stand for,
   plugs those holes and does nothing else.
   */
  lemma {:induction false} ReplacingPlugs(d: Doc, n: nat, value: string)
    requires !Contains(Fill(d), CORE)
    requires forall e | e in Top(d) && e.n == n :: e.value == value
    ensures ReplaceAll(Render(d), Placeholder(n), value) == Render(Plug(d, n))
  {
    hide Placeholder, ReplaceAll, Contains, OccursAt;
    match d {
      case End(lit) =>
        NoOccurrence(lit, n);
        NothingToReplace(lit, Placeholder(n), value);
      case Part(lit, m, inner, rest) =>
        var p, tail := Placeholder(m), Render(rest);
        PartsLackCore(lit, Fill(inner) + Fill(rest));
        PartsLackCore(Fill(inner), Fill(rest));
        ReplacingPlugs(rest, n, value);
        RenderPart(d);
        forall i | 0 <= i < |lit| + |p|
          ensures OccursAt(Render(d), Placeholder(n), i) ==> i == |lit| && m == n
        {
          if OccursAt(Render(d), Placeholder(n), i) {
            FirstOccurrence(d, n, i);
          }
        }
        if m == n {
          assert Entry(n, Render(inner)) in Top(d);
          ReplaceBehind(lit, p + tail, p, value);
          ReplaceFirst(p, tail, value);
          AppendFacts(inner, Plug(rest, n));
          PrependFacts(lit, Append(inner, Plug(rest, n)));
        } else {
          Assoc(lit, p, tail);
          ReplaceBehind(lit + p, tail, Placeholder(n), value);
          Assoc(lit, p, Render(Plug(rest, n)));
        }
    }
  }

  // Plugging one hole after the other -----------------------------------------------------------

  lemma {:induction false} TopInDeep(d: Doc)
    ensures Top(d) <= Deep(d)
  {
    if d.Part? {
      TopInDeep(d.rest);
    }
  }

  /** Plugging keeps the filled text; what surfaces was masked earlier than what was plugged. */
  lemma {:induction false} PlugFacts(d: Doc, n: nat)
    requires Nested(d)
    ensures Fill(Plug(d, n)) == Fill(d) && Nested(Plug(d, n))
    ensures forall e | e in Top(Plug(d, n)) :: (e in Top(d) && e.n != n) || e.n < n
    ensures forall e | e in Top(d) && e.n != n :: e in Top(Plug(d, n))
  {
    hide Render, Placeholder;
    if d.Part? {
      PlugFacts(d.rest, n);
      TopInDeep(d.inner);
      if d.n == n {
        AppendFacts(d.inner, Plug(d.rest, n));
        PrependFacts(d.lit, Append(d.inner, Plug(d.rest, n)));
      }
    }
  }

  lemma {:induction false} PlugFlat(d: Doc, n: nat)
    requires Flat(d)
    ensures Flat(Plug(d, n))
    ensures forall e | e in Top(Plug(d, n)) :: e in Top(d) && e.n != n
  {
    hide Render, Placeholder;
    if d.Part? {
      PlugFlat(d.rest, n);
      if d.n == n {
        AppendFacts(d.inner, Plug(d.rest, n));
        PrependFacts(d.lit, Append(d.inner, Plug(d.rest, n)));
      }
    }
  }

  /** Some outer hole `m` stands for text with holes. */
  predicate Hides(d: Doc, m: nat) {
    d.Part? && ((d.n == m && d.inner.Part?) || Hides(d.rest, m))
  }

  lemma {:induction false} HidesBehind(d: Doc, e: Doc, m: nat)
    requires Hides(e, m)
    ensures Hides(Append(d, e), m)
  {
    if d.Part? {
      HidesBehind(d.rest, e, m);
    }
  }

  lemma {:induction false} HiddenStays(d: Doc, n: nat, m: nat)
    requires Hides(d, m) && m != n
    ensures Hides(Plug(d, n), m)
  {
    if d.n == n {
      HiddenStays(d.rest, n, m);
      HidesBehind(d.inner, Plug(d.rest, n), m);
    } else if Hides(d.rest, m) {
      HiddenStays(d.rest, n, m);
    }
  }

  lemma TopOfPlug(d: Doc, n: nat)
    requires d.Part?
    ensures Top(Plug(d, n))
            == (if d.n == n then Top(d.inner) else {Entry(d.n, Render(d.inner))}) + Top(Plug(d.rest, n))
  {
    if d.n == n {
      AppendFacts(d.inner, Plug(d.rest, n));
      PrependFacts(d.lit, Append(d.inner, Plug(d.rest, n)));
    }
  }

  lemma FirstIsTop(d: Doc)
    requires d.Part?
    ensures Entry(d.n, Render(d.inner)) in Top(d)
  {
  }

  /** Plugging a hole that hides others brings them to the surface. */
  lemma {:induction false} HiddenSurfaces(d: Doc, n: nat) returns (e: Entry)
    requires Nested(d) && Hides(d, n)
    ensures e in Top(Plug(d, n)) && e.n < n
  {
    hide Top, Plug, Render, Deep;
    TopOfPlug(d, n);
    if d.n == n && d.inner.Part? {
      e := Entry(d.inner.n, Render(d.inner.inner));
      FirstIsTop(d.inner);
      TopInDeep(d.inner);
      assert e in Deep(d.inner);
    } else {
      e := HiddenSurfaces(d.rest, n);
    }
  }

  lemma {:induction false} UnflatHides(d: Doc) returns (m: nat)
    requires !Flat(d)
    ensures Hides(d, m)
  {
    if d.inner.Part? {
      m := d.n;
    } else {
      m := UnflatHides(d.rest);
    }
  }

  lemma HidesIsTop(d: Doc, m: nat)
    requires Hides(d, m)
    ensures exists e :: e in Top(d) && e.n == m
  {
    if d.n == m && d.inner.Part? {
      assert Entry(d.n, Render(d.inner)) in Top(d);
    } else {
      HidesIsTop(d.rest, m);
    }
  }

  lemma HoleHasCore(d: Doc)
    requires d.Part?
    ensures Contains(Render(d), CORE)
  {
    var p := Placeholder(d.n);
    assert p == "__" + (CORE + (Digits(d.n) + SUFFIX));
    assert OccursAt(p, CORE, 2);
    PartsLackCore(p, Render(d.rest));
    PartsLackCore(d.lit, p + Render(d.rest));
  }

  /** Nothing is hidden exactly when nothing that was masked contains a placeholder's core. */
  lemma {:induction false} FlatIff(d: Doc)
    requires !Contains(Fill(d), CORE)
    ensures Flat(d) <==> forall e | e in Deep(d) :: !Contains(e.value, CORE)
  {
    hide Contains, Placeholder;
    if d.Part? {
      PartsLackCore(d.lit, Fill(d.inner) + Fill(d.rest));
      PartsLackCore(Fill(d.inner), Fill(d.rest));
      FlatIff(d.rest);
      assert Entry(d.n, Render(d.inner)) in Deep(d);
      if d.inner.Part? {
        HoleHasCore(d.inner);
      }
    }
  }

  // Unmasking ------------------------------------------------------------------------------------

  function UnmaskAll(text: string, entries: seq<Entry>): string
    decreases |entries|
  {
    if entries == [] then text
    else UnmaskAll(ReplaceAll(text, Placeholder(entries[0].n), entries[0].value), entries[1..])
  }

  function PlugAll(d: Doc, entries: seq<Entry>): Doc
    decreases |entries|
  {
    if entries == [] then d else PlugAll(Plug(d, entries[0].n), entries[1..])
  }

  predicate Ascending(entries: seq<Entry>) {
    forall i, j | 0 <= i < j < |entries| :: entries[i].n < entries[j].n
  }

  lemma AscendingTail(entries: seq<Entry>)
    requires entries != [] && Ascending(entries)
    ensures Ascending(entries[1..])
    ensures forall e | e in entries[1..] :: entries[0].n < e.n
    ensures forall e :: e in entries <==> e == entries[0] || e in entries[1..]
  {
    HeadTail(entries);
  }

  /** Unmasking in the order of masking plugs the outer holes, and those only. */
  lemma {:induction false} UnmaskingPlugs(d: Doc, entries: seq<Entry>)
    requires Nested(d) && !Contains(Fill(d), CORE) && Ascending(entries)
    requires entries != [] ==> forall e | e in Top(d) && e.n >= entries[0].n :: e in entries
    ensures UnmaskAll(Render(d), entries) == Render(PlugAll(d, entries))
    ensures Fill(PlugAll(d, entries)) == Fill(d)
    decreases |entries|
  {
    hide Render, Fill, Top, Contains, Placeholder, ReplaceAll, Ascending, Plug, Nested;
    if entries == [] {
    } else {
      var n := entries[0].n;
      AscendingTail(entries);
      ReplacingPlugs(d, n, entries[0].value);
      PlugFacts(d, n);
      UnmaskingPlugs(Plug(d, n), entries[1..]);
    }
  }

  lemma {:induction false} FlatIsEmptied(d: Doc, entries: seq<Entry>)
    requires Flat(d) && forall e | e in Top(d) :: e in entries
    ensures PlugAll(d, entries).End?
    decreases |entries|
  {
    if entries == [] {
      assert d.Part? ==> Entry(d.n, Render(d.inner)) in Top(d);
    } else {
      PlugFlat(d, entries[0].n);
      HeadTail(entries);
      FlatIsEmptied(Plug(d, entries[0].n), entries[1..]);
    }
    hide Render, Plug, Flat;
  }

  lemma {:induction false} SurfacedStays(d: Doc, entries: seq<Entry>, e: Entry)
    requires Nested(d) && e in Top(d) && forall x | x in entries :: e.n < x.n
    ensures PlugAll(d, entries).Part?
    decreases |entries|
  {
    if entries == [] {
    } else {
      PlugFacts(d, entries[0].n);
      HeadTail(entries);
      SurfacedStays(Plug(d, entries[0].n), entries[1..], e);
    }
    hide Plug, Nested, Render;
  }

  lemma {:induction false} HiddenIsLeft(d: Doc, entries: seq<Entry>, m: nat)
    requires Nested(d) && Ascending(entries) && Hides(d, m) && exists e :: e in entries && e.n == m
    ensures PlugAll(d, entries).Part?
    decreases |entries|
  {
    hide Plug, Nested, Render, Hides, Ascending, Top;
    var n := entries[0].n;
    AscendingTail(entries);
    PlugFacts(d, n);
    if m == n {
      var e := HiddenSurfaces(d, n);
      SurfacedStays(Plug(d, n), entries[1..], e);
    } else {
      HiddenStays(d, n, m);
      HiddenIsLeft(Plug(d, n), entries[1..], m);
    }
  }

  /**
   Unmasking gives the original back exactly when no masked value contains a
   placeholder (or, which is the same here, the core of one).
   */
  lemma UnmaskingRestoresIff(d: Doc, entries: seq<Entry>)
    requires Nested(d) && !Contains(Fill(d), CORE) && Ascending(entries)
    requires forall e :: e in Deep(d) <==> e in entries
    ensures UnmaskAll(Render(d), entries) == Fill(d) <==> forall e | e in entries :: !Contains(e.value, CORE)
  {
    hide *;
    TopInDeep(d);
    UnmaskingPlugs(d, entries);
    FlatIff(d);
    var left := PlugAll(d, entries);
    if Flat(d) {
      FlatIsEmptied(d, entries);
      EndIsFilled(left);
    } else {
      var m := UnflatHides(d);
      HidesIsTop(d, m);
      HiddenIsLeft(d, entries, m);
      HoleHasCore(left);
    }
  }

  lemma EndIsFilled(d: Doc)
    requires d.End?
    ensures Render(d) == Fill(d)
  {
  }

  // Which placeholders are in the masked text ------------------------------------------------------

  /** How often a number is used, at any depth, and at the surface. */
  function Copies(d: Doc, k: nat): nat {
    if d.End? then 0 else (if d.n == k then 1 else 0) + Copies(d.inner, k) + Copies(d.rest, k)
  }

  function TopCopies(d: Doc, k: nat): nat {
    if d.End? then 0 else (if d.n == k then 1 else 0) + TopCopies(d.rest, k)
  }

  lemma {:induction false} CopiesAppend(d: Doc, e: Doc, k: nat)
    ensures Copies(Append(d, e), k) == Copies(d, k) + Copies(e, k)
  {
    if d.Part? {
      CopiesAppend(d.rest, e, k);
    }
  }

  lemma {:induction false} TopAtMostDeep(d: Doc, k: nat)
    ensures TopCopies(d, k) <= Copies(d, k)
  {
    if d.Part? {
      TopAtMostDeep(d.rest, k);
    }
  }

  /** A hidden hole that is used only once is not at the surface. */
  lemma {:induction false} HiddenIsNotTop(d: Doc) returns (k: nat)
    requires !Flat(d)
    ensures TopCopies(d, k) < Copies(d, k)
    ensures exists e :: e in Deep(d) && e.n == k
  {
    if d.inner.Part? {
      k := d.inner.n;
      TopAtMostDeep(d.rest, k);
      assert Entry(k, Render(d.inner.inner)) in Deep(d.inner);
    } else {
      k := HiddenIsNotTop(d.rest);
    }
    hide Render;
  }

  lemma {:induction false} OccursIffTop(d: Doc, k: nat)
    requires !Contains(Fill(d), CORE)
    ensures Contains(Render(d), Placeholder(k)) <==> TopCopies(d, k) > 0
  {
    hide Placeholder, OccursAt;
    match d {
      case End(lit) => NoOccurrence(lit, k);
      case Part(lit, n, inner, rest) =>
        var p, tail := Placeholder(n), Render(rest);
        RenderPart(d);
        PartsLackCore(lit, Fill(inner) + Fill(rest));
        PartsLackCore(Fill(inner), Fill(rest));
        OccursIffTop(rest, k);
        Assoc(lit, p, tail);
        if i :| OccursAt(Render(d), Placeholder(k), i) {
          OccurrenceIsNat(Render(d), Placeholder(k), i);
          if i < |lit| + |p| {
            FirstOccurrence(d, k, i);
          } else {
            OccurrenceInTail(lit + p, tail, Placeholder(k), i);
          }
        }
        if n == k {
          OccursAtStart(p, tail);
          OccursInSum(lit, p + tail, p, 0);
        }
        if i :| OccursAt(tail, Placeholder(k), i) {
          OccursInSum(lit + p, tail, Placeholder(k), i);
        }
    }
  }

  lemma OccursAtStart(p: string, tail: string)
    ensures OccursAt(p + tail, p, 0)
  {
    assert (p + tail)[0..|p|] == p;
  }

  lemma {:induction false} FlatTopIsDeep(d: Doc, k: nat)
    requires Flat(d)
    ensures TopCopies(d, k) == Copies(d, k)
    ensures (exists e :: e in Deep(d) && e.n == k) ==> TopCopies(d, k) > 0
  {
    if d.Part? {
      FlatTopIsDeep(d.rest, k);
      if e :| e in Deep(d) && e.n == k {
        assert Deep(d.inner) == {};
        assert e == Entry(d.n, Render(d.inner)) || e in Deep(d.rest);
      }
    }
    hide Render;
  }

  /** Every placeholder is in the masked text exactly when no masked value contains one. */
  lemma AllPresentIff(d: Doc, entries: seq<Entry>)
    requires !Contains(Fill(d), CORE) && forall k :: Copies(d, k) <= 1
    requires forall e :: e in Deep(d) <==> e in entries
    ensures (forall e | e in entries :: Contains(Render(d), Placeholder(e.n)))
            <==> forall e | e in entries :: !Contains(e.value, CORE)
  {
    hide *;
    FlatIff(d);
    forall e | e in entries
      ensures Contains(Render(d), Placeholder(e.n)) <==> TopCopies(d, e.n) > 0
      ensures Flat(d) ==> TopCopies(d, e.n) > 0
    {
      OccursIffTop(d, e.n);
      if Flat(d) {
        FlatTopIsDeep(d, e.n);
      }
    }
    if !Flat(d) {
      var k := HiddenIsNotTop(d);
      var e :| e in Deep(d) && e.n == k;
      assert e in entries && TopCopies(d, e.n) == 0;
    }
  }

  /** A masked value that contains the core contains the placeholder of a hole below it. */
  lemma {:induction false} CoreIsEarlier(d: Doc, e: Entry) returns (x: Entry)
    requires Nested(d) && !Contains(Fill(d), CORE) && e in Deep(d) && Contains(e.value, CORE)
    ensures x in Deep(d) && x.n < e.n && Contains(e.value, Placeholder(x.n))
  {
    hide Contains, Placeholder;
    PartsLackCore(d.lit, Fill(d.inner) + Fill(d.rest));
    PartsLackCore(Fill(d.inner), Fill(d.rest));
    if e == Entry(d.n, Render(d.inner)) {
      EndIsFilledIfEnd(d.inner);
      x := Entry(d.inner.n, Render(d.inner.inner));
      FirstIsTop(d.inner);
      TopInDeep(d.inner);
      assert x in Deep(d.inner);
      OccursIffTop(d.inner, x.n);
    } else if e in Deep(d.inner) {
      x := CoreIsEarlier(d.inner, e);
    } else {
      x := CoreIsEarlier(d.rest, e);
    }
  }

  lemma EndIsFilledIfEnd(d: Doc)
    ensures d.End? ==> Render(d) == Fill(d)
  {
  }
}
