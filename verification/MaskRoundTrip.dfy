/** When unmasking gives back the text that was masked. */
module MaskRoundTrip {
  import opened Text
  import opened Placeholders
  import opened MaskedText
  import opened Masking

  /**
   The masked part is bounded by characters that no placeholder contains: back quotes
   around code, angle brackets around links, parentheses around addresses.
   */
  predicate Delimited(span: Span, text: string)
    requires InText(span, text)
  {
    span.start >= 0 && span.end >= 0 ==>
      && ((span.start < span.end && Foreign(text[span.start]))
          || (span.full < span.start && Foreign(text[span.start - 1])))
      && ((span.start < span.end && Foreign(text[span.end - 1]))
          || (span.end < |text| && Foreign(text[span.end])))
  }

  ghost predicate AllDelimited(spans: seq<Span>, text: string)
    requires SpansIn(spans, text)
  {
    forall i | 0 <= i < |spans| :: Delimited(spans[i], text)
  }

  ghost predicate FindsDelimited(find: Finder) {
    forall text: string :: SpansIn(find(text), text) && AllDelimited(find(text), text)
  }

  // A pass as an operation on documents -----------------------------------------------------

  /** No part that the pass masks starts or ends inside a placeholder; `d` is the text from `pos` on. */
  predicate NoCuts(d: Doc, spans: seq<Span>, pos: nat)
    decreases |spans|
  {
    spans == [] ||
    if !Taken(spans[0], pos) then NoCuts(d, spans[1..], pos)
    else
      var Span(_, start, end) := spans[0];
      && pos <= start <= end && Boundary(d, start - pos) && Boundary(Drop(d, start - pos), end - start)
      && NoCuts(Drop(Drop(d, start - pos), end - start), spans[1..], end)
  }

  function MaskDoc(d: Doc, spans: seq<Span>, pos: nat, counter: nat, used: set<string>): Doc
    requires NoCuts(d, spans, pos)
    decreases |spans|
  {
    if spans == [] then d
    else if !Taken(spans[0], pos) then MaskDoc(d, spans[1..], pos, counter, used)
    else
      var Span(_, start, end) := spans[0];
      var n := Fresh(counter, used);
      var tail := Drop(d, start - pos);
      Append(Take(d, start - pos),
             Part("", n, Take(tail, end - start),
                  MaskDoc(Drop(tail, end - start), spans[1..], end, n + 1, used + {Placeholder(n)})))
  }

  lemma TailOfSpans(spans: seq<Span>, text: string)
    requires spans != [] && SpansIn(spans, text) && AllDelimited(spans, text)
    ensures SpansIn(spans[1..], text) && AllDelimited(spans[1..], text)
    ensures InText(spans[0], text) && Delimited(spans[0], text)
  {
    hide Foreign;
  }

  lemma SliceAt(text: string, pos: nat, k: nat)
    requires pos + k <= |text|
    ensures text[pos..][k..] == text[pos + k..]
    ensures pos + k < |text| ==> text[pos..][k] == text[pos + k]
    ensures k > 0 ==> text[pos..][k - 1] == text[pos + k - 1]
  {
  }

  /** Delimited parts start and end outside placeholders. */
  lemma EdgesAreBoundaries(d: Doc, span: Span, text: string, pos: nat)
    requires InText(span, text) && Delimited(span, text) && Taken(span, pos)
    requires pos <= |text| && Render(d) == text[pos..]
    ensures pos <= span.start <= span.end <= |text|
    ensures Boundary(d, span.start - pos) && Render(Drop(d, span.start - pos)) == text[span.start..]
    ensures Boundary(Drop(d, span.start - pos), span.end - span.start)
    ensures Render(Drop(Drop(d, span.start - pos), span.end - span.start)) == text[span.end..]
  {
    hide Foreign, Boundary, Render, Drop;
    var Span(full, start, end) := span;
    SliceAt(text, pos, start - pos);
    ForeignMarksBoundary(d, start - pos);
    TakeRenders(d, start - pos);
    var tail := Drop(d, start - pos);
    SliceAt(text, start, end - start);
    if start < end || end < |text| {
      MarkedEnd(tail, text, start, end);
    }
    TakeRenders(tail, end - start);
  }

  lemma MarkedEnd(tail: Doc, text: string, start: nat, end: nat)
    requires start <= end <= |text| && Render(tail) == text[start..]
    requires (start < end && Foreign(text[end - 1])) || (end < |text| && Foreign(text[end]))
    ensures Boundary(tail, end - start)
  {
    hide Foreign, Boundary, Render;
    SliceAt(text, start, end - start);
    ForeignMarksBoundary(tail, end - start);
  }

  lemma {:induction false} DelimitedMeansNoCuts(d: Doc, text: string, spans: seq<Span>, pos: nat)
    requires pos <= |text| && Render(d) == text[pos..]
    requires SpansIn(spans, text) && AllDelimited(spans, text)
    ensures NoCuts(d, spans, pos)
    decreases |spans|
  {
    hide Delimited, Boundary, Render, Drop, SpansIn, AllDelimited;
    if spans == [] {
    } else {
      TailOfSpans(spans, text);
      if Taken(spans[0], pos) {
        var Span(_, start, end) := spans[0];
        EdgesAreBoundaries(d, spans[0], text, pos);
        DelimitedMeansNoCuts(Drop(Drop(d, start - pos), end - start), text, spans[1..], end);
      } else {
        DelimitedMeansNoCuts(d, text, spans[1..], pos);
      }
    }
  }

  /** One part masked, in the document and in the text. */
  lemma OnePart(d: Doc, text: string, pos: nat, start: nat, end: nat, n: nat, later: Doc)
    requires pos <= start <= end <= |text| && Render(d) == text[pos..]
    requires Boundary(d, start - pos) && Boundary(Drop(d, start - pos), end - start)
    ensures var tail := Drop(d, start - pos);
            var masked := Append(Take(d, start - pos), Part("", n, Take(tail, end - start), later));
            && Render(Drop(tail, end - start)) == text[end..]
            && Render(Take(tail, end - start)) == text[start..end]
            && Render(masked) == text[pos..start] + (Placeholder(n) + Render(later))
            && (Fill(later) == Fill(Drop(tail, end - start)) ==> Fill(masked) == Fill(d))
  {
    hide *;
    var tail := Drop(d, start - pos);
    TakeRenders(d, start - pos);
    TakeRenders(tail, end - start);
    SliceAt(text, pos, start - pos);
    SliceAt(text, start, end - start);
    SliceUpTo(text, pos, start);
    SliceUpTo(text, start, end);
    var hole := Part("", n, Take(tail, end - start), later);
    AppendFacts(Take(d, start - pos), hole);
    FillsWhole(d, start - pos, end - start);
    HoleRenders(hole);
  }

  /** The document of a pass renders to the masked text, and stands for the same original. */
  lemma {:induction false} MaskDocRenders(
    d: Doc, text: string, spans: seq<Span>, pos: nat, counter: nat, used: set<string>)
    requires pos <= |text| && SpansIn(spans, text) && Render(d) == text[pos..] && NoCuts(d, spans, pos)
    ensures Render(MaskDoc(d, spans, pos, counter, used)) == MaskFrom(text, spans, pos, counter, used).text
    ensures Fill(MaskDoc(d, spans, pos, counter, used)) == Fill(d)
    decreases |spans|
  {
    hide Boundary, Drop, Take, Append, Fresh, Placeholder, Render, Fill;
    if spans == [] {
    } else {
      assert InText(spans[0], text) && SpansIn(spans[1..], text);
      if Taken(spans[0], pos) {
        var Span(_, start, end) := spans[0];
        var n := Fresh(counter, used);
        var rest := Drop(Drop(d, start - pos), end - start);
        var later := MaskDoc(rest, spans[1..], end, n + 1, used + {Placeholder(n)});
        OnePart(d, text, pos, start, end, n, later);
        MaskDocRenders(rest, text, spans[1..], end, n + 1, used + {Placeholder(n)});
      } else {
        MaskDocRenders(d, text, spans[1..], pos, counter, used);
      }
    }
  }

  lemma HoleRenders(d: Doc)
    requires d.Part? && d.lit == ""
    ensures Render(d) == Placeholder(d.n) + Render(d.rest) && Fill(d) == Fill(d.inner) + Fill(d.rest)
  {
    NothingAdded(Placeholder(d.n) + Render(d.rest));
    NothingAdded(Fill(d.inner) + Fill(d.rest));
  }

  lemma SliceUpTo(text: string, pos: nat, start: nat)
    requires pos <= start <= |text|
    ensures text[pos..][..start - pos] == text[pos..start]
  {
  }

  lemma FillsWhole(d: Doc, a: nat, b: nat)
    requires Boundary(d, a) && Boundary(Drop(d, a), b)
    ensures Fill(d) == Fill(Take(d, a)) + (Fill(Take(Drop(d, a), b)) + Fill(Drop(Drop(d, a), b)))
  {
    TakeDrop(d, a);
    TakeDrop(Drop(d, a), b);
    AppendFacts(Take(d, a), Drop(d, a));
    AppendFacts(Take(Drop(d, a), b), Drop(Drop(d, a), b));
    hide *;
  }

  // The holes a pass makes ----------------------------------------------------------------------

  ghost predicate Below(d: Doc, bound: nat) {
    forall e | e in Deep(d) :: e.n < bound
  }

  /** Numbers ascend from `from` on and stay below `to`. */
  predicate Numbered(entries: seq<Entry>, from: nat, to: nat) {
    from <= to && Ascending(entries) && forall i | 0 <= i < |entries| :: from <= entries[i].n < to
  }

  lemma NumberedFirst(first: Entry, later: seq<Entry>, from: nat, to: nat)
    requires from <= first.n && Numbered(later, first.n + 1, to)
    ensures Numbered([first] + later, from, to)
  {
    var all := [first] + later;
    assert all[0] == first;
    assert forall i | 0 < i < |all| :: all[i] == later[i - 1];
  }

  lemma NumberedTwice(a: seq<Entry>, b: seq<Entry>, from: nat, mid: nat, to: nat)
    requires Numbered(a, from, mid) && Numbered(b, mid, to)
    ensures Numbered(a + b, from, to)
  {
    forall i | 0 <= i < |a + b|
      ensures (a + b)[i] == if i < |a| then a[i] else b[i - |a|]
    {
    }
  }

  ghost predicate SameHoles(d: Doc, e: Doc, added: seq<Entry>) {
    forall x :: x in Deep(e) <==> x in Deep(d) || x in added
  }

  /** The parts of a document have its holes between them. */
  lemma HolesOfParts(d: Doc, a: nat, b: nat)
    requires Boundary(d, a) && Boundary(Drop(d, a), b)
    ensures Deep(d) == Deep(Take(d, a)) + Deep(Take(Drop(d, a), b)) + Deep(Drop(Drop(d, a), b))
    ensures Nested(d) <==> Nested(Take(d, a)) && Nested(Take(Drop(d, a), b)) && Nested(Drop(Drop(d, a), b))
  {
    hide *;
    TakeDrop(d, a);
    TakeDrop(Drop(d, a), b);
    AppendFacts(Take(d, a), Drop(d, a));
    AppendFacts(Take(Drop(d, a), b), Drop(Drop(d, a), b));
  }

  lemma CopiesOfParts(d: Doc, a: nat, b: nat, k: nat)
    requires Boundary(d, a) && Boundary(Drop(d, a), b)
    ensures Copies(d, k)
            == Copies(Take(d, a), k) + Copies(Take(Drop(d, a), b), k) + Copies(Drop(Drop(d, a), b), k)
  {
    hide *;
    TakeDrop(d, a);
    TakeDrop(Drop(d, a), b);
    CopiesAppend(Take(d, a), Drop(d, a), k);
    CopiesAppend(Take(Drop(d, a), b), Drop(Drop(d, a), b), k);
  }

  /** One part masked: a new hole, with what was inside below it. */
  lemma HolesOfOnePart(d: Doc, a: nat, b: nat, n: nat, later: Doc, added: seq<Entry>)
    requires Boundary(d, a) && Boundary(Drop(d, a), b) && Nested(d) && Below(d, n) && Nested(later)
    requires SameHoles(Drop(Drop(d, a), b), later, added)
    ensures var masked := Append(Take(d, a), Part("", n, Take(Drop(d, a), b), later));
            && Nested(masked)
            && SameHoles(d, masked, [Entry(n, Render(Take(Drop(d, a), b)))] + added)
  {
    hide Boundary, Take, Drop, Append, Render;
    HolesOfParts(d, a, b);
    var mid := Take(Drop(d, a), b);
    var hole := Part("", n, mid, later);
    AppendFacts(Take(d, a), hole);
    assert Deep(hole) == {Entry(n, Render(mid))} + Deep(mid) + Deep(later);
  }

  lemma CopiesOfOnePart(d: Doc, a: nat, b: nat, n: nat, later: Doc, k: nat)
    requires Boundary(d, a) && Boundary(Drop(d, a), b)
    ensures var masked := Append(Take(d, a), Part("", n, Take(Drop(d, a), b), later));
            Copies(masked, k)
            == Copies(d, k) + (if k == n then 1 else 0) + Copies(later, k) - Copies(Drop(Drop(d, a), b), k)
  {
    hide Boundary, Take, Drop, Append;
    CopiesOfParts(d, a, b, k);
    CopiesAppend(Take(d, a), Part("", n, Take(Drop(d, a), b), later), k);
  }

  lemma {:induction false} MaskDocHoles(
    d: Doc, text: string, spans: seq<Span>, pos: nat, counter: nat, used: set<string>)
    requires pos <= |text| && SpansIn(spans, text) && Render(d) == text[pos..] && NoCuts(d, spans, pos)
    requires Nested(d) && Below(d, counter)
    ensures var p, e := MaskFrom(text, spans, pos, counter, used), MaskDoc(d, spans, pos, counter, used);
            Nested(e) && SameHoles(d, e, p.entries) && Numbered(p.entries, counter, p.counter)
    decreases |spans|
  {
    hide Boundary, Drop, Take, Append, Fresh, Placeholder, Render, Fill, Nested, Below, SameHoles, Numbered;
    if spans == [] {
      NoHoles(d, counter);
    } else {
      assert InText(spans[0], text) && SpansIn(spans[1..], text);
      if Taken(spans[0], pos) {
        var Span(_, start, end) := spans[0];
        var n := Fresh(counter, used);
        var rest := Drop(Drop(d, start - pos), end - start);
        var later := MaskDoc(rest, spans[1..], end, n + 1, used + {Placeholder(n)});
        var p := MaskFrom(text, spans[1..], end, n + 1, used + {Placeholder(n)});
        OnePart(d, text, pos, start, end, n, later);
        HolesOfParts(d, start - pos, end - start);
        BelowLater(d, rest, counter, n);
        MaskDocHoles(rest, text, spans[1..], end, n + 1, used + {Placeholder(n)});
        HolesOfOnePart(d, start - pos, end - start, n, later, p.entries);
        NumberedFirst(Entry(n, text[start..end]), p.entries, counter, p.counter);
      } else {
        MaskDocHoles(d, text, spans[1..], pos, counter, used);
      }
    }
  }

  lemma NoHoles(d: Doc, counter: nat)
    ensures SameHoles(d, d, []) && Numbered([], counter, counter)
  {
  }

  lemma BelowLater(d: Doc, rest: Doc, counter: nat, n: nat)
    requires Below(d, counter) && Deep(rest) <= Deep(d) && counter <= n
    ensures Below(d, n) && Below(rest, n + 1)
  {
  }

  /** A pass uses every new number once and leaves the others alone. */
  lemma {:induction false} MaskDocCopies(
    d: Doc, spans: seq<Span>, pos: nat, counter: nat, used: set<string>, k: nat)
    requires NoCuts(d, spans, pos)
    ensures var e := MaskDoc(d, spans, pos, counter, used);
            && (k < counter ==> Copies(e, k) == Copies(d, k))
            && Copies(e, k) <= Copies(d, k) + 1
    decreases |spans|
  {
    hide Boundary, Drop, Take, Append, Fresh, Placeholder, Copies;
    if spans == [] {
    } else {
      if Taken(spans[0], pos) {
        var Span(_, start, end) := spans[0];
        var n := Fresh(counter, used);
        var rest := Drop(Drop(d, start - pos), end - start);
        var later := MaskDoc(rest, spans[1..], end, n + 1, used + {Placeholder(n)});
        MaskDocCopies(rest, spans[1..], end, n + 1, used + {Placeholder(n)}, k);
        CopiesOfOnePart(d, start - pos, end - start, n, later, k);
      } else {
        MaskDocCopies(d, spans[1..], pos, counter, used, k);
      }
    }
  }

  // All passes --------------------------------------------------------------------------------------

  /** What holds of the masked text after any number of passes, and of what has been masked so far. */
  ghost predicate Masked(d: Doc, original: string, p: Pass, from: nat) {
    && Render(d) == p.text && Fill(d) == original && Nested(d)
    && (forall e :: e in Deep(d) <==> e in p.entries)
    && Numbered(p.entries, from, p.counter)
    && (forall k :: Copies(d, k) <= 1) && (forall k | k >= p.counter :: Copies(d, k) == 0)
  }

  lemma NothingMasked(text: string, counter: nat, used: set<string>)
    ensures Masked(End(text), text, Pass(text, [], counter, used), counter)
  {
  }

  /** One more pass. */
  lemma OneMorePass(d: Doc, original: string, p: Pass, from: nat, find: Finder) returns (e: Doc)
    requires Masked(d, original, p, from) && FindsDelimited(find)
    ensures SpansIn(find(p.text), p.text)
    ensures var q := MaskFrom(p.text, find(p.text), 0, p.counter, p.used);
            Masked(e, original, Pass(q.text, p.entries + q.entries, q.counter, q.used), from)
  {
    hide Render, Fill, Nested, Copies, Numbered, NoCuts, MaskFrom, Delimited, Deep;
    var spans := find(p.text);
    var q := MaskFrom(p.text, spans, 0, p.counter, p.used);
    assert p.text[0..] == p.text;
    DelimitedMeansNoCuts(d, p.text, spans, 0);
    e := MaskDoc(d, spans, 0, p.counter, p.used);
    MaskDocRenders(d, p.text, spans, 0, p.counter, p.used);
    AllBelow(p.entries, from, p.counter);
    MaskDocHoles(d, p.text, spans, 0, p.counter, p.used);
    NumberedTwice(p.entries, q.entries, from, p.counter, q.counter);
    NumbersGrow(q.entries, p.counter, q.counter);
    CopiesStayUnique(d, p.text, spans, p.counter, p.used);
  }

  lemma NumbersGrow(entries: seq<Entry>, from: nat, to: nat)
    requires Numbered(entries, from, to)
    ensures from <= to
  {
  }

  lemma AllBelow(entries: seq<Entry>, from: nat, to: nat)
    requires Numbered(entries, from, to)
    ensures forall e | e in entries :: e.n < to
  {
  }

  lemma CopiesStayUnique(d: Doc, text: string, spans: seq<Span>, counter: nat, used: set<string>)
    requires SpansIn(spans, text) && Render(d) == text[0..] && NoCuts(d, spans, 0)
    requires Nested(d) && Below(d, counter)
    requires (forall k :: Copies(d, k) <= 1) && (forall k | k >= counter :: Copies(d, k) == 0)
    ensures var e, p := MaskDoc(d, spans, 0, counter, used), MaskFrom(text, spans, 0, counter, used);
            (forall k :: Copies(e, k) <= 1) && (forall k | k >= p.counter :: Copies(e, k) == 0)
  {
    hide Render, Nested, Copies, NoCuts, MaskFrom, MaskDoc, SpansIn;
    var e, p := MaskDoc(d, spans, 0, counter, used), MaskFrom(text, spans, 0, counter, used);
    MaskDocHoles(d, text, spans, 0, counter, used);
    AllBelow(p.entries, counter, p.counter);
    forall k: nat
      ensures Copies(e, k) <= 1 && (k >= p.counter ==> Copies(e, k) == 0)
    {
      MaskDocCopies(d, spans, 0, counter, used, k);
      if Copies(e, k) > 0 {
        CopyIsHole(e, k);
      }
    }
  }

  lemma {:induction false} CopyIsHole(d: Doc, k: nat)
    requires Copies(d, k) > 0
    ensures exists e :: e in Deep(d) && e.n == k
  {
    if d.n == k {
      assert Entry(d.n, Render(d.inner)) in Deep(d);
    } else if Copies(d.inner, k) > 0 {
      CopyIsHole(d.inner, k);
    } else {
      CopyIsHole(d.rest, k);
    }
    hide Render;
  }

  ghost predicate AllFindDelimited(finders: seq<Finder>) {
    forall i | 0 <= i < |finders| :: FindsDelimited(finders[i])
  }

  lemma DelimitedFinders(finders: seq<Finder>)
    requires AllFindDelimited(finders)
    ensures AllFind(finders)
  {
    forall i | 0 <= i < |finders|
      ensures Finds(finders[i])
    {
      assert FindsDelimited(finders[i]);
    }
    hide FindsDelimited;
  }

  /** After all passes: `before` is what the earlier ones did. */
  lemma {:induction false} PassesMask(
    d: Doc, original: string, before: Pass, from: nat, finders: seq<Finder>) returns (e: Doc)
    requires Masked(d, original, before, from) && AllFindDelimited(finders) && AllFind(finders)
    ensures var p := MaskPasses(before.text, finders, before.counter, before.used);
            Masked(e, original, Pass(p.text, before.entries + p.entries, p.counter, p.used), from)
    decreases |finders|
  {
    hide Masked, MaskFrom, FindsDelimited;
    if finders == [] {
      NothingAdded(before.entries);
      SamePass(before);
      e := d;
    } else {
      assert FindsDelimited(finders[0]);
      assert Finds(finders[0]);
      var q := MaskFrom(before.text, finders[0](before.text), 0, before.counter, before.used);
      var next := Pass(q.text, before.entries + q.entries, q.counter, q.used);
      var d' := OneMorePass(d, original, before, from, finders[0]);
      e := PassesMask(d', original, next, from, finders[1..]);
      Assoc(before.entries, q.entries, MaskPasses(q.text, finders[1..], q.counter, q.used).entries);
    }
  }

  lemma SamePass(p: Pass)
    ensures p == Pass(p.text, p.entries, p.counter, p.used)
  {
  }

  // Unmasking with the recorded names ----------------------------------------------------------------

  lemma {:induction false} RecordedValue(mapping: map<string, string>, entries: seq<Entry>, i: nat)
    requires Ascending(entries) && i < |entries|
    ensures Lookup(Extend(mapping, entries), Placeholder(entries[i].n)) == entries[i].value
  {
    var front, last := entries[..|entries| - 1], entries[|entries| - 1];
    if i < |front| {
      assert front[i] == entries[i];
      RecordedValue(mapping, front, i);
      if Placeholder(entries[i].n) == Placeholder(last.n) {
        PlaceholderInjective(entries[i].n, last.n);
      }
    }
    hide Placeholder;
  }

  /** The recorded names and values are those of the entries. */
  lemma {:induction false} UnmaskIsUnmaskAll(text: string, entries: seq<Entry>, mapping: map<string, string>)
    requires forall i | 0 <= i < |entries| :: Lookup(mapping, Placeholder(entries[i].n)) == entries[i].value
    ensures NonEmpty(NamesOf(entries)) && Unmask(text, NamesOf(entries), mapping) == UnmaskAll(text, entries)
    decreases |entries|
  {
    hide Placeholder, ReplaceAll, Lookup;
    if entries == [] {
    } else {
      assert NamesOf(entries)[1..] == NamesOf(entries[1..]);
      assert forall i | 0 <= i < |entries[1..]| :: entries[1..][i] == entries[i + 1];
      UnmaskIsUnmaskAll(ReplaceAll(text, Placeholder(entries[0].n), entries[0].value), entries[1..], mapping);
    }
  }

  lemma MaskedMeans(d: Doc, original: string, p: Pass, from: nat)
    requires Masked(d, original, p, from)
    ensures Render(d) == p.text && Fill(d) == original && Nested(d) && Ascending(p.entries)
    ensures forall e :: e in Deep(d) <==> e in p.entries
    ensures forall k :: Copies(d, k) <= 1
  {
    hide Render, Fill, Nested, Copies;
  }

  lemma MaskingGivesDoc(text: string, finders: seq<Finder>, counter: nat, used: set<string>) returns (d: Doc)
    requires AllFindDelimited(finders) && AllFind(finders)
    ensures Masked(d, text, MaskPasses(text, finders, counter, used), counter)
  {
    hide Masked, AllFind, AllFindDelimited, MaskPasses;
    var start := Pass(text, [], counter, used);
    NothingMasked(text, counter, used);
    d := PassesMask(End(text), text, start, counter, finders);
    var p := MaskPasses(text, finders, counter, used);
    NothingAdded(p.entries);
    SamePass(p);
  }

  /** The value masked as `e` contains the placeholder of `x`, which was masked before. */
  ghost predicate HasEarlier(entries: seq<Entry>, e: Entry, x: Entry) {
    e in entries && x in entries && x.n < e.n && Contains(e.value, Placeholder(x.n))
  }

  lemma NoneEarlierIff(d: Doc, entries: seq<Entry>)
    requires Nested(d) && !Contains(Fill(d), CORE) && forall e :: e in Deep(d) <==> e in entries
    ensures (forall e | e in entries :: !Contains(e.value, CORE)) <==> !exists e, x :: HasEarlier(entries, e, x)
  {
    hide Nested, Fill, Deep, Contains, Placeholder;
    forall e | e in entries && Contains(e.value, CORE)
      ensures exists x :: HasEarlier(entries, e, x)
    {
      var x := CoreIsEarlier(d, e);
      assert HasEarlier(entries, e, x);
    }
    forall e, x | HasEarlier(entries, e, x)
      ensures Contains(e.value, CORE)
    {
      PlaceholderInside(e.value, x.n);
    }
  }

  lemma PlaceholderInside(s: string, n: nat)
    requires Contains(s, Placeholder(n))
    ensures Contains(s, CORE)
  {
    var i :| OccursAt(s, Placeholder(n), i);
    OccurrenceHasStem(s, n, i);
    assert OccursAt(s, CORE, i + 2);
    hide Placeholder, OccursAt;
  }

  /**
   For a text without `OC_I18N_` and any passes whose masked parts are delimited:
   unmasking the masked text gives the text back exactly when no masked value
   contains an earlier placeholder.
   */
  lemma UnmaskUndoesMaskIff(
    text: string, finders: seq<Finder>, counter: nat, used: set<string>, mapping: map<string, string>)
    requires !Contains(text, CORE) && AllFindDelimited(finders) && AllFind(finders)
    ensures var p := MaskPasses(text, finders, counter, used);
            && NonEmpty(NamesOf(p.entries))
            && (Unmask(p.text, NamesOf(p.entries), Extend(mapping, p.entries)) == text
                <==> !exists e, x :: HasEarlier(p.entries, e, x))
  {
    hide *;
    var p := MaskPasses(text, finders, counter, used);
    var d := MaskingGivesDoc(text, finders, counter, used);
    MaskedMeans(d, text, p, counter);
    forall i | 0 <= i < |p.entries|
      ensures Lookup(Extend(mapping, p.entries), Placeholder(p.entries[i].n)) == p.entries[i].value
    {
      RecordedValue(mapping, p.entries, i);
    }
    UnmaskIsUnmaskAll(p.text, p.entries, Extend(mapping, p.entries));
    NoneEarlierIff(d, p.entries);
    UnmaskingRestoresIff(d, p.entries);
  }

  /** And in the same cases, and no others, the masked text passes the validation. */
  lemma MaskedTextIsValidIff(text: string, finders: seq<Finder>, counter: nat, used: set<string>)
    requires !Contains(text, CORE) && AllFindDelimited(finders) && AllFind(finders)
    ensures var p := MaskPasses(text, finders, counter, used);
            (forall e | e in p.entries :: Contains(p.text, Placeholder(e.n)))
            <==> !exists e, x :: HasEarlier(p.entries, e, x)
  {
    hide *;
    var p := MaskPasses(text, finders, counter, used);
    var d := MaskingGivesDoc(text, finders, counter, used);
    MaskedMeans(d, text, p, counter);
    NoneEarlierIff(d, p.entries);
    AllPresentIff(d, p.entries);
  }

  // A value that does contain one -------------------------------------------------------------------

  const CODE_IN_LINK := "[x](`u`)"

  function CodeIn(text: string): seq<Span> {
    if text == CODE_IN_LINK then [Span(4, 4, 7)] else []
  }

  function LinkIn(text: string): seq<Span> {
    if |text| == 23 && text[3] == '(' && text[22] == ')' then [Span(0, 4, 22)] else []
  }

  /** Code in the address of a link is masked twice over, and unmasking leaves its placeholder behind. */
  lemma CodeInLinkIsLost()
    ensures AllFindDelimited([CodeIn, LinkIn]) && AllFind([CodeIn, LinkIn])
    ensures var p := MaskPasses(CODE_IN_LINK, [CodeIn, LinkIn], FIRST_NUMBER, {});
            && NonEmpty(NamesOf(p.entries))
            && Unmask(p.text, NamesOf(p.entries), Extend(map[], p.entries)) != CODE_IN_LINK
  {
    WitnessFinders();
    WitnessLacksCore();
    WitnessPasses();
    hide *;
    UnmaskUndoesMaskIff(CODE_IN_LINK, [CodeIn, LinkIn], FIRST_NUMBER, {}, map[]);
  }

  lemma WitnessFinders()
    ensures AllFindDelimited([CodeIn, LinkIn]) && AllFind([CodeIn, LinkIn])
  {
    assert CODE_IN_LINK[4] == '`' && CODE_IN_LINK[6] == '`' && |CODE_IN_LINK| == 8;
    forall text
      ensures SpansIn(CodeIn(text), text) && AllDelimited(CodeIn(text), text)
      ensures SpansIn(LinkIn(text), text) && AllDelimited(LinkIn(text), text)
    {
    }
    assert FindsDelimited(CodeIn) && FindsDelimited(LinkIn);
    DelimitedFinders([CodeIn, LinkIn]);
  }

  lemma WitnessLacksCore()
    ensures !Contains(CODE_IN_LINK, CORE)
  {
    forall i
      ensures !OccursAt(CODE_IN_LINK, CORE, i)
    {
      if OccursAt(CODE_IN_LINK, CORE, i) {
        CoreCharacters(CODE_IN_LINK, i);
        assert false;
      }
    }
  }

  lemma OneSpan(text: string, span: Span, counter: nat, used: set<string>)
    requires InText(span, text) && Taken(span, 0)
    ensures SpansIn([span], text)
    ensures var n := Fresh(counter, used);
            MaskFrom(text, [span], 0, counter, used)
            == Pass(text[..span.start] + (Placeholder(n) + text[span.end..]), [Entry(n, text[span.start..span.end])],
                    n + 1, used + {Placeholder(n)})
  {
    hide Placeholder, Fresh;
    assert [span][0] == span && [span][1..] == [];
    NothingAdded([Entry(Fresh(counter, used), text[span.start..span.end])]);
  }

  lemma TwoPasses(text: string, first: Finder, second: Finder, counter: nat, used: set<string>)
    requires AllFind([first, second])
    ensures Finds(first) && Finds(second)
    ensures var a := MaskFrom(text, first(text), 0, counter, used);
            MaskPasses(text, [first, second], counter, used).entries
            == a.entries + MaskFrom(a.text, second(a.text), 0, a.counter, a.used).entries
  {
    hide MaskFrom;
    var passes := [first, second];
    assert passes[0] == first && passes[1] == second;
    var a := MaskFrom(text, first(text), 0, counter, used);
    assert passes[1..] == [second] && passes[1..][1..] == [];
    assert AllFind([second]);
    var b := MaskFrom(a.text, second(a.text), 0, a.counter, a.used);
    NothingAdded(b.entries);
    assert MaskPasses(a.text, [second], a.counter, a.used) == Pass(b.text, b.entries, b.counter, b.used);
  }

  lemma WitnessPasses()
    requires AllFind([CodeIn, LinkIn])
    ensures var p := MaskPasses(CODE_IN_LINK, [CodeIn, LinkIn], FIRST_NUMBER, {});
            exists e, x :: HasEarlier(p.entries, e, x)
  {
    hide MaskPasses, MaskFrom, Placeholder, Finds, AllFind;
    var T := CODE_IN_LINK;
    FirstPlaceholder();
    var p0 := Placeholder(FIRST_NUMBER);
    TwoPasses(T, CodeIn, LinkIn, FIRST_NUMBER, {});
    OneSpan(T, Span(4, 4, 7), FIRST_NUMBER, {});
    assert Fresh(FIRST_NUMBER, {}) == FIRST_NUMBER;
    var t := T[..4] + (p0 + T[7..]);
    WitnessText(p0);
    OneSpan(t, Span(0, 4, 22), FIRST_NUMBER + 1, {} + {p0});
    var x := Entry(FIRST_NUMBER, T[4..7]);
    var e := Entry(Fresh(FIRST_NUMBER + 1, {} + {p0}), p0);
    var entries := MaskPasses(T, [CodeIn, LinkIn], FIRST_NUMBER, {}).entries;
    assert entries == [x] + [e];
    assert entries[0] == x && entries[1] == e;
    OccursAtStart(p0, "");
    NothingAdded(p0);
    assert HasEarlier(entries, e, x);
  }

  lemma WitnessText(p0: string)
    requires |p0| == 18
    ensures var t := CODE_IN_LINK[..4] + (p0 + CODE_IN_LINK[7..]);
            |t| == 23 && t[3] == '(' && t[22] == ')' && t[4..22] == p0
  {
    assert |CODE_IN_LINK| == 8 && CODE_IN_LINK[3] == '(' && CODE_IN_LINK[7..] == ")";
  }
}
