/** Masking the parts of a text that must not be translated, and putting them back. */
module Masking {
  import opened Wrappers
  import opened Text
  import opened Placeholders
  import opened MaskedText

  /**
   What a pattern found: the whole match from `full` on, and the part to mask. For
   a pattern without a group the two start together; a group that took no part in
   the match is negative.
   */
  datatype Span = Span(full: int, start: int, end: int)

  predicate Taken(span: Span, pos: nat) {
    span.start >= 0 && span.end >= 0 && span.full >= pos
  }

  predicate InText(span: Span, text: string) {
    span.start >= 0 && span.end >= 0 ==> 0 <= span.full <= span.start <= span.end <= |text|
  }

  ghost predicate SpansIn(spans: seq<Span>, text: string) {
    forall i | 0 <= i < |spans| :: InText(spans[i], text)
  }

  /** The masked text, what was masked in order, and where the numbering stands. */
  datatype Pass = Pass(text: string, entries: seq<Entry>, counter: nat, used: set<string>)

  function MaskFrom(text: string, spans: seq<Span>, pos: nat, counter: nat, used: set<string>): Pass
    requires pos <= |text| && SpansIn(spans, text)
    decreases |spans|
  {
    if spans == [] then Pass(text[pos..], [], counter, used)
    else if !Taken(spans[0], pos) then MaskFrom(text, spans[1..], pos, counter, used)
    else
      var Span(_, start, end) := spans[0];
      var n := Fresh(counter, used);
      var later := MaskFrom(text, spans[1..], end, n + 1, used + {Placeholder(n)});
      Pass(text[pos..start] + (Placeholder(n) + later.text), [Entry(n, text[start..end])] + later.entries,
           later.counter, later.used)
  }

  function NamesOf(entries: seq<Entry>): (names: seq<string>)
    ensures |names| == |entries|
    ensures forall i | 0 <= i < |names| :: names[i] == Placeholder(entries[i].n)
  {
    seq(|entries|, i requires 0 <= i < |entries| => Placeholder(entries[i].n))
  }

  function Extend(mapping: map<string, string>, entries: seq<Entry>): map<string, string> {
    if entries == [] then mapping
    else
      var last := entries[|entries| - 1];
      Extend(mapping, entries[..|entries| - 1])[Placeholder(last.n) := last.value]
  }

  // The passes ---------------------------------------------------------------------------

  /** `done` and `out` so far, and what the remaining spans will add, make the whole pass. */
  ghost predicate Progress(all: Pass, out: string, done: seq<Entry>, later: Pass) {
    all == Pass(out + later.text, done + later.entries, later.counter, later.used)
  }

  lemma ProgressStep(all: Pass, text: string, spans: seq<Span>, i: nat, pos: nat, counter: nat, used: set<string>,
                     out: string, done: seq<Entry>)
    requires i < |spans| && pos <= |text| && SpansIn(spans, text) && SpansIn(spans[i..], text)
    requires Progress(all, out, done, MaskFrom(text, spans[i..], pos, counter, used))
    ensures SpansIn(spans[i + 1..], text) && InText(spans[i], text)
    ensures if !Taken(spans[i], pos) then
              Progress(all, out, done, MaskFrom(text, spans[i + 1..], pos, counter, used))
            else
              var Span(_, start, end) := spans[i];
              var n := Fresh(counter, used);
              Progress(all, out + text[pos..start] + Placeholder(n), done + [Entry(n, text[start..end])],
                       MaskFrom(text, spans[i + 1..], end, n + 1, used + {Placeholder(n)}))
  {
    assert spans[i..][0] == spans[i] && spans[i..][1..] == spans[i + 1..];
    hide InText, Fresh, Placeholder;
    if Taken(spans[i], pos) {
      var Span(_, start, end) := spans[i];
      var n := Fresh(counter, used);
      var later := MaskFrom(text, spans[i + 1..], end, n + 1, used + {Placeholder(n)});
      Assoc(out, text[pos..start], Placeholder(n) + later.text);
      Assoc(out + text[pos..start], Placeholder(n), later.text);
      Assoc(done, [Entry(n, text[start..end])], later.entries);
    }
  }

  lemma RecordOne(mapping: map<string, string>, done: seq<Entry>, entry: Entry, names: seq<string>)
    ensures Extend(mapping, done + [entry]) == Extend(mapping, done)[Placeholder(entry.n) := entry.value]
    ensures names + NamesOf(done + [entry]) == (names + NamesOf(done)) + [Placeholder(entry.n)]
  {
    var more := done + [entry];
    assert more[..|more| - 1] == done && more[|more| - 1] == entry;
    hide Placeholder;
    assert NamesOf(more) == NamesOf(done) + [Placeholder(entry.n)];
    Assoc(names, NamesOf(done), [Placeholder(entry.n)]);
  }

  lemma NothingRecorded(mapping: map<string, string>, names: seq<string>)
    ensures Extend(mapping, []) == mapping && names + NamesOf([]) == names
  {
    NothingAdded(names);
  }

  /** A pass over the matches of a pattern. */
  method MaskMatches(text: string, matches: seq<Span>, state: PlaceholderState, placeholders: seq<string>,
                     mapping: map<string, string>)
    returns (masked: string, names: seq<string>, originals: map<string, string>)
    requires state.Valid() && SpansIn(matches, text)
    requires forall i | 0 <= i < |matches| :: matches[i].full == matches[i].start >= 0 && matches[i].end >= 0
    modifies state
    ensures state.Valid() && old(state.issued) <= state.issued
    ensures var p := MaskFrom(text, matches, 0, old(state.counter), old(state.used));
            && masked == p.text && state.counter == p.counter && state.used == p.used
            && names == placeholders + NamesOf(p.entries) && originals == Extend(mapping, p.entries)
  {
    hide Fresh, Placeholder, Extend, NamesOf, SpansIn;
    names, originals := placeholders, mapping;
    NothingRecorded(mapping, placeholders);
    if |matches| == 0 {
      assert text[0..] == text;
      return text, placeholders, mapping;
    }
    ghost var all := MaskFrom(text, matches, 0, state.counter, state.used);
    ghost var done: seq<Entry> := [];
    var out: string := "";
    var pos: nat := 0;
    assert matches[0..] == matches;
    NothingAdded(all.text);
    NothingAdded(all.entries);
    for i := 0 to |matches|
      invariant state.Valid() && old(state.issued) <= state.issued
      invariant pos <= |text| && SpansIn(matches[i..], text)
      invariant Progress(all, out, done, MaskFrom(text, matches[i..], pos, state.counter, state.used))
      invariant names == placeholders + NamesOf(done) && originals == Extend(mapping, done)
    {
      hide MaskFrom, Progress;
      ProgressStep(all, text, matches, i, pos, state.counter, state.used, out, done);
      var Span(_, start, end) := matches[i];
      if start < pos {
        continue;
      }
      out := out + text[pos..start];
      var placeholder := state.Next();
      ghost var entry := Entry(state.counter - 1, text[start..end]);
      RecordOne(mapping, done, entry, placeholders);
      originals := originals[placeholder := text[start..end]];
      names := names + [placeholder];
      out := out + placeholder;
      pos := end;
      done := done + [entry];
    }
    out := out + text[pos..];
    NothingAdded(done);
    return out, names, originals;
  }

  /** A pass over the links, of which only the addresses are masked. */
  method MaskLinkURLs(text: string, matches: seq<Span>, state: PlaceholderState, placeholders: seq<string>,
                      mapping: map<string, string>)
    returns (masked: string, names: seq<string>, originals: map<string, string>)
    requires state.Valid() && SpansIn(matches, text)
    modifies state
    ensures state.Valid() && old(state.issued) <= state.issued
    ensures var p := MaskFrom(text, matches, 0, old(state.counter), old(state.used));
            && masked == p.text && state.counter == p.counter && state.used == p.used
            && names == placeholders + NamesOf(p.entries) && originals == Extend(mapping, p.entries)
  {
    hide Fresh, Placeholder, Extend, NamesOf, SpansIn;
    names, originals := placeholders, mapping;
    NothingRecorded(mapping, placeholders);
    if |matches| == 0 {
      assert text[0..] == text;
      return text, placeholders, mapping;
    }
    ghost var all := MaskFrom(text, matches, 0, state.counter, state.used);
    ghost var done: seq<Entry> := [];
    var out: string := "";
    var pos: nat := 0;
    assert matches[0..] == matches;
    NothingAdded(all.text);
    NothingAdded(all.entries);
    for i := 0 to |matches|
      invariant state.Valid() && old(state.issued) <= state.issued
      invariant pos <= |text| && SpansIn(matches[i..], text)
      invariant Progress(all, out, done, MaskFrom(text, matches[i..], pos, state.counter, state.used))
      invariant names == placeholders + NamesOf(done) && originals == Extend(mapping, done)
    {
      hide MaskFrom, Progress;
      ProgressStep(all, text, matches, i, pos, state.counter, state.used, out, done);
      var Span(fullStart, urlStart, urlEnd) := matches[i];
      if urlStart < 0 || urlEnd < 0 {
        continue;
      }
      if fullStart < pos {
        continue;
      }
      out := out + text[pos..urlStart];
      var placeholder := state.Next();
      ghost var entry := Entry(state.counter - 1, text[urlStart..urlEnd]);
      RecordOne(mapping, done, entry, placeholders);
      originals := originals[placeholder := text[urlStart..urlEnd]];
      names := names + [placeholder];
      out := out + placeholder;
      pos := urlEnd;
      done := done + [entry];
    }
    out := out + text[pos..];
    NothingAdded(done);
    return out, names, originals;
  }

  // All passes ------------------------------------------------------------------------------

  type Finder = string -> seq<Span>

  /** A pattern's matches are in the text it is given. */
  ghost predicate Finds(find: Finder) {
    forall text: string :: SpansIn(find(text), text)
  }

  ghost predicate AllFind(finders: seq<Finder>) {
    forall i | 0 <= i < |finders| :: Finds(finders[i])
  }

  function MaskPasses(text: string, finders: seq<Finder>, counter: nat, used: set<string>): Pass
    requires AllFind(finders)
    decreases |finders|
  {
    if finders == [] then Pass(text, [], counter, used)
    else
      assert Finds(finders[0]);
      var first := MaskFrom(text, finders[0](text), 0, counter, used);
      var others := MaskPasses(first.text, finders[1..], first.counter, first.used);
      Pass(others.text, first.entries + others.entries, others.counter, others.used)
  }

  lemma {:induction false} ExtendTwice(mapping: map<string, string>, a: seq<Entry>, b: seq<Entry>)
    ensures Extend(mapping, a + b) == Extend(Extend(mapping, a), b)
  {
    hide Placeholder;
    if b == [] {
      NothingAdded(a);
    } else {
      var front := b[..|b| - 1];
      assert (a + b)[..|a + b| - 1] == a + front && (a + b)[|a + b| - 1] == b[|b| - 1];
      ExtendTwice(mapping, a, front);
    }
  }

  lemma NamesTwice(a: seq<Entry>, b: seq<Entry>)
    ensures NamesOf(a + b) == NamesOf(a) + NamesOf(b)
  {
    hide Placeholder;
    assert |NamesOf(a + b)| == |NamesOf(a) + NamesOf(b)|;
    forall i | 0 <= i < |a + b|
      ensures NamesOf(a + b)[i] == (NamesOf(a) + NamesOf(b))[i]
    {
      assert (a + b)[i] == if i < |a| then a[i] else b[i - |a|];
    }
  }

  /** The three passes: inline code, links in angle brackets, addresses of links. */
  function Passes(code: Finder, angle: Finder, link: Finder): seq<Finder> {
    [code, angle, link]
  }

  lemma ThreePasses(text: string, code: Finder, angle: Finder, link: Finder, counter: nat, used: set<string>)
    requires AllFind(Passes(code, angle, link))
    ensures Finds(code) && Finds(angle) && Finds(link)
    ensures var a := MaskFrom(text, code(text), 0, counter, used);
            var b := MaskFrom(a.text, angle(a.text), 0, a.counter, a.used);
            var c := MaskFrom(b.text, link(b.text), 0, b.counter, b.used);
            MaskPasses(text, Passes(code, angle, link), counter, used)
            == Pass(c.text, a.entries + (b.entries + c.entries), c.counter, c.used)
  {
    hide MaskFrom;
    var passes := Passes(code, angle, link);
    assert passes[0] == code && passes[1] == angle && passes[2] == link;
    var a := MaskFrom(text, code(text), 0, counter, used);
    var b := MaskFrom(a.text, angle(a.text), 0, a.counter, a.used);
    var c := MaskFrom(b.text, link(b.text), 0, b.counter, b.used);
    assert passes[1..] == [angle, link] && passes[1..][1..] == [link] && passes[1..][1..][1..] == [];
    assert AllFind([link]) && AllFind([angle, link]);
    NothingAdded(c.entries);
    assert MaskPasses(b.text, [link], b.counter, b.used) == Pass(c.text, c.entries, c.counter, c.used);
  }

  method MaskMarkdown(text: string, code: Finder, angle: Finder, link: Finder, state: PlaceholderState,
                      placeholders: seq<string>, mapping: map<string, string>)
    returns (masked: string, names: seq<string>, originals: map<string, string>)
    requires state.Valid() && AllFind(Passes(code, angle, link))
    requires forall t: string, i | 0 <= i < |code(t)| :: code(t)[i].full == code(t)[i].start >= 0 && code(t)[i].end >= 0
    requires forall t: string, i | 0 <= i < |angle(t)| ::
               angle(t)[i].full == angle(t)[i].start >= 0 && angle(t)[i].end >= 0
    modifies state
    ensures state.Valid() && old(state.issued) <= state.issued
    ensures var p := MaskPasses(text, Passes(code, angle, link), old(state.counter), old(state.used));
            && masked == p.text && state.counter == p.counter && state.used == p.used
            && names == placeholders + NamesOf(p.entries) && originals == Extend(mapping, p.entries)
  {
    hide MaskFrom, MaskPasses, Extend, NamesOf, Passes, AllFind, PlaceholderState.Valid;
    ThreePasses(text, code, angle, link, state.counter, state.used);
    ghost var a := MaskFrom(text, code(text), 0, state.counter, state.used);
    ghost var b := MaskFrom(a.text, angle(a.text), 0, a.counter, a.used);
    ghost var c := MaskFrom(b.text, link(b.text), 0, b.counter, b.used);
    ExtendTwice(mapping, a.entries, b.entries + c.entries);
    ExtendTwice(Extend(mapping, a.entries), b.entries, c.entries);
    NamesTwice(a.entries, b.entries + c.entries);
    NamesTwice(b.entries, c.entries);
    Assoc(placeholders, NamesOf(a.entries), NamesOf(b.entries) + NamesOf(c.entries));
    Assoc(placeholders + NamesOf(a.entries), NamesOf(b.entries), NamesOf(c.entries));
    masked, names, originals := MaskMatches(text, code(text), state, placeholders, mapping);
    masked, names, originals := MaskMatches(masked, angle(masked), state, names, originals);
    masked, names, originals := MaskLinkURLs(masked, link(masked), state, names, originals);
  }

  // Unmasking and validation -----------------------------------------------------------------

  /** A missing key of a Go map reads as the empty string. */
  function Lookup(mapping: map<string, string>, key: string): string {
    if key in mapping then mapping[key] else ""
  }

  predicate NonEmpty(names: seq<string>) {
    forall i | 0 <= i < |names| :: names[i] != ""
  }

  function Unmask(text: string, names: seq<string>, mapping: map<string, string>): string
    requires NonEmpty(names)
    decreases |names|
  {
    if names == [] then text else Unmask(ReplaceAll(text, names[0], Lookup(mapping, names[0])), names[1..], mapping)
  }

  method UnmaskMarkdown(text: string, names: seq<string>, mapping: map<string, string>) returns (out: string)
    requires NonEmpty(names)
    ensures out == Unmask(text, names, mapping)
  {
    out := text;
    assert names[0..] == names;
    for i := 0 to |names|
      invariant Unmask(out, names[i..], mapping) == Unmask(text, names, mapping)
    {
      assert names[i..][0] == names[i] && names[i..][1..] == names[i + 1..];
      var original := Lookup(mapping, names[i]);
      out := ReplaceAll(out, names[i], original);
    }
  }

  /** The first placeholder that is missing, if one is. */
  method ValidatePlaceholders(text: string, names: seq<string>) returns (missing: Option<string>)
    ensures missing.None? <==> forall i | 0 <= i < |names| :: Contains(text, names[i])
    ensures missing.Some? ==>
              exists i :: 0 <= i < |names| && names[i] == missing.value && !Contains(text, names[i])
                          && forall j | 0 <= j < i :: Contains(text, names[j])
  {
    for i := 0 to |names|
      invariant forall j | 0 <= j < i :: Contains(text, names[j])
    {
      if Index(text, names[i]) == -1 {
        return Some(names[i]);
      }
    }
    return None;
  }

  // What is masked ----------------------------------------------------------------------

  /** Matches as a pattern finds them: one behind the other, each with its part to mask. */
  predicate InOrder(spans: seq<Span>, pos: nat) {
    && (forall i | 0 <= i < |spans| :: pos <= spans[i].full && 0 <= spans[i].start <= spans[i].end)
    && (forall i, j | 0 <= i < j < |spans| :: spans[i].end <= spans[j].full)
  }

  /** A pass over matches in order masks every one of them, and nothing else. */
  lemma {:induction false} AllMatchesAreMasked(
    text: string, spans: seq<Span>, pos: nat, counter: nat, used: set<string>)
    requires pos <= |text| && SpansIn(spans, text) && InOrder(spans, pos)
    ensures var entries := MaskFrom(text, spans, pos, counter, used).entries;
            && |entries| == |spans|
            && forall i | 0 <= i < |spans| :: entries[i].value == text[spans[i].start..spans[i].end]
    decreases |spans|
  {
    hide Fresh, Placeholder;
    if spans == [] {
    } else {
      var n := Fresh(counter, used);
      assert InText(spans[0], text);
      AllMatchesAreMasked(text, spans[1..], spans[0].end, n + 1, used + {Placeholder(n)});
    }
  }

  /** A match whose pattern took no part, or that reaches back into one already masked, is left as it is. */
  lemma OverlappingMatchIsSkipped(
    text: string, span: Span, spans: seq<Span>, pos: nat, counter: nat, used: set<string>)
    requires pos <= |text| && SpansIn([span] + spans, text)
    requires span.start < 0 || span.end < 0 || span.full < pos
    ensures SpansIn(spans, text)
    ensures MaskFrom(text, [span] + spans, pos, counter, used) == MaskFrom(text, spans, pos, counter, used)
  {
    assert ([span] + spans)[1..] == spans;
    forall i | 0 <= i < |spans|
      ensures InText(spans[i], text)
    {
      assert spans[i] == ([span] + spans)[i + 1];
    }
    hide Fresh, Placeholder, InText;
  }
}
