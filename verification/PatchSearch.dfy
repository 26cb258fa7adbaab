/** What the search of a chunk identifies, and where it starts and ends. */
module PatchSearch {
  import opened Wrappers
  import opened Text
  import opened PatchUpdate

  // What each pass identifies ----------------------------------------------------

  predicate AllSpace(s: string) {
    forall i | 0 <= i < |s| :: IsSpace(JavaScript, s[i])
  }

  /** `s` is `core` with white space around it. */
  ghost predicate Padded(s: string, core: string) {
    exists before, after :: AllSpace(before) && AllSpace(after) && s == before + core + after
  }

  ghost predicate PaddedAtEnd(s: string, core: string) {
    exists after :: AllSpace(after) && s == core + after
  }

  predicate Dash(c: char) {
    c == '-' || '\U{2010}' <= c <= '\U{2015}' || c == '\U{2212}'
  }

  predicate SingleQuote(c: char) {
    c == '\'' || '\U{2018}' <= c <= '\U{201B}'
  }

  predicate DoubleQuote(c: char) {
    c == '"' || '\U{201C}' <= c <= '\U{201F}'
  }

  predicate Blank(c: char) {
    || c == ' ' || c == '\U{A0}' || '\U{2002}' <= c <= '\U{200A}'
    || c == '\U{202F}' || c == '\U{205F}' || c == '\U{3000}'
  }

  /** Equal, or two dashes, two quotes of a kind, or two blanks. */
  predicate AlikeChars(c: char, d: char) {
    || c == d || (Dash(c) && Dash(d)) || (SingleQuote(c) && SingleQuote(d))
    || (DoubleQuote(c) && DoubleQuote(d)) || (Blank(c) && Blank(d))
  }

  predicate Alike(a: string, b: string) {
    |a| == |b| && forall i | 0 <= i < |a| :: AlikeChars(a[i], b[i])
  }

  /** What a pass cannot tell apart. */
  ghost predicate Identified(p: Pass, a: string, b: string) {
    match p
    case Exact => a == b
    case TrailingSpace => exists core :: PaddedAtEnd(a, core) && PaddedAtEnd(b, core)
    case OuterSpace => exists core :: Padded(a, core) && Padded(b, core)
    case Punctuation => exists x, y :: Padded(a, x) && Padded(b, y) && Alike(x, y)
  }

  lemma {:induction false} TrimEndPadded(s: string)
    ensures TrimEnd(JavaScript, s) <= s && AllSpace(s[|TrimEnd(JavaScript, s)|..])
  {
    if s == "" || !IsSpace(JavaScript, s[|s| - 1]) {
      assert TrimEnd(JavaScript, s) == s;
    } else {
      TrimEndPadded(s[..|s| - 1]);
    }
    hide IsSpace;
  }

  lemma {:induction false} TrimStartPadded(s: string)
    ensures var t := TrimStart(JavaScript, s);
            |t| <= |s| && s[|s| - |t|..] == t && AllSpace(s[..|s| - |t|])
  {
    if s == "" || !IsSpace(JavaScript, s[0]) {
      assert TrimStart(JavaScript, s) == s;
    } else {
      TrimStartPadded(s[1..]);
    }
    hide IsSpace;
  }

  lemma TrimPadded(s: string)
    ensures Padded(s, Trim(JavaScript, s)) && PaddedAtEnd(s, TrimEnd(JavaScript, s))
  {
    TrimEndPadded(s);
    var e := TrimEnd(JavaScript, s);
    TrimStartPadded(e);
    var t := TrimStart(JavaScript, e);
    hide IsSpace, TrimStart, TrimEnd;
    var before, after := e[..|e| - |t|], s[|e|..];
    assert s == before + t + after;
    assert s == e + after;
  }

  lemma {:induction false} TrimEndOfPadded(core: string, after: string)
    requires AllSpace(after)
    ensures TrimEnd(JavaScript, core + after) == TrimEnd(JavaScript, core)
    decreases |after|
  {
    hide IsSpace;
    if after == "" {
      assert core + after == core;
    } else {
      var shorter := after[..|after| - 1];
      assert (core + after)[..|core + after| - 1] == core + shorter;
      TrimEndOfPadded(core, shorter);
    }
  }

  lemma {:induction false} TrimStartOfPadded(before: string, rest: string)
    requires AllSpace(before)
    ensures TrimStart(JavaScript, before + rest) == TrimStart(JavaScript, rest)
    decreases |before|
  {
    hide IsSpace;
    if before == "" {
      assert before + rest == rest;
    } else {
      assert (before + rest)[1..] == before[1..] + rest;
      TrimStartOfPadded(before[1..], rest);
    }
  }

  /** White space in front survives trimming the end, or goes with the rest. */
  lemma {:induction false} TrimEndBehind(before: string, rest: string)
    requires AllSpace(before)
    ensures TrimStart(JavaScript, TrimEnd(JavaScript, before + rest)) == TrimStart(JavaScript, TrimEnd(JavaScript, rest))
    decreases |rest|
  {
    hide IsSpace;
    if rest == "" {
      assert before + rest == "" + before;
      TrimEndOfPadded("", before);
    } else if IsSpace(JavaScript, rest[|rest| - 1]) {
      assert (before + rest)[..|before + rest| - 1] == before + rest[..|rest| - 1];
      TrimEndBehind(before, rest[..|rest| - 1]);
    } else {
      TrimStartOfPadded(before, rest);
    }
  }

  lemma TrimOfPadded(s: string, core: string)
    requires Padded(s, core)
    ensures Trim(JavaScript, s) == Trim(JavaScript, core)
  {
    hide IsSpace, TrimStart, TrimEnd, AllSpace;
    var before, after :| AllSpace(before) && AllSpace(after) && s == before + core + after;
    TrimEndOfPadded(before + core, after);
    TrimEndBehind(before, core);
  }

  lemma FoldIsAlike(c: char, d: char)
    ensures FoldPunctuation(c) == FoldPunctuation(d) <==> AlikeChars(c, d)
  {
  }

  lemma AlikeSpaces(c: char, d: char)
    requires AlikeChars(c, d)
    ensures IsSpace(JavaScript, c) <==> IsSpace(JavaScript, d)
  {
  }

  lemma FoldIsAlikeText(a: string, b: string)
    ensures NormalizePunctuation(a) == NormalizePunctuation(b) <==> Alike(a, b)
  {
    hide FoldPunctuation, AlikeChars;
    forall i | 0 <= i < |a| && i < |b|
      ensures FoldPunctuation(a[i]) == FoldPunctuation(b[i]) <==> AlikeChars(a[i], b[i])
    {
      FoldIsAlike(a[i], b[i]);
    }
    var x, y := NormalizePunctuation(a), NormalizePunctuation(b);
    if x == y {
      assert |a| == |x| == |y| == |b|;
      forall i | 0 <= i < |a|
        ensures AlikeChars(a[i], b[i])
      {
        assert x[i] == y[i];
      }
    }
  }

  lemma {:induction false} TrimEndAlike(a: string, b: string)
    requires Alike(a, b)
    ensures Alike(TrimEnd(JavaScript, a), TrimEnd(JavaScript, b))
    decreases |a|
  {
    hide AlikeChars, IsSpace;
    if a == "" {
      assert TrimEnd(JavaScript, a) == a && TrimEnd(JavaScript, b) == b;
    } else {
      AlikeSpaces(a[|a| - 1], b[|b| - 1]);
      TrimEndAlike(a[..|a| - 1], b[..|b| - 1]);
    }
  }

  lemma {:induction false} TrimStartAlike(a: string, b: string)
    requires Alike(a, b)
    ensures Alike(TrimStart(JavaScript, a), TrimStart(JavaScript, b))
    decreases |a|
  {
    hide AlikeChars, IsSpace;
    if a == "" {
      assert TrimStart(JavaScript, a) == a && TrimStart(JavaScript, b) == b;
    } else {
      AlikeSpaces(a[0], b[0]);
      TrimStartAlike(a[1..], b[1..]);
    }
  }

  lemma TrimAlike(a: string, b: string)
    requires Alike(a, b)
    ensures Alike(Trim(JavaScript, a), Trim(JavaScript, b))
  {
    hide Alike, TrimStart, TrimEnd;
    TrimEndAlike(a, b);
    TrimStartAlike(TrimEnd(JavaScript, a), TrimEnd(JavaScript, b));
  }

  /**
   The passes identify more and more: nothing, white space at the end, white space at
   both ends, and dashes, quotes and blanks of a kind as well.
   */
  lemma PassIdentifies(p: Pass, a: string, b: string)
    ensures Normalize(p, a) == Normalize(p, b) <==> Identified(p, a, b)
  {
    hide Trim, TrimEnd, Padded, PaddedAtEnd, Alike, NormalizePunctuation;
    TrimPadded(a);
    TrimPadded(b);
    match p {
      case Exact =>
      case TrailingSpace =>
        if core :| PaddedAtEnd(a, core) && PaddedAtEnd(b, core) {
          TrimEndOfPaddedAtEnd(a, core);
          TrimEndOfPaddedAtEnd(b, core);
        }
      case OuterSpace =>
        if core :| Padded(a, core) && Padded(b, core) {
          TrimOfPadded(a, core);
          TrimOfPadded(b, core);
        }
      case Punctuation =>
        FoldIsAlikeText(Trim(JavaScript, a), Trim(JavaScript, b));
        if x, y :| Padded(a, x) && Padded(b, y) && Alike(x, y) {
          TrimOfPadded(a, x);
          TrimOfPadded(b, y);
          TrimAlike(x, y);
        }
    }
  }

  lemma TrimEndOfPaddedAtEnd(s: string, core: string)
    requires PaddedAtEnd(s, core)
    ensures TrimEnd(JavaScript, s) == TrimEnd(JavaScript, core)
  {
    hide AllSpace, TrimEnd;
    var after :| AllSpace(after) && s == core + after;
    TrimEndOfPadded(core, after);
  }

  // Chunks with a context line -----------------------------------------------------

  predicate HasContext(chunk: Chunk) {
    chunk.changeContext.Some? && chunk.changeContext.value != ""
  }

  /** A chunk fails on its context exactly when no line from the cursor on matches it, not even loosely. */
  lemma ContextFailsIff(lines: seq<string>, chunk: Chunk, cursor: nat)
    requires HasContext(chunk)
    ensures var c := chunk.changeContext.value;
            Place(lines, chunk, cursor) == Failure(ContextNotFound(c))
            <==> forall j: nat | cursor <= j :: !MatchesAt(lines, [c], Normalize, Punctuation, j)
  {
    hide Seek, Replacement, MatchesAt, Normalize;
    SeekFailsIffNothingMatches(lines, [chunk.changeContext.value], cursor, false);
  }

  /**
   Otherwise the best match of the context line is passed: the chunk is placed as it would
   be without context from the next line on.
   */
  lemma ContextIsPassed(lines: seq<string>, chunk: Chunk, cursor: nat, p: Pass, i: nat)
    requires HasContext(chunk) && IsBest(lines, [chunk.changeContext.value], Normalize, cursor, p, i)
    ensures Place(lines, chunk, cursor) == Place(lines, chunk.(changeContext := None), i + 1)
    ensures var r := Place(lines, chunk, cursor);
            r.Success? ==>
              if chunk.oldLines == [] then r.value.edit.start == InsertionPoint(lines) && r.value.cursor == i + 1
              else chunk.isEndOfFile || r.value.edit.start > i
  {
    hide Place, Seek, IsBest, Normalize, SearchStart, InsertionPoint;
    var c := chunk.changeContext.value;
    ContextIsLine(lines, c, cursor, p, i);
    ForwardSearch(lines, [c], cursor);
    SeekIsStrongestEarliest(lines, [c], cursor, false, i);
    PlaceBehind(lines, chunk, cursor, i);
    PlaceWithoutContext(lines, chunk.(changeContext := None), i + 1);
  }

  lemma ForwardSearch(lines: seq<string>, pattern: seq<string>, start: nat)
    ensures SearchStart(lines, pattern, start, false) == start
  {
  }

  lemma ContextIsLine(lines: seq<string>, c: string, cursor: nat, p: Pass, i: nat)
    requires IsBest(lines, [c], Normalize, cursor, p, i)
    ensures i < |lines|
  {
    hide Normalize;
  }

  lemma PlaceBehind(lines: seq<string>, chunk: Chunk, cursor: nat, i: nat)
    requires HasContext(chunk) && Seek(lines, [chunk.changeContext.value], cursor, false) == Some(i)
    ensures Place(lines, chunk, cursor) == Place(lines, chunk.(changeContext := None), i + 1)
  {
    hide Seek, InsertionPoint;
  }

  lemma PlaceWithoutContext(lines: seq<string>, chunk: Chunk, cursor: nat)
    requires chunk.changeContext == None && cursor <= |lines|
    ensures var r := Place(lines, chunk, cursor);
            r.Success? ==>
              if chunk.oldLines == [] then r.value.edit.start == InsertionPoint(lines) && r.value.cursor == cursor
              else chunk.isEndOfFile || r.value.edit.start >= cursor
  {
    hide Seek, InsertionPoint, SearchStart;
    SeekInRange(lines, chunk.oldLines, cursor, chunk.isEndOfFile);
    SeekInRange(lines, DropLastBlank(chunk.oldLines), cursor, chunk.isEndOfFile);
  }

  /** An empty context line is none. */
  lemma EmptyContextIsNone(lines: seq<string>, chunk: Chunk, cursor: nat)
    requires !HasContext(chunk)
    ensures Place(lines, chunk, cursor) == Place(lines, chunk.(changeContext := None), cursor)
  {
    hide Seek, InsertionPoint;
  }

  // End-of-file chunks -------------------------------------------------------------------

  /** A search at the end of the file looks in one place: where the pattern would end the file. */
  lemma EndOfFileIff(lines: seq<string>, pattern: seq<string>, start: nat, i: nat)
    requires pattern != [] && |pattern| <= |lines|
    ensures Seek(lines, pattern, start, true) == Some(i)
            <==> i == |lines| - |pattern| && MatchesAt(lines, pattern, Normalize, Punctuation, i)
  {
    var last := |lines| - |pattern|;
    SeekFailsIffNothingMatches(lines, pattern, start, true);
    assert forall j | j > last :: !MatchesAt(lines, pattern, Normalize, Punctuation, j);
    OnlyAtEnd(lines, pattern, start);
    hide Seek, Normalize, MatchesAt;
  }

  lemma OnlyAtEnd(lines: seq<string>, pattern: seq<string>, start: nat)
    requires pattern != [] && |pattern| <= |lines|
    ensures var r := Seek(lines, pattern, start, true); r.Some? ==> r.value == |lines| - |pattern|
    ensures SearchStart(lines, pattern, start, true) == |lines| - |pattern|
  {
    hide Normalize;
  }

  // Sorting the edits --------------------------------------------------------------------

  /** The edits that start at line `start`, in order. */
  function StartingAt(edits: seq<Edit>, start: nat): seq<Edit> {
    if edits == [] then []
    else (if edits[0].start == start then [edits[0]] else []) + StartingAt(edits[1..], start)
  }

  predicate Ascending(edits: seq<Edit>) {
    forall i, j | 0 <= i < j < |edits| :: edits[i].start <= edits[j].start
  }

  lemma AscendingCons(first: Edit, rest: seq<Edit>)
    requires Ascending(rest) && forall x | x in rest :: first.start <= x.start
    ensures Ascending([first] + rest)
  {
    var all := [first] + rest;
    forall i, j | 0 <= i < j < |all|
      ensures all[i].start <= all[j].start
    {
      assert all[j] == rest[j - 1] && rest[j - 1] in rest;
    }
  }

  lemma AscendingRest(edits: seq<Edit>)
    requires Ascending(edits) && edits != []
    ensures Ascending(edits[1..]) && forall x | x in edits[1..] :: edits[0].start <= x.start
  {
  }

  lemma InsertedMembers(e: Edit, sorted: seq<Edit>, x: Edit)
    ensures x in InsertByStart(e, sorted) <==> x == e || x in sorted
  {
    assert x in multiset(InsertByStart(e, sorted)) <==> x in multiset([e]) + multiset(sorted);
    hide InsertByStart;
  }

  lemma {:induction false} InsertAscends(e: Edit, sorted: seq<Edit>)
    requires Ascending(sorted)
    ensures Ascending(InsertByStart(e, sorted))
  {
    if sorted == [] || e.start <= sorted[0].start {
      if sorted != [] {
        AscendingRest(sorted);
        HeadTail(sorted);
      }
      hide Ascending;
      AscendingCons(e, sorted);
    } else {
      AscendingRest(sorted);
      InsertAscends(e, sorted[1..]);
      forall x | x in InsertByStart(e, sorted[1..])
        ensures sorted[0].start <= x.start
      {
        InsertedMembers(e, sorted[1..], x);
      }
      hide Ascending;
      AscendingCons(sorted[0], InsertByStart(e, sorted[1..]));
    }
  }

  lemma StartingAtCons(first: Edit, rest: seq<Edit>, start: nat)
    ensures StartingAt([first] + rest, start) == (if first.start == start then [first] else []) + StartingAt(rest, start)
  {
    assert ([first] + rest)[1..] == rest;
  }

  /** An edit is put in front of those with the same start. */
  lemma {:induction false} InsertIsStable(e: Edit, sorted: seq<Edit>, start: nat)
    ensures StartingAt(InsertByStart(e, sorted), start)
            == (if e.start == start then [e] else []) + StartingAt(sorted, start)
  {
    hide StartingAt;
    if sorted == [] || e.start <= sorted[0].start {
      StartingAtCons(e, sorted, start);
    } else {
      InsertIsStable(e, sorted[1..], start);
      StartingAtCons(sorted[0], InsertByStart(e, sorted[1..]), start);
      StartingAtCons(sorted[0], sorted[1..], start);
      HeadTail(sorted);
      NothingAdded(StartingAt(sorted[1..], start));
    }
  }

  /**
   The edits are sorted by start, and those with the same start stay in the order of their
   chunks, so insertions at one place come out as they were written.
   */
  lemma {:induction false} SortIsStable(edits: seq<Edit>, start: nat)
    ensures Ascending(SortByStart(edits)) && StartingAt(SortByStart(edits), start) == StartingAt(edits, start)
  {
    if edits == [] {
    } else {
      var sorted := SortByStart(edits[1..]);
      SortIsStable(edits[1..], start);
      hide Ascending, StartingAt, InsertByStart;
      InsertAscends(edits[0], sorted);
      InsertIsStable(edits[0], sorted, start);
      StartingAtCons(edits[0], edits[1..], start);
      HeadTail(edits);
    }
  }
}
