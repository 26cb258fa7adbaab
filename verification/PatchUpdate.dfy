/**
 Updating one file: find where each chunk of an update hunk belongs, turn the
 chunks into edits, and splice the edits into the lines of the file.
 */
module PatchUpdate {
  import opened Wrappers
  import opened Text

  datatype Chunk = Chunk(
    changeContext: Option<string>,
    oldLines: seq<string>,
    newLines: seq<string>,
    isEndOfFile: bool)

  /** Replace `oldLen` lines from line `start` on by `newLines`. */
  datatype Edit = Edit(start: nat, oldLen: nat, newLines: seq<string>)

  datatype UpdateError =
    | ContextNotFound(context: string)
    | LinesNotFound(oldLines: seq<string>)

  // The four-pass search ------------------------------------------------------

  /** The passes of the search, strongest first. */
  datatype Pass = Exact | TrailingSpace | OuterSpace | Punctuation

  function Rank(p: Pass): nat {
    match p
    case Exact => 0
    case TrailingSpace => 1
    case OuterSpace => 2
    case Punctuation => 3
  }

  function FoldPunctuation(c: char): char {
    var u := c as int;
    if 0x2010 <= u <= 0x2015 || u == 0x2212 then '-'
    else if 0x2018 <= u <= 0x201B then '\''
    else if 0x201C <= u <= 0x201F then '"'
    else if u == 0xA0 || 0x2002 <= u <= 0x200A || u == 0x202F || u == 0x205F || u == 0x3000 then ' '
    else c
  }

  function NormalizePunctuation(s: string): string {
    seq(|s|, i requires 0 <= i < |s| => FoldPunctuation(s[i]))
  }

  /** What each pass does to both sides before it compares them. */
  function Normalize(p: Pass, s: string): string {
    match p
    case Exact => s
    case TrailingSpace => TrimEnd(JavaScript, s)
    case OuterSpace => Trim(JavaScript, s)
    case Punctuation => NormalizePunctuation(Trim(JavaScript, s))
  }

  type Normalization = (Pass, string) -> string

  predicate MatchesAt(lines: seq<string>, pattern: seq<string>, norm: Normalization, p: Pass, i: nat) {
    && i + |pattern| <= |lines|
    && forall k | 0 <= k < |pattern| :: norm(p, lines[i + k]) == norm(p, pattern[k])
  }

  /** The earliest match under one normaliser at or after `from`. */
  function Earliest(lines: seq<string>, pattern: seq<string>, norm: Normalization, p: Pass, from: nat)
    : (r: Option<nat>)
    ensures r.Some? ==> from <= r.value && MatchesAt(lines, pattern, norm, p, r.value)
    ensures r.Some? ==> forall j: nat | from <= j < r.value :: !MatchesAt(lines, pattern, norm, p, j)
    ensures r.None? ==> forall j: nat | from <= j :: !MatchesAt(lines, pattern, norm, p, j)
    decreases |lines| - from
  {
    if from + |pattern| > |lines| then None
    else if MatchesAt(lines, pattern, norm, p, from) then Some(from)
    else if from == |lines| then None
    else Earliest(lines, pattern, norm, p, from + 1)
  }

  function SearchStart(lines: seq<string>, pattern: seq<string>, start: nat, eof: bool): nat {
    if eof && |pattern| <= |lines| then |lines| - |pattern| else start
  }

  /** The passes in order; the first pass that matches anywhere decides. */
  function BestMatch(lines: seq<string>, pattern: seq<string>, norm: Normalization, from: nat): Option<nat> {
    var exact := Earliest(lines, pattern, norm, Exact, from);
    var trailing := Earliest(lines, pattern, norm, TrailingSpace, from);
    var outer := Earliest(lines, pattern, norm, OuterSpace, from);
    if exact.Some? then exact
    else if trailing.Some? then trailing
    else if outer.Some? then outer
    else Earliest(lines, pattern, norm, Punctuation, from)
  }

  function Seek(lines: seq<string>, pattern: seq<string>, start: nat, eof: bool): Option<nat> {
    if pattern == [] then Some(start)
    else BestMatch(lines, pattern, Normalize, SearchStart(lines, pattern, start, eof))
  }

  method LinesMatch(lines: seq<string>, pattern: seq<string>, start: nat, norm: Normalization, p: Pass)
    returns (ok: bool)
    requires start + |pattern| <= |lines|
    ensures ok <==> MatchesAt(lines, pattern, norm, p, start)
  {
    for idx := 0 to |pattern|
      invariant forall k | 0 <= k < idx :: norm(p, lines[start + k]) == norm(p, pattern[k])
    {
      if norm(p, lines[start + idx]) != norm(p, pattern[idx]) {
        return false;
      }
    }
    return true;
  }

  /** One pass of the search: the first start in `from..=maxStart` that matches. */
  method ScanPass(lines: seq<string>, pattern: seq<string>, from: nat, maxStart: nat, norm: Normalization, p: Pass)
    returns (r: Option<nat>)
    requires maxStart + |pattern| == |lines|
    requires from <= maxStart
    ensures r == Earliest(lines, pattern, norm, p, from)
  {
    var i := from;
    while i <= maxStart
      invariant from <= i <= maxStart + 1
      invariant forall j: nat | from <= j < i :: !MatchesAt(lines, pattern, norm, p, j)
    {
      var ok := LinesMatch(lines, pattern, i, norm, p);
      if ok {
        return Some(i);
      }
      i := i + 1;
    }
    return None;
  }

  method SeekSequence(lines: seq<string>, pattern: seq<string>, start: nat, eof: bool)
    returns (r: Option<nat>)
    ensures r == Seek(lines, pattern, start, eof)
  {
    if |pattern| == 0 {
      return Some(start);
    }
    if |pattern| > |lines| {
      return None;
    }
    var maxStart := |lines| - |pattern|;
    var searchStart := if eof && |lines| >= |pattern| then maxStart else start;
    if searchStart > maxStart {
      return None;
    }
    r := ScanPass(lines, pattern, searchStart, maxStart, Normalize, Exact);
    if r.Some? { return; }
    r := ScanPass(lines, pattern, searchStart, maxStart, Normalize, TrailingSpace);
    if r.Some? { return; }
    r := ScanPass(lines, pattern, searchStart, maxStart, Normalize, OuterSpace);
    if r.Some? { return; }
    r := ScanPass(lines, pattern, searchStart, maxStart, Normalize, Punctuation);
  }

  /** Lines that one pass cannot tell apart are equal to every weaker pass. */
  ghost predicate Coarsening(norm: Normalization) {
    forall p, q, a, b | Rank(p) <= Rank(q) && norm(p, a) == norm(p, b) :: norm(q, a) == norm(q, b)
  }

  lemma NormalizeCoarsens()
    ensures Coarsening(Normalize)
  {
  }

  lemma StrongerImpliesWeaker(
    lines: seq<string>, pattern: seq<string>, norm: Normalization, p: Pass, q: Pass, i: nat)
    requires Coarsening(norm) && Rank(p) <= Rank(q)
    requires MatchesAt(lines, pattern, norm, p, i)
    ensures MatchesAt(lines, pattern, norm, q, i)
  {
    forall k | 0 <= k < |pattern|
      ensures norm(q, lines[i + k]) == norm(q, pattern[k])
    {
      assert norm(p, lines[i + k]) == norm(p, pattern[k]);
    }
  }

  /** `i` is the first match of pass `p` and no stronger pass matches at all. */
  ghost predicate IsBest(
    lines: seq<string>, pattern: seq<string>, norm: Normalization, from: nat, p: Pass, i: nat)
  {
    && from <= i
    && MatchesAt(lines, pattern, norm, p, i)
    && (forall j: nat | from <= j < i :: !MatchesAt(lines, pattern, norm, p, j))
    && (forall q, j: nat | Rank(q) < Rank(p) && from <= j :: !MatchesAt(lines, pattern, norm, q, j))
  }

  lemma BestMatchIsBest(lines: seq<string>, pattern: seq<string>, norm: Normalization, from: nat)
    ensures var r := BestMatch(lines, pattern, norm, from);
            r.Some? ==> exists p :: IsBest(lines, pattern, norm, from, p, r.value)
  {
    var r := BestMatch(lines, pattern, norm, from);
    if r.Some? {
      var p := if Earliest(lines, pattern, norm, Exact, from).Some? then Exact
               else if Earliest(lines, pattern, norm, TrailingSpace, from).Some? then TrailingSpace
               else if Earliest(lines, pattern, norm, OuterSpace, from).Some? then OuterSpace
               else Punctuation;
      assert IsBest(lines, pattern, norm, from, p, r.value);
    }
  }

  lemma BestIsUnique(
    lines: seq<string>, pattern: seq<string>, norm: Normalization, from: nat, p: Pass, i: nat, q: Pass, j: nat)
    requires IsBest(lines, pattern, norm, from, p, i) && IsBest(lines, pattern, norm, from, q, j)
    ensures i == j
  {
  }

  lemma BestMatchFails(lines: seq<string>, pattern: seq<string>, norm: Normalization, from: nat)
    requires Coarsening(norm)
    ensures BestMatch(lines, pattern, norm, from) == None
            <==> forall j: nat | from <= j :: !MatchesAt(lines, pattern, norm, Punctuation, j)
  {
    var r := BestMatch(lines, pattern, norm, from);
    if r.Some? {
      hide BestMatch, Earliest, MatchesAt, Coarsening;
      BestMatchIsBest(lines, pattern, norm, from);
      var p :| IsBest(lines, pattern, norm, from, p, r.value);
      StrongerImpliesWeaker(lines, pattern, norm, p, Punctuation, r.value);
    } else {
      hide MatchesAt, Coarsening;
      assert Earliest(lines, pattern, norm, Punctuation, from) == None;
    }
  }

  lemma BestDecides(
    lines: seq<string>, pattern: seq<string>, norm: Normalization, from: nat, p: Pass, i: nat)
    requires Coarsening(norm)
    requires IsBest(lines, pattern, norm, from, p, i)
    ensures BestMatch(lines, pattern, norm, from) == Some(i)
  {
    assert from <= i && MatchesAt(lines, pattern, norm, p, i);
    hide *;
    StrongerImpliesWeaker(lines, pattern, norm, p, Punctuation, i);
    BestMatchFails(lines, pattern, norm, from);
    BestMatchIsBest(lines, pattern, norm, from);
    var r := BestMatch(lines, pattern, norm, from);
    var q :| IsBest(lines, pattern, norm, from, q, r.value);
    BestIsUnique(lines, pattern, norm, from, p, i, q, r.value);
  }

  lemma BestMatchCharacterised(
    lines: seq<string>, pattern: seq<string>, norm: Normalization, from: nat, i: nat)
    requires Coarsening(norm)
    ensures BestMatch(lines, pattern, norm, from) == Some(i) <==> exists p :: IsBest(lines, pattern, norm, from, p, i)
  {
    hide *;
    BestMatchIsBest(lines, pattern, norm, from);
    if p :| IsBest(lines, pattern, norm, from, p, i) {
      BestDecides(lines, pattern, norm, from, p, i);
    }
  }

  /**
   The search answers with the earliest start of the strongest pass that matches
   anywhere in its range.
   */
  lemma SeekIsStrongestEarliest(lines: seq<string>, pattern: seq<string>, start: nat, eof: bool, i: nat)
    requires pattern != []
    ensures var from := SearchStart(lines, pattern, start, eof);
            Seek(lines, pattern, start, eof) == Some(i) <==> exists p :: IsBest(lines, pattern, Normalize, from, p, i)
  {
    hide Normalize, Earliest, BestMatch, Coarsening, IsBest, SearchStart;
    NormalizeCoarsens();
    BestMatchCharacterised(lines, pattern, Normalize, SearchStart(lines, pattern, start, eof), i);
  }

  /** The search fails exactly when not even the weakest pass matches in its range. */
  lemma SeekFailsIffNothingMatches(lines: seq<string>, pattern: seq<string>, start: nat, eof: bool)
    requires pattern != []
    ensures var from := SearchStart(lines, pattern, start, eof);
            Seek(lines, pattern, start, eof) == None
            <==> forall j: nat | from <= j :: !MatchesAt(lines, pattern, Normalize, Punctuation, j)
  {
    hide Normalize, Earliest, BestMatch, Coarsening, MatchesAt, SearchStart;
    NormalizeCoarsens();
    BestMatchFails(lines, pattern, Normalize, SearchStart(lines, pattern, start, eof));
  }

  /** What every successful search guarantees its caller. */
  lemma SeekInRange(lines: seq<string>, pattern: seq<string>, start: nat, eof: bool)
    requires start <= |lines|
    ensures var r := Seek(lines, pattern, start, eof);
            r.Some? ==> r.value + |pattern| <= |lines| && (eof || start <= r.value)
  {
  }

  // From chunks to edits -----------------------------------------------------

  /** Where the search of a chunk starts: after its context line, if it names one. */
  function ContextCursor(lines: seq<string>, chunk: Chunk, cursor: nat): Result<nat, UpdateError> {
    if chunk.changeContext.Some? && chunk.changeContext.value != "" then
      var found := Seek(lines, [chunk.changeContext.value], cursor, false);
      if found.Some? then Success(found.value + 1) else Failure(ContextNotFound(chunk.changeContext.value))
    else Success(cursor)
  }

  function InsertionPoint(lines: seq<string>): nat {
    if lines != [] && lines[|lines| - 1] == "" then |lines| - 1 else |lines|
  }

  function DropLastBlank(lines: seq<string>): seq<string> {
    if lines != [] && lines[|lines| - 1] == "" then lines[..|lines| - 1] else lines
  }

  /** The edit for a chunk with old lines; a trailing blank old line is optional. */
  function Replacement(lines: seq<string>, chunk: Chunk, cursor: nat): Option<Edit> {
    var found := Seek(lines, chunk.oldLines, cursor, chunk.isEndOfFile);
    if found.Some? then Some(Edit(found.value, |chunk.oldLines|, chunk.newLines))
    else if chunk.oldLines != [] && chunk.oldLines[|chunk.oldLines| - 1] == "" then
      var shorter := DropLastBlank(chunk.oldLines);
      var again := Seek(lines, shorter, cursor, chunk.isEndOfFile);
      if again.Some? then Some(Edit(again.value, |shorter|, DropLastBlank(chunk.newLines))) else None
    else None
  }

  /** The edit of one chunk, and the line from which the next chunk is searched. */
  datatype Placed = Placed(edit: Edit, cursor: nat)

  function Place(lines: seq<string>, chunk: Chunk, cursor: nat): Result<Placed, UpdateError> {
    var from :- ContextCursor(lines, chunk, cursor);
    if chunk.oldLines == [] then Success(Placed(Edit(InsertionPoint(lines), 0, chunk.newLines), from))
    else
      var edit := Replacement(lines, chunk, from);
      if edit.None? then Failure(LinesNotFound(chunk.oldLines))
      else Success(Placed(edit.value, edit.value.start + edit.value.oldLen))
  }

  /** The edits of a list of chunks in chunk order, searched from `cursor` on. */
  function Locate(lines: seq<string>, chunks: seq<Chunk>, cursor: nat): Result<seq<Edit>, UpdateError> {
    if chunks == [] then Success([])
    else
      var placed :- Place(lines, chunks[0], cursor);
      var rest :- Locate(lines, chunks[1..], placed.cursor);
      Success([placed.edit] + rest)
  }

  /** Stable sorting by start, as `Array.prototype.sort` does it. */
  function SortByStart(edits: seq<Edit>): (r: seq<Edit>)
    ensures multiset(r) == multiset(edits)
  {
    if edits == [] then []
    else
      assert edits == [edits[0]] + edits[1..];
      InsertByStart(edits[0], SortByStart(edits[1..]))
  }

  function InsertByStart(e: Edit, sorted: seq<Edit>): (r: seq<Edit>)
    ensures multiset(r) == multiset([e]) + multiset(sorted)
  {
    if sorted == [] || e.start <= sorted[0].start then [e] + sorted
    else
      assert sorted == [sorted[0]] + sorted[1..];
      [sorted[0]] + InsertByStart(e, sorted[1..])
  }

  function ComputeEdits(lines: seq<string>, chunks: seq<Chunk>): Result<seq<Edit>, UpdateError> {
    var edits :- Locate(lines, chunks, 0);
    Success(SortByStart(edits))
  }

  /** The body of the loop over the chunks. */
  method PlaceChunk(originalLines: seq<string>, chunk: Chunk, cursor: nat) returns (r: Result<Placed, UpdateError>)
    ensures r == Place(originalLines, chunk, cursor)
  {
    hide Seek;
    var lineIndex := cursor;
    if chunk.changeContext.Some? && chunk.changeContext.value != "" {
      var ctxIndex := SeekSequence(originalLines, [chunk.changeContext.value], lineIndex, false);
      if ctxIndex.None? {
        return Failure(ContextNotFound(chunk.changeContext.value));
      }
      lineIndex := ctxIndex.value + 1;
    }

    if |chunk.oldLines| == 0 {
      var insertionIndex :=
        if |originalLines| > 0 && originalLines[|originalLines| - 1] == "" then |originalLines| - 1
        else |originalLines|;
      return Success(Placed(Edit(insertionIndex, 0, chunk.newLines), lineIndex));
    }

    var pattern := chunk.oldLines;
    var newSlice := chunk.newLines;
    var found := SeekSequence(originalLines, pattern, lineIndex, chunk.isEndOfFile);

    if found.None? && pattern[|pattern| - 1] == "" {
      pattern := pattern[..|pattern| - 1];
      if |newSlice| > 0 && newSlice[|newSlice| - 1] == "" {
        newSlice := newSlice[..|newSlice| - 1];
      }
      found := SeekSequence(originalLines, pattern, lineIndex, chunk.isEndOfFile);
    }

    if found.None? {
      return Failure(LinesNotFound(chunk.oldLines));
    }
    return Success(Placed(Edit(found.value, |pattern|, newSlice), found.value + |pattern|));
  }

  lemma LocateStep(lines: seq<string>, done: seq<Edit>, chunks: seq<Chunk>, cursor: nat)
    requires chunks != []
    ensures var placed := Place(lines, chunks[0], cursor);
            PrependItems(done, Locate(lines, chunks, cursor))
            == if placed.Failure? then Failure(placed.error)
               else PrependItems(done + [placed.value.edit], Locate(lines, chunks[1..], placed.value.cursor))
  {
    var placed := Place(lines, chunks[0], cursor);
    if placed.Success? {
      var rest := Locate(lines, chunks[1..], placed.value.cursor);
      if rest.Success? {
        assert done + ([placed.value.edit] + rest.value) == done + [placed.value.edit] + rest.value;
      }
    }
  }

  method ComputeReplacements(originalLines: seq<string>, chunks: seq<Chunk>)
    returns (r: Result<seq<Edit>, UpdateError>)
    ensures r == ComputeEdits(originalLines, chunks)
  {
    hide Place, SortByStart;
    var replacements: seq<Edit> := [];
    var lineIndex: nat := 0;
    ghost var all := Locate(originalLines, chunks, 0);
    assert all.Success? ==> [] + all.value == all.value;
    assert chunks[0..] == chunks;
    for i := 0 to |chunks|
      invariant all == PrependItems(replacements, Locate(originalLines, chunks[i..], lineIndex))
    {
      hide Locate;
      assert chunks[i..][0] == chunks[i] && chunks[i..][1..] == chunks[i + 1..];
      LocateStep(originalLines, replacements, chunks[i..], lineIndex);
      var placed := PlaceChunk(originalLines, chunks[i], lineIndex);
      if placed.Failure? {
        return Failure(placed.error);
      }
      replacements := replacements + [placed.value.edit];
      lineIndex := placed.value.cursor;
    }
    assert replacements + [] == replacements;
    return Success(SortByStart(replacements));
  }

  // Splicing -----------------------------------------------------------------

  function CutAt<T>(lines: seq<T>, start: nat, count: nat): seq<T> {
    if start >= |lines| then lines
    else if start + count <= |lines| then lines[..start] + lines[start + count..]
    else lines[..start]
  }

  function PasteAt<T>(lines: seq<T>, start: nat, inserted: seq<T>): seq<T> {
    var at := if start <= |lines| then start else |lines|;
    lines[..at] + inserted + lines[at..]
  }

  function SpliceOne(lines: seq<string>, e: Edit): seq<string> {
    PasteAt(CutAt(lines, e.start, e.oldLen), e.start, e.newLines)
  }

  /** Right to left: the last edit is spliced in first. */
  function SpliceAll(lines: seq<string>, edits: seq<Edit>): seq<string> {
    if edits == [] then lines
    else SpliceOne(SpliceAll(lines, edits[1..]), edits[0])
  }

  /** Dropping lines one by one; there may be fewer than `count` of them. */
  method RemoveLines<T>(lines: seq<T>, startIndex: nat, count: nat) returns (result: seq<T>)
    ensures result == CutAt(lines, startIndex, count)
  {
    result := lines;
    for i := 0 to count
      invariant result == CutAt(lines, startIndex, i)
    {
      if startIndex < |result| {
        result := result[..startIndex] + result[startIndex + 1..];
      }
    }
  }

  /** Inserting lines one by one; a start past the end appends. */
  method InsertLines<T>(lines: seq<T>, startIndex: nat, inserted: seq<T>) returns (result: seq<T>)
    ensures result == PasteAt(lines, startIndex, inserted)
  {
    result := lines;
    for i := 0 to |inserted|
      invariant result == PasteAt(lines, startIndex, inserted[..i])
    {
      var to := if startIndex + i <= |result| then startIndex + i else |result|;
      result := result[..to] + [inserted[i]] + result[to..];
      assert inserted[..i + 1] == inserted[..i] + [inserted[i]];
    }
    assert inserted[..|inserted|] == inserted;
  }

  method ApplyReplacements(lines: seq<string>, replacements: seq<Edit>) returns (result: seq<string>)
    ensures result == SpliceAll(lines, replacements)
  {
    result := lines;
    var n := |replacements|;
    while n > 0
      invariant 0 <= n <= |replacements|
      invariant result == SpliceAll(lines, replacements[n..])
    {
      n := n - 1;
      assert replacements[n..][1..] == replacements[n + 1..];
      var edit := replacements[n];
      result := RemoveLines(result, edit.start, edit.oldLen);
      result := InsertLines(result, edit.start, edit.newLines);
    }
    assert replacements[0..] == replacements;
  }

  /** `a` ends at or before the line where `b` starts. */
  predicate Before(a: Edit, b: Edit) {
    a.start + a.oldLen <= b.start
  }

  predicate InRange(lines: seq<string>, edits: seq<Edit>) {
    forall i | 0 <= i < |edits| :: edits[i].start + edits[i].oldLen <= |lines|
  }

  predicate Disjoint(edits: seq<Edit>) {
    forall i, j | 0 <= i < j < |edits| :: Before(edits[i], edits[j])
  }

  /** The simple reading of a list of edits: copy a gap, write the new lines, skip the old ones. */
  function LeftToRight(lines: seq<string>, edits: seq<Edit>, pos: nat): seq<string>
    requires InRange(lines, edits) && Disjoint(edits)
    requires pos <= |lines| && (edits != [] ==> pos <= edits[0].start)
    decreases |edits|
  {
    if edits == [] then lines[pos..]
    else
      var e := edits[0];
      lines[pos..e.start] + e.newLines + LeftToRight(lines, edits[1..], e.start + e.oldLen)
  }

  lemma SpliceWithinRange(lines: seq<string>, e: Edit)
    requires e.start + e.oldLen <= |lines|
    ensures SpliceOne(lines, e) == lines[..e.start] + e.newLines + lines[e.start + e.oldLen..]
  {
    if e.start < |lines| {
      var cut := lines[..e.start] + lines[e.start + e.oldLen..];
      assert cut[..e.start] == lines[..e.start];
      assert cut[e.start..] == lines[e.start + e.oldLen..];
    }
  }

  lemma CutAndPaste<T>(lines: seq<T>, pos: nat, start: nat, next: nat, inserted: seq<T>, tail: seq<T>)
    requires pos <= start <= next <= |lines|
    ensures var rest := lines[..next] + tail;
            rest[..start] + inserted + rest[next..] == lines[..pos] + (lines[pos..start] + inserted + tail)
  {
  }

  lemma {:induction false} SplicingIsLeftToRight(lines: seq<string>, edits: seq<Edit>, pos: nat)
    requires InRange(lines, edits) && Disjoint(edits)
    requires pos <= |lines| && (edits != [] ==> pos <= edits[0].start)
    ensures SpliceAll(lines, edits) == lines[..pos] + LeftToRight(lines, edits, pos)
    decreases |edits|
  {
    if edits == [] {
      assert SpliceAll(lines, edits) == lines;
    } else {
      RestIsOrderly(lines, edits);
      hide InRange, Disjoint, SpliceOne, Before;
      var e := edits[0];
      var next := e.start + e.oldLen;
      var tail := LeftToRight(lines, edits[1..], next);
      SplicingIsLeftToRight(lines, edits[1..], next);
      SpliceWithinRange(lines[..next] + tail, e);
      CutAndPaste(lines, pos, e.start, next, e.newLines, tail);
    }
  }

  lemma RestIsOrderly(lines: seq<string>, edits: seq<Edit>)
    requires InRange(lines, edits) && Disjoint(edits) && edits != []
    ensures InRange(lines, edits[1..]) && Disjoint(edits[1..])
    ensures edits[0].start + edits[0].oldLen <= |lines|
    ensures |edits| > 1 ==> edits[0].start + edits[0].oldLen <= edits[1].start
  {
    if |edits| > 1 {
      assert Before(edits[0], edits[1]);
    }
  }

  // Updating the text of a file -----------------------------------------------

  function ReadLines(text: string): seq<string> {
    DropLastBlank(Split(text, '\n'))
  }

  function WriteLines(lines: seq<string>): string {
    if lines == [] || lines[|lines| - 1] != "" then Join(lines + [""], '\n') else Join(lines, '\n')
  }

  function UpdateText(text: string, chunks: seq<Chunk>): Result<string, UpdateError> {
    var lines := ReadLines(text);
    var edits :- ComputeEdits(lines, chunks);
    Success(WriteLines(SpliceAll(lines, edits)))
  }

  method ApplyUpdateHunk(originalContents: string, chunks: seq<Chunk>) returns (r: Result<string, UpdateError>)
    ensures r == UpdateText(originalContents, chunks)
  {
    hide ComputeEdits, SpliceAll;
    var originalLines := Split(originalContents, '\n');
    if |originalLines| > 0 && originalLines[|originalLines| - 1] == "" {
      originalLines := originalLines[..|originalLines| - 1];
    }
    var replacements := ComputeReplacements(originalLines, chunks);
    if replacements.Failure? {
      return Failure(replacements.error);
    }
    var newLines := ApplyReplacements(originalLines, replacements.value);
    if |newLines| == 0 || newLines[|newLines| - 1] != "" {
      newLines := newLines + [""];
    }
    return Success(Join(newLines, '\n'));
  }
}
