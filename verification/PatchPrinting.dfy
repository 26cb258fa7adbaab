/** Printing a patch, and the parser as its inverse. */
module PatchPrinting {
  import opened Wrappers
  import opened Text
  import opened PatchUpdate
  import opened PatchFormat

  // Well-formed hunks --------------------------------------------------------

  predicate IsLine(s: string) {
    '\n' !in s
  }

  predicate AreLines(lines: seq<string>) {
    forall i | 0 <= i < |lines| :: IsLine(lines[i])
  }

  /** A non-empty path without line breaks or white space at its end. */
  predicate IsPath(s: string) {
    s != "" && '\n' !in s && !IsSpace(JavaScript, s[|s| - 1])
  }

  predicate IsContents(s: string) {
    s != "" ==> s[|s| - 1] == '\n'
  }

  predicate PrintableChunk(c: Chunk) {
    && (c.changeContext.Some? ==> IsLine(c.changeContext.value))
    && AreLines(c.oldLines) && AreLines(c.newLines)
    && (c.oldLines != [] || c.newLines != [])
  }

  /** A hunk that can be printed line by line. */
  predicate Printable(h: Hunk) {
    match h
    case AddFile(path, contents) => IsPath(path) && IsContents(contents)
    case DeleteFile(path) => IsPath(path)
    case UpdateFile(path, movePath, chunks) =>
      && IsPath(path) && (movePath.Some? ==> IsPath(movePath.value))
      && chunks != [] && forall i | 0 <= i < |chunks| :: PrintableChunk(chunks[i])
  }

  predicate EndsInReturn(line: string) {
    line != "" && line[|line| - 1] == '\r'
  }

  predicate NoReturns(lines: seq<string>) {
    forall i | 0 <= i < |lines| :: !EndsInReturn(lines[i])
  }

  predicate ReturnFreeChunk(c: Chunk) {
    && (c.changeContext.Some? ==> !EndsInReturn(c.changeContext.value))
    && NoReturns(c.oldLines) && NoReturns(c.newLines)
  }

  /** No line ends in a carriage return, which splitting at `\r?\n` would take for part of the line break. */
  predicate ReturnFree(h: Hunk) {
    match h
    case AddFile(_, contents) => NoReturns(ReadLines(contents))
    case DeleteFile(_) => true
    case UpdateFile(_, _, chunks) => forall i | 0 <= i < |chunks| :: ReturnFreeChunk(chunks[i])
  }

  predicate WellFormed(h: Hunk) {
    Printable(h) && ReturnFree(h)
  }

  // Printing -----------------------------------------------------------------

  function Mark(c: char, lines: seq<string>): seq<string> {
    if lines == [] then [] else [[c] + lines[0]] + Mark(c, lines[1..])
  }

  function PrintContext(c: Chunk): string {
    if c.changeContext.Some? then CHANGE_CONTEXT_MARKER + c.changeContext.value else EMPTY_CHANGE_CONTEXT_MARKER
  }

  function PrintEnd(c: Chunk): seq<string> {
    if c.isEndOfFile then [EOF_MARKER] else []
  }

  function PrintChunk(c: Chunk): seq<string> {
    [PrintContext(c)] + (Mark('-', c.oldLines) + (Mark('+', c.newLines) + PrintEnd(c)))
  }

  function PrintChunks(chunks: seq<Chunk>): seq<string> {
    if chunks == [] then [] else PrintChunk(chunks[0]) + PrintChunks(chunks[1..])
  }

  function PrintMove(movePath: Option<string>): seq<string> {
    if movePath.Some? then [MOVE_TO_MARKER + movePath.value] else []
  }

  function PrintHunk(h: Hunk): seq<string> {
    match h
    case AddFile(path, contents) => [ADD_FILE_MARKER + path] + Mark('+', ReadLines(contents))
    case DeleteFile(path) => [DELETE_FILE_MARKER + path]
    case UpdateFile(path, movePath, chunks) =>
      [UPDATE_FILE_MARKER + path] + (PrintMove(movePath) + PrintChunks(chunks))
  }

  function PrintHunks(hunks: seq<Hunk>): seq<string> {
    if hunks == [] then [] else PrintHunk(hunks[0]) + PrintHunks(hunks[1..])
  }

  function PatchLines(hunks: seq<Hunk>): seq<string> {
    [BEGIN_PATCH_MARKER] + PrintHunks(hunks) + [END_PATCH_MARKER]
  }

  function PrintPatch(hunks: seq<Hunk>): string {
    Join(PatchLines(hunks), '\n')
  }

  /** The patch as a here-document, as models like to send it. */
  function PrintHeredoc(start: string, hunks: seq<Hunk>): string {
    Join([start] + PatchLines(hunks) + ["EOF"], '\n')
  }

  // Chunks -------------------------------------------------------------------

  lemma {:induction false} ScanOldLines(before: seq<string>, rest: seq<string>, lineNumber: nat, c: Chunk, parsed: nat)
    ensures ScanBody(Mark('-', before) + rest, lineNumber, c, parsed)
            == ScanBody(rest, lineNumber, c.(oldLines := c.oldLines + before), parsed + |before|)
  {
    var lines := Mark('-', before) + rest;
    if before == [] {
      assert lines == rest && c.oldLines + before == c.oldLines;
    } else {
      assert lines == ["-" + before[0]] + (Mark('-', before[1..]) + rest);
      assert lines[0][0] == '-' && lines[0][1..] == before[0] && lines[1..] == Mark('-', before[1..]) + rest;
      hide Mark;
      ScanOldLines(before[1..], rest, lineNumber, c.(oldLines := c.oldLines + [before[0]]), parsed + 1);
      assert c.oldLines + [before[0]] + before[1..] == c.oldLines + before;
    }
  }

  lemma {:induction false} ScanNewLines(after: seq<string>, rest: seq<string>, lineNumber: nat, c: Chunk, parsed: nat)
    ensures ScanBody(Mark('+', after) + rest, lineNumber, c, parsed)
            == ScanBody(rest, lineNumber, c.(newLines := c.newLines + after), parsed + |after|)
  {
    var lines := Mark('+', after) + rest;
    if after == [] {
      assert lines == rest && c.newLines + after == c.newLines;
    } else {
      assert lines == ["+" + after[0]] + (Mark('+', after[1..]) + rest);
      assert lines[0][0] == '+' && lines[0][1..] == after[0] && lines[1..] == Mark('+', after[1..]) + rest;
      hide Mark;
      ScanNewLines(after[1..], rest, lineNumber, c.(newLines := c.newLines + [after[0]]), parsed + 1);
      assert c.newLines + [after[0]] + after[1..] == c.newLines + after;
    }
  }

  /** Nothing, or a line that ends a chunk: the next chunk or the next hunk. */
  predicate EndsChunk(rest: seq<string>) {
    rest == [] || (rest[0] != "" && rest[0][0] in {'@', '*'} && rest[0] != EOF_MARKER)
  }

  lemma {:induction false} MarkLength(c: char, lines: seq<string>)
    ensures |Mark(c, lines)| == |lines|
  {
    if lines == [] {
    } else {
      MarkLength(c, lines[1..]);
    }
  }

  lemma ContextRoundTrip(c: Chunk)
    ensures IsContextMarker(PrintContext(c)) && ContextOf(PrintContext(c)) == c.changeContext
  {
    if c.changeContext.Some? {
      var line := PrintContext(c);
      assert line[..3] == CHANGE_CONTEXT_MARKER && line[3..] == c.changeContext.value;
    }
  }

  lemma ScanPrintedBody(c: Chunk, rest: seq<string>, lineNumber: nat)
    requires c.oldLines != [] || c.newLines != []
    requires EndsChunk(rest)
    ensures var body := Mark('-', c.oldLines) + (Mark('+', c.newLines) + (PrintEnd(c) + rest));
            ScanBody(body, lineNumber, Chunk(c.changeContext, [], [], false), 0)
            == Success(Parsed(c, |c.oldLines| + |c.newLines| + |PrintEnd(c)|))
  {
    var tail := PrintEnd(c) + rest;
    var start := Chunk(c.changeContext, [], [], false);
    var full := Chunk(c.changeContext, c.oldLines, c.newLines, false);
    assert ScanBody(tail, lineNumber, full, |c.oldLines| + |c.newLines|)
           == Success(Parsed(c, |c.oldLines| + |c.newLines| + |PrintEnd(c)|)) by {
      if !c.isEndOfFile {
        assert tail == rest;
      }
    }
    hide *;
    NothingAdded(c.oldLines);
    NothingAdded(c.newLines);
    ScanOldLines(c.oldLines, Mark('+', c.newLines) + tail, lineNumber, start, 0);
    ScanNewLines(c.newLines, tail, lineNumber, start.(oldLines := c.oldLines), |c.oldLines|);
  }

  lemma ParsePrintedChunk(c: Chunk, rest: seq<string>, lineNumber: nat, allowMissingContext: bool)
    requires c.oldLines != [] || c.newLines != []
    requires EndsChunk(rest)
    ensures ParseChunk(PrintChunk(c) + rest, lineNumber, allowMissingContext)
            == Success(Parsed(c, |PrintChunk(c)|))
  {
    var lines := PrintChunk(c) + rest;
    assert lines[0] == PrintContext(c);
    assert lines[1..] == Mark('-', c.oldLines) + (Mark('+', c.newLines) + (PrintEnd(c) + rest));
    MarkLength('-', c.oldLines);
    MarkLength('+', c.newLines);
    hide ScanBody, Mark, EndsChunk, IsContextMarker, ContextOf, PrintContext, PrintEnd;
    ContextRoundTrip(c);
    ScanPrintedBody(c, rest, lineNumber);
  }

  lemma ContextLine(c: Chunk)
    ensures var line := PrintContext(c);
            line != "" && line[0] == '@' && !IsBlank(line) && !StartsWith(line, "***")
  {
    var line := PrintContext(c);
    assert line != "" && line[0] == '@';
    NotBlank(line);
    hide IsBlank;
    assert |line| >= 3 ==> line[..3][0] == '@';
  }

  lemma PrintedChunksSplit(chunks: seq<Chunk>, rest: seq<string>)
    requires chunks != []
    ensures PrintChunks(chunks) + rest == PrintChunk(chunks[0]) + (PrintChunks(chunks[1..]) + rest)
    ensures |PrintChunks(chunks)| == |PrintChunk(chunks[0])| + |PrintChunks(chunks[1..])|
    ensures PrintChunk(chunks[0]) != [] && PrintChunk(chunks[0])[0] == PrintContext(chunks[0])
  {
    assert PrintChunks(chunks) == PrintChunk(chunks[0]) + PrintChunks(chunks[1..]);
  }

  lemma PrintedChunksEndChunk(chunks: seq<Chunk>, rest: seq<string>)
    requires EndsChunk(rest)
    ensures EndsChunk(PrintChunks(chunks) + rest)
  {
    if chunks == [] {
      assert PrintChunks(chunks) + rest == rest;
    } else {
      hide *;
      PrintedChunksSplit(chunks, rest);
      ContextLine(chunks[0]);
      StartsWithAt(PrintChunks(chunks) + rest);
    }
  }

  lemma StartsWithAt(lines: seq<string>)
    requires lines != [] && lines[0] != "" && lines[0][0] == '@'
    ensures EndsChunk(lines)
  {
  }

  /** The loop over chunks meets a non-blank line that starts a chunk. */
  lemma ScanChunksStep(remaining: seq<string>, lineNumber: nat, consumed: nat, done: seq<Chunk>, c: Chunk, size: nat)
    requires remaining != [] && !IsBlank(remaining[0]) && !StartsWith(remaining[0], "***")
    requires size <= |remaining|
    requires ParseChunk(remaining, lineNumber + consumed, done == []) == Success(Parsed(c, size))
    ensures ScanChunks(remaining, lineNumber, consumed, done)
            == ScanChunks(remaining[size..], lineNumber, consumed + size, done + [c])
  {
    hide ParseChunk, IsBlank, StartsWith;
  }

  lemma ScanChunksStop(rest: seq<string>, lineNumber: nat, consumed: nat, done: seq<Chunk>)
    requires EndsChunk(rest) && (rest != [] ==> StartsWith(rest[0], "***"))
    ensures ScanChunks(rest, lineNumber, consumed, done) == Success(Parsed(done, consumed))
  {
    if rest != [] {
      NotBlank(rest[0]);
      hide IsBlank, ParseChunk;
    }
  }

  lemma {:induction false} ScanPrintedChunks(
    chunks: seq<Chunk>, rest: seq<string>, lineNumber: nat, consumed: nat, done: seq<Chunk>)
    requires forall i | 0 <= i < |chunks| :: chunks[i].oldLines != [] || chunks[i].newLines != []
    requires EndsChunk(rest) && (rest != [] ==> StartsWith(rest[0], "***"))
    ensures ScanChunks(PrintChunks(chunks) + rest, lineNumber, consumed, done)
            == Success(Parsed(done + chunks, consumed + |PrintChunks(chunks)|))
    decreases |chunks|
  {
    hide ScanChunks;
    var lines := PrintChunks(chunks) + rest;
    if chunks == [] {
      assert lines == rest && done + chunks == done;
      ScanChunksStop(rest, lineNumber, consumed, done);
    } else {
      hide *;
      var c, later := chunks[0], PrintChunks(chunks[1..]) + rest;
      var size := |PrintChunk(c)|;
      PrintedChunksSplit(chunks, rest);
      ContextLine(c);
      PrintedChunksEndChunk(chunks[1..], rest);
      ParsePrintedChunk(c, later, lineNumber + consumed, done == []);
      ScanChunksStep(lines, lineNumber, consumed, done, c, size);
      assert lines[size..] == later;
      ScanPrintedChunks(chunks[1..], rest, lineNumber, consumed + size, done + [c]);
      assert done + [c] + chunks[1..] == done + chunks;
    }
  }

  lemma NotBlank(line: string)
    requires line != "" && line[0] in {'@', '*'}
    ensures !IsBlank(line) && Trim(JavaScript, line)[0] == line[0]
  {
    TrimEndKeepsStart(line);
  }

  lemma {:induction false} TrimEndKeepsStart(s: string)
    requires s != "" && !IsSpace(JavaScript, s[0])
    ensures TrimEnd(JavaScript, s) != "" && TrimEnd(JavaScript, s)[0] == s[0]
  {
    if IsSpace(JavaScript, s[|s| - 1]) {
      TrimEndKeepsStart(s[..|s| - 1]);
    }
  }

  // Hunks --------------------------------------------------------------------

  /** Nothing, or the header line of a hunk. */
  predicate StartsHunk(rest: seq<string>) {
    rest == [] || (StartsWith(rest[0], "*** ") && rest[0] != EOF_MARKER)
  }

  lemma StartsHunkEnds(rest: seq<string>)
    requires StartsHunk(rest)
    ensures EndsChunk(rest) && (rest != [] ==> StartsWith(rest[0], "***") && !StartsWith(rest[0], "+"))
  {
    if rest != [] {
      assert rest[0][..4] == "*** ";
      assert rest[0][0] == '*' && rest[0][1] == '*' && rest[0][2] == '*';
    }
  }

  lemma HeaderLine(marker: string, path: string)
    requires marker != "" && !IsSpace(JavaScript, marker[0]) && IsPath(path)
    ensures Trim(JavaScript, marker + path) == marker + path
    ensures StartsWith(marker + path, marker) && (marker + path)[|marker|..] == path
  {
    TrimOfTight(JavaScript, marker + path);
  }

  function Unlines(lines: seq<string>): string {
    if lines == [] then "" else lines[0] + "\n" + Unlines(lines[1..])
  }

  lemma {:induction false} ScanPrintedAdded(added: seq<string>, rest: seq<string>, contents: string, consumed: nat)
    requires rest != [] ==> !StartsWith(rest[0], "+")
    ensures ScanAdded(Mark('+', added) + rest, contents, consumed)
            == Parsed(contents + Unlines(added), consumed + |added|)
    decreases |added|
  {
    var lines := Mark('+', added) + rest;
    if added == [] {
      assert lines == rest && contents + "" == contents;
    } else {
      assert lines[0] == "+" + added[0] && lines[1..] == Mark('+', added[1..]) + rest;
      assert lines[0][..1] == "+" && lines[0][1..] == added[0];
      ScanPrintedAdded(added[1..], rest, contents + added[0] + "\n", consumed + 1);
      assert contents + added[0] + "\n" + Unlines(added[1..]) == contents + Unlines(added);
    }
  }

  lemma {:induction false} UnlinesIsJoin(lines: seq<string>)
    ensures Unlines(lines) == Join(lines + [""], '\n')
  {
    if lines == [] {
    } else {
      UnlinesIsJoin(lines[1..]);
      assert (lines + [""])[1..] == lines[1..] + [""];
    }
  }

  lemma ContentsAreTheirLines(contents: string)
    requires contents != "" ==> contents[|contents| - 1] == '\n'
    ensures Unlines(ReadLines(contents)) == contents
  {
    var parts := Split(contents, '\n');
    JoinOfSplit(contents, '\n');
    UnlinesIsJoin(ReadLines(contents));
    LastPart(contents);
    assert parts == ReadLines(contents) + [""];
  }

  lemma {:induction false} LastPart(s: string)
    requires s != "" ==> s[|s| - 1] == '\n'
    ensures var parts := Split(s, '\n'); parts[|parts| - 1] == ""
  {
    if s == "" {
    } else {
      if |s| == 1 {
        assert s[1..] == "";
      }
      LastPart(s[1..]);
    }
  }

  lemma ParseHunkAdd(lines: seq<string>, lineNumber: nat, path: string, contents: string, size: nat)
    requires lines != [] && Trim(JavaScript, lines[0]) == ADD_FILE_MARKER + path
    requires ScanAdded(lines[1..], "", 1) == Parsed(contents, size)
    ensures ParseHunk(lines, lineNumber) == Success(Parsed(AddFile(path, contents), size))
  {
    assert (ADD_FILE_MARKER + path)[..|ADD_FILE_MARKER|] == ADD_FILE_MARKER;
    assert (ADD_FILE_MARKER + path)[|ADD_FILE_MARKER|..] == path;
    hide ScanAdded, Trim, ScanChunks, MoveOf;
  }

  lemma PrintAdd(path: string, contents: string, rest: seq<string>)
    ensures var printed := PrintHunk(AddFile(path, contents));
            && |printed| == 1 + |ReadLines(contents)|
            && (printed + rest)[0] == ADD_FILE_MARKER + path
            && (printed + rest)[1..] == Mark('+', ReadLines(contents)) + rest
  {
    MarkLength('+', ReadLines(contents));
    hide Mark, ReadLines;
  }

  lemma AddHeader(path: string)
    requires IsPath(path)
    ensures Trim(JavaScript, ADD_FILE_MARKER + path) == ADD_FILE_MARKER + path
  {
    HeaderLine(ADD_FILE_MARKER, path);
  }

  lemma ParsePrintedAdd(path: string, contents: string, rest: seq<string>, lineNumber: nat)
    requires IsPath(path) && (contents != "" ==> contents[|contents| - 1] == '\n')
    requires rest != [] ==> !StartsWith(rest[0], "+")
    ensures var h := AddFile(path, contents);
            ParseHunk(PrintHunk(h) + rest, lineNumber) == Success(Parsed(h, |PrintHunk(h)|))
  {
    hide *;
    var printed := PrintHunk(AddFile(path, contents));
    PrintAdd(path, contents, rest);
    AddHeader(path);
    ScanPrintedAdded(ReadLines(contents), rest, "", 1);
    ContentsAreTheirLines(contents);
    NothingAdded(contents);
    ParseHunkAdd(printed + rest, lineNumber, path, contents, |printed|);
  }

  /** The three headers differ, so no header is taken for another. */
  lemma OnlyOneMarker(line: string)
    ensures StartsWith(line, DELETE_FILE_MARKER) ==> !StartsWith(line, ADD_FILE_MARKER)
    ensures StartsWith(line, UPDATE_FILE_MARKER) ==> !StartsWith(line, ADD_FILE_MARKER) && !StartsWith(line, DELETE_FILE_MARKER)
  {
    assert ADD_FILE_MARKER[4] == 'A' && DELETE_FILE_MARKER[4] == 'D' && UPDATE_FILE_MARKER[4] == 'U';
    assert forall marker | marker in {ADD_FILE_MARKER, DELETE_FILE_MARKER, UPDATE_FILE_MARKER} ::
        StartsWith(line, marker) ==> line[..|marker|][4] == marker[4];
  }

  lemma ParsePrintedDelete(path: string, rest: seq<string>, lineNumber: nat)
    requires IsPath(path)
    ensures var h := DeleteFile(path);
            ParseHunk(PrintHunk(h) + rest, lineNumber) == Success(Parsed(h, |PrintHunk(h)|))
  {
    var header := DELETE_FILE_MARKER + path;
    var lines := PrintHunk(DeleteFile(path)) + rest;
    assert lines[0] == header;
    HeaderLine(DELETE_FILE_MARKER, path);
    OnlyOneMarker(header);
    hide Trim, StartsWith;
  }

  lemma MoveRoundTrip(movePath: Option<string>, after: seq<string>)
    requires movePath.Some? ==> IsPath(movePath.value)
    requires after != [] ==> after[0] != "" && after[0][0] == '@'
    ensures MoveOf(PrintMove(movePath) + after) == movePath
  {
    var lines := PrintMove(movePath) + after;
    if movePath.Some? {
      HeaderLine(MOVE_TO_MARKER, movePath.value);
      assert lines[0] == MOVE_TO_MARKER + movePath.value;
    } else {
      assert lines == after;
      if after != [] {
        NotBlank(after[0]);
        assert MOVE_TO_MARKER[0] == '*';
        var trimmed := Trim(JavaScript, after[0]);
        assert |trimmed| >= |MOVE_TO_MARKER| ==> trimmed[..|MOVE_TO_MARKER|][0] == trimmed[0];
      }
    }
  }

  lemma ParseHunkUpdate(
    lines: seq<string>, lineNumber: nat, path: string, movePath: Option<string>, chunks: seq<Chunk>, size: nat)
    requires lines != [] && Trim(JavaScript, lines[0]) == UPDATE_FILE_MARKER + path
    requires MoveOf(lines[1..]) == movePath && chunks != []
    requires movePath.Some? ==> |lines| >= 2
    requires var start := if movePath.Some? then 2 else 1;
             ScanChunks(lines[start..], lineNumber, start, []) == Success(Parsed(chunks, size))
    ensures ParseHunk(lines, lineNumber) == Success(Parsed(UpdateFile(path, movePath, chunks), size))
  {
    var header := UPDATE_FILE_MARKER + path;
    OnlyOneMarker(header);
    assert header[..|UPDATE_FILE_MARKER|] == UPDATE_FILE_MARKER && header[|UPDATE_FILE_MARKER|..] == path;
    assert StartsWith(header, UPDATE_FILE_MARKER);
    hide ScanAdded, Trim, ScanChunks, MoveOf, StartsWith;
  }

  lemma PrintUpdate(path: string, movePath: Option<string>, chunks: seq<Chunk>, rest: seq<string>)
    ensures var printed := PrintHunk(UpdateFile(path, movePath, chunks));
            var lines, after := printed + rest, PrintChunks(chunks) + rest;
            var start := if movePath.Some? then 2 else 1;
            && |printed| == start + |PrintChunks(chunks)|
            && lines[0] == UPDATE_FILE_MARKER + path
            && lines[1..] == PrintMove(movePath) + after
            && lines[start..] == after
  {
    HeadMiddleTail(UPDATE_FILE_MARKER + path, PrintMove(movePath), PrintChunks(chunks), rest);
    hide PrintChunks;
  }

  lemma HeadMiddleTail<T>(head: T, middle: seq<T>, tail: seq<T>, rest: seq<T>)
    ensures var lines := [head] + (middle + tail) + rest;
            && lines[0] == head
            && lines[1..] == middle + (tail + rest)
            && lines[1 + |middle|..] == tail + rest
  {
  }

  lemma UpdateHeader(path: string)
    requires IsPath(path)
    ensures Trim(JavaScript, UPDATE_FILE_MARKER + path) == UPDATE_FILE_MARKER + path
  {
    HeaderLine(UPDATE_FILE_MARKER, path);
  }

  lemma ParsePrintedUpdate(
    path: string, movePath: Option<string>, chunks: seq<Chunk>, rest: seq<string>, lineNumber: nat)
    requires IsPath(path) && (movePath.Some? ==> IsPath(movePath.value)) && chunks != []
    requires forall i | 0 <= i < |chunks| :: chunks[i].oldLines != [] || chunks[i].newLines != []
    requires StartsHunk(rest)
    ensures var h := UpdateFile(path, movePath, chunks);
            ParseHunk(PrintHunk(h) + rest, lineNumber) == Success(Parsed(h, |PrintHunk(h)|))
  {
    hide *;
    var printed := PrintHunk(UpdateFile(path, movePath, chunks));
    var start := if movePath.Some? then 2 else 1;
    PrintUpdate(path, movePath, chunks, rest);
    UpdateHeader(path);
    PrintedChunksSplit(chunks, rest);
    ContextLine(chunks[0]);
    StartsHunkEnds(rest);
    MoveRoundTrip(movePath, PrintChunks(chunks) + rest);
    ScanPrintedChunks(chunks, rest, lineNumber, start, []);
    NothingAdded(chunks);
    ParseHunkUpdate(printed + rest, lineNumber, path, movePath, chunks, |printed|);
  }

  lemma ParsePrintedHunk(h: Hunk, rest: seq<string>, lineNumber: nat)
    requires Printable(h) && StartsHunk(rest)
    ensures ParseHunk(PrintHunk(h) + rest, lineNumber) == Success(Parsed(h, |PrintHunk(h)|))
    ensures StartsHunk(PrintHunk(h) + rest)
  {
    hide ParseHunk;
    StartsHunkEnds(rest);
    var line := (PrintHunk(h) + rest)[0];
    match h {
      case AddFile(path, contents) =>
        ParsePrintedAdd(path, contents, rest, lineNumber);
        assert line == ADD_FILE_MARKER + path && line[4] == 'A';
      case DeleteFile(path) =>
        ParsePrintedDelete(path, rest, lineNumber);
        assert line == DELETE_FILE_MARKER + path && line[4] == 'D';
      case UpdateFile(path, movePath, chunks) =>
        ParsePrintedUpdate(path, movePath, chunks, rest, lineNumber);
        assert line == UPDATE_FILE_MARKER + path && line[4] == 'U';
    }
    assert line[..4] == "*** " && EOF_MARKER[4] == 'E';
  }

  lemma PrintHunkNotEmpty(h: Hunk)
    ensures PrintHunk(h) != []
  {
  }

  lemma ParseHunksCons(lines: seq<string>, lineNumber: nat, first: Hunk, size: nat, rest: seq<Hunk>)
    requires lines != [] && size <= |lines| && ParseHunk(lines, lineNumber) == Success(Parsed(first, size))
    requires ParseHunks(lines[size..], lineNumber + size) == Success(rest)
    ensures ParseHunks(lines, lineNumber) == Success([first] + rest)
  {
    hide ParseHunk;
  }

  lemma NoHunks(lineNumber: nat)
    ensures ParseHunks(PrintHunks([]), lineNumber) == Success([]) && StartsHunk(PrintHunks([]))
  {
  }

  lemma PrintHunksCons(hunks: seq<Hunk>)
    requires hunks != []
    ensures PrintHunks(hunks) == PrintHunk(hunks[0]) + PrintHunks(hunks[1..])
  {
  }

  lemma {:induction false} ParsePrintedHunks(hunks: seq<Hunk>, lineNumber: nat)
    requires forall i | 0 <= i < |hunks| :: Printable(hunks[i])
    ensures ParseHunks(PrintHunks(hunks), lineNumber) == Success(hunks)
    ensures StartsHunk(PrintHunks(hunks))
    decreases |hunks|
  {
    hide *;
    if hunks == [] {
      NoHunks(lineNumber);
    } else {
      var printed, later := PrintHunk(hunks[0]), PrintHunks(hunks[1..]);
      PrintHunksCons(hunks);
      ParsePrintedHunks(hunks[1..], lineNumber + |printed|);
      ParsePrintedHunk(hunks[0], later, lineNumber);
      SplitSum(printed, later);
      HeadTail(hunks);
      PrintHunkNotEmpty(hunks[0]);
      ParseHunksCons(printed + later, lineNumber, hunks[0], |printed|, hunks[1..]);
    }
  }

  // Whole patches ------------------------------------------------------------

  lemma {:induction false} DropReturnsIsBare(lines: seq<string>)
    requires lines != [] && !EndsInReturn(lines[|lines| - 1])
    ensures DropReturns(lines) == BareLines(lines)
  {
    if |lines| == 1 {
      assert lines[1..] == [];
    } else {
      DropReturnsIsBare(lines[1..]);
    }
  }

  /** Lines joined and split again lose a carriage return each. */
  lemma SplitLinesOfJoin(lines: seq<string>)
    requires lines != [] && AreLines(lines) && !EndsInReturn(lines[|lines| - 1])
    ensures SplitLines(Join(lines, '\n')) == BareLines(lines)
  {
    SplitOfJoin(lines, '\n');
    DropReturnsIsBare(lines);
  }

  lemma {:induction false} JoinKeepsEnds(lines: seq<string>)
    requires lines != [] && lines[0] != "" && lines[|lines| - 1] != ""
    ensures var text := Join(lines, '\n');
            text != "" && text[0] == lines[0][0]
            && text[|text| - 1] == lines[|lines| - 1][|lines[|lines| - 1]| - 1]
  {
    if |lines| <= 1 {
    } else {
      if lines[1] == "" {
        JoinKeepsLast(lines[1..]);
      } else {
        JoinKeepsEnds(lines[1..]);
      }
    }
  }

  lemma {:induction false} JoinKeepsLast(lines: seq<string>)
    requires lines != [] && lines[|lines| - 1] != ""
    ensures var text := Join(lines, '\n');
            text != "" && text[|text| - 1] == lines[|lines| - 1][|lines[|lines| - 1]| - 1]
  {
    if |lines| <= 1 {
    } else {
      JoinKeepsLast(lines[1..]);
    }
  }

  lemma {:induction false} MarkIsLines(c: char, lines: seq<string>)
    requires AreLines(lines) && c != '\n'
    ensures AreLines(Mark(c, lines))
  {
    if lines == [] {
    } else {
      MarkIsLines(c, lines[1..]);
    }
  }

  lemma SumIsLines(a: seq<string>, b: seq<string>)
    requires AreLines(a) && AreLines(b)
    ensures AreLines(a + b)
  {
  }

  lemma PrefixedIsLine(marker: string, s: string)
    requires IsLine(marker) && IsLine(s)
    ensures IsLine(marker + s)
  {
  }

  lemma PathIsLine(path: string)
    requires IsPath(path)
    ensures IsLine(path)
  {
  }

  lemma MarkersAreLines()
    ensures IsLine(BEGIN_PATCH_MARKER) && IsLine(END_PATCH_MARKER) && IsLine(EOF_MARKER)
    ensures IsLine(ADD_FILE_MARKER) && IsLine(DELETE_FILE_MARKER) && IsLine(UPDATE_FILE_MARKER)
    ensures IsLine(MOVE_TO_MARKER) && IsLine(CHANGE_CONTEXT_MARKER) && IsLine(EMPTY_CHANGE_CONTEXT_MARKER)
  {
  }

  lemma SingleIsLines(line: string)
    requires IsLine(line)
    ensures AreLines([line])
  {
  }

  lemma ChunkIsLines(c: Chunk)
    requires PrintableChunk(c)
    ensures AreLines(PrintChunk(c))
  {
    MarkersAreLines();
    MarkIsLines('-', c.oldLines);
    MarkIsLines('+', c.newLines);
    if c.changeContext.Some? {
      PrefixedIsLine(CHANGE_CONTEXT_MARKER, c.changeContext.value);
    }
    hide IsLine, Mark;
  }

  lemma {:induction false} ChunksAreLines(chunks: seq<Chunk>)
    requires forall i | 0 <= i < |chunks| :: PrintableChunk(chunks[i])
    ensures AreLines(PrintChunks(chunks))
  {
    hide PrintChunk, PrintableChunk, IsLine;
    if chunks == [] {
    } else {
      ChunkIsLines(chunks[0]);
      ChunksAreLines(chunks[1..]);
      SumIsLines(PrintChunk(chunks[0]), PrintChunks(chunks[1..]));
    }
  }

  lemma HeaderIsLines(marker: string, path: string)
    requires IsLine(marker) && IsPath(path)
    ensures AreLines([marker + path])
  {
    PathIsLine(path);
    PrefixedIsLine(marker, path);
    SingleIsLines(marker + path);
  }

  lemma HunkIsLines(h: Hunk)
    requires Printable(h)
    ensures AreLines(PrintHunk(h))
  {
    hide IsLine, IsPath, Mark, PrintChunks, AreLines, PrintableChunk, ReadLines;
    MarkersAreLines();
    match h {
      case AddFile(path, contents) =>
        HeaderIsLines(ADD_FILE_MARKER, path);
        ReadLinesAreLines(contents);
        PlusIsLines(ReadLines(contents));
        SumIsLines([ADD_FILE_MARKER + path], Mark('+', ReadLines(contents)));
      case DeleteFile(path) =>
        HeaderIsLines(DELETE_FILE_MARKER, path);
      case UpdateFile(path, movePath, chunks) =>
        HeaderIsLines(UPDATE_FILE_MARKER, path);
        ChunksAreLines(chunks);
        MoveIsLines(movePath);
        SumIsLines(PrintMove(movePath), PrintChunks(chunks));
        SumIsLines([UPDATE_FILE_MARKER + path], PrintMove(movePath) + PrintChunks(chunks));
    }
  }

  lemma PlusIsLines(lines: seq<string>)
    requires AreLines(lines)
    ensures AreLines(Mark('+', lines))
  {
    MarkIsLines('+', lines);
  }

  lemma MoveIsLines(movePath: Option<string>)
    requires movePath.Some? ==> IsPath(movePath.value)
    ensures AreLines(PrintMove(movePath))
  {
    MarkersAreLines();
    hide IsLine, IsPath;
    if movePath.Some? {
      HeaderIsLines(MOVE_TO_MARKER, movePath.value);
    }
  }

  lemma {:induction false} HunksAreLines(hunks: seq<Hunk>)
    requires forall i | 0 <= i < |hunks| :: Printable(hunks[i])
    ensures AreLines(PrintHunks(hunks))
  {
    hide PrintHunk, Printable, IsLine;
    if hunks == [] {
    } else {
      HunkIsLines(hunks[0]);
      HunksAreLines(hunks[1..]);
      SumIsLines(PrintHunk(hunks[0]), PrintHunks(hunks[1..]));
    }
  }

  lemma PatchIsLines(hunks: seq<Hunk>)
    requires forall i | 0 <= i < |hunks| :: Printable(hunks[i])
    ensures AreLines(PatchLines(hunks))
  {
    MarkersAreLines();
    hide PrintHunks, Printable, IsLine;
    HunksAreLines(hunks);
  }

  lemma PatchFrame(hunks: seq<Hunk>)
    ensures var lines := PatchLines(hunks);
            && |lines| >= 2 && lines[0] == BEGIN_PATCH_MARKER && lines[|lines| - 1] == END_PATCH_MARKER
            && PatchBody(lines) == PrintHunks(hunks)
  {
    hide PrintHunks;
  }

  lemma FramedIsStrict(lines: seq<string>)
    requires lines != [] && lines[0] == BEGIN_PATCH_MARKER && lines[|lines| - 1] == END_PATCH_MARKER
    ensures CheckStrict(lines) == None
  {
    TrimOfTight(JavaScript, BEGIN_PATCH_MARKER);
    TrimOfTight(JavaScript, END_PATCH_MARKER);
    hide Trim;
  }

  /** The first and the last character of such lines survive trimming. */
  predicate Tight(lines: seq<string>) {
    && lines != [] && lines[0] != "" && lines[0][0] in {'*', '<'}
    && lines[|lines| - 1] != "" && lines[|lines| - 1][|lines[|lines| - 1]| - 1] in {'h', 'F'}
  }

  lemma TrimmedPatch(lines: seq<string>)
    requires Tight(lines)
    ensures Trim(JavaScript, Join(lines, '\n')) == Join(lines, '\n') != ""
  {
    hide Trim;
    JoinKeepsEnds(lines);
    TrimOfTight(JavaScript, Join(lines, '\n'));
  }

  lemma ParseOfLines(lines: seq<string>, validated: seq<string>)
    requires AreLines(lines) && Tight(lines)
    requires CheckLenient(BareLines(lines)) == Success(validated)
    ensures ParsePatch(Join(lines, '\n')) == ParseHunks(PatchBody(validated), 2)
  {
    hide Trim, Join, SplitLines, CheckLenient, ParseHunks, PatchBody, AreLines, BareLines;
    TrimmedPatch(lines);
    SplitLinesOfJoin(lines);
  }

  lemma HeredocLines(start: string, hunks: seq<Hunk>)
    requires IsHeredocStart(start)
    ensures var lines := [start] + PatchLines(hunks) + ["EOF"];
            && CheckLenient(lines) == Success(PatchLines(hunks))
            && lines[0] == start && lines[|lines| - 1] == "EOF"
  {
    var inner := PatchLines(hunks);
    var lines := [start] + inner + ["EOF"];
    PatchFrame(hunks);
    FramedIsStrict(inner);
    assert lines[1..|lines| - 1] == inner;
    assert CheckStrict(lines).Some? by {
      TrimOfTight(JavaScript, start);
    }
    hide CheckStrict, PatchLines;
    assert "EOF"[0..] == "EOF";
  }

  lemma HeredocStartIsLine(start: string)
    requires IsHeredocStart(start)
    ensures IsLine(start) && start != "" && start[0] == '<' && !EndsInReturn(start)
    ensures IsLine("EOF") && !EndsInReturn("EOF")
  {
  }

  lemma StrictIsLenient(lines: seq<string>)
    requires CheckStrict(lines) == None
    ensures CheckLenient(lines) == Success(lines)
  {
    hide CheckStrict;
  }

  // Carriage returns ---------------------------------------------------------

  function BareLines(lines: seq<string>): seq<string> {
    if lines == [] then [] else [DropReturn(lines[0])] + BareLines(lines[1..])
  }

  function BareChunk(c: Chunk): Chunk {
    Chunk(if c.changeContext.Some? then Some(DropReturn(c.changeContext.value)) else None,
          BareLines(c.oldLines), BareLines(c.newLines), c.isEndOfFile)
  }

  function BareChunks(chunks: seq<Chunk>): seq<Chunk> {
    if chunks == [] then [] else [BareChunk(chunks[0])] + BareChunks(chunks[1..])
  }

  /** The hunk with one carriage return less at the end of each line that has one there. */
  function BareHunk(h: Hunk): Hunk {
    match h
    case AddFile(path, contents) => AddFile(path, Unlines(BareLines(ReadLines(contents))))
    case DeleteFile(path) => h
    case UpdateFile(path, movePath, chunks) => UpdateFile(path, movePath, BareChunks(chunks))
  }

  function BareHunks(hunks: seq<Hunk>): seq<Hunk> {
    if hunks == [] then [] else [BareHunk(hunks[0])] + BareHunks(hunks[1..])
  }

  lemma {:induction false} BareLinesSame(lines: seq<string>)
    ensures BareLines(lines) == lines <==> NoReturns(lines)
  {
    if lines == [] {
      assert BareLines(lines) == lines;
    } else {
      BareLinesSame(lines[1..]);
      HeadTail(lines);
      assert NoReturns(lines) <==> !EndsInReturn(lines[0]) && NoReturns(lines[1..]);
      assert BareLines(lines)[1..] == BareLines(lines[1..]);
    }
  }

  lemma BareChunkSame(c: Chunk)
    ensures BareChunk(c) == c <==> ReturnFreeChunk(c)
  {
    BareLinesSame(c.oldLines);
    BareLinesSame(c.newLines);
    hide BareLines, NoReturns;
  }

  lemma {:induction false} BareChunksSame(chunks: seq<Chunk>)
    ensures BareChunks(chunks) == chunks <==> forall i | 0 <= i < |chunks| :: ReturnFreeChunk(chunks[i])
  {
    hide BareChunk, ReturnFreeChunk;
    if chunks == [] {
      assert BareChunks(chunks) == chunks;
    } else {
      BareChunkSame(chunks[0]);
      BareChunksSame(chunks[1..]);
      HeadTail(chunks);
      assert BareChunks(chunks)[1..] == BareChunks(chunks[1..]);
    }
  }

  lemma ReadLinesOfUnlines(lines: seq<string>)
    requires AreLines(lines)
    ensures ReadLines(Unlines(lines)) == lines
  {
    UnlinesIsJoin(lines);
    SplitOfJoin(lines + [""], '\n');
    assert (lines + [""])[..|lines|] == lines;
    hide Split, Unlines, Join;
  }

  lemma BareHunkSame(h: Hunk)
    requires Printable(h)
    ensures BareHunk(h) == h <==> ReturnFree(h)
  {
    hide BareLines, NoReturns, ReadLines, AreLines, Unlines, BareChunks, ReturnFreeChunk, PrintableChunk;
    match h {
      case AddFile(_, contents) =>
        var lines := ReadLines(contents);
        ContentsAreTheirLines(contents);
        ReadLinesAreLines(contents);
        BareLinesAreLines(lines);
        BareLinesSame(lines);
        ReadLinesOfUnlines(BareLines(lines));
      case DeleteFile(_) =>
      case UpdateFile(_, _, chunks) =>
        BareChunksSame(chunks);
    }
  }

  lemma ReadLinesAreLines(text: string)
    ensures AreLines(ReadLines(text))
  {
    SplitPartsLackSep(text, '\n');
    hide Split;
  }

  lemma {:induction false} BareLinesAreLines(lines: seq<string>)
    requires AreLines(lines)
    ensures AreLines(BareLines(lines)) && |BareLines(lines)| == |lines|
  {
    if lines == [] {
    } else {
      BareLinesAreLines(lines[1..]);
    }
  }

  lemma {:induction false} BareHunksSame(hunks: seq<Hunk>)
    requires forall i | 0 <= i < |hunks| :: Printable(hunks[i])
    ensures BareHunks(hunks) == hunks <==> forall i | 0 <= i < |hunks| :: ReturnFree(hunks[i])
  {
    hide BareHunk, ReturnFree, Printable;
    if hunks == [] {
      assert BareHunks(hunks) == hunks;
    } else {
      BareHunkSame(hunks[0]);
      BareHunksSame(hunks[1..]);
      HeadTail(hunks);
      assert BareHunks(hunks)[1..] == BareHunks(hunks[1..]);
    }
  }

  lemma {:induction false} BareSum(a: seq<string>, b: seq<string>)
    ensures BareLines(a + b) == BareLines(a) + BareLines(b)
  {
    hide DropReturn;
    if a == [] {
      assert a + b == b;
    } else {
      assert (a + b)[0] == a[0] && (a + b)[1..] == a[1..] + b;
      BareSum(a[1..], b);
    }
  }

  lemma BareOne(line: string)
    ensures BareLines([line]) == [DropReturn(line)]
  {
    assert [line][1..] == [];
  }

  lemma BarePrefixed(prefix: string, s: string)
    requires prefix != "" && !EndsInReturn(prefix)
    ensures DropReturn(prefix + s) == prefix + DropReturn(s)
  {
    if EndsInReturn(s) {
      assert (prefix + s)[..|prefix + s| - 1] == prefix + s[..|s| - 1];
    }
  }

  lemma {:induction false} BareMark(c: char, lines: seq<string>)
    requires c != '\r'
    ensures BareLines(Mark(c, lines)) == Mark(c, BareLines(lines))
  {
    if lines == [] {
    } else {
      BarePrefixed([c], lines[0]);
      BareMark(c, lines[1..]);
      assert Mark(c, lines)[1..] == Mark(c, lines[1..]);
      assert BareLines(lines)[1..] == BareLines(lines[1..]);
    }
    hide DropReturn, EndsInReturn;
  }

  lemma MarkersAreBare()
    ensures DropReturn(BEGIN_PATCH_MARKER) == BEGIN_PATCH_MARKER && DropReturn(END_PATCH_MARKER) == END_PATCH_MARKER
    ensures DropReturn(EOF_MARKER) == EOF_MARKER && DropReturn(EMPTY_CHANGE_CONTEXT_MARKER) == EMPTY_CHANGE_CONTEXT_MARKER
    ensures !EndsInReturn(CHANGE_CONTEXT_MARKER)
  {
  }

  lemma BareHeader(marker: string, path: string)
    requires IsPath(path)
    ensures DropReturn(marker + path) == marker + path
  {
  }

  lemma PrintBareContext(c: Chunk)
    ensures PrintContext(BareChunk(c)) == DropReturn(PrintContext(c))
  {
    MarkersAreBare();
    if c.changeContext.Some? {
      BarePrefixed(CHANGE_CONTEXT_MARKER, c.changeContext.value);
    }
    hide DropReturn, BareLines;
  }

  lemma PrintBareEnd(c: Chunk)
    ensures PrintEnd(BareChunk(c)) == BareLines(PrintEnd(c))
  {
    MarkersAreBare();
    BareOne(EOF_MARKER);
    assert BareLines([]) == [];
    hide DropReturn, BareLines;
  }

  lemma PrintBareChunk(c: Chunk)
    ensures PrintChunk(BareChunk(c)) == BareLines(PrintChunk(c))
  {
    hide BareLines, PrintContext, PrintEnd, Mark, DropReturn;
    PrintBareContext(c);
    PrintBareEnd(c);
    BareMark('-', c.oldLines);
    BareMark('+', c.newLines);
    BareOne(PrintContext(c));
    BareSum(Mark('+', c.newLines), PrintEnd(c));
    BareSum(Mark('-', c.oldLines), Mark('+', c.newLines) + PrintEnd(c));
    BareSum([PrintContext(c)], Mark('-', c.oldLines) + (Mark('+', c.newLines) + PrintEnd(c)));
  }

  lemma {:induction false} PrintBareChunks(chunks: seq<Chunk>)
    ensures PrintChunks(BareChunks(chunks)) == BareLines(PrintChunks(chunks))
  {
    hide BareChunk, PrintChunk;
    if chunks == [] {
    } else {
      PrintBareChunk(chunks[0]);
      PrintBareChunks(chunks[1..]);
      BareSum(PrintChunk(chunks[0]), PrintChunks(chunks[1..]));
      assert BareChunks(chunks)[1..] == BareChunks(chunks[1..]);
    }
  }

  lemma PrintBareMove(movePath: Option<string>)
    requires movePath.Some? ==> IsPath(movePath.value)
    ensures BareLines(PrintMove(movePath)) == PrintMove(movePath)
  {
    if movePath.Some? {
      BareHeader(MOVE_TO_MARKER, movePath.value);
      BareOne(MOVE_TO_MARKER + movePath.value);
      hide BareLines;
    }
    hide IsPath, DropReturn;
  }

  /** Dropping carriage returns from the hunk drops them from its lines. */
  lemma PrintBareHunk(h: Hunk)
    requires Printable(h)
    ensures PrintHunk(BareHunk(h)) == BareLines(PrintHunk(h))
    ensures Printable(BareHunk(h))
  {
    BareIsPrintable(h);
    hide BareLines, PrintMove, PrintChunks, Mark, DropReturn, ReadLines, IsPath, BareChunks, Unlines, AreLines,
      PrintableChunk;
    match h {
      case AddFile(path, contents) =>
        var lines := ReadLines(contents);
        BareHeader(ADD_FILE_MARKER, path);
        BareOne(ADD_FILE_MARKER + path);
        ReadLinesAreLines(contents);
        BareLinesAreLines(lines);
        ReadLinesOfUnlines(BareLines(lines));
        BareMark('+', lines);
        BareSum([ADD_FILE_MARKER + path], Mark('+', lines));
      case DeleteFile(path) =>
        BareHeader(DELETE_FILE_MARKER, path);
        BareOne(DELETE_FILE_MARKER + path);
      case UpdateFile(path, movePath, chunks) =>
        BareHeader(UPDATE_FILE_MARKER, path);
        BareOne(UPDATE_FILE_MARKER + path);
        PrintBareMove(movePath);
        PrintBareChunks(chunks);
        BareSum(PrintMove(movePath), PrintChunks(chunks));
        BareSum([UPDATE_FILE_MARKER + path], PrintMove(movePath) + PrintChunks(chunks));
    }
  }

  lemma {:induction false} UnlinesIsContents(lines: seq<string>)
    ensures IsContents(Unlines(lines))
  {
    if lines == [] {
    } else {
      UnlinesIsContents(lines[1..]);
    }
  }

  lemma {:induction false} BareChunksArePrintable(chunks: seq<Chunk>)
    requires forall i | 0 <= i < |chunks| :: PrintableChunk(chunks[i])
    ensures |BareChunks(chunks)| == |chunks|
    ensures forall i | 0 <= i < |chunks| :: PrintableChunk(BareChunks(chunks)[i])
  {
    if chunks == [] {
    } else {
      var c := chunks[0];
      BareLinesAreLines(c.oldLines);
      BareLinesAreLines(c.newLines);
      BareChunksArePrintable(chunks[1..]);
      assert PrintableChunk(c);
      assert PrintableChunk(BareChunk(c));
    }
    hide BareLines, AreLines;
  }

  lemma BareIsPrintable(h: Hunk)
    requires Printable(h)
    ensures Printable(BareHunk(h))
  {
    hide IsPath, BareLines, BareChunks, PrintableChunk, Unlines, IsContents, ReadLines;
    match h {
      case AddFile(_, contents) => UnlinesIsContents(BareLines(ReadLines(contents)));
      case DeleteFile(_) =>
      case UpdateFile(_, _, chunks) => BareChunksArePrintable(chunks);
    }
  }

  lemma {:induction false} PrintBareHunks(hunks: seq<Hunk>)
    requires forall i | 0 <= i < |hunks| :: Printable(hunks[i])
    ensures PrintHunks(BareHunks(hunks)) == BareLines(PrintHunks(hunks))
    ensures |BareHunks(hunks)| == |hunks| && forall i | 0 <= i < |hunks| :: Printable(BareHunks(hunks)[i])
  {
    hide BareHunk, PrintHunk, Printable;
    if hunks == [] {
    } else {
      PrintBareHunk(hunks[0]);
      PrintBareHunks(hunks[1..]);
      BareSum(PrintHunk(hunks[0]), PrintHunks(hunks[1..]));
      assert BareHunks(hunks)[1..] == BareHunks(hunks[1..]);
    }
  }

  lemma BarePatchLines(hunks: seq<Hunk>)
    requires forall i | 0 <= i < |hunks| :: Printable(hunks[i])
    ensures BareLines(PatchLines(hunks)) == PatchLines(BareHunks(hunks))
  {
    hide BareHunks, PrintHunks, BareLines, DropReturn, Printable;
    MarkersAreBare();
    PrintBareHunks(hunks);
    BareOne(BEGIN_PATCH_MARKER);
    BareOne(END_PATCH_MARKER);
    BareSum([BEGIN_PATCH_MARKER], PrintHunks(hunks));
    BareSum([BEGIN_PATCH_MARKER] + PrintHunks(hunks), [END_PATCH_MARKER]);
  }

  lemma BareHeredoc(start: string, hunks: seq<Hunk>)
    requires IsHeredocStart(start) && forall i | 0 <= i < |hunks| :: Printable(hunks[i])
    ensures BareLines([start] + PatchLines(hunks) + ["EOF"]) == [start] + PatchLines(BareHunks(hunks)) + ["EOF"]
  {
    hide BareHunks, BareLines, PatchLines, Printable, IsHeredocStart;
    HeredocStartIsLine(start);
    BarePatchLines(hunks);
    BareOne(start);
    BareOne("EOF");
    BareSum([start], PatchLines(hunks));
    BareSum([start] + PatchLines(hunks), ["EOF"]);
  }

  lemma PatchIsTight(hunks: seq<Hunk>)
    ensures Tight(PatchLines(hunks)) && PrintPatch(hunks) == Join(PatchLines(hunks), '\n')
  {
    PatchFrame(hunks);
    hide PatchLines, PrintHunks;
  }

  lemma HeredocIsTight(start: string, hunks: seq<Hunk>)
    requires IsHeredocStart(start)
    ensures Tight([start] + PatchLines(hunks) + ["EOF"])
    ensures PrintHeredoc(start, hunks) == Join([start] + PatchLines(hunks) + ["EOF"], '\n')
  {
    hide PatchLines;
  }

  lemma HeredocIsLines(start: string, lines: seq<string>)
    requires IsHeredocStart(start) && AreLines(lines)
    ensures AreLines([start] + lines + ["EOF"])
  {
  }

  lemma PatchParses(hunks: seq<Hunk>)
    requires forall i | 0 <= i < |hunks| :: Printable(hunks[i])
    ensures ParsePatch(PrintPatch(hunks)) == Success(BareHunks(hunks))
  {
    hide *;
    var bare := PatchLines(BareHunks(hunks));
    PatchIsTight(hunks);
    PatchIsLines(hunks);
    BarePatchLines(hunks);
    PatchFrame(BareHunks(hunks));
    FramedIsStrict(bare);
    StrictIsLenient(bare);
    ParseOfLines(PatchLines(hunks), bare);
    PrintBareHunks(hunks);
    ParsePrintedHunks(BareHunks(hunks), 2);
  }

  lemma HeredocParses(hunks: seq<Hunk>, start: string)
    requires forall i | 0 <= i < |hunks| :: Printable(hunks[i])
    requires IsHeredocStart(start)
    ensures ParsePatch(PrintHeredoc(start, hunks)) == Success(BareHunks(hunks))
  {
    hide *;
    HeredocIsTight(start, hunks);
    PatchIsLines(hunks);
    HeredocIsLines(start, PatchLines(hunks));
    BareHeredoc(start, hunks);
    HeredocLines(start, BareHunks(hunks));
    ParseOfLines([start] + PatchLines(hunks) + ["EOF"], PatchLines(BareHunks(hunks)));
    PatchFrame(BareHunks(hunks));
    PrintBareHunks(hunks);
    ParsePrintedHunks(BareHunks(hunks), 2);
  }

  /**
   A printed patch, with or without a here-document around it, parses to its hunks less a
   carriage return per line, so to the same hunks exactly when no line ends in one.
   */
  lemma ParsingUndoesPrinting(hunks: seq<Hunk>, start: string)
    requires forall i | 0 <= i < |hunks| :: Printable(hunks[i])
    requires IsHeredocStart(start)
    ensures ParsePatch(PrintPatch(hunks)) == Success(BareHunks(hunks))
    ensures ParsePatch(PrintPatch(hunks)) == Success(hunks) <==> forall i | 0 <= i < |hunks| :: ReturnFree(hunks[i])
    ensures ParsePatch(PrintHeredoc(start, hunks)) == ParsePatch(PrintPatch(hunks))
  {
    hide *;
    PatchParses(hunks);
    HeredocParses(hunks, start);
    BareHunksSame(hunks);
  }

  /** A well-formed hunk, printed alone, comes back. */
  lemma WellFormedComesBack(h: Hunk)
    requires WellFormed(h)
    ensures ParsePatch(PrintPatch([h])) == Success([h])
  {
    WellFormedParts(h);
    hide *;
    PatchParses([h]);
    BareHunksSame([h]);
  }

  lemma WellFormedParts(h: Hunk)
    requires WellFormed(h)
    ensures Printable(h) && ReturnFree(h)
  {
  }
}
