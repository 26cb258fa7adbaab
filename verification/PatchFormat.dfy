/** The `*** Begin Patch` format: the hand-written line parser and what it accepts. */
module PatchFormat {
  import opened Wrappers
  import opened Text
  import opened PatchUpdate

  const BEGIN_PATCH_MARKER := "*** Begin Patch"
  const END_PATCH_MARKER := "*** End Patch"
  const ADD_FILE_MARKER := "*** Add File: "
  const DELETE_FILE_MARKER := "*** Delete File: "
  const UPDATE_FILE_MARKER := "*** Update File: "
  const MOVE_TO_MARKER := "*** Move to: "
  const EOF_MARKER := "*** End of File"
  const CHANGE_CONTEXT_MARKER := "@@ "
  const EMPTY_CHANGE_CONTEXT_MARKER := "@@"

  datatype Hunk =
    | AddFile(path: string, contents: string)
    | DeleteFile(path: string)
    | UpdateFile(path: string, movePath: Option<string>, chunks: seq<Chunk>)

  /** Errors carry the line number of their message, counted from 1. */
  datatype ParseError =
    | EmptyInput
    | BadFirstLine
    | BadLastLine
    | EmptyHunk(line: nat)
    | BadHeader(line: nat, text: string)
    | EmptyUpdate(line: nat, path: string)
    | MissingContext(line: nat, text: string)
    | NoLines(line: nat)
    | UnexpectedLine(line: nat, text: string)

  /** A parsed item and the number of lines it takes. */
  datatype Parsed<+T> = Parsed(item: T, consumed: nat)

  // The grammar as functions -------------------------------------------------

  function DropReturn(line: string): string {
    if line != "" && line[|line| - 1] == '\r' then line[..|line| - 1] else line
  }

  function DropReturns(lines: seq<string>): seq<string> {
    if |lines| <= 1 then lines else [DropReturn(lines[0])] + DropReturns(lines[1..])
  }

  /** Splitting at `\r?\n`. */
  function SplitLines(text: string): seq<string> {
    DropReturns(Split(text, '\n'))
  }

  function CheckStrict(lines: seq<string>): Option<ParseError> {
    if lines == [] || Trim(JavaScript, lines[0]) != BEGIN_PATCH_MARKER then Some(BadFirstLine)
    else if Trim(JavaScript, lines[|lines| - 1]) != END_PATCH_MARKER then Some(BadLastLine)
    else None
  }

  predicate IsHeredocStart(line: string) {
    line == "<<EOF" || line == "<<'EOF'" || line == "<<\"EOF\""
  }

  function CheckLenient(lines: seq<string>): Result<seq<string>, ParseError> {
    var strictError := CheckStrict(lines);
    if strictError.None? then Success(lines)
    else if |lines| < 4 then Failure(strictError.value)
    else if IsHeredocStart(lines[0]) && EndsWith(lines[|lines| - 1], "EOF") then
      var inner := lines[1..|lines| - 1];
      var innerError := CheckStrict(inner);
      if innerError.None? then Success(inner) else Failure(innerError.value)
    else Failure(strictError.value)
  }

  /** A body line goes to the old version, the new one, or both. */
  function TakeLine(chunk: Chunk, line: string): Chunk {
    if line == "" then chunk.(oldLines := chunk.oldLines + [""], newLines := chunk.newLines + [""])
    else if line[0] == ' ' then
      chunk.(oldLines := chunk.oldLines + [line[1..]], newLines := chunk.newLines + [line[1..]])
    else if line[0] == '+' then chunk.(newLines := chunk.newLines + [line[1..]])
    else if line[0] == '-' then chunk.(oldLines := chunk.oldLines + [line[1..]])
    else chunk
  }

  /** The lines of a chunk after its context marker. */
  function ScanBody(lines: seq<string>, lineNumber: nat, chunk: Chunk, parsed: nat)
    : (r: Result<Parsed<Chunk>, ParseError>)
    ensures r.Success? ==> parsed <= r.value.consumed <= parsed + |lines|
    ensures r.Success? && parsed == 0 && lines != [] ==> 1 <= r.value.consumed
  {
    if lines == [] then Success(Parsed(chunk, parsed))
    else
      var line, rest := lines[0], lines[1..];
      if line == EOF_MARKER then
        if parsed == 0 then Failure(NoLines(lineNumber + 1))
        else Success(Parsed(chunk.(isEndOfFile := true), parsed + 1))
      else if line == "" || line[0] in " +-" then ScanBody(rest, lineNumber, TakeLine(chunk, line), parsed + 1)
      else if parsed == 0 then Failure(UnexpectedLine(lineNumber + 1, line))
      else Success(Parsed(chunk, parsed))
  }

  /** A scanned body, counted from before its marker. */
  function Behind(start: nat, body: Result<Parsed<Chunk>, ParseError>): Result<Parsed<Chunk>, ParseError> {
    match body
    case Success(parsed) => Success(Parsed(parsed.item, parsed.consumed + start))
    case Failure(error) => Failure(error)
  }

  predicate IsContextMarker(line: string) {
    line == EMPTY_CHANGE_CONTEXT_MARKER || StartsWith(line, CHANGE_CONTEXT_MARKER)
  }

  function ContextOf(line: string): Option<string> {
    if line != EMPTY_CHANGE_CONTEXT_MARKER && StartsWith(line, CHANGE_CONTEXT_MARKER)
    then Some(line[|CHANGE_CONTEXT_MARKER|..]) else None
  }

  function ParseChunk(lines: seq<string>, lineNumber: nat, allowMissingContext: bool)
    : (r: Result<Parsed<Chunk>, ParseError>)
    ensures r.Success? ==> 1 <= r.value.consumed <= |lines|
  {
    if lines == [] then Failure(NoLines(lineNumber))
    else if !IsContextMarker(lines[0]) && !allowMissingContext then Failure(MissingContext(lineNumber, lines[0]))
    else
      var startIndex := if IsContextMarker(lines[0]) then 1 else 0;
      if startIndex >= |lines| then Failure(NoLines(lineNumber + 1))
      else
        var body :- ScanBody(lines[startIndex..], lineNumber, Chunk(ContextOf(lines[0]), [], [], false), 0);
        Success(Parsed(body.item, body.consumed + startIndex))
  }

  predicate IsBlank(line: string) {
    Trim(JavaScript, line) == ""
  }

  /** The chunks of an update hunk; `consumed` lines of the hunk were read before `remaining`. */
  function ScanChunks(remaining: seq<string>, lineNumber: nat, consumed: nat, chunks: seq<Chunk>)
    : (r: Result<Parsed<seq<Chunk>>, ParseError>)
    ensures r.Success? ==> consumed <= r.value.consumed <= consumed + |remaining|
    decreases |remaining|
  {
    if remaining == [] then Success(Parsed(chunks, consumed))
    else if IsBlank(remaining[0]) then ScanChunks(remaining[1..], lineNumber, consumed + 1, chunks)
    else if StartsWith(remaining[0], "***") then Success(Parsed(chunks, consumed))
    else
      var next :- ParseChunk(remaining, lineNumber + consumed, chunks == []);
      ScanChunks(remaining[next.consumed..], lineNumber, consumed + next.consumed, chunks + [next.item])
  }

  /** The contents of an added file: the lines that start with `+`. */
  function ScanAdded(lines: seq<string>, contents: string, consumed: nat): (r: Parsed<string>)
    ensures consumed <= r.consumed <= consumed + |lines|
    decreases |lines|
  {
    if lines != [] && StartsWith(lines[0], "+") then
      ScanAdded(lines[1..], contents + lines[0][1..] + "\n", consumed + 1)
    else Parsed(contents, consumed)
  }

  function MoveOf(lines: seq<string>): Option<string> {
    if lines != [] && StartsWith(Trim(JavaScript, lines[0]), MOVE_TO_MARKER)
    then Some(Trim(JavaScript, lines[0])[|MOVE_TO_MARKER|..]) else None
  }

  function ParseHunk(lines: seq<string>, lineNumber: nat): (r: Result<Parsed<Hunk>, ParseError>)
    ensures r.Success? ==> 1 <= r.value.consumed <= |lines|
  {
    if lines == [] then Failure(EmptyHunk(lineNumber))
    else
      var firstLine := Trim(JavaScript, lines[0]);
      if StartsWith(firstLine, ADD_FILE_MARKER) then
        var added := ScanAdded(lines[1..], "", 1);
        Success(Parsed(AddFile(firstLine[|ADD_FILE_MARKER|..], added.item), added.consumed))
      else if StartsWith(firstLine, DELETE_FILE_MARKER) then
        Success(Parsed(DeleteFile(firstLine[|DELETE_FILE_MARKER|..]), 1))
      else if StartsWith(firstLine, UPDATE_FILE_MARKER) then
        var path := firstLine[|UPDATE_FILE_MARKER|..];
        var movePath := MoveOf(lines[1..]);
        var start := if movePath.Some? then 2 else 1;
        var chunks :- ScanChunks(lines[start..], lineNumber, start, []);
        if chunks.item == [] then Failure(EmptyUpdate(lineNumber, path))
        else Success(Parsed(UpdateFile(path, movePath, chunks.item), chunks.consumed))
      else Failure(BadHeader(lineNumber, lines[0]))
  }

  function ParseHunks(remaining: seq<string>, lineNumber: nat): Result<seq<Hunk>, ParseError>
    decreases |remaining|
  {
    if remaining == [] then Success([])
    else
      var first :- ParseHunk(remaining, lineNumber);
      var rest :- ParseHunks(remaining[first.consumed..], lineNumber + first.consumed);
      Success([first.item] + rest)
  }

  /** The lines between the markers; never out of range, whatever `validated` holds. */
  function PatchBody(validated: seq<string>): seq<string> {
    if |validated| >= 2 then validated[1..|validated| - 1] else []
  }

  function ParsePatch(input: string): Result<seq<Hunk>, ParseError> {
    var trimmed := Trim(JavaScript, input);
    if trimmed == "" then Failure(EmptyInput)
    else
      var validated :- CheckLenient(SplitLines(trimmed));
      ParseHunks(PatchBody(validated), 2)
  }

  // The parser ---------------------------------------------------------------

  lemma ScanBodyAt(lines: seq<string>, i: nat, lineNumber: nat, chunk: Chunk, parsed: nat)
    requires i < |lines|
    ensures var line := lines[i];
            ScanBody(lines[i..], lineNumber, chunk, parsed)
            == if line == EOF_MARKER then
                 if parsed == 0 then Failure(NoLines(lineNumber + 1))
                 else Success(Parsed(chunk.(isEndOfFile := true), parsed + 1))
               else if line == "" || line[0] in " +-" then
                 ScanBody(lines[i + 1..], lineNumber, TakeLine(chunk, line), parsed + 1)
               else if parsed == 0 then Failure(UnexpectedLine(lineNumber + 1, line))
               else Success(Parsed(chunk, parsed))
  {
    assert lines[i..][0] == lines[i] && lines[i..][1..] == lines[i + 1..];
  }

  lemma ScanBodyEnds(lineNumber: nat, chunk: Chunk, parsed: nat)
    ensures ScanBody([], lineNumber, chunk, parsed) == Success(Parsed(chunk, parsed))
  {
  }

  lemma ContextFacts(line: string)
    ensures ContextOf(line)
            == if line == EMPTY_CHANGE_CONTEXT_MARKER || !StartsWith(line, CHANGE_CONTEXT_MARKER) then None
               else Some(line[|CHANGE_CONTEXT_MARKER|..])
  {
  }

  lemma ChunkIsBody(lines: seq<string>, lineNumber: nat, allowMissingContext: bool, start: nat)
    requires lines != [] && start == (if IsContextMarker(lines[0]) then 1 else 0)
    requires IsContextMarker(lines[0]) || allowMissingContext
    ensures ParseChunk(lines, lineNumber, allowMissingContext)
            == if start >= |lines| then Failure(NoLines(lineNumber + 1))
               else Behind(start, ScanBody(lines[start..], lineNumber, Chunk(ContextOf(lines[0]), [], [], false), 0))
  {
    hide ScanBody, IsContextMarker, ContextOf;
  }

  method ParseUpdateFileChunk(lines: seq<string>, lineNumber: nat, allowMissingContext: bool)
    returns (r: Result<Parsed<Chunk>, ParseError>)
    ensures r == ParseChunk(lines, lineNumber, allowMissingContext)
  {
    hide ScanBody, ContextOf;
    if |lines| == 0 {
      return Failure(NoLines(lineNumber));
    }
    var changeContext := None;
    var startIndex := 0;
    if lines[0] == EMPTY_CHANGE_CONTEXT_MARKER {
      startIndex := 1;
    } else if StartsWith(lines[0], CHANGE_CONTEXT_MARKER) {
      changeContext := Some(lines[0][|CHANGE_CONTEXT_MARKER|..]);
      startIndex := 1;
    } else if !allowMissingContext {
      return Failure(MissingContext(lineNumber, lines[0]));
    }
    ContextFacts(lines[0]);
    ChunkIsBody(lines, lineNumber, allowMissingContext, startIndex);
    if startIndex >= |lines| {
      return Failure(NoLines(lineNumber + 1));
    }

    var chunk := Chunk(changeContext, [], [], false);
    var parsedLines := 0;
    var i := startIndex;
    ghost var all := ScanBody(lines[startIndex..], lineNumber, chunk, 0);
    while i < |lines|
      invariant startIndex <= i <= |lines| && parsedLines == i - startIndex
      invariant ScanBody(lines[i..], lineNumber, chunk, parsedLines) == all
    {
      var line := lines[i];
      ScanBodyAt(lines, i, lineNumber, chunk, parsedLines);
      if line == EOF_MARKER {
        if parsedLines == 0 {
          return Failure(NoLines(lineNumber + 1));
        }
        chunk := chunk.(isEndOfFile := true);
        parsedLines := parsedLines + 1;
        return Success(Parsed(chunk, parsedLines + startIndex));
      }
      if line == "" {
        chunk := chunk.(oldLines := chunk.oldLines + [""], newLines := chunk.newLines + [""]);
      } else if line[0] == ' ' {
        var content := line[1..];
        chunk := chunk.(oldLines := chunk.oldLines + [content], newLines := chunk.newLines + [content]);
      } else if line[0] == '+' {
        chunk := chunk.(newLines := chunk.newLines + [line[1..]]);
      } else if line[0] == '-' {
        chunk := chunk.(oldLines := chunk.oldLines + [line[1..]]);
      } else if parsedLines == 0 {
        return Failure(UnexpectedLine(lineNumber + 1, line));
      } else {
        return Success(Parsed(chunk, parsedLines + startIndex));
      }
      parsedLines := parsedLines + 1;
      i := i + 1;
    }
    ScanBodyEnds(lineNumber, chunk, parsedLines);
    assert lines[i..] == [];
    return Success(Parsed(chunk, parsedLines + startIndex));
  }

  method ParseAddedLines(lines: seq<string>) returns (contents: string, consumed: nat)
    requires lines != []
    ensures Parsed(contents, consumed) == ScanAdded(lines[1..], "", 1)
  {
    contents, consumed := "", 1;
    while consumed < |lines|
      invariant 1 <= consumed <= |lines|
      invariant ScanAdded(lines[consumed..], contents, consumed) == ScanAdded(lines[1..], "", 1)
    {
      var addLine := lines[consumed];
      assert lines[consumed..][0] == addLine && lines[consumed..][1..] == lines[consumed + 1..];
      if !StartsWith(addLine, "+") {
        break;
      }
      contents := contents + addLine[1..] + "\n";
      consumed := consumed + 1;
    }
  }

  method ParseOneHunk(lines: seq<string>, lineNumber: nat) returns (r: Result<Parsed<Hunk>, ParseError>)
    ensures r == ParseHunk(lines, lineNumber)
  {
    hide ScanAdded, ParseChunk, Trim;
    if |lines| == 0 {
      return Failure(EmptyHunk(lineNumber));
    }
    var firstLine := Trim(JavaScript, lines[0]);
    if StartsWith(firstLine, ADD_FILE_MARKER) {
      var targetPath := firstLine[|ADD_FILE_MARKER|..];
      var contents, consumed := ParseAddedLines(lines);
      return Success(Parsed(AddFile(targetPath, contents), consumed));
    }
    if StartsWith(firstLine, DELETE_FILE_MARKER) {
      return Success(Parsed(DeleteFile(firstLine[|DELETE_FILE_MARKER|..]), 1));
    }
    if StartsWith(firstLine, UPDATE_FILE_MARKER) {
      var targetPath := firstLine[|UPDATE_FILE_MARKER|..];
      var remaining := lines[1..];
      var consumed: nat := 1;
      var movePath := None;
      if |remaining| > 0 && StartsWith(Trim(JavaScript, remaining[0]), MOVE_TO_MARKER) {
        movePath := Some(Trim(JavaScript, remaining[0])[|MOVE_TO_MARKER|..]);
        remaining := remaining[1..];
        consumed := 2;
      }
      assert remaining == lines[consumed..];
      var chunks: seq<Chunk> := [];
      ghost var all := ScanChunks(remaining, lineNumber, consumed, []);
      while |remaining| > 0
        invariant ScanChunks(remaining, lineNumber, consumed, chunks) == all
        decreases |remaining|
      {
        if Trim(JavaScript, remaining[0]) == "" {
          remaining := remaining[1..];
          consumed := consumed + 1;
          continue;
        }
        if StartsWith(remaining[0], "***") {
          break;
        }
        var next := ParseUpdateFileChunk(remaining, lineNumber + consumed, |chunks| == 0);
        if next.Failure? {
          return Failure(next.error);
        }
        chunks := chunks + [next.value.item];
        remaining := remaining[next.value.consumed..];
        consumed := consumed + next.value.consumed;
      }
      if |chunks| == 0 {
        return Failure(EmptyUpdate(lineNumber, targetPath));
      }
      return Success(Parsed(UpdateFile(targetPath, movePath, chunks), consumed));
    }
    return Failure(BadHeader(lineNumber, lines[0]));
  }

  method CheckPatchBoundariesLenient(lines: seq<string>) returns (r: Result<seq<string>, ParseError>)
    ensures r == CheckLenient(lines)
  {
    hide CheckStrict, EndsWith;
    var strictError := CheckStrict(lines);
    if strictError.None? {
      return Success(lines);
    }
    if |lines| < 4 {
      return Failure(strictError.value);
    }
    var first, last := lines[0], lines[|lines| - 1];
    if (first == "<<EOF" || first == "<<'EOF'" || first == "<<\"EOF\"") && EndsWith(last, "EOF") {
      var inner := lines[1..|lines| - 1];
      var innerError := CheckStrict(inner);
      if innerError.None? {
        return Success(inner);
      }
      return Failure(innerError.value);
    }
    return Failure(strictError.value);
  }

  lemma ParseHunksStep(done: seq<Hunk>, remaining: seq<string>, lineNumber: nat)
    requires remaining != []
    ensures var first := ParseHunk(remaining, lineNumber);
            PrependItems(done, ParseHunks(remaining, lineNumber))
            == if first.Failure? then Failure(first.error)
               else PrependItems(done + [first.value.item],
                                 ParseHunks(remaining[first.value.consumed..], lineNumber + first.value.consumed))
  {
    hide ParseHunk;
    var first := ParseHunk(remaining, lineNumber);
    if first.Success? {
      var rest := ParseHunks(remaining[first.value.consumed..], lineNumber + first.value.consumed);
      if rest.Success? {
        assert done + ([first.value.item] + rest.value) == done + [first.value.item] + rest.value;
      }
    }
  }

  method ParsePatchText(input: string) returns (r: Result<seq<Hunk>, ParseError>)
    ensures r == ParsePatch(input)
  {
    hide Trim, SplitLines, CheckLenient, ParseHunk;
    var trimmed := Trim(JavaScript, input);
    if trimmed == "" {
      return Failure(EmptyInput);
    }
    var validated := CheckPatchBoundariesLenient(SplitLines(trimmed));
    if validated.Failure? {
      return Failure(validated.error);
    }
    var hunks: seq<Hunk> := [];
    var remaining := PatchBody(validated.value);
    var lineNumber: nat := 2;
    ghost var all := ParseHunks(remaining, 2);
    assert all.Success? ==> [] + all.value == all.value;
    while |remaining| > 0
      invariant PrependItems(hunks, ParseHunks(remaining, lineNumber)) == all
      decreases |remaining|
    {
      hide ParseHunks;
      ParseHunksStep(hunks, remaining, lineNumber);
      var next := ParseOneHunk(remaining, lineNumber);
      if next.Failure? {
        return Failure(next.error);
      }
      hunks := hunks + [next.value.item];
      lineNumber := lineNumber + next.value.consumed;
      remaining := remaining[next.value.consumed..];
    }
    assert hunks + [] == hunks;
    return Success(hunks);
  }

  // The markers around a patch -------------------------------------------------------------

  predicate Framed(lines: seq<string>) {
    && lines != []
    && Trim(JavaScript, lines[0]) == "*** Begin Patch" && Trim(JavaScript, lines[|lines| - 1]) == "*** End Patch"
  }

  /** A here-document whose lines are `inner`, closed by a line that ends in EOF. */
  predicate Heredoc(lines: seq<string>, inner: seq<string>) {
    && |lines| >= 4 && inner == lines[1..|lines| - 1]
    && (lines[0] == "<<EOF" || lines[0] == "<<'EOF'" || lines[0] == "<<\"EOF\"")
    && EndsWith(lines[|lines| - 1], "EOF")
  }

  /**
   Lines are accepted as a patch exactly when they are framed by the two markers, as they
   are or inside a here-document; otherwise the first missing marker is reported.
   */
  lemma AcceptedIff(lines: seq<string>, validated: seq<string>)
    ensures CheckLenient(lines) == Success(validated)
            <==> if Framed(lines) then validated == lines else Heredoc(lines, validated) && Framed(validated)
    ensures CheckLenient(lines).Failure? ==>
              var seen := if |lines| >= 4 && Heredoc(lines, lines[1..|lines| - 1]) then lines[1..|lines| - 1] else lines;
              CheckLenient(lines).error
              == if seen == [] || Trim(JavaScript, seen[0]) != "*** Begin Patch" then BadFirstLine else BadLastLine
  {
    hide Trim, EndsWith;
  }

  /** A patch is refused as empty exactly when it is blank. */
  lemma EmptyIff(input: string)
    ensures ParsePatch(input) == Failure(EmptyInput) <==> Trim(JavaScript, input) == ""
  {
    hide Trim, SplitLines;
    NeverEmptyInput(PatchBody(SplitLines(Trim(JavaScript, input))), 2);
    var lines := SplitLines(Trim(JavaScript, input));
    if CheckLenient(lines).Success? {
      NeverEmptyInput(PatchBody(CheckLenient(lines).value), 2);
    }
    hide CheckStrict, IsHeredocStart, EndsWith, ParseHunks;
  }

  lemma {:induction false} NeverEmptyInput(lines: seq<string>, lineNumber: nat)
    ensures ParseHunks(lines, lineNumber) != Failure(EmptyInput)
    decreases |lines|
  {
    hide ParseHunk;
    if lines == [] {
    } else {
      HunkErrors(lines, lineNumber);
      var first := ParseHunk(lines, lineNumber);
      if first.Success? {
        NeverEmptyInput(lines[first.value.consumed..], lineNumber + first.value.consumed);
      }
    }
  }

  lemma HunkErrors(lines: seq<string>, lineNumber: nat)
    ensures ParseHunk(lines, lineNumber) != Failure(EmptyInput)
  {
    hide Trim, StartsWith, ScanAdded, ScanChunks;
    if lines != [] {
      var start := if MoveOf(lines[1..]).Some? then 2 else 1;
      ChunksErrors(lines[start..], lineNumber, start, []);
    }
  }

  lemma {:induction false} ChunksErrors(remaining: seq<string>, lineNumber: nat, consumed: nat, chunks: seq<Chunk>)
    ensures ScanChunks(remaining, lineNumber, consumed, chunks) != Failure(EmptyInput)
    decreases |remaining|
  {
    hide ParseChunk, IsBlank, StartsWith;
    if remaining == [] {
    } else if IsBlank(remaining[0]) {
      ChunksErrors(remaining[1..], lineNumber, consumed + 1, chunks);
    } else if !StartsWith(remaining[0], "***") {
      ChunkErrors(remaining, lineNumber + consumed, chunks == []);
      var next := ParseChunk(remaining, lineNumber + consumed, chunks == []);
      if next.Success? {
        ChunksErrors(remaining[next.value.consumed..], lineNumber, consumed + next.value.consumed, chunks + [next.value.item]);
      }
    }
  }

  lemma ChunkErrors(lines: seq<string>, lineNumber: nat, allowMissingContext: bool)
    ensures ParseChunk(lines, lineNumber, allowMissingContext) != Failure(EmptyInput)
  {
    if lines != [] {
      var start := if IsContextMarker(lines[0]) then 1 else 0;
      BodyErrors(lines[start..], lineNumber, Chunk(ContextOf(lines[0]), [], [], false), 0);
    }
    hide ScanBody, IsContextMarker, ContextOf;
  }

  lemma {:induction false} BodyErrors(lines: seq<string>, lineNumber: nat, chunk: Chunk, parsed: nat)
    ensures ScanBody(lines, lineNumber, chunk, parsed) != Failure(EmptyInput)
    decreases |lines|
  {
    hide TakeLine;
    if lines == [] {
    } else {
      BodyErrors(lines[1..], lineNumber, TakeLine(chunk, lines[0]), parsed + 1);
    }
  }
}
