/** Where the parser stops: hunks tile the patch body, and errors name their line. */
module PatchTiling {
  import opened Wrappers
  import opened Text
  import opened PatchUpdate
  import opened PatchFormat

  // What follows an item does not change how it is read ------------------------

  lemma {:induction false} ScanBodyLocal(lines: seq<string>, lineNumber: nat, chunk: Chunk, parsed: nat, m: nat)
    requires var r := ScanBody(lines, lineNumber, chunk, parsed);
             r.Success? && r.value.consumed - parsed <= m <= |lines|
    ensures ScanBody(lines[..m], lineNumber, chunk, parsed) == ScanBody(lines, lineNumber, chunk, parsed)
  {
    if m == 0 {
    } else {
      var own := lines[..m];
      var line, rest := lines[0], lines[1..];
      assert own[0] == line && own[1..] == rest[..m - 1];
      hide TakeLine;
      if line != EOF_MARKER && (line == "" || line[0] in " +-") {
        ScanBodyLocal(rest, lineNumber, TakeLine(chunk, line), parsed + 1, m - 1);
      }
    }
  }

  lemma ParseChunkLocal(lines: seq<string>, lineNumber: nat, allowMissingContext: bool, m: nat)
    requires var r := ParseChunk(lines, lineNumber, allowMissingContext);
             r.Success? && r.value.consumed <= m <= |lines|
    ensures ParseChunk(lines[..m], lineNumber, allowMissingContext)
            == ParseChunk(lines, lineNumber, allowMissingContext)
  {
    var start := if IsContextMarker(lines[0]) then 1 else 0;
    assert lines[..m][0] == lines[0];
    assert lines[..m][start..] == lines[start..][..m - start];
    hide ScanBody, IsContextMarker, ContextOf;
    ScanBodyLocal(lines[start..], lineNumber, Chunk(ContextOf(lines[0]), [], [], false), 0, m - start);
  }

  lemma {:induction false} ScanChunksLocal(
    remaining: seq<string>, lineNumber: nat, consumed: nat, chunks: seq<Chunk>, m: nat)
    requires var r := ScanChunks(remaining, lineNumber, consumed, chunks);
             r.Success? && r.value.consumed - consumed <= m <= |remaining|
    ensures ScanChunks(remaining[..m], lineNumber, consumed, chunks)
            == ScanChunks(remaining, lineNumber, consumed, chunks)
    decreases |remaining|
  {
    hide ParseChunk, IsBlank, StartsWith;
    if m == 0 {
    } else {
      assert remaining[..m][0] == remaining[0];
      if IsBlank(remaining[0]) {
        assert remaining[..m][1..] == remaining[1..][..m - 1];
        ScanChunksLocal(remaining[1..], lineNumber, consumed + 1, chunks, m - 1);
      } else if !StartsWith(remaining[0], "***") {
        var next := ParseChunk(remaining, lineNumber + consumed, chunks == []);
        var c := next.value.consumed;
        ScanChunksLocal(remaining[c..], lineNumber, consumed + c, chunks + [next.value.item], m - c);
        assert remaining[..m][c..] == remaining[c..][..m - c];
        ParseChunkLocal(remaining, lineNumber + consumed, chunks == [], m);
      }
    }
  }

  lemma {:induction false} ScanAddedLocal(lines: seq<string>, contents: string, consumed: nat, m: nat)
    requires ScanAdded(lines, contents, consumed).consumed - consumed <= m <= |lines|
    ensures ScanAdded(lines[..m], contents, consumed) == ScanAdded(lines, contents, consumed)
    decreases |lines|
  {
    if m == 0 {
    } else {
      assert lines[..m][0] == lines[0];
      if StartsWith(lines[0], "+") {
        assert lines[..m][1..] == lines[1..][..m - 1];
        ScanAddedLocal(lines[1..], contents + lines[0][1..] + "\n", consumed + 1, m - 1);
      }
    }
  }

  lemma ParseHunkLocal(lines: seq<string>, lineNumber: nat, m: nat)
    requires var r := ParseHunk(lines, lineNumber); r.Success? && r.value.consumed <= m <= |lines|
    ensures ParseHunk(lines[..m], lineNumber) == ParseHunk(lines, lineNumber)
  {
    hide ScanAdded, ScanChunks, Trim, StartsWith;
    var own := lines[..m];
    assert own[0] == lines[0];
    var firstLine := Trim(JavaScript, lines[0]);
    if StartsWith(firstLine, ADD_FILE_MARKER) {
      assert own[1..] == lines[1..][..m - 1];
      ScanAddedLocal(lines[1..], "", 1, m - 1);
    } else if StartsWith(firstLine, DELETE_FILE_MARKER) {
    } else if StartsWith(firstLine, UPDATE_FILE_MARKER) {
      var movePath := MoveOf(lines[1..]);
      assert MoveOf(own[1..]) == movePath by {
        UpdateTakesTwoLines(lines, lineNumber);
        assert own[1..][0] == lines[1..][0];
      }
      var start := if movePath.Some? then 2 else 1;
      assert own[start..] == lines[start..][..m - start];
      ScanChunksLocal(lines[start..], lineNumber, start, [], m - start);
    }
  }

  lemma UpdateTakesTwoLines(lines: seq<string>, lineNumber: nat)
    requires ParseHunk(lines, lineNumber).Success? && ParseHunk(lines, lineNumber).value.item.UpdateFile?
    ensures ParseHunk(lines, lineNumber).value.consumed >= 2
  {
    hide ScanAdded, ScanChunks, Trim, StartsWith;
    var movePath := MoveOf(lines[1..]);
    var start := if movePath.Some? then 2 else 1;
    var chunks := ScanChunks(lines[start..], lineNumber, start, []);
    ScanChunksKeepsChunks(lines[start..], lineNumber, start, []);
  }

  lemma {:induction false} ScanChunksKeepsChunks(
    remaining: seq<string>, lineNumber: nat, consumed: nat, chunks: seq<Chunk>)
    ensures var r := ScanChunks(remaining, lineNumber, consumed, chunks);
            r.Success? && r.value.consumed == consumed ==> r.value.item == chunks
    decreases |remaining|
  {
    hide ParseChunk, IsBlank, StartsWith;
  }

  // Hunks tile the patch body -------------------------------------------------

  /**
   The lines are the lines of the hunks, `sizes[i]` lines for hunk `i`, and each
   hunk read alone, from the number its first line has, gives that hunk.
   */
  ghost predicate Tiled(lines: seq<string>, from: nat, sizes: seq<nat>, hunks: seq<Hunk>) {
    && |sizes| == |hunks|
    && if hunks == [] then lines == []
       else
         && 0 < sizes[0] <= |lines|
         && ParseHunk(lines[..sizes[0]], from) == Success(Parsed(hunks[0], sizes[0]))
         && Tiled(lines[sizes[0]..], from + sizes[0], sizes[1..], hunks[1..])
  }

  lemma {:induction false} HunksTileFrom(lines: seq<string>, from: nat) returns (sizes: seq<nat>)
    requires ParseHunks(lines, from).Success?
    ensures Tiled(lines, from, sizes, ParseHunks(lines, from).value)
    decreases |lines|
  {
    hide ParseHunk;
    if lines == [] {
      return [];
    }
    var first := ParseHunk(lines, from);
    var c := first.value.consumed;
    ParseHunkLocal(lines, from, c);
    var rest := HunksTileFrom(lines[c..], from + c);
    sizes := [c] + rest;
  }

  /** The hunks of a patch are read from consecutive runs of lines that cover the patch body. */
  lemma HunksTile(body: seq<string>, hunks: seq<Hunk>)
    requires ParseHunks(body, 2) == Success(hunks)
    ensures exists sizes :: Tiled(body, 2, sizes, hunks)
  {
    var sizes := HunksTileFrom(body, 2);
  }

  /** When parsing fails, the lines before the hunk at fault still tile. */
  lemma {:induction false} FailureTiles(lines: seq<string>, from: nat)
    returns (p: nat, sizes: seq<nat>, hunks: seq<Hunk>)
    requires ParseHunks(lines, from).Failure?
    ensures p < |lines| && Tiled(lines[..p], from, sizes, hunks)
    ensures ParseHunk(lines[p..], from + p) == Failure(ParseHunks(lines, from).error)
    decreases |lines|
  {
    hide ParseHunk;
    var first := ParseHunk(lines, from);
    if first.Failure? {
      assert lines[0..] == lines;
      return 0, [], [];
    }
    var c := first.value.consumed;
    var q, restSizes, rest := FailureTiles(lines[c..], from + c);
    p, sizes, hunks := q + c, [c] + restSizes, [first.value.item] + rest;
    ParseHunkLocal(lines, from, c);
    assert lines[..p][..c] == lines[..c];
    assert lines[..p][c..] == lines[c..][..q];
    assert lines[c..][q..] == lines[p..];
  }

  // Errors name their line ---------------------------------------------------

  /** Line number `n` of a patch whose lines from number `from` on are `lines` is `text`. */
  predicate LineIs(lines: seq<string>, from: nat, n: nat, text: string) {
    from <= n < from + |lines| && lines[n - from] == text
  }

  predicate MarkerAt(lines: seq<string>, from: nat, n: nat) {
    from <= n < from + |lines| && IsContextMarker(lines[n - from])
  }

  /** What the line number of an error says about the patch. */
  predicate PointsAt(lines: seq<string>, from: nat, e: ParseError) {
    match e
    case BadHeader(n, text) => LineIs(lines, from, n, text)
    case EmptyUpdate(n, path) =>
      from <= n < from + |lines| && Trim(JavaScript, lines[n - from]) == UPDATE_FILE_MARKER + path
    case MissingContext(n, text) => LineIs(lines, from, n, text) && !IsContextMarker(text)
    case NoLines(n) =>
      n > 0 && MarkerAt(lines, from, n - 1) && (n == from + |lines| || LineIs(lines, from, n, EOF_MARKER))
    case UnexpectedLine(n, text) =>
      // After a marker line the number is right; a chunk without one is reported one line late.
      n > 0 && if MarkerAt(lines, from, n - 1) then LineIs(lines, from, n, text) else LineIs(lines, from, n - 1, text)
    case _ => false
  }

  lemma PointsAtShift(lines: seq<string>, from: nat, c: nat, e: ParseError)
    requires c <= |lines| && PointsAt(lines[c..], from + c, e)
    ensures PointsAt(lines, from, e)
  {
  }

  lemma ChunkErrorPoints(lines: seq<string>, lineNumber: nat, allowMissingContext: bool)
    requires lines != [] && !StartsWith(lines[0], "***")
    requires ParseChunk(lines, lineNumber, allowMissingContext).Failure?
    ensures PointsAt(lines, lineNumber, ParseChunk(lines, lineNumber, allowMissingContext).error)
  {
    if IsContextMarker(lines[0]) && |lines| > 1 {
      assert lines[1..][0] == lines[1];
      ScanBodyError(lines[1..], lineNumber, Chunk(ContextOf(lines[0]), [], [], false), 0);
    } else if !IsContextMarker(lines[0]) && allowMissingContext {
      assert lines[0..] == lines;
      ScanBodyError(lines, lineNumber, Chunk(ContextOf(lines[0]), [], [], false), 0);
    }
  }

  lemma {:induction false} ScanBodyError(lines: seq<string>, lineNumber: nat, chunk: Chunk, parsed: nat)
    ensures var r := ScanBody(lines, lineNumber, chunk, parsed);
            r.Failure? ==>
              && parsed == 0 && lines != []
              && r.error == (if lines[0] == EOF_MARKER then NoLines(lineNumber + 1)
                             else UnexpectedLine(lineNumber + 1, lines[0]))
              && (lines[0] == EOF_MARKER || Unexpected(lines[0]))
  {
    if parsed > 0 {
      ScanBodyNeverFailsLater(lines, lineNumber, chunk, parsed);
    } else if lines != [] {
      forall next: Chunk
        ensures ScanBody(lines[1..], lineNumber, next, 1).Success?
      {
        ScanBodyNeverFailsLater(lines[1..], lineNumber, next, 1);
      }
    }
  }

  lemma ScanBodyNeverFailsLater(lines: seq<string>, lineNumber: nat, chunk: Chunk, parsed: nat)
    requires parsed > 0
    ensures ScanBody(lines, lineNumber, chunk, parsed).Success?
  {
  }

  lemma {:induction false} ScanChunksErrorPoints(
    remaining: seq<string>, lineNumber: nat, consumed: nat, chunks: seq<Chunk>)
    requires ScanChunks(remaining, lineNumber, consumed, chunks).Failure?
    ensures PointsAt(remaining, lineNumber + consumed, ScanChunks(remaining, lineNumber, consumed, chunks).error)
    decreases |remaining|
  {
    hide ParseChunk, IsBlank, StartsWith, PointsAt;
    if IsBlank(remaining[0]) {
      ScanChunksErrorPoints(remaining[1..], lineNumber, consumed + 1, chunks);
      PointsAtShift(remaining, lineNumber + consumed, 1, ScanChunks(remaining, lineNumber, consumed, chunks).error);
    } else {
      var next := ParseChunk(remaining, lineNumber + consumed, chunks == []);
      if next.Failure? {
        ChunkErrorPoints(remaining, lineNumber + consumed, chunks == []);
      } else {
        var c := next.value.consumed;
        ScanChunksErrorPoints(remaining[c..], lineNumber, consumed + c, chunks + [next.value.item]);
        PointsAtShift(remaining, lineNumber + consumed, c, ScanChunks(remaining, lineNumber, consumed, chunks).error);
      }
    }
  }

  lemma HunkErrorPoints(lines: seq<string>, lineNumber: nat)
    requires lines != [] && ParseHunk(lines, lineNumber).Failure?
    ensures PointsAt(lines, lineNumber, ParseHunk(lines, lineNumber).error)
  {
    hide ScanAdded, ScanChunks, Trim;
    var firstLine := Trim(JavaScript, lines[0]);
    if StartsWith(firstLine, UPDATE_FILE_MARKER) {
      var start := if MoveOf(lines[1..]).Some? then 2 else 1;
      var chunks := ScanChunks(lines[start..], lineNumber, start, []);
      if chunks.Failure? {
        ScanChunksErrorPoints(lines[start..], lineNumber, start, []);
        PointsAtShift(lines, lineNumber, start, chunks.error);
      } else {
        assert firstLine == UPDATE_FILE_MARKER + firstLine[|UPDATE_FILE_MARKER|..];
      }
    }
  }

  /** Every error of a hunk carries the number its line has among all lines of the patch. */
  lemma ErrorsNameTheirLine(body: seq<string>)
    requires ParseHunks(body, 2).Failure?
    ensures PointsAt(body, 2, ParseHunks(body, 2).error)
  {
    hide *;
    var p, sizes, hunks := FailureTiles(body, 2);
    HunkErrorPoints(body[p..], 2 + p);
    PointsAtShift(body, 2, p, ParseHunks(body, 2).error);
  }

  // When the number is late ----------------------------------------------------

  /** The chunk that starts at line `q` of `lines`, numbered from `from` on, fails with `e`. */
  predicate ChunkFailsAt(lines: seq<string>, from: nat, q: nat, e: ParseError) {
    q < |lines|
    && (ParseChunk(lines[q..], from + q, true) == Failure(e) || ParseChunk(lines[q..], from + q, false) == Failure(e))
  }

  lemma ChunkFailsLater(lines: seq<string>, from: nat, c: nat, q: nat, e: ParseError)
    requires c <= |lines| && ChunkFailsAt(lines[c..], from + c, q, e)
    ensures ChunkFailsAt(lines, from, c + q, e)
  {
    hide ParseChunk;
    assert lines[c..][q..] == lines[c + q..];
  }

  lemma {:induction false} FailingChunk(remaining: seq<string>, lineNumber: nat, consumed: nat, chunks: seq<Chunk>)
    returns (q: nat)
    requires ScanChunks(remaining, lineNumber, consumed, chunks).Failure?
    ensures ChunkFailsAt(remaining, lineNumber + consumed, q, ScanChunks(remaining, lineNumber, consumed, chunks).error)
    decreases |remaining|
  {
    hide ParseChunk, IsBlank, StartsWith, ChunkFailsAt;
    var e := ScanChunks(remaining, lineNumber, consumed, chunks).error;
    if IsBlank(remaining[0]) {
      q := FailingChunk(remaining[1..], lineNumber, consumed + 1, chunks);
      ChunkFailsLater(remaining, lineNumber + consumed, 1, q, e);
      q := 1 + q;
    } else {
      var next := ParseChunk(remaining, lineNumber + consumed, chunks == []);
      if next.Failure? {
        FailsAtOnce(remaining, lineNumber + consumed, chunks == []);
        q := 0;
      } else {
        var c := next.value.consumed;
        q := FailingChunk(remaining[c..], lineNumber, consumed + c, chunks + [next.value.item]);
        ChunkFailsLater(remaining, lineNumber + consumed, c, q, e);
        q := c + q;
      }
    }
  }

  lemma FailsAtOnce(lines: seq<string>, lineNumber: nat, allow: bool)
    requires lines != [] && ParseChunk(lines, lineNumber, allow).Failure?
    ensures ChunkFailsAt(lines, lineNumber, 0, ParseChunk(lines, lineNumber, allow).error)
  {
    hide ParseChunk;
    assert lines[0..] == lines;
  }

  lemma FailingChunkOfHunk(lines: seq<string>, lineNumber: nat) returns (q: nat)
    requires ParseHunk(lines, lineNumber).Failure? && ParseHunk(lines, lineNumber).error.UnexpectedLine?
    ensures ChunkFailsAt(lines, lineNumber, q, ParseHunk(lines, lineNumber).error)
  {
    hide ScanAdded, ScanChunks, Trim, ChunkFailsAt, StartsWith;
    var start := if MoveOf(lines[1..]).Some? then 2 else 1;
    q := FailingChunk(lines[start..], lineNumber, start, []);
    ChunkFailsLater(lines, lineNumber, start, q, ParseHunk(lines, lineNumber).error);
    q := start + q;
  }

  /** A line that no chunk can contain. */
  predicate Unexpected(line: string) {
    line != EOF_MARKER && line != "" && line[0] !in " +-"
  }

  lemma UnexpectedInChunk(lines: seq<string>, lineNumber: nat, allow: bool)
    requires ParseChunk(lines, lineNumber, allow).Failure? && ParseChunk(lines, lineNumber, allow).error.UnexpectedLine?
    ensures var UnexpectedLine(n, text) := ParseChunk(lines, lineNumber, allow).error;
            var start := if IsContextMarker(lines[0]) then 1 else 0;
            start < |lines| && lines[start] == text && Unexpected(text) && n == lineNumber + 1
  {
    var start := if IsContextMarker(lines[0]) then 1 else 0;
    assert lines[start..][0] == lines[start];
    hide IsContextMarker, ContextOf;
    ScanBodyError(lines[start..], lineNumber, Chunk(ContextOf(lines[0]), [], [], false), 0);
  }

  /**
   An unexpected line is reported under its own number exactly when the chunk it is in, at
   line `q` of the body, starts with a marker, and under the next number exactly when it
   does not.
   */
  lemma LateIffNoMarker(body: seq<string>) returns (q: nat)
    requires ParseHunks(body, 2).Failure? && ParseHunks(body, 2).error.UnexpectedLine?
    ensures ChunkFailsAt(body, 2, q, ParseHunks(body, 2).error)
    ensures var UnexpectedLine(n, text) := ParseHunks(body, 2).error;
            var own := 2 + q + (if IsContextMarker(body[q]) then 1 else 0);
            && LineIs(body, 2, own, text) && Unexpected(text)
            && (n == own <==> IsContextMarker(body[q]))
            && (n == own + 1 <==> !IsContextMarker(body[q]))
  {
    hide ParseHunk, ParseHunks, ParseChunk, IsContextMarker, Tiled, Unexpected;
    var e := ParseHunks(body, 2).error;
    var p, sizes, hunks := FailureTiles(body, 2);
    var k := FailingChunkOfHunk(body[p..], 2 + p);
    ChunkFailsLater(body, 2, p, k, e);
    q := p + k;
    var allow := ParseChunk(body[q..], 2 + q, true) == Failure(e);
    UnexpectedInChunk(body[q..], 2 + q, allow);
    assert body[q..][0] == body[q];
  }

  // The line is number 3 of the patch, which starts with its own marker line.
  lemma LateLineNumber()
    ensures ParseHunks(["*** Update File: a", "oops"], 2) == Failure(UnexpectedLine(4, "oops"))
  {
    var header, body := "*** Update File: a", ["oops"];
    assert header[|header| - 1] == 'a' && header[0] == '*';
    TrimOfTight(JavaScript, header);
    assert header == UPDATE_FILE_MARKER + "a";
    HeaderKinds(header);
    NotBlankNotMarker();
    assert [header, "oops"][1..] == body;
    hide Trim, StartsWith;
    assert ScanChunks(body, 2, 1, []) == Failure(UnexpectedLine(4, "oops")) by {
      assert body[0..] == body && body[0] == "oops";
      assert "oops"[0] == 'o';
    }
    assert MoveOf(body) == None;
    assert ParseHunk([header, "oops"], 2) == Failure(UnexpectedLine(4, "oops"));
    hide ParseHunk;
  }

  lemma HeaderKinds(header: string)
    requires header == "*** Update File: a"
    ensures !StartsWith(header, ADD_FILE_MARKER) && !StartsWith(header, DELETE_FILE_MARKER)
    ensures StartsWith(header, UPDATE_FILE_MARKER)
  {
    assert header[4] == 'U';
    assert ADD_FILE_MARKER[4] == 'A' && DELETE_FILE_MARKER[4] == 'D';
    CharOfPrefix(header, ADD_FILE_MARKER, 4);
    CharOfPrefix(header, DELETE_FILE_MARKER, 4);
    assert header[..|UPDATE_FILE_MARKER|] == UPDATE_FILE_MARKER;
  }

  lemma NotBlankNotMarker()
    ensures Trim(JavaScript, "oops") == "oops" && !IsBlank("oops") && !StartsWith("oops", "***")
    ensures !IsContextMarker("oops") && !StartsWith("oops", MOVE_TO_MARKER)
  {
    TrimOfTight(JavaScript, "oops");
    hide Trim;
    assert "oops"[0] == 'o';
    CharOfPrefix("oops", "***", 0);
    CharOfPrefix("oops", CHANGE_CONTEXT_MARKER, 0);
    CharOfPrefix("oops", MOVE_TO_MARKER, 0);
  }
}
