/** Every parsed patch can be printed again: what the parser returns, and what printing it and parsing that gives. */
module PatchReprinting {
  import opened Wrappers
  import opened Text
  import opened PatchUpdate
  import opened PatchFormat
  import opened PatchPrinting

  // What a parser of lines returns ---------------------------------------------

  /** A chunk on its way: its lines are lines, and there are some once a line has been read. */
  predicate Growing(c: Chunk, parsed: nat) {
    && (c.changeContext.Some? ==> IsLine(c.changeContext.value))
    && AreLines(c.oldLines) && AreLines(c.newLines)
    && (parsed > 0 ==> c.oldLines != [] || c.newLines != [])
  }

  lemma TakeLineGrows(c: Chunk, line: string, parsed: nat)
    requires Growing(c, parsed) && IsLine(line) && (line == "" || line[0] in " +-")
    ensures Growing(TakeLine(c, line), parsed + 1)
  {
    var taken := TakeLine(c, line);
    if line != "" {
      TailIsLine(line);
    }
    hide TakeLine;
    assert taken == TakeLine(c, line);
    TakenLines(c, line);
    hide IsLine;
  }

  lemma TailIsLine(line: string)
    requires IsLine(line) && line != ""
    ensures IsLine(line[1..])
  {
  }

  lemma TakenLines(c: Chunk, line: string)
    requires line == "" || line[0] in " +-"
    ensures var text := if line == "" then "" else line[1..];
            var taken := TakeLine(c, line);
            && taken.changeContext == c.changeContext
            && taken.oldLines in {c.oldLines, c.oldLines + [text]}
            && taken.newLines in {c.newLines, c.newLines + [text]}
            && (taken.oldLines != [] || taken.newLines != [])
  {
  }

  lemma {:induction false} ScanBodyGrows(lines: seq<string>, lineNumber: nat, c: Chunk, parsed: nat)
    requires AreLines(lines) && Growing(c, parsed)
    ensures var r := ScanBody(lines, lineNumber, c, parsed);
            r.Success? ==> Growing(r.value.item, parsed + |lines|)
  {
    hide Growing, TakeLine, IsLine;
    if lines == [] {
      assert ScanBody(lines, lineNumber, c, parsed) == Success(Parsed(c, parsed));
    } else {
      var line, rest := lines[0], lines[1..];
      assert IsLine(line) && AreLines(rest);
      if parsed > 0 {
        StillGrowing(c, parsed, parsed + |lines|);
      }
      if line != EOF_MARKER && (line == "" || line[0] in " +-") {
        TakeLineGrows(c, line, parsed);
        ScanBodyGrows(rest, lineNumber, TakeLine(c, line), parsed + 1);
      }
    }
  }

  lemma StillGrowing(c: Chunk, parsed: nat, later: nat)
    requires Growing(c, parsed) && parsed > 0
    ensures Growing(c, later) && Growing(c.(isEndOfFile := true), later)
  {
  }

  lemma GrownIsPrintable(c: Chunk, parsed: nat)
    requires Growing(c, parsed) && parsed > 0
    ensures PrintableChunk(c)
  {
  }

  lemma NewChunkGrows(line: string)
    requires IsLine(line)
    ensures Growing(Chunk(ContextOf(line), [], [], false), 0)
  {
    ContextFacts(line);
  }

  lemma ParsedChunkIsPrintable(lines: seq<string>, lineNumber: nat, allowMissingContext: bool)
    requires AreLines(lines)
    ensures var r := ParseChunk(lines, lineNumber, allowMissingContext);
            r.Success? ==> PrintableChunk(r.value.item)
  {
    if ParseChunk(lines, lineNumber, allowMissingContext).Success? {
      var start := if IsContextMarker(lines[0]) then 1 else 0;
      assert start < |lines|;
      var c := Chunk(ContextOf(lines[0]), [], [], false);
      var body := lines[start..];
      assert IsLine(lines[0]) && AreLines(body);
      NewChunkGrows(lines[0]);
      ScanBodyGrows(body, lineNumber, c, 0);
      GrownIsPrintable(ScanBody(body, lineNumber, c, 0).value.item, |body|);
    }
    hide ScanBody, Growing, IsLine, PrintableChunk;
  }

  lemma {:induction false} ParsedChunksArePrintable(
    remaining: seq<string>, lineNumber: nat, consumed: nat, chunks: seq<Chunk>)
    requires AreLines(remaining) && forall i | 0 <= i < |chunks| :: PrintableChunk(chunks[i])
    ensures var r := ScanChunks(remaining, lineNumber, consumed, chunks);
            r.Success? ==> forall i | 0 <= i < |r.value.item| :: PrintableChunk(r.value.item[i])
    decreases |remaining|
  {
    hide ParseChunk, PrintableChunk, IsLine, IsBlank, StartsWith;
    if remaining == [] {
    } else {
      if IsBlank(remaining[0]) {
        ParsedChunksArePrintable(remaining[1..], lineNumber, consumed + 1, chunks);
      } else if !StartsWith(remaining[0], "***") {
        ParsedChunkIsPrintable(remaining, lineNumber + consumed, chunks == []);
        var next := ParseChunk(remaining, lineNumber + consumed, chunks == []);
        if next.Success? {
          ParsedChunksArePrintable(
            remaining[next.value.consumed..], lineNumber, consumed + next.value.consumed, chunks + [next.value.item]);
        }
      }
    }
  }

  lemma {:induction false} AddedIsContents(lines: seq<string>, contents: string, consumed: nat)
    requires IsContents(contents)
    ensures IsContents(ScanAdded(lines, contents, consumed).item)
    decreases |lines|
  {
    if lines != [] && StartsWith(lines[0], "+") {
      AddedIsContents(lines[1..], contents + lines[0][1..] + "\n", consumed + 1);
    }
    hide StartsWith;
  }

  lemma {:induction false} TrimEndIsPrefix(s: string)
    ensures TrimEnd(JavaScript, s) <= s
  {
    if s != "" && IsSpace(JavaScript, s[|s| - 1]) {
      TrimEndIsPrefix(s[..|s| - 1]);
    }
  }

  lemma {:induction false} TrimStartIsSuffix(s: string)
    ensures forall c | c in TrimStart(JavaScript, s) :: c in s
  {
    if s != "" && IsSpace(JavaScript, s[0]) {
      TrimStartIsSuffix(s[1..]);
    }
  }

  lemma TrimIsLine(line: string)
    requires IsLine(line)
    ensures IsLine(Trim(JavaScript, line))
  {
    TrimEndIsPrefix(line);
    TrimStartIsSuffix(TrimEnd(JavaScript, line));
    hide TrimStart, TrimEnd;
  }

  /** Behind a marker that ends in a blank, a trimmed line has a path. */
  lemma BehindMarkerIsPath(line: string, marker: string)
    requires IsLine(line) && StartsWith(Trim(JavaScript, line), marker)
    requires marker != "" && IsSpace(JavaScript, marker[|marker| - 1])
    ensures |Trim(JavaScript, line)| > |marker| && IsPath(Trim(JavaScript, line)[|marker|..])
  {
    var t := Trim(JavaScript, line);
    TrimIsTight(JavaScript, line);
    TrimIsLine(line);
    assert |t| > |marker| by {
      assert t[..|marker|][|marker| - 1] == marker[|marker| - 1];
    }
    hide Trim, IsSpace;
  }

  lemma MarkersEndInBlanks()
    ensures forall marker | marker in {ADD_FILE_MARKER, DELETE_FILE_MARKER, UPDATE_FILE_MARKER, MOVE_TO_MARKER} ::
              marker != "" && IsSpace(JavaScript, marker[|marker| - 1])
  {
    assert IsSpace(JavaScript, ' ');
    assert ADD_FILE_MARKER[|ADD_FILE_MARKER| - 1] == ' ' && DELETE_FILE_MARKER[|DELETE_FILE_MARKER| - 1] == ' ';
    assert UPDATE_FILE_MARKER[|UPDATE_FILE_MARKER| - 1] == ' ' && MOVE_TO_MARKER[|MOVE_TO_MARKER| - 1] == ' ';
  }

  lemma ParsedHunkIsPrintable(lines: seq<string>, lineNumber: nat)
    requires AreLines(lines)
    ensures var r := ParseHunk(lines, lineNumber); r.Success? ==> Printable(r.value.item)
  {
    hide Trim, IsLine, IsPath, IsSpace, StartsWith, ScanAdded, ScanChunks, PrintableChunk, IsContents, MoveOf;
    if lines != [] {
      var line, first := lines[0], Trim(JavaScript, lines[0]);
      assert IsLine(line);
      MarkersEndInBlanks();
      if StartsWith(first, ADD_FILE_MARKER) {
        BehindMarkerIsPath(line, ADD_FILE_MARKER);
        NothingIsContents();
        AddedIsContents(lines[1..], "", 1);
      } else if StartsWith(first, DELETE_FILE_MARKER) {
        BehindMarkerIsPath(line, DELETE_FILE_MARKER);
      } else {
        ParsedUpdateIsPrintable(lines, lineNumber);
      }
    }
  }

  lemma ParsedUpdateIsPrintable(lines: seq<string>, lineNumber: nat)
    requires AreLines(lines) && lines != []
    requires var first := Trim(JavaScript, lines[0]);
             !StartsWith(first, ADD_FILE_MARKER) && !StartsWith(first, DELETE_FILE_MARKER)
    ensures var r := ParseHunk(lines, lineNumber); r.Success? ==> Printable(r.value.item)
  {
    hide *;
    if ParseHunk(lines, lineNumber).Success? {
      UpdateParts(lines, lineNumber);
      LinesBehind(lines, 1);
      MarkersEndInBlanks();
      BehindMarkerIsPath(lines[0], UPDATE_FILE_MARKER);
      ParsedMoveIsPath(lines[1..]);
      var start := if MoveOf(lines[1..]).Some? then 2 else 1;
      LinesBehind(lines, start);
      var chunks := ScanChunks(lines[start..], lineNumber, start, []);
      ParsedChunksArePrintable(lines[start..], lineNumber, start, []);
      var path := Trim(JavaScript, lines[0])[|UPDATE_FILE_MARKER|..];
      PrintableParts(path, MoveOf(lines[1..]), chunks.value.item);
    }
  }

  lemma LinesBehind(lines: seq<string>, from: nat)
    requires AreLines(lines) && lines != [] && from <= |lines|
    ensures IsLine(lines[0]) && AreLines(lines[from..])
  {
    hide IsLine;
  }

  lemma UpdateParts(lines: seq<string>, lineNumber: nat)
    requires lines != [] && ParseHunk(lines, lineNumber).Success?
    requires var first := Trim(JavaScript, lines[0]);
             !StartsWith(first, ADD_FILE_MARKER) && !StartsWith(first, DELETE_FILE_MARKER)
    ensures var first, movePath := Trim(JavaScript, lines[0]), MoveOf(lines[1..]);
            var start := if movePath.Some? then 2 else 1;
            && StartsWith(first, UPDATE_FILE_MARKER) && start <= |lines|
            && var chunks := ScanChunks(lines[start..], lineNumber, start, []);
               && chunks.Success? && chunks.value.item != []
               && ParseHunk(lines, lineNumber).value.item
                  == UpdateFile(first[|UPDATE_FILE_MARKER|..], movePath, chunks.value.item)
  {
    hide Trim, StartsWith, ScanChunks, ScanAdded;
    MoveNeedsLine(lines[1..]);
    hide MoveOf;
  }

  lemma MoveNeedsLine(lines: seq<string>)
    ensures MoveOf(lines).Some? ==> lines != []
  {
  }

  lemma PrintableParts(path: string, movePath: Option<string>, chunks: seq<Chunk>)
    requires IsPath(path) && (movePath.Some? ==> IsPath(movePath.value)) && chunks != []
    requires forall i | 0 <= i < |chunks| :: PrintableChunk(chunks[i])
    ensures Printable(UpdateFile(path, movePath, chunks))
  {
    hide IsPath, PrintableChunk;
  }

  lemma ParsedMoveIsPath(lines: seq<string>)
    requires AreLines(lines)
    ensures MoveOf(lines).Some? ==> lines != [] && IsPath(MoveOf(lines).value)
  {
    MarkersEndInBlanks();
    if MoveOf(lines).Some? {
      assert IsLine(lines[0]);
      BehindMarkerIsPath(lines[0], MOVE_TO_MARKER);
    }
    hide Trim, IsSpace, StartsWith, IsLine, IsPath;
  }

  lemma NothingIsContents()
    ensures IsContents("")
  {
  }

  lemma {:induction false} ParsedHunksArePrintable(lines: seq<string>, lineNumber: nat)
    requires AreLines(lines)
    ensures var r := ParseHunks(lines, lineNumber);
            r.Success? ==> forall i | 0 <= i < |r.value| :: Printable(r.value[i])
    decreases |lines|
  {
    hide ParseHunk, IsLine, Printable;
    if lines == [] {
    } else {
      ParsedHunkIsPrintable(lines, lineNumber);
      var first := ParseHunk(lines, lineNumber);
      if first.Success? {
        ParsedHunksArePrintable(lines[first.value.consumed..], lineNumber + first.value.consumed);
      }
    }
  }

  // From the text ------------------------------------------------------------------

  lemma {:induction false} DropReturnsAreLines(lines: seq<string>)
    requires AreLines(lines)
    ensures AreLines(DropReturns(lines))
  {
    if |lines| <= 1 {
    } else {
      DropReturnsAreLines(lines[1..]);
      assert IsLine(DropReturn(lines[0]));
    }
  }

  lemma SplitLinesAreLines(text: string)
    ensures AreLines(SplitLines(text))
  {
    SplitPartsLackSep(text, '\n');
    DropReturnsAreLines(Split(text, '\n'));
    hide Split, DropReturns;
  }

  lemma ValidatedAreLines(lines: seq<string>)
    requires AreLines(lines)
    ensures var r := CheckLenient(lines); r.Success? ==> AreLines(PatchBody(r.value))
  {
    hide CheckStrict, IsHeredocStart, EndsWith, AreLines;
    var r := CheckLenient(lines);
    if r.Success? {
      var inner := r.value;
      if inner != lines {
        SomeAreLines(lines, 1, |lines| - 1);
      }
      if |inner| >= 2 {
        SomeAreLines(inner, 1, |inner| - 1);
      } else {
        NoneAreLines();
      }
    }
  }

  lemma SomeAreLines(lines: seq<string>, from: nat, to: nat)
    requires AreLines(lines) && from <= to <= |lines|
    ensures AreLines(lines[from..to])
  {
    hide IsLine;
  }

  lemma NoneAreLines()
    ensures AreLines([])
  {
  }

  /** Whatever the parser accepts, its hunks can be printed. */
  lemma ParsedIsPrintable(input: string)
    requires ParsePatch(input).Success?
    ensures forall i | 0 <= i < |ParsePatch(input).value| :: Printable(ParsePatch(input).value[i])
  {
    hide Trim, SplitLines, CheckLenient, PatchBody, ParseHunks, AreLines, Printable;
    var lines := SplitLines(Trim(JavaScript, input));
    SplitLinesAreLines(Trim(JavaScript, input));
    ValidatedAreLines(lines);
    ParsedHunksArePrintable(PatchBody(CheckLenient(lines).value), 2);
  }

  /**
   Printing what any patch parsed to gives a patch that parses to the same hunks exactly
   when none of their lines ends in a carriage return; those that do lose it.
   */
  lemma ReprintingIff(input: string)
    requires ParsePatch(input).Success?
    ensures var hunks := ParsePatch(input).value;
            && ParsePatch(PrintPatch(hunks)) == Success(BareHunks(hunks))
            && (ParsePatch(PrintPatch(hunks)) == Success(hunks)
                <==> forall i | 0 <= i < |hunks| :: ReturnFree(hunks[i]))
  {
    hide *;
    ParsedIsPrintable(input);
    SomeHeredoc();
    ParsingUndoesPrinting(ParsePatch(input).value, "<<EOF");
  }

  /** Two carriage returns before a line break: one goes at each parse. */
  lemma ReturnsAreLost()
    ensures var twice := AddFile("a", "x\r\r\n");
            && ParsePatch(PrintPatch([twice])) == Success([AddFile("a", "x\r\n")])
            && ParsePatch(PrintPatch([AddFile("a", "x\r\n")])) == Success([AddFile("a", "x\n")])
  {
    hide ParsePatch, PrintPatch, BareHunk;
    var twice, once := "x\r\r", "x\r";
    assert twice[..2] == once && once[..1] == "x";
    assert twice + "\n" == "x\r\r\n" && once + "\n" == "x\r\n" && "x" + "\n" == "x\n";
    assert IsLine(twice) && IsLine(once) && EndsInReturn(twice) && EndsInReturn(once);
    OneLess(twice);
    OneLess(once);
  }

  lemma OneLess(line: string)
    requires IsLine(line) && EndsInReturn(line)
    ensures ParsePatch(PrintPatch([AddFile("a", line + "\n")]))
            == Success([AddFile("a", line[..|line| - 1] + "\n")])
  {
    hide *;
    var h := AddFile("a", line + "\n");
    SingleHunk(line);
    BareSingle(line);
    SomeHeredoc();
    ParsingUndoesPrinting([h], "<<EOF");
  }

  lemma SingleHunk(line: string)
    ensures Printable(AddFile("a", line + "\n"))
  {
    assert !IsSpace(JavaScript, 'a');
  }

  lemma UnlinesOfOne(line: string)
    ensures Unlines([line]) == line + "\n"
  {
    assert [line][1..] == [];
  }

  lemma BareSingle(line: string)
    requires IsLine(line) && EndsInReturn(line)
    ensures BareHunks([AddFile("a", line + "\n")]) == [AddFile("a", line[..|line| - 1] + "\n")]
  {
    UnlinesOfOne(line);
    ReadLinesOfUnlines([line]);
    BareOne(line);
    UnlinesOfOne(line[..|line| - 1]);
    assert [AddFile("a", line + "\n")][1..] == [];
    hide ReadLines, Unlines, BareLines;
  }

  lemma SomeHeredoc()
    ensures IsHeredocStart("<<EOF")
  {
  }
}
