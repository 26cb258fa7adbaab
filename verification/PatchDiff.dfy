/** Patches as diffs: what kept, deleted and inserted lines make of the chunks of an update hunk. */
module PatchDiff {
  import opened Wrappers
  import opened Text
  import opened PatchUpdate
  import opened PatchFormat
  import opened PatchPrinting

  // Diff lines -------------------------------------------------------------------

  /** A line of a diff; `Blank` is a kept empty line that is written without its mark. */
  datatype DiffLine = Keep(text: string) | Blank | Del(text: string) | Ins(text: string)

  function LineOf(d: DiffLine): string {
    match d
    case Keep(text) => " " + text
    case Blank => ""
    case Del(text) => "-" + text
    case Ins(text) => "+" + text
  }

  function LinesOf(diff: seq<DiffLine>): seq<string> {
    if diff == [] then [] else [LineOf(diff[0])] + LinesOf(diff[1..])
  }

  /** What a line of a diff is in the old version. */
  function OldPart(d: DiffLine): seq<string> {
    match d
    case Keep(text) => [text]
    case Blank => [""]
    case Del(text) => [text]
    case Ins(_) => []
  }

  /** What a line of a diff is in the new version. */
  function NewPart(d: DiffLine): seq<string> {
    match d
    case Keep(text) => [text]
    case Blank => [""]
    case Del(_) => []
    case Ins(text) => [text]
  }

  function OldTexts(diff: seq<DiffLine>): seq<string> {
    if diff == [] then [] else OldPart(diff[0]) + OldTexts(diff[1..])
  }

  function NewTexts(diff: seq<DiffLine>): seq<string> {
    if diff == [] then [] else NewPart(diff[0]) + NewTexts(diff[1..])
  }

  datatype Head = NoHead | BareHead | ContextHead(context: string)

  function HeadLines(head: Head): seq<string> {
    match head
    case NoHead => []
    case BareHead => ["@@"]
    case ContextHead(context) => ["@@ " + context]
  }

  datatype Section = Section(head: Head, diff: seq<DiffLine>, isEndOfFile: bool)

  function EndLines(isEndOfFile: bool): seq<string> {
    if isEndOfFile then ["*** End of File"] else []
  }

  function SectionLines(s: Section): seq<string> {
    HeadLines(s.head) + (LinesOf(s.diff) + EndLines(s.isEndOfFile))
  }

  function ChunkOf(s: Section): Chunk {
    Chunk(if s.head.ContextHead? then Some(s.head.context) else None, OldTexts(s.diff), NewTexts(s.diff), s.isEndOfFile)
  }

  // One chunk --------------------------------------------------------------------

  lemma {:induction false} LinesOfLength(diff: seq<DiffLine>)
    ensures |LinesOf(diff)| == |diff|
  {
    if diff == [] {
    } else {
      LinesOfLength(diff[1..]);
    }
  }

  lemma LineIsBody(d: DiffLine)
    ensures LineOf(d) != EOF_MARKER && (LineOf(d) == "" || LineOf(d)[0] in " +-")
  {
    assert EOF_MARKER[0] == '*';
  }

  lemma TakeDiffLine(c: Chunk, d: DiffLine)
    ensures TakeLine(c, LineOf(d))
            == c.(oldLines := c.oldLines + OldPart(d), newLines := c.newLines + NewPart(d))
  {
    if d != Blank {
      assert LineOf(d)[1..] == d.text;
    }
  }

  lemma DiffHead(diff: seq<DiffLine>)
    requires diff != []
    ensures LinesOf(diff) == [LineOf(diff[0])] + LinesOf(diff[1..])
    ensures OldTexts(diff) == OldPart(diff[0]) + OldTexts(diff[1..])
    ensures NewTexts(diff) == NewPart(diff[0]) + NewTexts(diff[1..])
  {
    hide LineOf, OldPart, NewPart;
  }

  lemma ScanOneLine(line: string, rest: seq<string>, lineNumber: nat, c: Chunk, parsed: nat)
    requires line != EOF_MARKER && (line == "" || line[0] in " +-")
    ensures ScanBody([line] + rest, lineNumber, c, parsed) == ScanBody(rest, lineNumber, TakeLine(c, line), parsed + 1)
  {
    assert ([line] + rest)[1..] == rest;
    hide TakeLine;
  }

  lemma {:induction false} ScanDiff(diff: seq<DiffLine>, rest: seq<string>, lineNumber: nat, c: Chunk, parsed: nat)
    ensures ScanBody(LinesOf(diff) + rest, lineNumber, c, parsed)
            == ScanBody(rest, lineNumber,
                        c.(oldLines := c.oldLines + OldTexts(diff), newLines := c.newLines + NewTexts(diff)),
                        parsed + |diff|)
    decreases |diff|
  {
    hide *;
    if diff == [] {
      NoDiff(c);
      NothingAdded(rest);
    } else {
      var d, later := diff[0], diff[1..];
      DiffHead(diff);
      LineIsBody(d);
      TakeDiffLine(c, d);
      Assoc([LineOf(d)], LinesOf(later), rest);
      Assoc(c.oldLines, OldPart(d), OldTexts(later));
      Assoc(c.newLines, NewPart(d), NewTexts(later));
      ScanOneLine(LineOf(d), LinesOf(later) + rest, lineNumber, c, parsed);
      ScanDiff(later, rest, lineNumber, TakeLine(c, LineOf(d)), parsed + 1);
    }
  }

  /** Nothing, or a line that is not part of a chunk's body. */
  predicate EndsBody(rest: seq<string>) {
    rest == [] || (rest[0] != "" && rest[0][0] !in " +-" && rest[0] != EOF_MARKER)
  }

  lemma ScanEnd(isEndOfFile: bool, rest: seq<string>, lineNumber: nat, c: Chunk, parsed: nat)
    requires parsed > 0 && !c.isEndOfFile && (isEndOfFile || EndsBody(rest))
    ensures ScanBody(EndLines(isEndOfFile) + rest, lineNumber, c, parsed)
            == Success(Parsed(c.(isEndOfFile := isEndOfFile), parsed + |EndLines(isEndOfFile)|))
  {
    if !isEndOfFile {
      assert EndLines(isEndOfFile) + rest == rest;
    }
  }

  lemma HeadIsMarker(s: Section, rest: seq<string>)
    requires s.diff != []
    ensures var lines, head := SectionLines(s) + rest, HeadLines(s.head);
            && |lines| > |head|
            && lines[|head|..] == LinesOf(s.diff) + (EndLines(s.isEndOfFile) + rest)
            && (IsContextMarker(lines[0]) <==> s.head != NoHead)
            && ContextOf(lines[0]) == ChunkOf(s).changeContext
            && |head| == (if s.head == NoHead then 0 else 1)
  {
    var lines, head := SectionLines(s) + rest, HeadLines(s.head);
    LinesOfLength(s.diff);
    assert lines == head + (LinesOf(s.diff) + (EndLines(s.isEndOfFile) + rest));
    match s.head {
      case NoHead =>
        assert lines[0] == LineOf(s.diff[0]);
        LineIsNoMarker(s.diff[0]);
      case BareHead => assert lines[0] == "@@";
      case ContextHead(context) =>
        assert lines[0] == "@@ " + context;
        assert ("@@ " + context)[..3] == "@@ " && ("@@ " + context)[3..] == context;
    }
    hide LinesOf, IsContextMarker, ContextOf, LineOf;
  }

  lemma LineIsNoMarker(d: DiffLine)
    ensures !IsContextMarker(LineOf(d)) && ContextOf(LineOf(d)) == None
  {
    var line := LineOf(d);
    assert line != "" ==> line[0] != '@';
    CharOfPrefix(line, "@@ ", 0);
  }

  /**
   Kept, deleted and inserted lines in any order: the chunk has the kept and the deleted
   ones for its old lines, and the kept and the inserted ones for its new lines.
   */
  lemma ParseDiffChunk(s: Section, rest: seq<string>, lineNumber: nat, allowMissingContext: bool)
    requires s.diff != [] && (s.head == NoHead ==> allowMissingContext) && (s.isEndOfFile || EndsBody(rest))
    ensures ParseChunk(SectionLines(s) + rest, lineNumber, allowMissingContext)
            == Success(Parsed(ChunkOf(s), |SectionLines(s)|))
  {
    hide *;
    var lines, start := SectionLines(s) + rest, |HeadLines(s.head)|;
    var c := Chunk(ChunkOf(s).changeContext, [], [], false);
    HeadIsMarker(s, rest);
    ChunkIsBody(lines, lineNumber, allowMissingContext, start);
    ScanDiff(s.diff, EndLines(s.isEndOfFile) + rest, lineNumber, c, 0);
    NothingAdded(OldTexts(s.diff));
    NothingAdded(NewTexts(s.diff));
    var full := Chunk(c.changeContext, OldTexts(s.diff), NewTexts(s.diff), false);
    ScanEnd(s.isEndOfFile, rest, lineNumber, full, |s.diff|);
    ChunkOfParts(s);
    BehindSuccess(start, ChunkOf(s), |s.diff| + |EndLines(s.isEndOfFile)|);
  }

  lemma BehindSuccess(start: nat, c: Chunk, consumed: nat)
    ensures Behind(start, Success(Parsed(c, consumed))) == Success(Parsed(c, consumed + start))
  {
  }

  lemma ChunkOfParts(s: Section)
    ensures ChunkOf(s) == Chunk(ChunkOf(s).changeContext, OldTexts(s.diff), NewTexts(s.diff), s.isEndOfFile)
    ensures |SectionLines(s)| == |HeadLines(s.head)| + |s.diff| + |EndLines(s.isEndOfFile)|
  {
    LinesOfLength(s.diff);
  }

  // Every chunk is a diff ------------------------------------------------------------

  function DiffOf(line: string): DiffLine {
    if line == "" then Blank
    else if line[0] == '-' then Del(line[1..])
    else if line[0] == '+' then Ins(line[1..])
    else Keep(line[1..])
  }

  lemma DiffOfLine(line: string)
    requires line == "" || line[0] in " +-"
    ensures LineOf(DiffOf(line)) == line
  {
  }

  /** The lines that a scan consumes are those of a diff, and the chunk has its two versions. */
  lemma {:induction false} ScannedIsDiff(lines: seq<string>, lineNumber: nat, c: Chunk, parsed: nat)
    returns (diff: seq<DiffLine>)
    requires !c.isEndOfFile && ScanBody(lines, lineNumber, c, parsed).Success?
    ensures var r := ScanBody(lines, lineNumber, c, parsed).value;
            && |diff| + |EndLines(r.item.isEndOfFile)| == r.consumed - parsed <= |lines|
            && lines[..r.consumed - parsed] == LinesOf(diff) + EndLines(r.item.isEndOfFile)
            && r.item == c.(oldLines := c.oldLines + OldTexts(diff), newLines := c.newLines + NewTexts(diff),
                            isEndOfFile := r.item.isEndOfFile)
            && (r.item.isEndOfFile || EndsBody(lines[r.consumed - parsed..]))
    decreases |lines|
  {
    hide *;
    if lines != [] && IsBody(lines[0]) {
      var line, rest := lines[0], lines[1..];
      var next := TakeLine(c, line);
      HeadTail(lines);
      ScanBodyLine(line, rest, lineNumber, c, parsed);
      var later := ScannedIsDiff(rest, lineNumber, next, parsed + 1);
      diff := [DiffOf(line)] + later;
      OneMore(line, rest, later, c, ScanBody(rest, lineNumber, next, parsed + 1).value, parsed);
    } else {
      diff := [];
      NoDiff(c);
      ScanStops(lines, lineNumber, c, parsed);
      NothingAdded(EndLines(ScanBody(lines, lineNumber, c, parsed).value.item.isEndOfFile));
    }
  }

  lemma ScanStops(lines: seq<string>, lineNumber: nat, c: Chunk, parsed: nat)
    requires !c.isEndOfFile && ScanBody(lines, lineNumber, c, parsed).Success?
    requires lines == [] || !IsBody(lines[0])
    ensures var r := ScanBody(lines, lineNumber, c, parsed).value;
            && |EndLines(r.item.isEndOfFile)| == r.consumed - parsed <= |lines|
            && lines[..r.consumed - parsed] == EndLines(r.item.isEndOfFile)
            && r.item == c.(isEndOfFile := r.item.isEndOfFile)
            && (r.item.isEndOfFile || EndsBody(lines[r.consumed - parsed..]))
  {
  }

  predicate IsBody(line: string) {
    line != EOF_MARKER && (line == "" || line[0] in " +-")
  }

  lemma BodyIsDiff(line: string)
    requires IsBody(line)
    ensures LineOf(DiffOf(line)) == line
  {
    DiffOfLine(line);
  }

  lemma NoDiff(c: Chunk)
    ensures LinesOf([]) == [] && OldTexts([]) == [] && NewTexts([]) == []
    ensures c.oldLines + [] == c.oldLines && c.newLines + [] == c.newLines
  {
  }

  lemma ScanBodyLine(line: string, rest: seq<string>, lineNumber: nat, c: Chunk, parsed: nat)
    requires IsBody(line)
    ensures ScanBody([line] + rest, lineNumber, c, parsed) == ScanBody(rest, lineNumber, TakeLine(c, line), parsed + 1)
    ensures !c.isEndOfFile ==> !TakeLine(c, line).isEndOfFile
  {
    ScanOneLine(line, rest, lineNumber, c, parsed);
    hide ScanBody;
  }

  /** The diff of a scan that has taken one line more. */
  lemma OneMore(
    line: string, rest: seq<string>, later: seq<DiffLine>, c: Chunk, r: Parsed<Chunk>, parsed: nat)
    requires IsBody(line) && parsed < r.consumed
    requires |later| + |EndLines(r.item.isEndOfFile)| == r.consumed - parsed - 1 <= |rest|
    requires rest[..r.consumed - parsed - 1] == LinesOf(later) + EndLines(r.item.isEndOfFile)
    requires var next := TakeLine(c, line);
             r.item == next.(oldLines := next.oldLines + OldTexts(later), newLines := next.newLines + NewTexts(later),
                             isEndOfFile := r.item.isEndOfFile)
    ensures var diff := [DiffOf(line)] + later;
            && ([line] + rest)[..r.consumed - parsed] == LinesOf(diff) + EndLines(r.item.isEndOfFile)
            && ([line] + rest)[r.consumed - parsed..] == rest[r.consumed - parsed - 1..]
            && r.item == c.(oldLines := c.oldLines + OldTexts(diff), newLines := c.newLines + NewTexts(diff),
                            isEndOfFile := r.item.isEndOfFile)
  {
    hide *;
    BodyIsDiff(line);
    var d := DiffOf(line);
    OneMoreLines(d, later);
    OneMoreTexts(c, d, later);
    PrefixOfCons(line, rest, r.consumed - parsed - 1);
    Assoc([line], LinesOf(later), EndLines(r.item.isEndOfFile));
  }

  lemma OneMoreLines(d: DiffLine, later: seq<DiffLine>)
    ensures LinesOf([d] + later) == [LineOf(d)] + LinesOf(later)
  {
    assert ([d] + later)[1..] == later;
    hide LineOf;
  }

  lemma OneMoreTexts(c: Chunk, d: DiffLine, later: seq<DiffLine>)
    ensures var next := TakeLine(c, LineOf(d));
            && next.oldLines + OldTexts(later) == c.oldLines + OldTexts([d] + later)
            && next.newLines + NewTexts(later) == c.newLines + NewTexts([d] + later)
            && next.changeContext == c.changeContext && next.isEndOfFile == c.isEndOfFile
  {
    assert ([d] + later)[1..] == later && ([d] + later)[0] == d;
    TakeDiffLine(c, d);
    hide TakeLine, LineOf, OldPart, NewPart;
    DiffHead([d] + later);
    Assoc(c.oldLines, OldPart(d), OldTexts(later));
    Assoc(c.newLines, NewPart(d), NewTexts(later));
    hide OldTexts, NewTexts;
  }

  lemma PrefixOfCons<T>(x: T, rest: seq<T>, n: nat)
    requires n <= |rest|
    ensures ([x] + rest)[..n + 1] == [x] + rest[..n] && ([x] + rest)[n + 1..] == rest[n..]
  {
  }

  lemma HeadOf(line: string) returns (head: Head)
    ensures IsContextMarker(line) ==> HeadLines(head) == [line] && head != NoHead
    ensures !IsContextMarker(line) ==> head == NoHead
    ensures ContextOf(line) == if head.ContextHead? then Some(head.context) else None
  {
    if line == "@@" {
      head := BareHead;
    } else if StartsWith(line, "@@ ") {
      head := ContextHead(line[3..]);
      assert line == line[..3] + line[3..];
    } else {
      head := NoHead;
    }
  }

  /**
   Whatever lines parse to a chunk are those of a section, up to a line that ends it, and the
   chunk is its two versions; only where a marker may be missing there is none.
   */
  lemma ParsedChunkIsDiff(lines: seq<string>, lineNumber: nat, allowMissingContext: bool) returns (s: Section)
    requires ParseChunk(lines, lineNumber, allowMissingContext).Success?
    ensures var r := ParseChunk(lines, lineNumber, allowMissingContext).value;
            && s.diff != [] && r.item == ChunkOf(s) && (s.head == NoHead ==> allowMissingContext)
            && r.consumed <= |lines| && lines[..r.consumed] == SectionLines(s)
            && (s.isEndOfFile || EndsBody(lines[r.consumed..]))
  {
    hide ScanBody, IsContextMarker, ContextOf, LinesOf, OldTexts, NewTexts;
    var head := HeadOf(lines[0]);
    var start := if IsContextMarker(lines[0]) then 1 else 0;
    var c := Chunk(ContextOf(lines[0]), [], [], false);
    ChunkIsBody(lines, lineNumber, allowMissingContext, start);
    assert start < |lines|;
    var diff := ScannedIsDiff(lines[start..], lineNumber, c, 0);
    var body := ScanBody(lines[start..], lineNumber, c, 0).value;
    s := Section(head, diff, body.item.isEndOfFile);
    if diff == [] {
      EndFirstFails(lines[start..], lineNumber, c);
    }
    NothingAdded(OldTexts(diff));
    NothingAdded(NewTexts(diff));
    assert lines[..start] == HeadLines(head);
    assert lines[..start + body.consumed] == lines[..start] + lines[start..][..body.consumed];
    assert lines[start + body.consumed..] == lines[start..][body.consumed..];
    hide EndsBody;
  }

  lemma EndFirstFails(lines: seq<string>, lineNumber: nat, c: Chunk)
    requires lines != [] && ScanBody(lines, lineNumber, c, 0).Success?
    ensures lines[0] != EOF_MARKER && ScanBody(lines, lineNumber, c, 0).value.consumed > 0
  {
  }

  // Hunks ------------------------------------------------------------------------------

  function SectionsLines(sections: seq<Section>): seq<string> {
    if sections == [] then [] else SectionLines(sections[0]) + SectionsLines(sections[1..])
  }

  function SectionChunks(sections: seq<Section>): seq<Chunk> {
    if sections == [] then [] else [ChunkOf(sections[0])] + SectionChunks(sections[1..])
  }

  /** An update hunk that is written as a diff. */
  datatype Diff = Diff(path: string, movePath: Option<string>, sections: seq<Section>)

  function DiffLines(d: Diff): seq<string> {
    ["*** Update File: " + d.path] + (PrintMove(d.movePath) + SectionsLines(d.sections))
  }

  function DiffHunk(d: Diff): Hunk {
    UpdateFile(d.path, d.movePath, SectionChunks(d.sections))
  }

  /**
   Without a marker the first line must not be blank, because blank lines before a chunk
   are skipped, and not look like the line of a move.
   */
  predicate StartsWell(s: Section, movePath: Option<string>) {
    && s.diff != []
    && (s.head == NoHead ==>
          && Trim(JavaScript, LineOf(s.diff[0])) != ""
          && (movePath == None ==> !StartsWith(Trim(JavaScript, LineOf(s.diff[0])), "*** Move to: ")))
  }

  /** A chunk behind another one needs its marker. */
  predicate HaveHeads(sections: seq<Section>) {
    forall i | 0 <= i < |sections| :: sections[i].diff != [] && sections[i].head != NoHead
  }

  predicate WellDiffed(d: Diff) {
    && IsPath(d.path) && (d.movePath.Some? ==> IsPath(d.movePath.value))
    && d.sections != [] && StartsWell(d.sections[0], d.movePath) && HaveHeads(d.sections[1..])
  }

  lemma SectionFirst(s: Section, rest: seq<string>)
    requires s.diff != []
    ensures var lines := SectionLines(s) + rest;
            && SectionLines(s) != [] && lines[0] == SectionLines(s)[0]
            && lines[0] == (if s.head == NoHead then LineOf(s.diff[0]) else HeadLines(s.head)[0])
            && (s.head != NoHead ==> lines[0] != "" && lines[0][0] == '@')
            && !StartsWith(lines[0], "***")
            && lines[|SectionLines(s)|..] == rest
  {
    LinesOfLength(s.diff);
    var lines := SectionLines(s) + rest;
    assert lines[0] == if s.head == NoHead then LineOf(s.diff[0]) else HeadLines(s.head)[0];
    assert lines[0] != "" ==> lines[0][0] in " +-@";
    CharOfPrefix(lines[0], "***", 0);
  }

  lemma SectionsSplit(sections: seq<Section>, rest: seq<string>)
    requires sections != []
    ensures SectionsLines(sections) + rest == SectionLines(sections[0]) + (SectionsLines(sections[1..]) + rest)
    ensures |SectionsLines(sections)| == |SectionLines(sections[0])| + |SectionsLines(sections[1..])|
    ensures SectionChunks(sections) == [ChunkOf(sections[0])] + SectionChunks(sections[1..])
  {
    Assoc(SectionLines(sections[0]), SectionsLines(sections[1..]), rest);
    hide SectionLines, ChunkOf;
  }

  lemma EndsBodyAt(lines: seq<string>)
    requires lines != [] && lines[0] != "" && lines[0][0] == '@'
    ensures EndsBody(lines)
  {
  }

  lemma SectionsEndBody(sections: seq<Section>, rest: seq<string>)
    requires HaveHeads(sections) && EndsChunk(rest)
    ensures EndsBody(SectionsLines(sections) + rest)
  {
    if sections == [] {
      assert SectionsLines(sections) + rest == rest;
    } else {
      assert sections[0].diff != [] && sections[0].head != NoHead;
      hide *;
      SectionsSplit(sections, rest);
      SectionFirst(sections[0], SectionsLines(sections[1..]) + rest);
      EndsBodyAt(SectionsLines(sections) + rest);
    }
  }

  lemma HeadIsNotBlank(s: Section)
    requires s.diff != [] && s.head != NoHead
    ensures !IsBlank(SectionLines(s)[0])
  {
    SectionFirst(s, []);
    NothingAdded(SectionLines(s));
    NotBlank(SectionLines(s)[0]);
    hide IsBlank, SectionLines;
  }

  lemma NoSections()
    ensures SectionsLines([]) == [] && SectionChunks([]) == []
  {
  }

  lemma HaveHeadsRest(sections: seq<Section>)
    requires HaveHeads(sections) && sections != []
    ensures sections[0].diff != [] && sections[0].head != NoHead && HaveHeads(sections[1..])
  {
  }

  lemma {:induction false} ScanSections(
    sections: seq<Section>, rest: seq<string>, lineNumber: nat, consumed: nat, done: seq<Chunk>)
    requires HaveHeads(sections) && EndsChunk(rest) && (rest != [] ==> StartsWith(rest[0], "***"))
    ensures ScanChunks(SectionsLines(sections) + rest, lineNumber, consumed, done)
            == Success(Parsed(done + SectionChunks(sections), consumed + |SectionsLines(sections)|))
    decreases |sections|
  {
    hide *;
    if sections == [] {
      NoSections();
      NothingAdded(rest);
      NothingAdded(done);
      ScanChunksStop(rest, lineNumber, consumed, done);
    } else {
      HaveHeadsRest(sections);
      HeadIsNotBlank(sections[0]);
      SectionFirst(sections[0], SectionsLines(sections[1..]) + rest);
      ScanSection(sections, rest, lineNumber, consumed, done);
      ScanSections(sections[1..], rest, lineNumber, consumed + |SectionLines(sections[0])|, done + [ChunkOf(sections[0])]);
      SectionsSplit(sections, rest);
      Assoc(done, [ChunkOf(sections[0])], SectionChunks(sections[1..]));
    }
  }

  lemma ScanSection(sections: seq<Section>, rest: seq<string>, lineNumber: nat, consumed: nat, done: seq<Chunk>)
    requires sections != [] && HaveHeads(sections[1..]) && EndsChunk(rest)
    requires var s := sections[0];
             s.diff != [] && !IsBlank(SectionLines(s)[0]) && (s.head == NoHead ==> done == [])
    ensures ScanChunks(SectionsLines(sections) + rest, lineNumber, consumed, done)
            == ScanChunks(SectionsLines(sections[1..]) + rest, lineNumber, consumed + |SectionLines(sections[0])|,
                          done + [ChunkOf(sections[0])])
  {
    hide *;
    var s, later := sections[0], SectionsLines(sections[1..]) + rest;
    SectionsSplit(sections, rest);
    SectionFirst(s, later);
    SectionsEndBody(sections[1..], rest);
    ParseDiffChunk(s, later, lineNumber + consumed, done == []);
    ScanChunksStep(SectionsLines(sections) + rest, lineNumber, consumed, done, ChunkOf(s), |SectionLines(s)|);
  }

  /** Blank lines before a chunk are skipped, also kept blank lines in front of a chunk without a marker. */
  lemma {:induction false} BlankLinesAreSkipped(
    blanks: seq<string>, remaining: seq<string>, lineNumber: nat, consumed: nat, done: seq<Chunk>)
    requires forall i | 0 <= i < |blanks| :: Trim(JavaScript, blanks[i]) == ""
    ensures ScanChunks(blanks + remaining, lineNumber, consumed, done)
            == ScanChunks(remaining, lineNumber, consumed + |blanks|, done)
    decreases |blanks|
  {
    hide Trim, ParseChunk;
    if blanks == [] {
      assert blanks + remaining == remaining;
    } else {
      assert (blanks + remaining)[0] == blanks[0] && (blanks + remaining)[1..] == blanks[1..] + remaining;
      BlankLinesAreSkipped(blanks[1..], remaining, lineNumber, consumed + 1, done);
    }
  }

  lemma FirstStartsWell(s: Section, movePath: Option<string>, rest: seq<string>)
    requires StartsWell(s, movePath)
    ensures s.diff != [] && SectionLines(s) != [] && !IsBlank(SectionLines(s)[0])
    ensures movePath == None ==> MoveOf(SectionLines(s) + rest) == None
  {
    SectionFirst(s, rest);
    if s.head != NoHead {
      HeadIsNotBlank(s);
      var line := SectionLines(s)[0];
      NotBlank(line);
      CharOfPrefix(Trim(JavaScript, line), MOVE_TO_MARKER, 0);
    }
    hide SectionLines, LineOf, Trim, StartsWith;
  }

  lemma MoveOfDiff(d: Diff, rest: seq<string>)
    requires WellDiffed(d)
    ensures MoveOf(PrintMove(d.movePath) + (SectionsLines(d.sections) + rest)) == d.movePath
  {
    var later := SectionsLines(d.sections[1..]) + rest;
    FirstStartsWell(d.sections[0], d.movePath, later);
    SectionsSplit(d.sections, rest);
    hide SectionsLines, SectionLines, StartsWell;
    if d.movePath.Some? {
      HeaderLine(MOVE_TO_MARKER, d.movePath.value);
      assert (PrintMove(d.movePath) + (SectionsLines(d.sections) + rest))[0] == MOVE_TO_MARKER + d.movePath.value;
      hide Trim, StartsWith;
    } else {
      assert PrintMove(d.movePath) + (SectionsLines(d.sections) + rest) == SectionsLines(d.sections) + rest;
    }
  }

  lemma DiffLinesParts(d: Diff, rest: seq<string>)
    ensures var lines := DiffLines(d) + rest;
            var start := if d.movePath.Some? then 2 else 1;
            && lines[0] == UPDATE_FILE_MARKER + d.path
            && lines[1..] == PrintMove(d.movePath) + (SectionsLines(d.sections) + rest)
            && start <= |lines| && lines[start..] == SectionsLines(d.sections) + rest
            && |DiffLines(d)| == start + |SectionsLines(d.sections)|
  {
    HeadMiddleTail(UPDATE_FILE_MARKER + d.path, PrintMove(d.movePath), SectionsLines(d.sections), rest);
    hide SectionsLines;
  }

  lemma WellDiffedParts(d: Diff)
    requires WellDiffed(d)
    ensures IsPath(d.path) && d.sections != []
    ensures StartsWell(d.sections[0], d.movePath) && HaveHeads(d.sections[1..])
  {
  }

  lemma DiffHunkParts(d: Diff)
    requires d.sections != []
    ensures DiffHunk(d) == UpdateFile(d.path, d.movePath, SectionChunks(d.sections)) && SectionChunks(d.sections) != []
  {
  }

  lemma ParseDiffHunk(d: Diff, rest: seq<string>, lineNumber: nat)
    requires WellDiffed(d) && StartsHunk(rest)
    ensures ParseHunk(DiffLines(d) + rest, lineNumber) == Success(Parsed(DiffHunk(d), |DiffLines(d)|))
  {
    hide *;
    var start := if d.movePath.Some? then 2 else 1;
    WellDiffedParts(d);
    var first, later := d.sections[0], d.sections[1..];
    DiffHunkParts(d);
    DiffLinesParts(d, rest);
    UpdateHeader(d.path);
    MoveOfDiff(d, rest);
    StartsHunkEnds(rest);
    FirstStartsWell(first, d.movePath, []);
    ScanSection(d.sections, rest, lineNumber, start, []);
    ScanSections(later, rest, lineNumber, start + |SectionLines(first)|, [] + [ChunkOf(first)]);
    SectionsSplit(d.sections, rest);
    NothingAdded([ChunkOf(first)]);
    ParseHunkUpdate(DiffLines(d) + rest, lineNumber, d.path, d.movePath, SectionChunks(d.sections), |DiffLines(d)|);
  }

  // Whole patches ----------------------------------------------------------------------

  /** A hunk of a patch: an update written as a diff, or any hunk that can be printed. */
  datatype Part = Diffed(diff: Diff) | Whole(hunk: Hunk)

  function PartLines(part: Part): seq<string> {
    match part
    case Diffed(d) => DiffLines(d)
    case Whole(h) => PrintHunk(h)
  }

  function PartHunk(part: Part): Hunk {
    match part
    case Diffed(d) => DiffHunk(d)
    case Whole(h) => h
  }

  predicate WellWritten(part: Part) {
    match part
    case Diffed(d) => WellDiffed(d)
    case Whole(h) => Printable(h)
  }

  function PartsLines(parts: seq<Part>): seq<string> {
    if parts == [] then [] else PartLines(parts[0]) + PartsLines(parts[1..])
  }

  function PartHunks(parts: seq<Part>): seq<Hunk> {
    if parts == [] then [] else [PartHunk(parts[0])] + PartHunks(parts[1..])
  }

  lemma ParsePart(part: Part, rest: seq<string>, lineNumber: nat)
    requires WellWritten(part) && StartsHunk(rest)
    ensures ParseHunk(PartLines(part) + rest, lineNumber) == Success(Parsed(PartHunk(part), |PartLines(part)|))
    ensures PartLines(part) != [] && StartsHunk(PartLines(part) + rest)
  {
    match part {
      case Diffed(d) =>
        ParseDiffHunk(d, rest, lineNumber);
        DiffStartsHunk(d, rest);
      case Whole(h) =>
        ParsePrintedHunk(h, rest, lineNumber);
        PrintHunkNotEmpty(h);
    }
    hide ParseHunk, StartsHunk, DiffLines, DiffHunk, PrintHunk, WellDiffed, Printable;
  }

  lemma DiffStartsHunk(d: Diff, rest: seq<string>)
    ensures DiffLines(d) != [] && StartsHunk(DiffLines(d) + rest)
  {
    DiffLinesParts(d, rest);
    var line := UPDATE_FILE_MARKER + d.path;
    assert line[..4] == "*** " && line[4] == 'U' && EOF_MARKER[4] == 'E';
    hide DiffLines;
  }

  lemma PartsCons(parts: seq<Part>)
    requires parts != []
    ensures PartsLines(parts) == PartLines(parts[0]) + PartsLines(parts[1..])
    ensures PartHunks(parts) == [PartHunk(parts[0])] + PartHunks(parts[1..])
  {
    hide PartLines, PartHunk;
  }

  lemma NoParts(lineNumber: nat)
    ensures PartsLines([]) == [] && PartHunks([]) == [] && StartsHunk([])
    ensures ParseHunks([], lineNumber) == Success([])
  {
  }

  lemma {:induction false} ParseParts(parts: seq<Part>, lineNumber: nat)
    requires forall i | 0 <= i < |parts| :: WellWritten(parts[i])
    ensures ParseHunks(PartsLines(parts), lineNumber) == Success(PartHunks(parts))
    ensures StartsHunk(PartsLines(parts))
    decreases |parts|
  {
    hide *;
    if parts == [] {
      NoParts(lineNumber);
    } else {
      var lines, later := PartLines(parts[0]), PartsLines(parts[1..]);
      PartsCons(parts);
      ParseParts(parts[1..], lineNumber + |lines|);
      ParsePart(parts[0], later, lineNumber);
      SplitSum(lines, later);
      ParseHunksCons(lines + later, lineNumber, PartHunk(parts[0]), |lines|, PartHunks(parts[1..]));
    }
  }

  function PartsPatch(parts: seq<Part>): string {
    Join(["*** Begin Patch"] + PartsLines(parts) + ["*** End Patch"], '\n')
  }

  /**
   A patch written by hand, its updates as diffs: parsing it gives for every section a chunk
   whose old lines are the kept and deleted ones and whose new lines are the kept and
   inserted ones, in their order.
   */
  lemma ParsedDiffs(parts: seq<Part>)
    requires forall i | 0 <= i < |parts| :: WellWritten(parts[i])
    requires AreLines(PartsLines(parts)) && NoReturns(PartsLines(parts))
    ensures ParsePatch(PartsPatch(parts)) == Success(PartHunks(parts))
  {
    hide *;
    var lines := ["*** Begin Patch"] + PartsLines(parts) + ["*** End Patch"];
    FrameOf(PartsLines(parts));
    BareLinesSame(lines);
    FramedIsStrict(lines);
    StrictIsLenient(lines);
    ParseOfLines(lines, lines);
    ParseParts(parts, 2);
    PatchOf(parts);
  }

  lemma PatchOf(parts: seq<Part>)
    ensures PartsPatch(parts) == Join(["*** Begin Patch"] + PartsLines(parts) + ["*** End Patch"], '\n')
  {
  }

  lemma FrameOf(body: seq<string>)
    ensures var lines := ["*** Begin Patch"] + body + ["*** End Patch"];
            && lines != [] && lines[0] == BEGIN_PATCH_MARKER && lines[|lines| - 1] == END_PATCH_MARKER
            && Tight(lines) && PatchBody(lines) == body
            && (AreLines(body) ==> AreLines(lines)) && (NoReturns(body) ==> NoReturns(lines))
  {
    MarkersAreLines();
  }
}
