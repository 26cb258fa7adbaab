/** Cutting a document into front matter and body, and the wrapper that goes around front matter. */
module FrontMatter {
  import opened Text

  datatype Document = Document(front: string, body: string)

  const DELIMITER := "---"

  predicate IsDelimiter(line: string) {
    Trim(Go, line) == DELIMITER
  }

  /** The first delimiter line from `i` on, or the number of lines. */
  function DelimiterFrom(lines: seq<string>, i: nat): (k: nat)
    requires i <= |lines|
    ensures i <= k <= |lines|
    ensures forall j | i <= j < k :: !IsDelimiter(lines[j])
    ensures k < |lines| ==> IsDelimiter(lines[k])
    decreases |lines| - i
  {
    if i == |lines| || IsDelimiter(lines[i]) then i else DelimiterFrom(lines, i + 1)
  }

  function SplitFront(content: string): Document {
    if !StartsWith(content, DELIMITER) then Document("", content)
    else
      var lines := Split(content, '\n');
      if |lines| < 2 then Document("", content)
      else
        var end := DelimiterFrom(lines, 1);
        if end == |lines| then Document("", content)
        else
          var body := Join(lines[end + 1..], '\n');
          Document(Join(lines[1..end], '\n'), if StartsWith(body, "\n") then body[1..] else body)
  }

  method SplitFrontMatter(content: string) returns (front: string, body: string)
    ensures Document(front, body) == SplitFront(content)
  {
    hide IsDelimiter, Join, Split;
    if !StartsWith(content, DELIMITER) {
      return "", content;
    }
    var lines := Split(content, '\n');
    if |lines| < 2 {
      return "", content;
    }
    var endIndex := -1;
    for i := 1 to |lines|
      invariant endIndex == -1 && DelimiterFrom(lines, i) == DelimiterFrom(lines, 1)
    {
      if IsDelimiter(lines[i]) {
        endIndex := i;
        break;
      }
    }
    if endIndex == -1 {
      return "", content;
    }
    front := Join(lines[1..endIndex], '\n');
    body := Join(lines[endIndex + 1..], '\n');
    if StartsWith(body, "\n") {
      body := body[1..];
    }
  }

  /** What is written before the body: the encoded front matter between delimiters, and an empty line. */
  function Encode(yaml: string): string {
    "---\n" + yaml + "---\n\n"
  }

  lemma LinesOfOutput(yaml: string, body: string)
    ensures Split(Encode(yaml + "\n") + body, '\n')
            == [DELIMITER] + (Split(yaml, '\n') + ([DELIMITER] + ([""] + Split(body, '\n'))))
  {
    hide Split;
    var tail := DELIMITER + ['\n'] + ("" + ['\n'] + body);
    assert Encode(yaml + "\n") + body == DELIMITER + ['\n'] + (yaml + ['\n'] + tail);
    SplitOfPlain(DELIMITER, '\n');
    SplitOfPlain("", '\n');
    SplitAtSep("", '\n', body);
    SplitAtSep(DELIMITER, '\n', "" + ['\n'] + body);
    SplitAtSep(yaml, '\n', tail);
    SplitAtSep(DELIMITER, '\n', yaml + ['\n'] + tail);
  }

  lemma DelimiterIsOne()
    ensures IsDelimiter(DELIMITER)
  {
    TrimOfTight(Go, DELIMITER);
  }

  predicate HasDelimiter(lines: seq<string>) {
    exists i :: 0 <= i < |lines| && IsDelimiter(lines[i])
  }

  /** With lines in front of a delimiter line, the first delimiter is that line or among them. */
  lemma FirstDelimiter(before: seq<string>, after: seq<string>)
    ensures var lines := [DELIMITER] + (before + ([DELIMITER] + after));
            var end := DelimiterFrom(lines, 1);
            && end <= 1 + |before|
            && (end == 1 + |before| <==> !HasDelimiter(before))
            && lines[1..end] == before[..end - 1]
            && (end == 1 + |before| ==> lines[end + 1..] == after)
  {
    hide IsDelimiter;
    DelimiterIsOne();
    var lines := [DELIMITER] + (before + ([DELIMITER] + after));
    forall i | 0 <= i < |before|
      ensures lines[1 + i] == before[i]
    {
    }
    assert lines[1 + |before|] == DELIMITER;
  }

  lemma JoinEmptyFirst(lines: seq<string>)
    requires lines != []
    ensures Join([""] + lines, '\n') == "\n" + Join(lines, '\n')
  {
    assert ([""] + lines)[1..] == lines;
  }

  /** Fewer lines make a shorter text when a delimiter line is among the others. */
  lemma {:induction false} FewerLinesShorter(lines: seq<string>, k: nat)
    requires k < |lines| && lines[k] != ""
    ensures |Join(lines[..k], '\n')| < |Join(lines, '\n')|
  {
    var rest := lines[k..];
    assert lines == lines[..k] + rest;
    assert rest[0] == lines[k];
    JoinLength(rest);
    if k > 0 {
      JoinAppend(lines[..k], rest, '\n');
    }
    hide Join;
    EmptyJoin();
    if k == 0 {
      assert lines[..k] == [];
      assert rest == lines;
    }
  }

  lemma EmptyJoin()
    ensures Join([], '\n') == ""
  {
  }

  lemma JoinLength(lines: seq<string>)
    requires lines != []
    ensures |Join(lines, '\n')| >= |lines[0]|
  {
  }

  lemma DelimiterNotEmpty(line: string)
    requires IsDelimiter(line)
    ensures line != ""
  {
    TrimOfTight(Go, "");
    hide Trim;
  }

  /**
   Front matter that ends its last line comes back from the written file, and with it
   the exact body, exactly when none of its lines is a delimiter.
   */
  lemma SplitUndoesEncodeIff(yaml: string, body: string)
    ensures SplitFront(Encode(yaml + "\n") + body) == Document(yaml, body) <==> !HasDelimiter(Split(yaml, '\n'))
  {
    hide Encode, Split, Join, DelimiterFrom, HasDelimiter, IsDelimiter;
    var content := Encode(yaml + "\n") + body;
    var before, after := Split(yaml, '\n'), [""] + Split(body, '\n');
    var lines := [DELIMITER] + (before + ([DELIMITER] + after));
    LinesOfOutput(yaml, body);
    EncodeStarts(yaml + "\n", body);
    FirstDelimiter(before, after);
    JoinOfSplit(yaml, '\n');
    JoinOfSplit(body, '\n');
    JoinEmptyFirst(Split(body, '\n'));
    assert ("\n" + body)[1..] == body && ("\n" + body)[..1] == "\n";
    var end := DelimiterFrom(lines, 1);
    if HasDelimiter(before) {
      var k := end - 1;
      assert lines[end] == before[k];
      DelimiterNotEmpty(before[k]);
      FewerLinesShorter(before, k);
    } else {
      assert before[..|before|] == before;
    }
  }

  lemma EncodeStarts(yaml: string, body: string)
    ensures StartsWith(Encode(yaml) + body, DELIMITER)
  {
    assert Encode(yaml) == DELIMITER + ("\n" + yaml + "---\n\n");
    assert Encode(yaml)[..3] == DELIMITER;
    assert (Encode(yaml) + body)[..3] == Encode(yaml)[..3];
    hide Encode;
  }

  // What a document is cut into ---------------------------------------------------------

  /** The lines of a document: one that opens the front matter, its lines, one that closes it, and the rest. */
  predicate Fenced(first: string, front: seq<string>, fence: string, rest: seq<string>) {
    && StartsWith(first, "---") && '\n' !in first
    && (forall i | 0 <= i < |front| :: '\n' !in front[i] && Trim(Go, front[i]) != "---")
    && Trim(Go, fence) == "---" && '\n' !in fence
    && (forall i | 0 <= i < |rest| :: '\n' !in rest[i])
  }

  function FencedText(first: string, front: seq<string>, fence: string, rest: seq<string>): string {
    Join([first] + (front + ([fence] + rest)), '\n')
  }

  /** Without one newline at the start. */
  function SkipNewline(s: string): string {
    if s != "" && s[0] == '\n' then s[1..] else s
  }

  lemma FencedLines(first: string, front: seq<string>, fence: string, rest: seq<string>)
    requires Fenced(first, front, fence, rest)
    ensures var lines := [first] + (front + ([fence] + rest));
            && Split(FencedText(first, front, fence, rest), '\n') == lines
            && |lines| >= 2 && StartsWith(FencedText(first, front, fence, rest), DELIMITER)
  {
    var lines := [first] + (front + ([fence] + rest));
    forall i | 0 <= i < |lines|
      ensures '\n' !in lines[i]
    {
    }
    SplitOfJoin(lines, '\n');
    assert lines[1..] == front + ([fence] + rest);
    assert Join(lines, '\n') == first + ['\n'] + Join(lines[1..], '\n');
    assert Join(lines, '\n')[..3] == first[..3];
    hide Join, Split;
  }

  lemma FirstFence(first: string, front: seq<string>, fence: string, rest: seq<string>)
    requires Fenced(first, front, fence, rest)
    ensures var lines := [first] + (front + ([fence] + rest));
            && DelimiterFrom(lines, 1) == 1 + |front| < |lines|
            && lines[1..1 + |front|] == front && lines[1 + |front| + 1..] == rest
  {
    var lines := [first] + (front + ([fence] + rest));
    forall i | 0 <= i < |front|
      ensures lines[1 + i] == front[i]
    {
    }
    assert lines[1 + |front|] == fence;
    hide Trim;
  }

  /** A fenced document is cut into its front matter and what is behind the fence, less one newline. */
  lemma SplitOfFenced(first: string, front: seq<string>, fence: string, rest: seq<string>)
    requires Fenced(first, front, fence, rest)
    ensures SplitFront(FencedText(first, front, fence, rest))
            == Document(Join(front, '\n'), SkipNewline(Join(rest, '\n')))
  {
    hide Split, Join, DelimiterFrom, FencedText, Fenced;
    FencedLines(first, front, fence, rest);
    FirstFence(first, front, fence, rest);
    var body := Join(rest, '\n');
    assert StartsWith(body, "\n") <==> body != "" && body[0] == '\n' by {
      assert body != "" ==> body[..1] == [body[0]];
    }
  }

  /** A document that is not fenced is all body. */
  lemma SplitOfUnfenced(content: string)
    requires forall first, front, fence, rest | Fenced(first, front, fence, rest) ::
               content != FencedText(first, front, fence, rest)
    ensures SplitFront(content) == Document("", content)
  {
    hide Join, Fenced, FencedText, DelimiterFrom;
    var lines := Split(content, '\n');
    if StartsWith(content, DELIMITER) && |lines| >= 2 && DelimiterFrom(lines, 1) < |lines| {
      var first, front, fence, rest := OpenedIsFenced(content);
      assert false;
    }
    hide Split;
  }

  lemma OpenedIsFenced(content: string) returns (first: string, front: seq<string>, fence: string, rest: seq<string>)
    requires var lines := Split(content, '\n');
             StartsWith(content, DELIMITER) && |lines| >= 2 && DelimiterFrom(lines, 1) < |lines|
    ensures Fenced(first, front, fence, rest) && content == FencedText(first, front, fence, rest)
  {
    var lines := Split(content, '\n');
    var end := DelimiterFrom(lines, 1);
    first, front, fence, rest := lines[0], lines[1..end], lines[end], lines[end + 1..];
    JoinOfSplit(content, '\n');
    SplitPartsLackSep(content, '\n');
    OpensLine(content);
    assert lines == [first] + (front + ([fence] + rest));
    hide Split, Join, Trim;
  }

  lemma OpensLine(content: string)
    requires StartsWith(content, DELIMITER)
    ensures StartsWith(Split(content, '\n')[0], "---")
  {
    var lines := Split(content, '\n');
    JoinOfSplit(content, '\n');
    FirstLineOf(lines);
    hide Split, Join, StartsWith;
    FirstThree(content, lines[0]);
  }

  lemma FirstLineOf(lines: seq<string>)
    requires lines != []
    ensures var text := Join(lines, '\n'); lines[0] <= text && (|lines[0]| < |text| ==> text[|lines[0]|] == '\n')
  {
  }

  lemma FirstThree(content: string, first: string)
    requires StartsWith(content, "---") && first <= content
    requires |first| < |content| ==> content[|first|] == '\n'
    ensures StartsWith(first, "---")
  {
    CharOfPrefix(content, "---", 0);
    CharOfPrefix(content, "---", 1);
    CharOfPrefix(content, "---", 2);
    assert |first| >= 3;
    assert first[..3] == content[..3];
  }
}
