/** The tagged form in which a document goes to the translator and comes back. */
module TaggedDocument {
  import opened Wrappers
  import opened Text

  const FRONT_START := "<frontmatter>"
  const FRONT_END := "</frontmatter>"
  const BODY_START := "<body>"
  const BODY_END := "</body>"

  datatype Tagged = Tagged(front: string, body: string)

  datatype TagError = MissingTag(tag: string) | TextOutside

  function Format(front: string, body: string): string {
    FRONT_START + "\n" + front + "\n" + FRONT_END + "\n" + BODY_START + "\n" + body + "\n" + BODY_END
  }

  /** One newline is taken off at either end. */
  function TrimTagNewlines(value: string): string {
    var v := if StartsWith(value, "\n") then value[1..] else value;
    if EndsWith(v, "\n") then v[..|v| - 1] else v
  }

  /** The end of the body: a missing closing tag counts as one at the end. */
  function ParseBody(afterStart: string): (string, string) {
    var end := Index(afterStart, BODY_END);
    if end == -1 then (TrimTagNewlines(afterStart), "")
    else (TrimTagNewlines(afterStart[..end]), Trim(Go, afterStart[end + |BODY_END|..]))
  }

  function Parse(text: string): Result<Tagged, TagError> {
    var frontStart := Index(text, FRONT_START);
    if frontStart == -1 then Failure(MissingTag(FRONT_START))
    else
      var afterStart := text[frontStart + |FRONT_START|..];
      var frontEnd := Index(afterStart, FRONT_END);
      if frontEnd == -1 then Failure(MissingTag(FRONT_END))
      else
        var fromEnd := afterStart[frontEnd..];
        var bodyStart := Index(fromEnd, BODY_START);
        if bodyStart == -1 then Failure(MissingTag(BODY_START))
        else
          var (body, suffix) := ParseBody(fromEnd[bodyStart + |BODY_START|..]);
          var prefix := Trim(Go, text[..frontStart]);
          if prefix != "" || suffix != "" then Failure(TextOutside)
          else Success(Tagged(TrimTagNewlines(afterStart[..frontEnd]), body))
  }

  // Where tags are found --------------------------------------------------------------

  /** A tag on a line of its own is found where it is, unless it was there before. */
  lemma IndexOnNextLine(x: string, pat: string, rest: string)
    requires pat != "" && '\n' !in pat && !Contains(x, pat)
    ensures Index(x + "\n" + (pat + rest), pat) == |x| + 1
  {
    var s := x + "\n" + (pat + rest);
    assert s[|x|] == '\n';
    assert s[|x| + 1..|x| + 1 + |pat|] == pat;
    forall j | 0 <= j < |x| + 1
      ensures !OccursAt(s, pat, j)
    {
      if OccursAt(s, pat, j) {
        EarlierIsInside(x, "\n" + (pat + rest), pat, j);
        assert false;
      }
    }
    hide Index, Contains;
    IndexIsFirst(s, pat, |x| + 1);
  }

  lemma IndexInside(x: string, rest: string, pat: string)
    requires Contains(x, pat)
    ensures 0 <= Index(x + rest, pat) <= |x| - |pat|
    ensures Index(x, pat) == Index(x + rest, pat)
  {
    hide Index;
    var i, j := Index(x, pat), Index(x + rest, pat);
    OccursInSum(x, rest, pat, i);
    OccursInSum(x, rest, pat, j);
    assert OccursAt(x, pat, i);
    if j <= i {
      assert x[j..j + |pat|] == (x + rest)[j..j + |pat|];
    }
  }

  lemma NewlineFirst(x: string, pat: string)
    requires pat != "" && '\n' !in pat
    ensures Contains("\n" + x, pat) <==> Contains(x, pat)
  {
    if i :| OccursAt(x, pat, i) {
      OccursInSum("\n", x, pat, i);
    }
    if i :| OccursAt("\n" + x, pat, i) {
      if i <= 0 {
        NoNewlineInside("\n" + x, pat, i, 0);
        assert false;
      }
      OccurrenceInTail("\n", x, pat, i);
    }
    hide OccursAt;
  }

  lemma StartCharacters(s: string, i: int)
    requires OccursAt(s, BODY_START, i)
    ensures s[i] == '<' && s[i + 1] == 'b'
  {
    assert s[i] == s[i..i + 6][0] && s[i + 1] == s[i..i + 6][1];
  }

  lemma FrontEndHasNoBodyStart()
    ensures !Contains(FRONT_END, BODY_START)
  {
    forall i
      ensures !OccursAt(FRONT_END, BODY_START, i)
    {
      if OccursAt(FRONT_END, BODY_START, i) {
        StartCharacters(FRONT_END, i);
        assert false;
      }
    }
  }

  lemma TrimTagNewlinesFacts(x: string)
    ensures TrimTagNewlines("\n" + x + "\n") == x
    ensures |TrimTagNewlines("\n" + x)| <= |x|
  {
    var s := "\n" + x + "\n";
    assert s[..1] == "\n" && s[1..] == x + "\n";
    assert (x + "\n")[|x + "\n"| - 1..] == "\n" && (x + "\n")[..|x|] == x;
    assert ("\n" + x)[..1] == "\n" && ("\n" + x)[1..] == x;
  }

  // Round trips -----------------------------------------------------------------------

  lemma WholeBody(body: string)
    requires !Contains(body, BODY_END)
    ensures ParseBody("\n" + body + "\n" + BODY_END) == (body, "")
    ensures ParseBody("\n" + body + "\n") == (body, "")
  {
    hide Contains, Index, Trim, TrimTagNewlines;
    var x := "\n" + body;
    NothingAdded(BODY_END);
    NewlineFirst(body, BODY_END);
    TrimTagNewlinesFacts(body);
    IndexOnNextLine(x, BODY_END, "");
    var s := x + "\n" + BODY_END;
    SplitSum(x + "\n", BODY_END);
    assert s[|x| + 1 + |BODY_END|..] == "";
    NothingToTrim();
    NewlineLast(x, BODY_END);
    IndexFacts(x + "\n", BODY_END);
  }

  lemma NothingToTrim()
    ensures Trim(Go, "") == ""
  {
  }

  lemma CutBody(body: string)
    requires Contains(body, BODY_END)
    ensures |ParseBody("\n" + body + "\n" + BODY_END).0| < |body|
  {
    hide Contains, Index, Trim, TrimTagNewlines;
    var x := "\n" + body;
    var s := x + "\n" + BODY_END;
    NewlineFirst(body, BODY_END);
    Assoc(x, "\n", BODY_END);
    IndexInside(x, "\n" + BODY_END, BODY_END);
    var i := Index(s, BODY_END);
    IndexFacts(s, BODY_END);
    if i == 0 {
      NoNewlineInside(s, BODY_END, 0, 0);
      assert false;
    }
    CutAt(body, "\n" + BODY_END, i);
    TrimTagNewlinesFacts(body[..i - 1]);
  }

  lemma CutAt(body: string, rest: string, i: nat)
    requires 0 < i <= |body| + 1
    ensures ("\n" + body + rest)[..i] == "\n" + body[..i - 1]
  {
  }

  lemma NewlineLast(x: string, pat: string)
    requires pat != "" && '\n' !in pat && !Contains(x, pat)
    ensures !Contains(x + "\n", pat)
  {
    forall i
      ensures !OccursAt(x + "\n", pat, i)
    {
      if OccursAt(x + "\n", pat, i) {
        EarlierIsInside(x, "\n", pat, i);
        assert false;
      }
    }
  }

  /** What follows the front matter, in a formatted document. */
  function AfterFront(body: string): string {
    FRONT_END + "\n" + (BODY_START + ("\n" + body + "\n" + BODY_END))
  }

  lemma FormatParts(front: string, body: string)
    ensures Format(front, body) == FRONT_START + ("\n" + front + "\n" + AfterFront(body))
  {
    var f := "\n" + front + "\n";
    var b := "\n" + body + "\n" + BODY_END;
    var before := FRONT_START + "\n" + front + "\n" + FRONT_END + "\n" + BODY_START;
    assert Format(front, body) == before + b;
    assert before == FRONT_START + (f + FRONT_END + "\n" + BODY_START);
    assert f + FRONT_END + "\n" + BODY_START == f + (FRONT_END + "\n" + BODY_START);
    Assoc(FRONT_START, f + (FRONT_END + "\n" + BODY_START), b);
    Assoc(f, FRONT_END + "\n" + BODY_START, b);
    Assoc(FRONT_END + "\n", BODY_START, b);
  }

  lemma FrontStartsText(rest: string)
    ensures Index(FRONT_START + rest, FRONT_START) == 0 && (FRONT_START + rest)[13..] == rest
  {
    assert (FRONT_START + rest)[0..13] == FRONT_START;
    hide Index;
    IndexIsFirst(FRONT_START + rest, FRONT_START, 0);
  }

  /** From the closing tag of the front matter on, the body part is found. */
  lemma BodyIsFound(body: string)
    ensures var from := AfterFront(body);
            && Index(from, BODY_START) == |FRONT_END| + 1
            && from[|FRONT_END| + 1 + |BODY_START|..] == "\n" + body + "\n" + BODY_END
  {
    hide Index, Contains;
    var b := "\n" + body + "\n" + BODY_END;
    FrontEndHasNoBodyStart();
    IndexOnNextLine(FRONT_END, BODY_START, b);
    Assoc(FRONT_END + "\n", BODY_START, b);
    SplitSum(FRONT_END + "\n" + BODY_START, b);
  }

  lemma FrontIsFound(front: string, after: string)
    requires !Contains(front, FRONT_END)
    ensures var s := "\n" + front + "\n" + (FRONT_END + after);
            && Index(s, FRONT_END) == |front| + 2
            && s[..|front| + 2] == "\n" + front + "\n" && s[|front| + 2..] == FRONT_END + after
  {
    hide Index, Contains;
    NewlineFirst(front, FRONT_END);
    IndexOnNextLine("\n" + front, FRONT_END, after);
    SplitSum("\n" + front + "\n", FRONT_END + after);
  }

  /** A closing tag within the front matter ends it early. */
  lemma FrontIsCut(front: string, rest: string)
    requires Contains(front, FRONT_END)
    ensures var s := "\n" + front + "\n" + rest;
            Index(s, FRONT_END) != -1 && |TrimTagNewlines(s[..Index(s, FRONT_END)])| < |front|
  {
    hide Index, Contains, TrimTagNewlines;
    var x := "\n" + front;
    var s := x + "\n" + rest;
    NewlineFirst(front, FRONT_END);
    Assoc(x, "\n", rest);
    IndexInside(x, "\n" + rest, FRONT_END);
    var i := Index(s, FRONT_END);
    IndexFacts(s, FRONT_END);
    if i == 0 {
      NoNewlineInside(s, FRONT_END, 0, 0);
      assert false;
    }
    CutAt(front, "\n" + rest, i);
    TrimTagNewlinesFacts(front[..i - 1]);
  }

  lemma ParseSteps(rest: string)
    ensures var text := FRONT_START + rest;
            var frontEnd := Index(rest, FRONT_END);
            Parse(text)
            == if frontEnd == -1 then Failure(MissingTag(FRONT_END))
               else
                 var bodyStart := Index(rest[frontEnd..], BODY_START);
                 if bodyStart == -1 then Failure(MissingTag(BODY_START))
                 else
                   var (body, suffix) := ParseBody(rest[frontEnd..][bodyStart + |BODY_START|..]);
                   if suffix != "" then Failure(TextOutside)
                   else Success(Tagged(TrimTagNewlines(rest[..frontEnd]), body))
  {
    hide Index, ParseBody, TrimTagNewlines, Trim;
    FrontStartsText(rest);
    NothingToTrim();
    assert (FRONT_START + rest)[..0] == "";
  }

  /**
   A formatted document comes back exactly when its front matter lacks the closing tag
   of front matter, and its body that of bodies.
   */
  lemma ParseUndoesFormatIff(front: string, body: string)
    ensures Parse(Format(front, body)) == Success(Tagged(front, body))
            <==> !Contains(front, FRONT_END) && !Contains(body, BODY_END)
  {
    hide *;
    FormatParts(front, body);
    var rest := "\n" + front + "\n" + AfterFront(body);
    ParseSteps(rest);
    AfterFrontStarts(body);
    if Contains(front, FRONT_END) {
      FrontIsCut(front, AfterFront(body));
    } else {
      FrontIsFound(front, AfterFrontTail(body));
      BodyIsFound(body);
      TrimTagNewlinesFacts(front);
      if Contains(body, BODY_END) {
        CutBody(body);
      } else {
        WholeBody(body);
      }
    }
  }

  function AfterFrontTail(body: string): string {
    "\n" + (BODY_START + ("\n" + body + "\n" + BODY_END))
  }

  lemma AfterFrontStarts(body: string)
    ensures AfterFront(body) == FRONT_END + AfterFrontTail(body)
  {
    Assoc(FRONT_END, "\n", BODY_START + ("\n" + body + "\n" + BODY_END));
  }

  /** A reply without the last closing tag is accepted as if it had one. */
  lemma ClosingTagIsOptional(front: string, body: string)
    requires !Contains(front, FRONT_END) && !Contains(body, BODY_END)
    ensures var whole := Format(front, body);
            && EndsWith(whole, BODY_END)
            && Parse(whole[..|whole| - |BODY_END|]) == Success(Tagged(front, body))
  {
    hide Parse, Contains, Index, Trim, TrimTagNewlines;
    var whole := Format(front, body);
    var cut := FRONT_START + "\n" + front + "\n" + FRONT_END + "\n" + BODY_START + "\n" + body + "\n";
    SplitSum(cut, BODY_END);
    assert whole == cut + BODY_END;
    CutParts(front, body);
    CutParses(front, body);
  }

  lemma CutParts(front: string, body: string)
    ensures FRONT_START + "\n" + front + "\n" + FRONT_END + "\n" + BODY_START + "\n" + body + "\n"
            == FRONT_START + ("\n" + front + "\n" + (FRONT_END + ("\n" + (BODY_START + ("\n" + body + "\n")))))
  {
    var f := "\n" + front + "\n";
    var b := "\n" + body + "\n";
    var before := FRONT_START + "\n" + front + "\n" + FRONT_END + "\n" + BODY_START;
    assert before + "\n" + body + "\n" == before + b;
    assert before == FRONT_START + (f + FRONT_END + "\n" + BODY_START);
    assert f + FRONT_END + "\n" + BODY_START == f + (FRONT_END + "\n" + BODY_START);
    Assoc(FRONT_START, f + (FRONT_END + "\n" + BODY_START), b);
    Assoc(f, FRONT_END + "\n" + BODY_START, b);
    Assoc(FRONT_END + "\n", BODY_START, b);
    Assoc(FRONT_END, "\n", BODY_START + b);
  }

  lemma TagIsOneLine()
    ensures BODY_START != "" && '\n' !in BODY_START
  {
  }

  lemma CutParses(front: string, body: string)
    requires !Contains(front, FRONT_END) && !Contains(body, BODY_END)
    ensures Parse(FRONT_START + ("\n" + front + "\n" + (FRONT_END + ("\n" + (BODY_START + ("\n" + body + "\n"))))))
            == Success(Tagged(front, body))
  {
    hide *;
    var b := "\n" + body + "\n";
    var tail := "\n" + (BODY_START + b);
    ParseSteps("\n" + front + "\n" + (FRONT_END + tail));
    FrontIsFound(front, tail);
    Assoc(FRONT_END, "\n", BODY_START + b);
    FrontEndHasNoBodyStart();
    TagIsOneLine();
    IndexOnNextLine(FRONT_END, BODY_START, b);
    Assoc(FRONT_END + "\n", BODY_START, b);
    SplitSum(FRONT_END + "\n" + BODY_START, b);
    TrimTagNewlinesFacts(front);
    WholeBody(body);
  }

  // Text around the tags -----------------------------------------------------------------

  /** The steps of parsing, from the first opening tag on. */
  lemma ParseStepsBehind(before: string, rest: string)
    requires Index(before + (FRONT_START + rest), FRONT_START) == |before|
    ensures var frontEnd := Index(rest, FRONT_END);
            Parse(before + (FRONT_START + rest))
            == if frontEnd == -1 then Failure(MissingTag(FRONT_END))
               else
                 var bodyStart := Index(rest[frontEnd..], BODY_START);
                 if bodyStart == -1 then Failure(MissingTag(BODY_START))
                 else
                   var (body, suffix) := ParseBody(rest[frontEnd..][bodyStart + |BODY_START|..]);
                   if Trim(Go, before) != "" || suffix != "" then Failure(TextOutside)
                   else Success(Tagged(TrimTagNewlines(rest[..frontEnd]), body))
  {
    hide Index, ParseBody, TrimTagNewlines, Trim;
    var text := before + (FRONT_START + rest);
    SplitSum(before, FRONT_START + rest);
    SplitSum(FRONT_START, rest);
    assert text[|before| + |FRONT_START|..] == rest;
  }

  lemma WholeBodyAnd(body: string, after: string)
    requires !Contains(body, BODY_END)
    ensures ParseBody("\n" + body + "\n" + (BODY_END + after)) == (body, Trim(Go, after))
  {
    hide Contains, Index, Trim, TrimTagNewlines;
    var x := "\n" + body;
    NewlineFirst(body, BODY_END);
    TrimTagNewlinesFacts(body);
    IndexOnNextLine(x, BODY_END, after);
    SplitSum(x + "\n", BODY_END + after);
    SplitSum(BODY_END, after);
    assert (x + "\n" + (BODY_END + after))[|x| + 1 + |BODY_END|..] == after;
  }

  /** A document with text around it: it comes back exactly when that is blank, and is refused otherwise. */
  lemma TextAroundIff(before: string, front: string, body: string, after: string)
    requires !Contains(front, FRONT_END) && !Contains(body, BODY_END)
    requires Index(before + (Format(front, body) + after), FRONT_START) == |before|
    ensures Parse(before + (Format(front, body) + after))
            == if Trim(Go, before) == "" && Trim(Go, after) == "" then Success(Tagged(front, body))
               else Failure(TextOutside)
  {
    hide *;
    var tail := BODY_END + after;
    var from := FRONT_END + ("\n" + (BODY_START + ("\n" + body + "\n" + tail)));
    FormatAnd(front, body, after);
    ParseStepsBehind(before, "\n" + front + "\n" + from);
    FrontIsFound(front, "\n" + (BODY_START + ("\n" + body + "\n" + tail)));
    BodyIsFoundIn("\n" + body + "\n" + tail);
    WholeBodyAnd(body, after);
    TrimTagNewlinesFacts(front);
  }

  lemma FormatAnd(front: string, body: string, after: string)
    ensures Format(front, body) + after
            == FRONT_START + ("\n" + front + "\n"
                              + (FRONT_END + ("\n" + (BODY_START + ("\n" + body + "\n" + (BODY_END + after))))))
  {
    FormatParts(front, body);
    AfterFrontStarts(body);
    var b, f := "\n" + body + "\n", "\n" + front + "\n";
    hide *;
    Assoc(b, BODY_END, after);
    Assoc(BODY_START, b + BODY_END, after);
    Assoc("\n", BODY_START + (b + BODY_END), after);
    Assoc(FRONT_END, "\n" + (BODY_START + (b + BODY_END)), after);
    Assoc(f, AfterFront(body), after);
    Assoc(FRONT_START, f + AfterFront(body), after);
    TailIs(body);
  }

  lemma TailIs(body: string)
    ensures AfterFrontTail(body) == "\n" + (BODY_START + ("\n" + body + "\n" + BODY_END))
  {
  }

  lemma BodyIsFoundIn(b: string)
    ensures var from := FRONT_END + ("\n" + (BODY_START + b));
            && Index(from, BODY_START) == |FRONT_END| + 1
            && from[|FRONT_END| + 1 + |BODY_START|..] == b
  {
    hide Index, Contains;
    FrontEndHasNoBodyStart();
    IndexOnNextLine(FRONT_END, BODY_START, b);
    Assoc(FRONT_END, "\n", BODY_START + b);
    SplitSum(FRONT_END + "\n", BODY_START + b);
    SplitSum(BODY_START, b);
    var from := FRONT_END + ("\n" + (BODY_START + b));
    assert from[|FRONT_END| + 1..] == BODY_START + b;
    assert from[|FRONT_END| + 1 + |BODY_START|..] == (BODY_START + b)[|BODY_START|..];
  }

  /** The first tag that is missing is reported: each one is looked for behind the one before it. */
  lemma MissingTagIff(before: string, front: string, rest: string)
    ensures !Contains(rest, "<frontmatter>") <==> Parse(rest) == Failure(MissingTag("<frontmatter>"))
    ensures var text := before + (FRONT_START + rest);
            Index(text, FRONT_START) == |before| ==>
              (Parse(text) == Failure(MissingTag("</frontmatter>")) <==> !Contains(rest, "</frontmatter>"))
    ensures var text := before + (FRONT_START + (front + (FRONT_END + rest)));
            Index(text, FRONT_START) == |before| && Index(front + (FRONT_END + rest), FRONT_END) == |front| ==>
              (Parse(text) == Failure(MissingTag("<body>")) <==> !Contains(FRONT_END + rest, "<body>"))
  {
    hide Index, ParseBody, TrimTagNewlines, Trim, Contains;
    IndexFacts(rest, FRONT_START);
    IndexFacts(rest, FRONT_END);
    IndexFacts(FRONT_END + rest, BODY_START);
    assert FRONT_START != FRONT_END && FRONT_START != BODY_START && FRONT_END != BODY_START by {
      assert FRONT_START[1] == 'f' && FRONT_END[1] == '/' && BODY_START[1] == 'b';
    }
    if Index(before + (FRONT_START + rest), FRONT_START) == |before| {
      ParseStepsBehind(before, rest);
    }
    var s := front + (FRONT_END + rest);
    if Index(before + (FRONT_START + s), FRONT_START) == |before| && Index(s, FRONT_END) == |front| {
      ParseStepsBehind(before, s);
      SplitSum(front, FRONT_END + rest);
    }
    hide Parse;
  }
}
