/** Applying a patch and then the same patch with old and new lines exchanged. */
module PatchBack {
  import opened Wrappers
  import opened Text
  import opened PatchUpdate
  import opened PatchEffect

  // Reading and writing a file ------------------------------------------------

  predicate EndsInNewline(text: string) {
    text != "" && text[|text| - 1] == '\n'
  }

  /** Texts that reading and writing leave alone: empty, or ended by exactly one newline. */
  predicate Canonical(text: string) {
    text == "" || (EndsInNewline(text) && |text| > 1 && text[|text| - 2] != '\n')
  }

  predicate EndsBlank(lines: seq<string>) {
    lines != [] && lines[|lines| - 1] == ""
  }

  predicate Plain(lines: seq<string>) {
    forall i | 0 <= i < |lines| :: '\n' !in lines[i]
  }

  lemma JoinBlank(lines: seq<string>)
    requires lines != []
    ensures Join(lines + [""], '\n') == Join(lines, '\n') + "\n"
  {
    JoinAppend(lines, [""], '\n');
    assert Join([""], '\n') == "";
  }

  lemma WriteOfRead(text: string)
    ensures WriteLines(ReadLines(text)) == text <==> Canonical(text)
  {
    var parts := Split(text, '\n');
    JoinOfSplit(text, '\n');
    SplitPartsLackSep(text, '\n');
    JoinEnd(parts);
    hide Split;
    if !EndsBlank(parts) {
      assert WriteLines(parts) == Join(parts + [""], '\n');
      hide *;
      JoinBlank(parts);
    } else if |parts| == 1 {
      assert parts == [""];
    } else {
      var lines := parts[..|parts| - 1];
      assert parts == lines + [""];
      hide Join;
      JoinBlank(lines);
      JoinEnd(lines);
      assert |text| == 1 || text[|text| - 2] == '\n' <==> EndsBlank(lines) by {
        var body := Join(lines, '\n');
        assert text == body + "\n";
        assert body != "" ==> text[|text| - 2] == body[|body| - 1];
      }
    }
  }

  /** How a joined text ends. */
  lemma {:induction false} JoinEnd(lines: seq<string>)
    requires lines != [] && Plain(lines)
    ensures var text := Join(lines, '\n');
            && (text == "" <==> lines == [""])
            && (EndsInNewline(text) <==> |lines| > 1 && EndsBlank(lines))
  {
    if |lines| > 1 {
      JoinEnd(lines[1..]);
      var rest := Join(lines[1..], '\n');
      if rest == "" {
        assert lines[1..] == [""];
      } else {
        assert EndsInNewline(rest) <==> EndsInNewline(lines[0] + ['\n'] + rest);
      }
    } else if lines[0] != "" {
      assert lines[0][|lines[0]| - 1] in lines[0];
    }
  }

  lemma ReadOfWrite(lines: seq<string>)
    requires Plain(lines)
    ensures ReadLines(WriteLines(lines)) == if EndsBlank(lines) then lines[..|lines| - 1] else lines
  {
    if EndsBlank(lines) {
      SplitOfJoin(lines, '\n');
    } else {
      SplitOfJoin(lines + [""], '\n');
    }
  }

  lemma {:induction false} SwapTwice(sites: seq<Site>)
    ensures Swapped(Swapped(sites)) == sites
  {
    if sites == [] {
    } else {
      SwapTwice(sites[1..]);
      assert Swapped(sites)[1..] == Swapped(sites[1..]);
    }
  }

  lemma {:induction false} OldVersionTail(sites: seq<Site>, a: seq<string>, b: seq<string>)
    ensures OldVersion(sites, a + b) == OldVersion(sites, a) + b
  {
    if sites == [] {
    } else {
      OldVersionTail(sites[1..], a, b);
    }
  }

  /** Dropping lines after the last block leaves every block anchored. */
  lemma {:induction false} AnchoredPrefix(
    lines: seq<string>, short: seq<string>, sites: seq<Site>, tail: seq<string>, cursor: nat)
    requires short <= lines && cursor <= |short| && short[cursor..] == OldVersion(sites, tail)
    requires Anchored(lines, sites, cursor)
    ensures Anchored(short, sites, cursor)
    decreases |sites|
  {
    if sites == [] {
    } else {
      var s := sites[0];
      var place := cursor + |s.gap|;
      Blocks(short, cursor, s.gap, s.oldLines, OldVersion(sites[1..], tail));
      forall j: nat | cursor <= j < place
        ensures !BlockAt(short, s.oldLines, j)
      {
        if BlockAt(short, s.oldLines, j) {
          assert lines[j..j + |s.oldLines|] == short[j..j + |s.oldLines|];
          assert BlockAt(lines, s.oldLines, j);
        }
      }
      AnchoredPrefix(lines, short, sites[1..], tail, place + |s.oldLines|);
    }
  }

  lemma UpdateOfBlocks(text: string, sites: seq<Site>, tail: seq<string>)
    requires ReadLines(text) == OldVersion(sites, tail)
    requires Anchored(OldVersion(sites, tail), sites, 0)
    ensures UpdateText(text, ChunksOf(sites)) == Success(WriteLines(NewVersion(sites, tail)))
  {
    hide ComputeEdits, SpliceAll, Anchored, OldVersion, NewVersion, ChunksOf, WriteLines, ReadLines;
    PatchRewritesBlocks(sites, tail);
  }

  /** What patching and patching back leaves of a file. */
  lemma RoundTripLines(sites: seq<Site>, tail: seq<string>)
    requires Anchored(NewVersion(sites, tail), Swapped(sites), 0) && Plain(NewVersion(sites, tail))
    requires tail != [] || !EndsBlank(NewVersion(sites, tail))
    ensures var left := if EndsBlank(NewVersion(sites, tail)) then tail[..|tail| - 1] else tail;
            UpdateText(WriteLines(NewVersion(sites, tail)), ChunksOf(Swapped(sites)))
            == Success(WriteLines(OldVersion(sites, left)))
  {
    hide *;
    var swapped := Swapped(sites);
    var patched := NewVersion(sites, tail);
    var left := if EndsBlank(patched) then tail[..|tail| - 1] else tail;
    NewVersionOf(sites, tail);
    NewVersionOf(swapped, left);
    SwapTwice(sites);
    if EndsBlank(patched) {
      SharedEnd(sites, tail);
      SplitBlankEnd(tail);
      OldVersionTail(swapped, left, [""]);
      assert patched == OldVersion(swapped, left) + [""];
      SplitSum(OldVersion(swapped, left), [""]);
      WholeFromStart(OldVersion(swapped, left));
      AnchoredPrefix(patched, OldVersion(swapped, left), swapped, left, 0);
    }
    ReadOfWrite(patched);
    UpdateOfBlocks(WriteLines(patched), swapped, left);
  }

  lemma NewVersionOf(sites: seq<Site>, tail: seq<string>)
    ensures NewVersion(sites, tail) == OldVersion(Swapped(sites), tail)
  {
  }

  lemma WholeFromStart(lines: seq<string>)
    ensures lines[0..] == lines
  {
  }

  lemma TextWithBlankEnd(text: string)
    requires EndsBlank(ReadLines(text))
    ensures text == Join(ReadLines(text), '\n') + "\n"
  {
    var parts := Split(text, '\n');
    JoinOfSplit(text, '\n');
    var lines := ReadLines(text);
    assert parts == lines + [""];
    hide Split, Join;
    JoinBlank(lines);
  }

  lemma CanonicalIffNoBlankEnd(text: string)
    ensures EndsBlank(ReadLines(text)) ==> !Canonical(text)
    ensures EndsInNewline(text) ==> (Canonical(text) <==> !EndsBlank(ReadLines(text)))
  {
    var parts := Split(text, '\n');
    WriteOfRead(text);
    JoinOfSplit(text, '\n');
    SplitPartsLackSep(text, '\n');
    JoinEnd(parts);
    hide Split, Join;
    if EndsBlank(ReadLines(text)) {
      TextWithBlankEnd(text);
    } else if EndsInNewline(text) {
      assert parts == ReadLines(text) + [""];
    }
  }

  lemma SharedEnd(sites: seq<Site>, tail: seq<string>)
    requires tail != []
    ensures EndsBlank(OldVersion(sites, tail)) <==> EndsBlank(tail)
    ensures EndsBlank(NewVersion(sites, tail)) <==> EndsBlank(tail)
  {
    OldVersionTail(sites, [], tail);
    OldVersionTail(Swapped(sites), [], tail);
    assert [] + tail == tail;
  }

  /** A file whose last line is blank is longer than what is written for the lines before that one. */
  lemma BlankEndIsLost(text: string, front: seq<string>)
    requires ReadLines(text) == front + [""]
    ensures WriteLines(front) != text
  {
    TextWithBlankEnd(text);
    assert WriteLines([]) == "";
    hide Join;
    if front != [] {
      JoinBlank(front);
    }
  }

  lemma LeftIsTextIffCanonical(text: string, sites: seq<Site>, tail: seq<string>, left: seq<string>)
    requires ReadLines(text) == OldVersion(sites, tail)
    requires if EndsBlank(NewVersion(sites, tail)) then tail != [] && left == tail[..|tail| - 1] else left == tail
    ensures WriteLines(OldVersion(sites, left)) == text <==> Canonical(text)
  {
    hide *;
    if EndsBlank(NewVersion(sites, tail)) {
      SharedEnd(sites, tail);
      SplitBlankEnd(tail);
      CanonicalIffNoBlankEnd(text);
      OldVersionTail(sites, left, [""]);
      BlankEndIsLost(text, OldVersion(sites, left));
    } else {
      WriteOfRead(text);
    }
  }

  lemma SplitBlankEnd(lines: seq<string>)
    requires EndsBlank(lines)
    ensures lines != [] && lines == lines[..|lines| - 1] + [""]
  {
  }

  // A blank end with nothing behind it --------------------------------------------

  lemma {:induction false} OldVersionOfMore(a: seq<Site>, b: seq<Site>, tail: seq<string>)
    ensures OldVersion(a + b, tail) == OldVersion(a, OldVersion(b, tail))
    ensures Swapped(a + b) == Swapped(a) + Swapped(b) && ChunksOf(a + b) == ChunksOf(a) + ChunksOf(b)
  {
    if a == [] {
      NothingAdded(b);
      NothingAdded(Swapped(b));
      NothingAdded(ChunksOf(b));
    } else {
      assert (a + b)[0] == a[0] && (a + b)[1..] == a[1..] + b;
      OldVersionOfMore(a[1..], b, tail);
      Assoc([Site(a[0].gap, a[0].newLines, a[0].oldLines)], Swapped(a[1..]), Swapped(b));
      Assoc([Chunk(None, a[0].oldLines, a[0].newLines, false)], ChunksOf(a[1..]), ChunksOf(b));
    }
  }

  lemma OldVersionIsStart(sites: seq<Site>, tail: seq<string>)
    ensures OldVersion(sites, tail) == OldVersion(sites, []) + tail
  {
    OldVersionTail(sites, [], tail);
    NothingAdded(tail);
  }

  lemma {:induction false} AnchoredParts(lines: seq<string>, a: seq<Site>, b: seq<Site>, cursor: nat)
    requires Anchored(lines, a + b, cursor)
    ensures Anchored(lines, a, cursor) && Anchored(lines, b, cursor + |OldVersion(a, [])|)
    decreases |a|
  {
    hide BlockAt;
    if a == [] {
      NothingAdded(b);
    } else {
      assert (a + b)[0] == a[0] && (a + b)[1..] == a[1..] + b;
      AnchoredParts(lines, a[1..], b, cursor + |a[0].gap| + |a[0].oldLines|);
    }
  }

  /** Chunks for anchored blocks, and one more chunk behind them. */
  lemma {:induction false} LocateThenOne(lines: seq<string>, sites: seq<Site>, last: Chunk, cursor: nat, p: Placed)
    requires Anchored(lines, sites, cursor)
    requires Place(lines, last, cursor + |OldVersion(sites, [])|) == Success(p)
    ensures Locate(lines, ChunksOf(sites) + [last], cursor) == Success(EditsOf(sites, cursor) + [p.edit])
    decreases |sites|
  {
    hide Place, Locate;
    if sites == [] {
      NoMoreChunks(lines, p.cursor);
      LocateCons(lines, last, [], cursor, p, []);
      NothingAdded([last]);
      NothingAdded([p.edit]);
    } else {
      var place := cursor + |sites[0].gap|;
      var next := place + |sites[0].oldLines|;
      var placed := Placed(Edit(place, |sites[0].oldLines|, sites[0].newLines), next);
      AnchoredPlace(lines, sites, cursor);
      LocateThenOne(lines, sites[1..], last, next, p);
      var more, edits := ChunksOf(sites[1..]) + [last], EditsOf(sites[1..], next) + [p.edit];
      LocateCons(lines, ChunksOf(sites)[0], more, cursor, placed, edits);
      Assoc([ChunksOf(sites)[0]], ChunksOf(sites[1..]), [last]);
      Assoc([placed.edit], EditsOf(sites[1..], next), [p.edit]);
    }
  }

  lemma NoMoreChunks(lines: seq<string>, cursor: nat)
    ensures Locate(lines, [], cursor) == Success([])
  {
  }

  /** One edit behind the others, in what is left of the lines. */
  function EditRest(rest: seq<string>, from: nat, e: Edit): seq<string>
    requires from <= e.start && e.start + e.oldLen <= from + |rest|
  {
    rest[..e.start - from] + e.newLines + rest[e.start + e.oldLen - from..]
  }

  /** Splicing goes from the right, so the last edit comes first. */
  lemma {:induction false} SpliceLastFirst(lines: seq<string>, edits: seq<Edit>, last: Edit)
    ensures SpliceAll(lines, edits + [last]) == SpliceAll(SpliceOne(lines, last), edits)
    decreases |edits|
  {
    hide SpliceOne;
    if edits == [] {
      NothingAdded([last]);
      assert [last][1..] == [];
      assert SpliceAll(lines, [last][1..]) == lines;
    } else {
      assert (edits + [last])[0] == edits[0] && (edits + [last])[1..] == edits[1..] + [last];
      SpliceLastFirst(lines, edits[1..], last);
    }
  }

  lemma {:induction false} EditsOfEnd(sites: seq<Site>, pos: nat)
    ensures forall i | 0 <= i < |EditsOf(sites, pos)| ::
              EditsOf(sites, pos)[i].start + EditsOf(sites, pos)[i].oldLen <= pos + |OldVersion(sites, [])|
    decreases |sites|
  {
    if sites == [] {
    } else {
      EditsOfEnd(sites[1..], pos + |sites[0].gap| + |sites[0].oldLines|);
    }
  }

  lemma OneMoreStaysDisjoint(edits: seq<Edit>, last: Edit)
    requires Disjoint(edits) && forall i | 0 <= i < |edits| :: Before(edits[i], last)
    ensures Disjoint(edits + [last])
  {
    hide Before;
    forall i | 0 <= i < |edits + [last]|
      ensures (edits + [last])[i] == if i < |edits| then edits[i] else last
    {
    }
  }

  lemma SpliceInRest(lines: seq<string>, base: seq<string>, rest: seq<string>, e: Edit)
    requires lines == base + rest && |base| <= e.start && e.start + e.oldLen <= |lines|
    ensures SpliceOne(lines, e) == base + EditRest(rest, |base|, e)
  {
    SpliceWithinRange(lines, e);
    hide SpliceOne;
    assert lines[..e.start] == base + rest[..e.start - |base|];
    assert lines[e.start + e.oldLen..] == rest[e.start + e.oldLen - |base|..];
  }

  lemma SplicedBlocks(sites: seq<Site>, tail: seq<string>)
    ensures SpliceAll(OldVersion(sites, tail), EditsOf(sites, 0)) == NewVersion(sites, tail)
    ensures Disjoint(EditsOf(sites, 0))
  {
    var lines := OldVersion(sites, tail);
    assert lines[0..] == lines && lines[..0] == [];
    EditsOfAreOrdered(lines, sites, tail, 0);
    EditsOfRewrite(lines, sites, tail, 0);
    SplicingIsLeftToRight(lines, EditsOf(sites, 0), 0);
    hide SpliceAll, OldVersion, NewVersion, EditsOf, LeftToRight;
    NothingAdded(NewVersion(sites, tail));
  }

  /** A patch of blocks and one more chunk behind them. */
  lemma UpdateThenOne(text: string, sites: seq<Site>, rest: seq<string>, last: Chunk, p: Placed)
    requires ReadLines(text) == OldVersion(sites, rest) && Anchored(OldVersion(sites, rest), sites, 0)
    requires var lines, c := OldVersion(sites, rest), |OldVersion(sites, [])|;
             && Place(lines, last, c) == Success(p)
             && c <= p.edit.start && p.edit.start + p.edit.oldLen <= |lines| == c + |rest|
    ensures UpdateText(text, ChunksOf(sites) + [last])
            == Success(WriteLines(NewVersion(sites, EditRest(rest, |OldVersion(sites, [])|, p.edit))))
  {
    hide Place, Locate, Anchored, OldVersion, NewVersion, ReadLines, WriteLines, EditRest, EditsOf, ChunksOf,
         SpliceAll, SpliceOne, Disjoint, SortByStart;
    var lines, base := OldVersion(sites, rest), OldVersion(sites, []);
    var edits := EditsOf(sites, 0);
    LocateThenOne(lines, sites, last, 0, p);
    SplicedBlocks(sites, EditRest(rest, |base|, p.edit));
    EditsOfEnd(sites, 0);
    OneMoreStaysDisjoint(edits, p.edit);
    SortedStaysSorted(edits + [p.edit]);
    SpliceLastFirst(lines, edits, p.edit);
    OldVersionIsStart(sites, rest);
    OldVersionIsStart(sites, EditRest(rest, |base|, p.edit));
    SpliceInRest(lines, base, rest, p.edit);
  }

  /** The cursor with which the last block of the new version is searched. */
  function LastCursor(sites: seq<Site>): nat
    requires sites != []
  {
    |OldVersion(Swapped(sites[..|sites| - 1]), [])|
  }

  /**
   The new version ends in a blank line that is not written back. Then the last block is
   searched without it; this says that it is not found as it was, and found in its place
   once its own blank end is dropped.
   */
  predicate FoundWithoutBlankEnd(sites: seq<Site>)
    requires sites != [] && EndsBlank(NewVersion(sites, []))
  {
    var s, written := sites[|sites| - 1], DropLastBlank(NewVersion(sites, []));
    && Seek(written, s.newLines, LastCursor(sites), false) == None
    && Seek(written, DropLastBlank(s.newLines), LastCursor(sites), false) == Some(LastCursor(sites) + |s.gap|)
  }

  lemma PlainSum(a: seq<string>, b: seq<string>)
    ensures Plain(a + b) <==> Plain(a) && Plain(b)
  {
    assert forall i | 0 <= i < |a| :: (a + b)[i] == a[i];
    assert forall i | 0 <= i < |b| :: (a + b)[|a| + i] == b[i];
  }

  lemma ReadIsPlain(text: string)
    ensures Plain(ReadLines(text))
  {
    SplitPartsLackSep(text, '\n');
    hide Split;
  }

  /** Written lines are a text only when they are its lines, give or take a blank one at the end. */
  lemma WrittenIsText(lines: seq<string>, text: string)
    requires Plain(lines) && WriteLines(lines) == text
    ensures if EndsBlank(lines) then |ReadLines(text)| == |lines| - 1 else ReadLines(text) == lines
  {
    ReadOfWrite(lines);
    hide ReadLines, WriteLines;
  }

  /** The last chunk of the way back, as it is placed. */
  lemma LastPlace(lines: seq<string>, s: Site, c: nat) returns (p: Placed)
    requires c + |s.gap| + |s.newLines| == |lines| + 1 && EndsBlank(s.newLines)
    requires lines[c..] == s.gap + DropLastBlank(s.newLines)
    ensures Place(lines, Chunk(None, s.newLines, s.oldLines, false), c) == Success(p)
    ensures var found, short := Seek(lines, s.newLines, c, false), DropLastBlank(s.newLines);
            if found.Some? then p.edit == Edit(found.value, |s.newLines|, s.oldLines)
            else Seek(lines, short, c, false) == Some(p.edit.start)
                 && p.edit == Edit(p.edit.start, |short|, DropLastBlank(s.oldLines))
                 && p.edit.start <= c + |s.gap|
    ensures c <= p.edit.start && p.edit.start + p.edit.oldLen <= |lines|
  {
    hide *;
    var found, short := Seek(lines, s.newLines, c, false), DropLastBlank(s.newLines);
    var again := Seek(lines, short, c, false);
    DropOne(s.newLines);
    ShortIsFound(lines, s.gap, short, c);
    SeekInRange(lines, s.newLines, c, false);
    SeekInRange(lines, short, c, false);
    PlaceOfChunk(lines, s.newLines, s.oldLines, c);
    if found.Some? {
      p := Placed(Edit(found.value, |s.newLines|, s.oldLines), found.value + |s.newLines|);
    } else {
      p := Placed(Edit(again.value, |short|, DropLastBlank(s.oldLines)), again.value + |short|);
    }
  }

  lemma PlaceOfChunk(lines: seq<string>, pattern: seq<string>, inserted: seq<string>, c: nat)
    requires EndsBlank(pattern)
    ensures var found, short := Seek(lines, pattern, c, false), DropLastBlank(pattern);
            var again := Seek(lines, short, c, false);
            Place(lines, Chunk(None, pattern, inserted, false), c)
            == if found.Some? then Success(Placed(Edit(found.value, |pattern|, inserted), found.value + |pattern|))
               else if again.Some? then
                 Success(Placed(Edit(again.value, |short|, DropLastBlank(inserted)), again.value + |short|))
               else Failure(LinesNotFound(pattern))
  {
    hide Seek, DropLastBlank;
  }

  lemma ShortIsFound(lines: seq<string>, gap: seq<string>, short: seq<string>, c: nat)
    requires c <= |lines| && lines[c..] == gap + short
    ensures var r := Seek(lines, short, c, false); r.Some? && r.value <= c + |gap|
  {
    if short != [] {
      var place := c + |gap|;
      assert lines[place..place + |short|] == lines[c..][|gap|..|gap| + |short|] == short;
      ExactMatch(lines, short, place);
      hide MatchesAt;
    }
  }

  /** Where an old block is put back elsewhere than in its place, the lines are not the old ones. */
  lemma MisplacedIsDifferent(lines: seq<string>, base: seq<string>, s: Site, rest: seq<string>, e: Edit)
    requires lines == base + (s.gap + s.oldLines) && Anchored(lines, [s], |base|)
    requires |base| <= e.start < |base| + |s.gap| && e.start + e.oldLen <= |base| + |rest| && e.newLines == s.oldLines
    ensures base + EditRest(rest, |base|, e) != lines
  {
    var d := e.start - |base|;
    var result := base + EditRest(rest, |base|, e);
    assert result[e.start..e.start + |s.oldLines|] == s.oldLines;
    assert !BlockAt(lines, s.oldLines, e.start);
  }

  lemma PutBackInPlace(s: Site, rest: seq<string>, from: nat, e: Edit)
    requires e.start == from + |s.gap| && e.start + e.oldLen == from + |rest| && e.newLines == s.oldLines
    requires rest[..|s.gap|] == s.gap
    ensures EditRest(rest, from, e) == s.gap + s.oldLines
  {
  }

  /** Which lines the way back leaves, and when they are the text again. */
  lemma BackIsText(text: string, base: seq<string>, s: Site, rest: seq<string>, e: Edit, found: bool)
    requires ReadLines(text) == base + (s.gap + s.oldLines) && Anchored(ReadLines(text), [s], |base|)
    requires EndsBlank(s.newLines) && rest == s.gap + DropLastBlank(s.newLines) && Plain(rest)
    requires |base| <= e.start && e.start + e.oldLen <= |base| + |rest|
    requires if found then e == Edit(e.start, |s.newLines|, s.oldLines)
             else e == Edit(e.start, |DropLastBlank(s.newLines)|, DropLastBlank(s.oldLines)) && e.start <= |base| + |s.gap|
    ensures WriteLines(base + EditRest(rest, |base|, e)) == text
            <==> Canonical(text) && !found && e.start == |base| + |s.gap|
  {
    hide ReadLines, WriteLines, Canonical, Anchored, EndsBlank;
    var lines, result := base + (s.gap + s.oldLines), base + EditRest(rest, |base|, e);
    PlainResult(text, base, s, rest, e);
    assert |DropLastBlank(s.newLines)| == |s.newLines| - 1 by {
      DropOne(s.newLines);
    }
    if WriteLines(result) == text {
      WrittenIsText(result, text);
    }
    DropOne(s.oldLines);
    CanonicalIffNoBlankEnd(text);
    OldBlockEndsText(base, s);
    if !found && !EndsBlank(s.oldLines) {
      if e.start < |base| + |s.gap| {
        MisplacedIsDifferent(lines, base, s, rest, e);
      } else {
        SplitSum(s.gap, DropLastBlank(s.newLines));
        PutBackInPlace(s, rest, |base|, e);
        WriteOfRead(text);
      }
    }
    hide DropLastBlank, Plain;
  }

  lemma DropOne(lines: seq<string>)
    ensures if EndsBlank(lines) then |DropLastBlank(lines)| == |lines| - 1 else DropLastBlank(lines) == lines
  {
  }

  lemma OldBlockEndsText(base: seq<string>, s: Site)
    ensures EndsBlank(s.oldLines) ==> EndsBlank(base + (s.gap + s.oldLines))
  {
  }

  lemma PlainResult(text: string, base: seq<string>, s: Site, rest: seq<string>, e: Edit)
    requires ReadLines(text) == base + (s.gap + s.oldLines) && Plain(rest)
    requires |base| <= e.start && e.start + e.oldLen <= |base| + |rest|
    requires e.newLines == s.oldLines || e.newLines == DropLastBlank(s.oldLines)
    ensures Plain(base + EditRest(rest, |base|, e))
  {
    ReadIsPlain(text);
    PlainSum(base, s.gap + s.oldLines);
    PlainSum(s.gap, s.oldLines);
    assert Plain(e.newLines);
    var d := e.start - |base|;
    assert Plain(rest[..d]) && Plain(rest[d + e.oldLen..]);
    hide ReadLines, Plain;
    PlainSum(rest[..d], e.newLines);
    PlainSum(rest[..d] + e.newLines, rest[d + e.oldLen..]);
    PlainSum(base, EditRest(rest, |base|, e));
  }

  lemma LastOfSites(sites: seq<Site>)
    requires sites != []
    ensures var init, s := sites[..|sites| - 1], sites[|sites| - 1];
            && sites == init + [s]
            && OldVersion(sites, []) == OldVersion(init, s.gap + s.oldLines)
            && NewVersion(sites, []) == OldVersion(Swapped(init), s.gap + s.newLines)
            && Swapped(sites) == Swapped(init) + [Site(s.gap, s.newLines, s.oldLines)]
            && ChunksOf(Swapped(sites)) == ChunksOf(Swapped(init)) + [Chunk(None, s.newLines, s.oldLines, false)]
  {
    hide *;
    var init, s := sites[..|sites| - 1], sites[|sites| - 1];
    var turned := Site(s.gap, s.newLines, s.oldLines);
    InitLast(sites);
    OldVersionOfMore(init, [s], []);
    OldVersionOfMore(Swapped(init), [turned], []);
    OneSite(s);
    OneSite(turned);
    NewVersionOf(sites, []);
  }

  lemma OneSite(s: Site)
    ensures OldVersion([s], []) == s.gap + s.oldLines
    ensures Swapped([s]) == [Site(s.gap, s.newLines, s.oldLines)] && ChunksOf([s]) == [Chunk(None, s.oldLines, s.newLines, false)]
  {
    assert [s][1..] == [];
    NothingAdded(s.gap + s.oldLines);
  }

  lemma BlankTail(lines: seq<string>, a: seq<string>, gap: seq<string>, block: seq<string>)
    requires lines == a + (gap + block) && block != [] && EndsBlank(lines)
    ensures EndsBlank(block) && DropLastBlank(lines) == a + (gap + DropLastBlank(block))
    ensures lines == a + (gap + DropLastBlank(block)) + [""]
  {
    InitLast(block);
    Assoc(a, gap, block);
    assert lines[|lines| - 1] == block[|block| - 1];
    assert a + (gap + block[..|block| - 1]) == lines[..|lines| - 1];
  }

  lemma AnchoredNotEmpty(lines: seq<string>, s: Site, cursor: nat)
    requires Anchored(lines, [s], cursor)
    ensures s.oldLines != []
  {
  }

  /** The way back when the new version ends in a blank line and nothing is behind the last block. */
  lemma BlankEndRoundTrip(text: string, sites: seq<Site>)
    requires ReadLines(text) == OldVersion(sites, []) && Anchored(OldVersion(sites, []), sites, 0)
    requires Anchored(NewVersion(sites, []), Swapped(sites), 0) && Plain(NewVersion(sites, []))
    requires sites != [] && EndsBlank(NewVersion(sites, []))
    ensures var back := UpdateText(WriteLines(NewVersion(sites, [])), ChunksOf(Swapped(sites)));
            back.Success? && (back.value == text <==> Canonical(text) && FoundWithoutBlankEnd(sites))
  {
    hide *;
    var init, s := sites[..|sites| - 1], sites[|sites| - 1];
    var turned := Site(s.gap, s.newLines, s.oldLines);
    var patched, before := NewVersion(sites, []), OldVersion(Swapped(init), []);
    var base := OldVersion(init, []);
    var rest := s.gap + DropLastBlank(s.newLines);
    var written := DropLastBlank(patched);
    LastOfSites(sites);
    OldVersionIsStart(init, s.gap + s.oldLines);
    OldVersionIsStart(Swapped(init), s.gap + s.newLines);
    OldVersionIsStart(Swapped(init), rest);
    AnchoredParts(OldVersion(sites, []), init, [s], 0);
    AnchoredParts(patched, Swapped(init), [turned], 0);
    AnchoredNotEmpty(patched, turned, |before|);
    BlankTail(patched, before, s.gap, s.newLines);
    assert written == before + rest == OldVersion(Swapped(init), rest);
    SplitSum(written, [""]);
    WholeFromStart(written);
    AnchoredPrefix(patched, written, Swapped(init), rest, 0);
    ReadOfWrite(patched);
    PlainSum(written, [""]);
    PlainSum(before, rest);
    SplitSum(before, rest);
    DropOne(s.newLines);
    var found := Seek(written, s.newLines, |before|, false);
    var p := LastPlace(written, s, |before|);
    UpdateThenOne(WriteLines(patched), Swapped(init), rest, Chunk(None, s.newLines, s.oldLines, false), p);
    NewVersionOf(Swapped(init), EditRest(rest, |before|, p.edit));
    SwapTwice(init);
    OldVersionIsStart(init, EditRest(rest, |before|, p.edit));
    var e := Edit(p.edit.start - |before| + |base|, p.edit.oldLen, p.edit.newLines);
    SameRest(rest, |before|, p.edit, |base|, e);
    BackIsText(text, base, s, rest, e, found.Some?);
    FoundMeans(sites);
  }

  lemma SameRest(rest: seq<string>, from: nat, e: Edit, from': nat, e': Edit)
    requires from <= e.start && e.start + e.oldLen <= from + |rest|
    requires from' <= e'.start && e'.start - from' == e.start - from
    requires e'.oldLen == e.oldLen && e'.newLines == e.newLines
    ensures EditRest(rest, from, e) == EditRest(rest, from', e')
  {
  }

  lemma FoundMeans(sites: seq<Site>)
    requires sites != [] && EndsBlank(NewVersion(sites, []))
    ensures var s, written := sites[|sites| - 1], DropLastBlank(NewVersion(sites, []));
            var c := |OldVersion(Swapped(sites[..|sites| - 1]), [])|;
            FoundWithoutBlankEnd(sites)
            <==> Seek(written, s.newLines, c, false) == None
                 && Seek(written, DropLastBlank(s.newLines), c, false) == Some(c + |s.gap|)
  {
    hide Seek, NewVersion, OldVersion;
  }

  lemma NoSitesNoBlank()
    ensures !EndsBlank(NewVersion([], []))
  {
  }

  /** The new version ends in a blank line that belongs to the last block. */
  predicate BlankEndIsBlock(sites: seq<Site>, tail: seq<string>) {
    sites != [] && tail == [] && EndsBlank(NewVersion(sites, []))
  }

  /**
   Applying a patch whose blocks first match where they are, and then the same
   patch with old and new lines exchanged. The file comes back exactly when it was
   empty or ended in one newline, and its last block, if it is at the very end and ends
   in a blank line when new, is found in its place without that line.

   Apart from that last case a file that ends in a newline comes back exactly when
   neither version ends in a blank line.
   */
  lemma PatchAndPatchBack(text: string, sites: seq<Site>, tail: seq<string>)
    requires ReadLines(text) == OldVersion(sites, tail)
    requires Anchored(OldVersion(sites, tail), sites, 0)
    requires Anchored(NewVersion(sites, tail), Swapped(sites), 0) && Plain(NewVersion(sites, tail))
    ensures var patched := WriteLines(NewVersion(sites, tail));
            var back := UpdateText(patched, ChunksOf(Swapped(sites)));
            && UpdateText(text, ChunksOf(sites)) == Success(patched)
            && back.Success?
            && (back.value == text
                <==> Canonical(text) && (BlankEndIsBlock(sites, tail) ==> FoundWithoutBlankEnd(sites)))
            && (EndsInNewline(text) && !BlankEndIsBlock(sites, tail) ==>
                 (back.value == text
                  <==> !EndsBlank(OldVersion(sites, tail)) && !EndsBlank(NewVersion(sites, tail))))
  {
    assert BlankEndIsBlock(sites, tail) <==> sites != [] && tail == [] && EndsBlank(NewVersion(sites, tail));
    hide *;
    NoSitesNoBlank();
    UpdateOfBlocks(text, sites, tail);
    CanonicalIffNoBlankEnd(text);
    if BlankEndIsBlock(sites, tail) {
      BlankEndRoundTrip(text, sites);
    } else {
      var left := if EndsBlank(NewVersion(sites, tail)) then tail[..|tail| - 1] else tail;
      RoundTripLines(sites, tail);
      LeftIsTextIffCanonical(text, sites, tail, left);
      if tail != [] {
        SharedEnd(sites, tail);
      }
    }
  }

  lemma UpdateWithOneChunk(text: string, lines: seq<string>, chunk: Chunk, p: Placed)
    requires ReadLines(text) == lines && Place(lines, chunk, 0) == Success(p)
    ensures UpdateText(text, [chunk]) == Success(WriteLines(SpliceOne(lines, p.edit)))
  {
    hide Place, ReadLines, WriteLines, SpliceOne;
    assert Locate(lines, [], p.cursor) == Success([]);
    LocateCons(lines, chunk, [], 0, p, []);
    assert [chunk] + [] == [chunk] && [p.edit] + [] == [p.edit];
    assert [p.edit][1..] == [];
    assert SortByStart([p.edit]) == [p.edit];
    assert SpliceAll(lines, [p.edit][1..]) == lines;
  }

  lemma FindWithoutBlankEnd()
    ensures Place(["b"], Chunk(None, ["b", ""], ["a"], false), 0) == Success(Placed(Edit(0, 1, ["a"]), 1))
  {
    ExactMatch(["b"], ["b"], 0);
    assert ["b"][0..1] == ["b"];
    assert DropLastBlank(["b", ""]) == ["b"] && DropLastBlank(["a"]) == ["a"];
    hide MatchesAt, DropLastBlank;
    assert Earliest(["b"], ["b"], Normalize, Exact, 0) == Some(0);
  }

  lemma FindFirstLine()
    ensures Place(["a"], Chunk(None, ["a"], ["b", ""], false), 0) == Success(Placed(Edit(0, 1, ["b", ""]), 1))
  {
    var site := Site([], ["a"], ["b", ""]);
    assert BlockAt(["a"], ["a"], 0);
    assert Anchored(["a"], [site], 0);
    AnchoredPlace(["a"], [site], 0);
  }

  lemma OneLineFile(a: string)
    requires a != "" && '\n' !in a
    ensures ReadLines(a + "\n") == [a] && WriteLines([a]) == a + "\n" && WriteLines([a, ""]) == a + "\n"
  {
    JoinBlank([a]);
    assert [a] + [""] == [a, ""] && Join([a], '\n') == a;
    hide Join;
    ReadOfWrite([a]);
    hide ReadLines;
  }

  lemma TwoLineFile(a: string, b: string)
    requires b != "" && '\n' !in a && '\n' !in b
    ensures ReadLines(a + "\n" + b + "\n") == [a, b] && WriteLines([a, b]) == a + "\n" + b + "\n"
  {
    JoinBlank([a, b]);
    assert [a] + [b] == [a, b];
    JoinAppend([a], [b], '\n');
    assert Join([a], '\n') == a && Join([b], '\n') == b;
    hide Join;
    ReadOfWrite([a, b]);
    hide ReadLines;
  }

  // With nothing after the last block a blank end can come back, because the search
  // drops a trailing blank line from a pattern it cannot find.
  lemma BlankEndCanComeBack()
    ensures var there, back := Chunk(None, ["a"], ["b", ""], false), Chunk(None, ["b", ""], ["a"], false);
            UpdateText("a\n", [there]) == Success("b\n") && UpdateText("b\n", [back]) == Success("a\n")
  {
    var there, back := Chunk(None, ["a"], ["b", ""], false), Chunk(None, ["b", ""], ["a"], false);
    OneLineFile("a");
    OneLineFile("b");
    assert "a" + "\n" == "a\n" && "b" + "\n" == "b\n";
    hide ReadLines, WriteLines;
    FindFirstLine();
    FindWithoutBlankEnd();
    assert SpliceOne(["a"], Edit(0, 1, ["b", ""])) == ["b", ""] && SpliceOne(["b"], Edit(0, 1, ["a"])) == ["a"];
    hide *;
    UpdateWithOneChunk("a\n", ["a"], there, Placed(Edit(0, 1, ["b", ""]), 1));
    UpdateWithOneChunk("b\n", ["b"], back, Placed(Edit(0, 1, ["a"]), 1));
  }

  // And it can put the old block elsewhere: with its only line blank, the new block is
  // searched as no line at all, which is found at once, before the gap.
  lemma BlankEndCanSwapLines()
    ensures var there, back := Chunk(None, ["a"], [""], false), Chunk(None, [""], ["a"], false);
            UpdateText("g\na\n", [there]) == Success("g\n") && UpdateText("g\n", [back]) == Success("a\ng\n")
  {
    var there, back := Chunk(None, ["a"], [""], false), Chunk(None, [""], ["a"], false);
    assert "g" + "\n" == "g\n" && "a" + "\n" + "g" + "\n" == "a\ng\n" && "g" + "\n" + "a" + "\n" == "g\na\n";
    hide *;
    OneLineFile("g");
    TwoLineFile("g", "a");
    TwoLineFile("a", "g");
    FindSecondLine();
    FindNothing();
    TwoLineSplices();
    UpdateWithOneChunk("g\na\n", ["g", "a"], there, Placed(Edit(1, 1, [""]), 2));
    UpdateWithOneChunk("g\n", ["g"], back, Placed(Edit(0, 0, ["a"]), 0));
  }

  lemma TwoLineSplices()
    ensures SpliceOne(["g", "a"], Edit(1, 1, [""])) == ["g", ""]
    ensures SpliceOne(["g"], Edit(0, 0, ["a"])) == ["a", "g"]
  {
    SpliceWithinRange(["g", "a"], Edit(1, 1, [""]));
    SpliceWithinRange(["g"], Edit(0, 0, ["a"]));
    hide SpliceOne;
    assert ["g", "a"][..1] == ["g"] && ["g", "a"][2..] == [] && ["g"][..0] == [] && ["g"][0..] == ["g"];
    assert ["g"] + [""] + [] == ["g", ""] && [] + ["a"] + ["g"] == ["a", "g"];
  }

  lemma FindSecondLine()
    ensures Place(["g", "a"], Chunk(None, ["a"], [""], false), 0) == Success(Placed(Edit(1, 1, [""]), 2))
  {
    var site := Site(["g"], ["a"], [""]);
    assert ["g", "a"][1..2] == ["a"] && ["g", "a"][0..1] == ["g"];
    assert Anchored(["g", "a"], [site], 0);
    AnchoredPlace(["g", "a"], [site], 0);
  }

  lemma FindNothing()
    ensures Place(["g"], Chunk(None, [""], ["a"], false), 0) == Success(Placed(Edit(0, 0, ["a"]), 0))
  {
    SeekFailsIffNothingMatches(["g"], [""], 0, false);
    assert Normalize(Punctuation, "g") == "g" && Normalize(Punctuation, "") == "";
    forall j: nat
      ensures !MatchesAt(["g"], [""], Normalize, Punctuation, j)
    {
      if MatchesAt(["g"], [""], Normalize, Punctuation, j) {
        OnlyStart(j);
        assert false;
      }
    }
    hide Seek, Normalize, MatchesAt;
    PlaceOfChunk(["g"], [""], ["a"], 0);
    assert DropLastBlank([""]) == [] && DropLastBlank(["a"]) == ["a"];
    NothingIsFound(["g"], 0);
  }

  lemma OnlyStart(j: nat)
    requires MatchesAt(["g"], [""], Normalize, Punctuation, j)
    ensures Normalize(Punctuation, "g") == Normalize(Punctuation, "")
  {
    assert j == 0;
    assert Normalize(Punctuation, ["g"][0 + 0]) == Normalize(Punctuation, [""][0]);
  }

  lemma NothingIsFound(lines: seq<string>, c: nat)
    ensures Seek(lines, [], c, false) == Some(c)
  {
  }
}
