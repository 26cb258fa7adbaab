/** Patches written as diffs with context lines, from their text to the files they change. */
module PatchContext {
  import opened Wrappers
  import opened Text
  import opened PatchUpdate
  import opened PatchFormat
  import opened PatchPrinting
  import opened PatchDiff
  import opened PatchSearch
  import opened PatchEffect
  import opened PatchRun

  /**
   A place in a file: untouched lines, maybe the line that the chunk names for its context,
   more untouched lines, and then the lines of the diff.
   */
  datatype Spot = Spot(lead: seq<string>, context: Option<string>, gap: seq<string>, diff: seq<DiffLine>)

  function ContextLines(s: Spot): seq<string> {
    if s.context.Some? then [s.context.value] else []
  }

  function SiteOf(s: Spot): Site {
    Site(s.lead + ContextLines(s) + s.gap, OldTexts(s.diff), NewTexts(s.diff))
  }

  function SitesOf(spots: seq<Spot>): seq<Site> {
    if spots == [] then [] else [SiteOf(spots[0])] + SitesOf(spots[1..])
  }

  function SectionOf(s: Spot): Section {
    Section(if s.context.Some? then ContextHead(s.context.value) else BareHead, s.diff, false)
  }

  function SectionsOf(spots: seq<Spot>): seq<Section> {
    if spots == [] then [] else [SectionOf(spots[0])] + SectionsOf(spots[1..])
  }

  /** Where the old lines of a spot are searched when the spot before it ends at `cursor`. */
  function SearchFrom(s: Spot, cursor: nat): nat {
    if s.context.Some? then cursor + |s.lead| + 1 else cursor
  }

  /**
   Every context line is the first of its kind behind the spot before, and every old block is
   non-empty and first matches where it is, behind its context line.
   */
  ghost predicate Pinned(lines: seq<string>, spots: seq<Spot>, cursor: nat)
    decreases |spots|
  {
    spots == [] ||
    var s, site := spots[0], SiteOf(spots[0]);
    && (s.context.Some? ==> FirstLine(lines, s.context.value, cursor, cursor + |s.lead|))
    && FirstBlock(lines, site.oldLines, SearchFrom(s, cursor), cursor + |site.gap|)
    && Pinned(lines, spots[1..], cursor + |site.gap| + |site.oldLines|)
  }

  predicate FirstLine(lines: seq<string>, c: string, from: nat, i: nat) {
    && from <= i < |lines| && c != "" && lines[i] == c
    && forall j | from <= j < i :: lines[j] != c
  }

  predicate FirstBlock(lines: seq<string>, block: seq<string>, from: nat, i: nat) {
    && block != [] && from <= i && BlockAt(lines, block, i)
    && forall j: nat | from <= j < i :: !BlockAt(lines, block, j)
  }

  // From chunks to edits -----------------------------------------------------------

  lemma FirstLineIsBest(lines: seq<string>, c: string, from: nat, i: nat)
    requires FirstLine(lines, c, from, i)
    ensures IsBest(lines, [c], Normalize, from, Exact, i)
  {
    forall j: nat | j < |lines|
      ensures MatchesAt(lines, [c], Normalize, Exact, j) <==> lines[j] == c
    {
      ExactMatch(lines, [c], j);
      assert lines[j..j + 1] == [lines[j]];
    }
    assert forall j: nat | from <= j < i :: !MatchesAt(lines, [c], Normalize, Exact, j);
    hide MatchesAt, Normalize;
  }

  lemma FirstBlockIsAnchored(lines: seq<string>, block: seq<string>, after: seq<string>, from: nat, i: nat)
    requires FirstBlock(lines, block, from, i)
    ensures Place(lines, Chunk(None, block, after, false), from)
            == Success(Placed(Edit(i, |block|, after), i + |block|))
  {
    var gap := seq(i - from, _ => "");
    var sites := [Site(gap, block, after)];
    assert sites[1..] == [];
    assert Anchored(lines, sites, from);
    hide *;
    AnchoredPlace(lines, sites, from);
    FirstChunk(gap, block, after);
  }

  lemma FirstChunk(gap: seq<string>, block: seq<string>, after: seq<string>)
    ensures ChunksOf([Site(gap, block, after)]) != []
    ensures ChunksOf([Site(gap, block, after)])[0] == Chunk(None, block, after, false)
  {
  }

  lemma PlacePinned(lines: seq<string>, spots: seq<Spot>, cursor: nat)
    requires spots != [] && Pinned(lines, spots, cursor)
    ensures var site, place := SiteOf(spots[0]), cursor + |SiteOf(spots[0]).gap|;
            Place(lines, ChunkOf(SectionOf(spots[0])), cursor)
            == Success(Placed(Edit(place, |site.oldLines|, site.newLines), place + |site.oldLines|))
  {
    hide *;
    PinnedParts(lines, spots, cursor);
    var s, site := spots[0], SiteOf(spots[0]);
    var from, place := SearchFrom(s, cursor), cursor + |site.gap|;
    FirstBlockIsAnchored(lines, site.oldLines, site.newLines, from, place);
    if s.context.Some? {
      PlaceBehindFirstLine(lines, s.context.value, site.oldLines, site.newLines, cursor, cursor + |s.lead|);
    }
  }

  lemma PinnedParts(lines: seq<string>, spots: seq<Spot>, cursor: nat)
    requires spots != [] && Pinned(lines, spots, cursor)
    ensures var s, site := spots[0], SiteOf(spots[0]);
            && ChunkOf(SectionOf(s)) == Chunk(s.context, site.oldLines, site.newLines, false)
            && FirstBlock(lines, site.oldLines, SearchFrom(s, cursor), cursor + |site.gap|)
            && SearchFrom(s, cursor) == (if s.context.Some? then cursor + |s.lead| + 1 else cursor)
            && (s.context.Some? ==> FirstLine(lines, s.context.value, cursor, cursor + |s.lead|))
  {
    hide FirstBlock, FirstLine, OldTexts, NewTexts;
  }

  lemma PlaceBehindFirstLine(
    lines: seq<string>, c: string, before: seq<string>, after: seq<string>, cursor: nat, i: nat)
    requires FirstLine(lines, c, cursor, i)
    ensures Place(lines, Chunk(Some(c), before, after, false), cursor)
            == Place(lines, Chunk(None, before, after, false), i + 1)
  {
    hide Place, IsBest, Normalize;
    FirstLineIsBest(lines, c, cursor, i);
    ContextIsPassed(lines, Chunk(Some(c), before, after, false), cursor, Exact, i);
  }

  lemma {:induction false} LocatePinned(lines: seq<string>, spots: seq<Spot>, cursor: nat)
    requires Pinned(lines, spots, cursor)
    ensures Locate(lines, SectionChunks(SectionsOf(spots)), cursor) == Success(EditsOf(SitesOf(spots), cursor))
    decreases |spots|
  {
    hide *;
    if spots == [] {
      NoSpots(lines, cursor);
    } else {
      PinnedRest(lines, spots, cursor);
      var site, place := SiteOf(spots[0]), cursor + |SiteOf(spots[0]).gap|;
      var next := place + |site.oldLines|;
      PlacePinned(lines, spots, cursor);
      LocatePinned(lines, spots[1..], next);
      ChunksCons(spots, cursor);
      LocateCons(lines, ChunkOf(SectionOf(spots[0])), SectionChunks(SectionsOf(spots[1..])), cursor,
                 Placed(Edit(place, |site.oldLines|, site.newLines), next), EditsOf(SitesOf(spots[1..]), next));
    }
  }

  lemma NoSpots(lines: seq<string>, cursor: nat)
    ensures Locate(lines, SectionChunks(SectionsOf([])), cursor) == Success(EditsOf(SitesOf([]), cursor))
  {
  }

  lemma PinnedRest(lines: seq<string>, spots: seq<Spot>, cursor: nat)
    requires spots != [] && Pinned(lines, spots, cursor)
    ensures Pinned(lines, spots[1..], cursor + |SiteOf(spots[0]).gap| + |SiteOf(spots[0]).oldLines|)
  {
    hide FirstBlock, FirstLine, SiteOf;
  }

  lemma ChunksCons(spots: seq<Spot>, cursor: nat)
    requires spots != []
    ensures SectionChunks(SectionsOf(spots)) == [ChunkOf(SectionOf(spots[0]))] + SectionChunks(SectionsOf(spots[1..]))
    ensures var site, place := SiteOf(spots[0]), cursor + |SiteOf(spots[0]).gap|;
            EditsOf(SitesOf(spots), cursor)
            == [Edit(place, |site.oldLines|, site.newLines)] + EditsOf(SitesOf(spots[1..]), place + |site.oldLines|)
  {
    assert SectionsOf(spots)[1..] == SectionsOf(spots[1..]) && SitesOf(spots)[1..] == SitesOf(spots[1..]);
    hide ChunkOf, SectionOf, SiteOf;
  }

  /** A file with spots, updated: the diffs are applied and everything else stays. */
  lemma UpdateOfSpots(text: string, spots: seq<Spot>, tail: seq<string>)
    requires ReadLines(text) == OldVersion(SitesOf(spots), tail) && Pinned(ReadLines(text), spots, 0)
    ensures UpdateText(text, SectionChunks(SectionsOf(spots)))
            == Success(WriteLines(NewVersion(SitesOf(spots), tail)))
  {
    var lines, sites := ReadLines(text), SitesOf(spots);
    hide *;
    LocatePinned(lines, spots, 0);
    EditsOfAreOrdered(lines, sites, tail, 0);
    SortedStaysSorted(EditsOf(sites, 0));
    StartOfEdits(EditsOf(sites, 0));
    assert lines[0..] == lines;
    EditsOfRewrite(lines, sites, tail, 0);
    SplicingIsLeftToRight(lines, EditsOf(sites, 0), 0);
    assert lines[..0] == [];
    NothingAdded(NewVersion(sites, tail));
    UpdateOfEdits(text, SectionChunks(SectionsOf(spots)), EditsOf(sites, 0));
  }

  lemma StartOfEdits(edits: seq<Edit>)
    ensures edits != [] ==> 0 <= edits[0].start
  {
  }

  lemma UpdateOfEdits(text: string, chunks: seq<Chunk>, edits: seq<Edit>)
    requires Locate(ReadLines(text), chunks, 0) == Success(edits) && SortByStart(edits) == edits
    ensures UpdateText(text, chunks) == Success(WriteLines(SpliceAll(ReadLines(text), edits)))
  {
    hide Locate, SortByStart, SpliceAll, ReadLines, WriteLines;
  }

  // From the text of a patch to the files ---------------------------------------------

  function DiffAt(path: string, spots: seq<Spot>): Part {
    Diffed(Diff(path, None, SectionsOf(spots)))
  }

  lemma {:induction false} SectionsHaveHeads(spots: seq<Spot>)
    requires forall i | 0 <= i < |spots| :: spots[i].diff != []
    ensures HaveHeads(SectionsOf(spots)) && |SectionsOf(spots)| == |spots|
  {
    if spots == [] {
    } else {
      SectionsHaveHeads(spots[1..]);
    }
  }

  lemma {:induction false} PinnedDiffs(lines: seq<string>, spots: seq<Spot>, cursor: nat)
    requires Pinned(lines, spots, cursor)
    ensures forall i | 0 <= i < |spots| :: spots[i].diff != []
    decreases |spots|
  {
    if spots == [] {
    } else {
      PinnedDiffs(lines, spots[1..], cursor + |SiteOf(spots[0]).gap| + |SiteOf(spots[0]).oldLines|);
      assert OldTexts(spots[0].diff) != [];
    }
    hide BlockAt;
  }

  lemma DiffIsWell(path: string, spots: seq<Spot>)
    requires IsPath(path) && spots != [] && forall i | 0 <= i < |spots| :: spots[i].diff != []
    ensures WellWritten(DiffAt(path, spots))
  {
    SectionsHaveHeads(spots);
    var sections := SectionsOf(spots);
    assert sections[0].diff != [] && sections[0].head != NoHead;
    hide IsPath, Trim, LineOf, SectionsOf;
  }

  /**
   From text to file: the patch that holds the diffs of some spots of a file, parsed and
   applied, keeps, deletes and inserts exactly their lines and changes nothing else.
   */
  lemma DiffsRewriteFile(files: Files, path: string, spots: seq<Spot>, tail: seq<string>)
    requires path in files && IsPath(path) && spots != []
    requires ReadLines(files[path]) == OldVersion(SitesOf(spots), tail) && Pinned(ReadLines(files[path]), spots, 0)
    requires var body := PartsLines([DiffAt(path, spots)]); AreLines(body) && NoReturns(body)
    ensures var parsed := ParsePatch(PartsPatch([DiffAt(path, spots)]));
            && parsed.Success?
            && FilesAfterAll(files, parsed.value)
               == (files[path := WriteLines(NewVersion(SitesOf(spots), tail))], None)
  {
    hide *;
    PinnedDiffs(ReadLines(files[path]), spots, 0);
    DiffIsWell(path, spots);
    ParsedDiffs([DiffAt(path, spots)]);
    OnePart(path, spots);
    UpdateOfSpots(files[path], spots, tail);
    OneUpdate(files, path, SectionChunks(SectionsOf(spots)));
  }

  lemma OnePart(path: string, spots: seq<Spot>)
    ensures PartHunks([DiffAt(path, spots)]) == [UpdateFile(path, None, SectionChunks(SectionsOf(spots)))]
  {
    assert [DiffAt(path, spots)][1..] == [];
    hide SectionChunks, SectionsOf;
  }
}
