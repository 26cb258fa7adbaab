/**
 What updating a file does to it: when the edits of a hunk are disjoint, and when
 the result is the file with every old block replaced by its new block.
 */
module PatchEffect {
  import opened Wrappers
  import opened Text
  import opened PatchUpdate

  // When the edits of a hunk do not overlap ------------------------------------

  /** No chunk searches from the end of the file, and insertions go after the last line. */
  predicate Orderly(lines: seq<string>, chunks: seq<Chunk>) {
    forall i | 0 <= i < |chunks| ::
      && !chunks[i].isEndOfFile
      && (chunks[i].oldLines == [] ==> InsertionPoint(lines) == |lines|)
  }

  lemma PlaceKeepsOrder(lines: seq<string>, chunk: Chunk, cursor: nat)
    requires cursor <= |lines| && Orderly(lines, [chunk])
    ensures var r := Place(lines, chunk, cursor);
            r.Success? ==>
              && cursor <= r.value.cursor <= |lines|
              && cursor <= r.value.edit.start
              && r.value.edit.start + r.value.edit.oldLen <= |lines|
              && (r.value.edit.start + r.value.edit.oldLen <= r.value.cursor
                  || (r.value.edit.start == |lines| && r.value.edit.oldLen == 0))
  {
    assert [chunk][0] == chunk;
    hide Seek;
    if chunk.changeContext.Some? {
      SeekInRange(lines, [chunk.changeContext.value], cursor, false);
    }
    var from := ContextCursor(lines, chunk, cursor);
    if from.Success? {
      SeekInRange(lines, chunk.oldLines, from.value, false);
      SeekInRange(lines, DropLastBlank(chunk.oldLines), from.value, false);
    }
  }

  /** `e`, placed earlier than `x`, may go before it, or after it when `x` starts strictly earlier. */
  predicate Compatible(e: Edit, x: Edit) {
    Before(e, x) || (Before(x, e) && x.start < e.start)
  }

  lemma {:induction false} LocateKeepsOrder(lines: seq<string>, chunks: seq<Chunk>, cursor: nat)
    requires cursor <= |lines| && Orderly(lines, chunks)
    ensures var r := Locate(lines, chunks, cursor);
            r.Success? ==>
              && InRange(lines, r.value)
              && (forall i | 0 <= i < |r.value| :: cursor <= r.value[i].start)
              && (forall i, j | 0 <= i < j < |r.value| :: Compatible(r.value[i], r.value[j]))
  {
    hide Place;
    if chunks == [] {
    } else {
      var placed := Place(lines, chunks[0], cursor);
      assert Orderly(lines, [chunks[0]]) && Orderly(lines, chunks[1..]);
      hide Orderly;
      PlaceKeepsOrder(lines, chunks[0], cursor);
      if placed.Success? {
        LocateKeepsOrder(lines, chunks[1..], placed.value.cursor);
        var rest := Locate(lines, chunks[1..], placed.value.cursor);
        if rest.Success? {
          assert forall i | 0 <= i < |rest.value| :: Compatible(placed.value.edit, rest.value[i]);
          hide Compatible;
        }
      }
    }
  }

  /** Inserting keeps edits disjoint exactly when the new one is compatible with each of them. */
  lemma {:induction false} InsertionKeepsDisjoint(e: Edit, sorted: seq<Edit>)
    ensures Disjoint(InsertByStart(e, sorted))
            <==> Disjoint(sorted) && forall i | 0 <= i < |sorted| :: Compatible(e, sorted[i])
  {
    if sorted == [] {
    } else if e.start <= sorted[0].start {
      InsertedFirst(e, sorted);
    } else {
      var rest := InsertByStart(e, sorted[1..]);
      InsertionKeepsDisjoint(e, sorted[1..]);
      DisjointCons(sorted[0], rest);
      DisjointCons(sorted[0], sorted[1..]);
      HeadTail(sorted);
      forall x
        ensures x in rest <==> x == e || x in sorted[1..]
      {
        assert x in multiset(rest) <==> x in multiset([e]) || x in multiset(sorted[1..]);
      }
      AllOfHeadTail(e, sorted[0], sorted[1..]);
      hide Disjoint, InsertByStart;
    }
  }

  lemma AllOfHeadTail(e: Edit, first: Edit, rest: seq<Edit>)
    ensures (forall i | 0 <= i < |[first] + rest| :: Compatible(e, ([first] + rest)[i]))
            <==> Compatible(e, first) && forall i | 0 <= i < |rest| :: Compatible(e, rest[i])
  {
    hide Compatible;
    var all := [first] + rest;
    assert all[0] == first;
    forall i | 0 <= i < |rest|
      ensures all[i + 1] == rest[i]
    {
    }
    if forall i | 0 <= i < |all| :: Compatible(e, all[i]) {
      forall i | 0 <= i < |rest|
        ensures Compatible(e, rest[i])
      {
        assert Compatible(e, all[i + 1]);
      }
    }
    if Compatible(e, first) && forall i | 0 <= i < |rest| :: Compatible(e, rest[i]) {
      forall i | 0 <= i < |all|
        ensures Compatible(e, all[i])
      {
        assert i > 0 ==> all[i] == rest[i - 1];
      }
    }
  }

  lemma DisjointCons(first: Edit, rest: seq<Edit>)
    ensures Disjoint([first] + rest) <==> Disjoint(rest) && forall x | x in rest :: Before(first, x)
  {
    hide Before;
    var all := [first] + rest;
    forall i | 0 <= i < |rest|
      ensures all[i + 1] == rest[i]
    {
    }
    if Disjoint(all) {
      forall i, j | 0 <= i < j < |rest|
        ensures Before(rest[i], rest[j])
      {
        assert Before(all[i + 1], all[j + 1]);
      }
      forall x | x in rest
        ensures Before(first, x)
      {
        var j :| 0 <= j < |rest| && rest[j] == x;
        assert Before(all[0], all[j + 1]);
      }
    }
    if Disjoint(rest) && forall x | x in rest :: Before(first, x) {
      forall i, j | 0 <= i < j < |all|
        ensures Before(all[i], all[j])
      {
        assert all[j] == rest[j - 1] && rest[j - 1] in rest && (i > 0 ==> all[i] == rest[i - 1]);
      }
    }
  }

  lemma InsertedFirst(e: Edit, sorted: seq<Edit>)
    requires sorted != [] && e.start <= sorted[0].start
    ensures Disjoint([e] + sorted) <==> Disjoint(sorted) && forall i | 0 <= i < |sorted| :: Compatible(e, sorted[i])
  {
    DisjointCons(e, sorted);
    if Disjoint(sorted) {
      forall i | 0 <= i < |sorted|
        ensures e.start <= sorted[i].start
      {
        assert i > 0 ==> Before(sorted[0], sorted[i]);
      }
    }
  }

  /** The sorted edits are disjoint exactly when any two of them are compatible. */
  lemma {:induction false} SortingMakesDisjoint(edits: seq<Edit>)
    ensures Disjoint(SortByStart(edits)) <==> forall i, j | 0 <= i < j < |edits| :: Compatible(edits[i], edits[j])
  {
    if edits != [] {
      hide Compatible, Disjoint;
      SortingMakesDisjoint(edits[1..]);
      var rest := SortByStart(edits[1..]);
      InsertionKeepsDisjoint(edits[0], rest);
      forall x
        ensures x in rest <==> x in edits[1..]
      {
        assert x in multiset(rest) <==> x in multiset(edits[1..]);
      }
      PairsOfHeadTail(edits, rest);
    } else {
      assert SortByStart(edits) == [];
    }
  }

  lemma PairsOfHeadTail(edits: seq<Edit>, rest: seq<Edit>)
    requires edits != [] && forall x :: x in rest <==> x in edits[1..]
    ensures (forall i, j | 0 <= i < j < |edits| :: Compatible(edits[i], edits[j]))
            <==> && (forall i | 0 <= i < |rest| :: Compatible(edits[0], rest[i]))
                 && (forall i, j | 0 <= i < j < |edits[1..]| :: Compatible(edits[1..][i], edits[1..][j]))
  {
    hide Compatible;
    var later := edits[1..];
    assert forall i | 0 < i < |edits| :: edits[i] == later[i - 1];
    if forall i, j | 0 <= i < j < |edits| :: Compatible(edits[i], edits[j]) {
      forall i | 0 <= i < |rest|
        ensures Compatible(edits[0], rest[i])
      {
        assert rest[i] in later;
        var k :| 0 <= k < |later| && later[k] == rest[i];
        assert edits[k + 1] == rest[i];
      }
      forall i, j | 0 <= i < j < |later|
        ensures Compatible(later[i], later[j])
      {
        assert later[i] == edits[i + 1] && later[j] == edits[j + 1];
      }
    }
    if (forall i | 0 <= i < |rest| :: Compatible(edits[0], rest[i]))
       && forall i, j | 0 <= i < j < |later| :: Compatible(later[i], later[j]) {
      forall i, j | 0 <= i < j < |edits|
        ensures Compatible(edits[i], edits[j])
      {
        if i == 0 {
          assert later[j - 1] in later;
          assert edits[j] in rest;
          var k :| 0 <= k < |rest| && rest[k] == edits[j];
        }
      }
    }
  }

  // Which chunks overlap -------------------------------------------------------

  /** Where the edit of a chunk lies that is searched from `cursor` on. */
  predicate Lies(lines: seq<string>, chunk: Chunk, e: Edit, cursor: nat) {
    && e.start + e.oldLen <= |lines|
    && if chunk.oldLines == [] then e.start == InsertionPoint(lines) && e.oldLen == 0
       else cursor <= e.start || (chunk.isEndOfFile && e.start + e.oldLen == |lines|)
  }

  lemma SeekAtEnd(lines: seq<string>, pattern: seq<string>, start: nat, eof: bool)
    requires start <= |lines|
    ensures var r := Seek(lines, pattern, start, eof);
            r.Some? ==>
              && r.value + |pattern| <= |lines|
              && (start <= r.value || (eof && r.value + |pattern| == |lines|))
  {
    SeekInRange(lines, pattern, start, eof);
    if pattern != [] && eof && |pattern| <= |lines| {
      SeekIsLate(lines, pattern, start);
    } else if pattern != [] && eof {
      hide Normalize;
    }
  }

  lemma SeekIsLate(lines: seq<string>, pattern: seq<string>, start: nat)
    requires pattern != [] && |pattern| <= |lines|
    ensures var r := Seek(lines, pattern, start, true); r.Some? ==> r.value >= |lines| - |pattern|
  {
    hide Normalize;
  }

  lemma PlaceLies(lines: seq<string>, chunk: Chunk, cursor: nat)
    requires cursor <= |lines|
    ensures var r := Place(lines, chunk, cursor);
            r.Success? ==>
              && Lies(lines, chunk, r.value.edit, cursor)
              && cursor <= r.value.cursor <= |lines|
              && (chunk.oldLines != [] ==> r.value.cursor == r.value.edit.start + r.value.edit.oldLen)
  {
    if chunk.changeContext.Some? {
      SeekInRange(lines, [chunk.changeContext.value], cursor, false);
    }
    var from := ContextCursor(lines, chunk, cursor);
    if from.Success? {
      SeekAtEnd(lines, chunk.oldLines, from.value, chunk.isEndOfFile);
      SeekAtEnd(lines, DropLastBlank(chunk.oldLines), from.value, chunk.isEndOfFile);
    }
    hide Seek;
  }

  /** Every edit lies as if searched from the end of any earlier one that is not an insertion. */
  lemma {:induction false} LocateLies(lines: seq<string>, chunks: seq<Chunk>, cursor: nat)
    requires cursor <= |lines|
    ensures var r := Locate(lines, chunks, cursor);
            r.Success? ==>
              && |r.value| == |chunks|
              && (forall j | 0 <= j < |chunks| :: Lies(lines, chunks[j], r.value[j], cursor))
              && (forall i, j | 0 <= i < j < |chunks| && chunks[i].oldLines != [] ::
                    Lies(lines, chunks[j], r.value[j], r.value[i].start + r.value[i].oldLen))
    decreases |chunks|
  {
    hide Place, Lies;
    if chunks == [] {
    } else {
      var placed := Place(lines, chunks[0], cursor);
      PlaceLies(lines, chunks[0], cursor);
      if placed.Success? {
        var next := placed.value.cursor;
        LocateLies(lines, chunks[1..], next);
        var rest := Locate(lines, chunks[1..], next);
        if rest.Success? {
          AllLie(lines, chunks, placed.value, rest.value, cursor);
        }
      }
    }
  }

  lemma AllLie(lines: seq<string>, chunks: seq<Chunk>, first: Placed, rest: seq<Edit>, cursor: nat)
    requires chunks != [] && |rest| == |chunks| - 1 && cursor <= first.cursor
    requires Lies(lines, chunks[0], first.edit, cursor)
    requires chunks[0].oldLines != [] ==> first.cursor == first.edit.start + first.edit.oldLen
    requires forall j | 0 <= j < |rest| :: Lies(lines, chunks[1..][j], rest[j], first.cursor)
    requires forall i, j | 0 <= i < j < |rest| && chunks[1..][i].oldLines != [] ::
               Lies(lines, chunks[1..][j], rest[j], rest[i].start + rest[i].oldLen)
    ensures var all := [first.edit] + rest;
            && (forall j | 0 <= j < |chunks| :: Lies(lines, chunks[j], all[j], cursor))
            && (forall i, j | 0 <= i < j < |chunks| && chunks[i].oldLines != [] ::
                  Lies(lines, chunks[j], all[j], all[i].start + all[i].oldLen))
  {
    hide Lies;
    var all := [first.edit] + rest;
    forall j | 0 < j < |chunks|
      ensures chunks[j] == chunks[1..][j - 1] && all[j] == rest[j - 1]
      ensures Lies(lines, chunks[j], all[j], cursor) && Lies(lines, chunks[j], all[j], first.cursor)
    {
      LiesEarlier(lines, chunks[1..][j - 1], rest[j - 1], first.cursor, cursor);
    }
  }

  lemma LiesEarlier(lines: seq<string>, chunk: Chunk, e: Edit, cursor: nat, earlier: nat)
    requires Lies(lines, chunk, e, cursor) && earlier <= cursor
    ensures Lies(lines, chunk, e, earlier)
  {
  }

  /**
   Edit `j` gets in the way of edit `i` before it: its chunk is searched at the end of the
   file and found before the end of edit `i`, or one of the two is an insertion before a
   blank end that the other replaces.
   */
  predicate Overlap(lines: seq<string>, a: Chunk, e: Edit, b: Chunk, x: Edit) {
    if a.oldLines == [] then x.start < InsertionPoint(lines) < x.start + x.oldLen
    else if b.oldLines == [] then e.start <= InsertionPoint(lines) < e.start + e.oldLen
    else b.isEndOfFile && x.start < e.start + e.oldLen && e.start < |lines|
  }

  lemma OverlapIffIncompatible(lines: seq<string>, a: Chunk, e: Edit, b: Chunk, x: Edit)
    requires Lies(lines, a, e, 0) && Lies(lines, b, x, 0)
    requires a.oldLines != [] ==> Lies(lines, b, x, e.start + e.oldLen)
    ensures Overlap(lines, a, e, b, x) <==> !Compatible(e, x)
  {
  }

  /**
   The edits of a hunk are in range. They are disjoint exactly when no two chunks overlap,
   and then splicing them from right to left is the simple left-to-right rewriting.
   */
  lemma EditsAreOrderly(lines: seq<string>, chunks: seq<Chunk>)
    ensures var located, r := Locate(lines, chunks, 0), ComputeEdits(lines, chunks);
            r.Success? ==>
              && located.Success? && |located.value| == |chunks| && InRange(lines, r.value)
              && (Disjoint(r.value)
                  <==> forall i, j | 0 <= i < j < |chunks| ::
                         !Overlap(lines, chunks[i], located.value[i], chunks[j], located.value[j]))
              && (Disjoint(r.value) ==> SpliceAll(lines, r.value) == LeftToRight(lines, r.value, 0))
  {
    hide Locate, SortByStart, Disjoint, Overlap, Compatible, SpliceAll, LeftToRight;
    var located := Locate(lines, chunks, 0);
    if located.Success? {
      LocateLies(lines, chunks, 0);
      var all, edits := located.value, SortByStart(located.value);
      SortingMakesDisjoint(all);
      forall i, j | 0 <= i < j < |chunks|
        ensures Overlap(lines, chunks[i], all[i], chunks[j], all[j]) <==> !Compatible(all[i], all[j])
      {
        OverlapIffIncompatible(lines, chunks[i], all[i], chunks[j], all[j]);
      }
      forall i | 0 <= i < |edits|
        ensures edits[i].start + edits[i].oldLen <= |lines|
      {
        assert edits[i] in multiset(edits);
        assert edits[i] in all;
      }
      if Disjoint(edits) {
        SplicingIsLeftToRight(lines, edits, 0);
        assert lines[..0] == [];
        NothingAdded(LeftToRight(lines, edits, 0));
      }
    }
  }

  /**
   Without end-of-file chunks, and without pure insertions into a file whose last
   line is blank, chunks never overlap.
   */
  lemma OrderlyChunksNeverOverlap(lines: seq<string>, chunks: seq<Chunk>)
    requires Orderly(lines, chunks)
    ensures var r := ComputeEdits(lines, chunks); r.Success? ==> InRange(lines, r.value) && Disjoint(r.value)
  {
    hide Locate, SortByStart, Disjoint, Compatible, Orderly;
    EditsAreOrderly(lines, chunks);
    var located := Locate(lines, chunks, 0);
    if located.Success? {
      LocateKeepsOrder(lines, chunks, 0);
      SortingMakesDisjoint(located.value);
    }
  }

  lemma LocateCons(lines: seq<string>, first: Chunk, rest: seq<Chunk>, cursor: nat, p: Placed, edits: seq<Edit>)
    requires Place(lines, first, cursor) == Success(p)
    requires Locate(lines, rest, p.cursor) == Success(edits)
    ensures Locate(lines, [first] + rest, cursor) == Success([p.edit] + edits)
  {
    hide Place;
    assert ([first] + rest)[1..] == rest;
  }

  lemma LocateTwo(lines: seq<string>, first: Chunk, second: Chunk, p: Placed, q: Placed)
    requires Place(lines, first, 0) == Success(p) && Place(lines, second, p.cursor) == Success(q)
    ensures ComputeEdits(lines, [first, second]) == Success(SortByStart([p.edit, q.edit]))
  {
    hide Place, SortByStart;
    assert Locate(lines, [], q.cursor) == Success([]);
    hide Locate;
    assert [second] + [] == [second] && [first] + [second] == [first, second];
    assert [q.edit] + [] == [q.edit] && [p.edit] + [q.edit] == [p.edit, q.edit];
    LocateCons(lines, second, [], p.cursor, q, []);
    LocateCons(lines, first, [second], 0, p, [q.edit]);
  }

  predicate BlockAt(lines: seq<string>, block: seq<string>, i: nat) {
    i + |block| <= |lines| && lines[i..i + |block|] == block
  }

  lemma ExactMatch(lines: seq<string>, pattern: seq<string>, i: nat)
    ensures MatchesAt(lines, pattern, Normalize, Exact, i) <==> BlockAt(lines, pattern, i)
  {
    if i + |pattern| > |lines| {
    } else if MatchesAt(lines, pattern, Normalize, Exact, i) {
      forall k | 0 <= k < |pattern|
        ensures lines[i..i + |pattern|][k] == pattern[k]
      {
        assert Normalize(Exact, lines[i + k]) == Normalize(Exact, pattern[k]);
      }
    } else {
      var k :| 0 <= k < |pattern| && Normalize(Exact, lines[i + k]) != Normalize(Exact, pattern[k]);
      assert lines[i..i + |pattern|][k] == lines[i + k];
    }
  }

  // An end-of-file chunk ignores the cursor, so it can overlap the edit before it.
  lemma EndOfFileChunksCanOverlap()
    ensures var chunks := [Chunk(None, ["b"], ["x"], false), Chunk(None, ["b"], ["y"], true)];
            var r := ComputeEdits(["a", "b"], chunks);
            r.Success? && !Disjoint(r.value)
  {
    var lines := ["a", "b"];
    SecondIsFound();
    assert lines[1] == "b";
    hide MatchesAt, Earliest;
    var p, q := Edit(1, 1, ["x"]), Edit(1, 1, ["y"]);
    LocateTwo(lines, Chunk(None, ["b"], ["x"], false), Chunk(None, ["b"], ["y"], true), Placed(p, 2), Placed(q, 2));
    hide Locate, Place;
    SortOfTwo(p, q);
  }

  lemma SecondIsFound()
    ensures Earliest(["a", "b"], ["b"], Normalize, Exact, 0) == Some(1)
    ensures Earliest(["a", "b"], ["b"], Normalize, Exact, 1) == Some(1)
  {
    var lines := ["a", "b"];
    ExactMatch(lines, ["b"], 0);
    ExactMatch(lines, ["b"], 1);
    assert lines[0..1] == ["a"] && lines[1..2] == ["b"];
    hide MatchesAt;
  }

  // A pure insertion goes before a trailing blank line, even inside another edit.
  lemma InsertionsCanOverlapBeforeBlankEnd()
    ensures var chunks := [Chunk(None, ["a", ""], ["x"], false), Chunk(None, [], ["y"], false)];
            var r := ComputeEdits(["a", ""], chunks);
            r.Success? && !Disjoint(r.value)
  {
    var lines := ["a", ""];
    ExactMatch(lines, ["a", ""], 0);
    assert lines[0..2] == ["a", ""];
    hide MatchesAt;
    assert Earliest(lines, ["a", ""], Normalize, Exact, 0) == Some(0);
    var p, q := Edit(0, 2, ["x"]), Edit(1, 0, ["y"]);
    LocateTwo(lines, Chunk(None, ["a", ""], ["x"], false), Chunk(None, [], ["y"], false), Placed(p, 2), Placed(q, 2));
    hide Locate, Place;
    SortOfTwo(p, q);
  }

  lemma SortOfTwo(p: Edit, q: Edit)
    requires p.start <= q.start
    ensures SortByStart([p, q]) == [p, q]
  {
    assert [p, q][1..] == [q] && [q][1..] == [];
  }

  // A file with known blocks -------------------------------------------------

  /** An untouched gap, and the block after it in the old and in the new version. */
  datatype Site = Site(gap: seq<string>, oldLines: seq<string>, newLines: seq<string>)

  /** `gap0 old0 gap1 old1 ... tail` */
  function OldVersion(sites: seq<Site>, tail: seq<string>): seq<string> {
    if sites == [] then tail
    else sites[0].gap + sites[0].oldLines + OldVersion(sites[1..], tail)
  }

  function Swapped(sites: seq<Site>): seq<Site> {
    if sites == [] then []
    else [Site(sites[0].gap, sites[0].newLines, sites[0].oldLines)] + Swapped(sites[1..])
  }

  /** `gap0 new0 gap1 new1 ... tail` */
  function NewVersion(sites: seq<Site>, tail: seq<string>): seq<string> {
    OldVersion(Swapped(sites), tail)
  }

  function ChunksOf(sites: seq<Site>): seq<Chunk> {
    if sites == [] then []
    else [Chunk(None, sites[0].oldLines, sites[0].newLines, false)] + ChunksOf(sites[1..])
  }

  /** Every old block is non-empty and first matches exactly where it is, after the block before it. */
  ghost predicate Anchored(lines: seq<string>, sites: seq<Site>, cursor: nat)
    decreases |sites|
  {
    sites == [] ||
    var place := cursor + |sites[0].gap|;
    && sites[0].oldLines != []
    && BlockAt(lines, sites[0].oldLines, place)
    && (forall j: nat | cursor <= j < place :: !BlockAt(lines, sites[0].oldLines, j))
    && Anchored(lines, sites[1..], place + |sites[0].oldLines|)
  }

  function EditsOf(sites: seq<Site>, pos: nat): seq<Edit> {
    if sites == [] then []
    else
      var place := pos + |sites[0].gap|;
      [Edit(place, |sites[0].oldLines|, sites[0].newLines)] + EditsOf(sites[1..], place + |sites[0].oldLines|)
  }

  lemma AnchoredPlace(lines: seq<string>, sites: seq<Site>, cursor: nat)
    requires sites != [] && Anchored(lines, sites, cursor)
    ensures var place := cursor + |sites[0].gap|;
            Place(lines, ChunksOf(sites)[0], cursor)
            == Success(Placed(Edit(place, |sites[0].oldLines|, sites[0].newLines), place + |sites[0].oldLines|))
  {
    var place := cursor + |sites[0].gap|;
    var pattern := sites[0].oldLines;
    ExactMatch(lines, pattern, place);
    forall j: nat | cursor <= j < place
      ensures !MatchesAt(lines, pattern, Normalize, Exact, j)
    {
      ExactMatch(lines, pattern, j);
    }
    hide Normalize;
    assert Earliest(lines, pattern, Normalize, Exact, cursor) == Some(place);
    assert Seek(lines, pattern, cursor, false) == Some(place);
  }

  lemma {:induction false} LocateAnchored(lines: seq<string>, sites: seq<Site>, cursor: nat)
    requires Anchored(lines, sites, cursor)
    ensures Locate(lines, ChunksOf(sites), cursor) == Success(EditsOf(sites, cursor))
    decreases |sites|
  {
    hide Place;
    if sites == [] {
    } else {
      hide Locate;
      var place := cursor + |sites[0].gap|;
      var next := place + |sites[0].oldLines|;
      var placed := Placed(Edit(place, |sites[0].oldLines|, sites[0].newLines), next);
      AnchoredPlace(lines, sites, cursor);
      LocateAnchored(lines, sites[1..], next);
      LocateCons(lines, ChunksOf(sites)[0], ChunksOf(sites[1..]), cursor, placed, EditsOf(sites[1..], next));
    }
  }

  lemma Blocks<T>(lines: seq<T>, pos: nat, gap: seq<T>, block: seq<T>, rest: seq<T>)
    requires pos <= |lines| && lines[pos..] == gap + block + rest
    ensures var place := pos + |gap|;
            && place + |block| <= |lines|
            && lines[pos..place] == gap
            && lines[place..place + |block|] == block
            && lines[place + |block|..] == rest
  {
    assert lines[pos..][..|gap|] == gap;
    assert lines[pos..][|gap|..|gap| + |block|] == block;
    assert lines[pos..][|gap| + |block|..] == rest;
  }

  lemma {:induction false} EditsOfAreOrdered(lines: seq<string>, sites: seq<Site>, tail: seq<string>, pos: nat)
    requires pos <= |lines| && lines[pos..] == OldVersion(sites, tail)
    ensures InRange(lines, EditsOf(sites, pos))
    ensures Disjoint(EditsOf(sites, pos))
    ensures forall i | 0 <= i < |EditsOf(sites, pos)| :: pos <= EditsOf(sites, pos)[i].start
    decreases |sites|
  {
    if sites == [] {
    } else {
      Blocks(lines, pos, sites[0].gap, sites[0].oldLines, OldVersion(sites[1..], tail));
      var next := pos + |sites[0].gap| + |sites[0].oldLines|;
      EditsOfAreOrdered(lines, sites[1..], tail, next);
      assert EditsOf(sites, pos)[1..] == EditsOf(sites[1..], next);
    }
  }

  lemma {:induction false} SortedStaysSorted(edits: seq<Edit>)
    requires Disjoint(edits)
    ensures SortByStart(edits) == edits
  {
    if edits == [] {
    } else {
      SortedStaysSorted(edits[1..]);
      assert |edits| > 1 ==> Before(edits[0], edits[1]);
    }
  }

  lemma {:induction false} EditsOfRewrite(lines: seq<string>, sites: seq<Site>, tail: seq<string>, pos: nat)
    requires pos <= |lines| && lines[pos..] == OldVersion(sites, tail)
    requires InRange(lines, EditsOf(sites, pos)) && Disjoint(EditsOf(sites, pos))
    requires EditsOf(sites, pos) != [] ==> pos <= EditsOf(sites, pos)[0].start
    ensures LeftToRight(lines, EditsOf(sites, pos), pos) == NewVersion(sites, tail)
    decreases |sites|
  {
    if sites == [] {
    } else {
      var s, rest := sites[0], sites[1..];
      var next := pos + |s.gap| + |s.oldLines|;
      Blocks(lines, pos, s.gap, s.oldLines, OldVersion(rest, tail));
      EditsOfAreOrdered(lines, rest, tail, next);
      EditsOfRewrite(lines, rest, tail, next);
      assert EditsOf(sites, pos)[1..] == EditsOf(rest, next);
      assert LeftToRight(lines, EditsOf(sites, pos), pos) == s.gap + s.newLines + LeftToRight(lines, EditsOf(rest, next), next);
      hide *;
      NewVersionCons(sites, tail);
    }
  }

  lemma NewVersionCons(sites: seq<Site>, tail: seq<string>)
    requires sites != []
    ensures NewVersion(sites, tail) == sites[0].gap + sites[0].newLines + NewVersion(sites[1..], tail)
  {
    assert Swapped(sites)[1..] == Swapped(sites[1..]);
  }

  /** The patch turns the old version into the new one, block by block. */
  lemma PatchRewritesBlocks(sites: seq<Site>, tail: seq<string>)
    requires Anchored(OldVersion(sites, tail), sites, 0)
    ensures var lines := OldVersion(sites, tail);
            var r := ComputeEdits(lines, ChunksOf(sites));
            r.Success? && SpliceAll(lines, r.value) == NewVersion(sites, tail)
  {
    var lines := OldVersion(sites, tail);
    LocateAnchored(lines, sites, 0);
    EditsOfAreOrdered(lines, sites, tail, 0);
    SortedStaysSorted(EditsOf(sites, 0));
    EditsOfRewrite(lines, sites, tail, 0);
    SplicingIsLeftToRight(lines, EditsOf(sites, 0), 0);
  }
}
