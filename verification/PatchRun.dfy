/** Applying a whole patch to a set of files, and the summary it reports. */
module PatchRun {
  import opened Wrappers
  import opened Text
  import opened PatchUpdate
  import opened PatchFormat
  import opened PatchPrinting
  import opened PatchEffect
  import opened PatchBack

  type Files = map<string, string>

  datatype Summary = Summary(added: seq<string>, modified: seq<string>, deleted: seq<string>)

  datatype RunError =
    | NothingToDo
    | BadPatch(reason: ParseError)
    | MissingFile(path: string)
    | BadUpdate(path: string, cause: UpdateError)

  // The effect of hunks as functions -------------------------------------------

  predicate Moves(movePath: Option<string>) {
    movePath.Some? && movePath.value != ""
  }

  function FilesAfter(files: Files, h: Hunk): Result<Files, RunError> {
    match h
    case AddFile(path, contents) => Success(files[path := contents])
    case DeleteFile(path) => if path in files then Success(files - {path}) else Failure(MissingFile(path))
    case UpdateFile(path, movePath, chunks) =>
      if path !in files then Failure(MissingFile(path))
      else
        var applied := UpdateText(files[path], chunks);
        if applied.Failure? then Failure(BadUpdate(path, applied.error))
        else if Moves(movePath) then Success(files[movePath.value := applied.value] - {path})
        else Success(files[path := applied.value])
  }

  /** The files after the hunks that come before the first one that fails. */
  function FilesAfterAll(files: Files, hunks: seq<Hunk>): (Files, Option<RunError>)
    decreases |hunks|
  {
    if hunks == [] then (files, None)
    else
      var next := FilesAfter(files, hunks[0]);
      if next.Failure? then (files, Some(next.error)) else FilesAfterAll(next.value, hunks[1..])
  }

  datatype Bucket = Added | Modified | Deleted

  function BucketOf(h: Hunk): Bucket {
    match h
    case AddFile(_, _) => Added
    case DeleteFile(_) => Deleted
    case UpdateFile(_, _, _) => Modified
  }

  function Reported(h: Hunk): string {
    match h
    case AddFile(path, _) => path
    case DeleteFile(path) => path
    case UpdateFile(path, movePath, _) => if Moves(movePath) then movePath.value else path
  }

  /** Every path reported in a bucket, in order of its first report. */
  function FirstReports(hunks: seq<Hunk>, bucket: Bucket): seq<string> {
    if hunks == [] then []
    else
      var before := FirstReports(hunks[..|hunks| - 1], bucket);
      var h := hunks[|hunks| - 1];
      if BucketOf(h) == bucket && Reported(h) !in before then before + [Reported(h)] else before
  }

  function SummaryOf(hunks: seq<Hunk>): Summary {
    Summary(FirstReports(hunks, Added), FirstReports(hunks, Modified), FirstReports(hunks, Deleted))
  }

  // The run --------------------------------------------------------------------

  class Run {
    var files: Files
    var added: seq<string>
    var modified: seq<string>
    var deleted: seq<string>
    var seenAdded: set<string>
    var seenModified: set<string>
    var seenDeleted: set<string>

    ghost predicate Valid()
      reads this
    {
      && (forall p :: p in added <==> p in seenAdded)
      && (forall p :: p in modified <==> p in seenModified)
      && (forall p :: p in deleted <==> p in seenDeleted)
    }

    function Report(): Summary
      reads this
    {
      Summary(added, modified, deleted)
    }

    constructor (files: Files)
      ensures Valid() && this.files == files && Report() == SummaryOf([])
    {
      this.files := files;
      added, modified, deleted := [], [], [];
      seenAdded, seenModified, seenDeleted := {}, {}, {};
    }

    method RecordSummary(bucket: Bucket, value: string)
      requires Valid()
      modifies this
      ensures Valid() && files == old(files)
      ensures added == if bucket == Added && value !in old(added) then old(added) + [value] else old(added)
      ensures modified
              == if bucket == Modified && value !in old(modified) then old(modified) + [value] else old(modified)
      ensures deleted == if bucket == Deleted && value !in old(deleted) then old(deleted) + [value] else old(deleted)
    {
      match bucket {
        case Added =>
          if value in seenAdded { return; }
          seenAdded := seenAdded + {value};
          added := added + [value];
        case Modified =>
          if value in seenModified { return; }
          seenModified := seenModified + {value};
          modified := modified + [value];
        case Deleted =>
          if value in seenDeleted { return; }
          seenDeleted := seenDeleted + {value};
          deleted := deleted + [value];
      }
    }

    method ApplyOne(h: Hunk) returns (r: Option<RunError>)
      requires Valid()
      modifies this
      ensures Valid()
      ensures var next := FilesAfter(old(files), h);
              if next.Failure? then r == Some(next.error) && files == old(files) && Report() == old(Report())
              else
                && r == None && files == next.value
                && forall done | old(Report()) == SummaryOf(done) :: Report() == SummaryOf(done + [h])
    {
      hide UpdateText;
      match h {
        case AddFile(path, contents) =>
          files := files[path := contents];
          RecordSummary(Added, path);
        case DeleteFile(path) =>
          if path !in files {
            return Some(MissingFile(path));
          }
          files := files - {path};
          RecordSummary(Deleted, path);
        case UpdateFile(path, movePath, chunks) =>
          if path !in files {
            return Some(MissingFile(path));
          }
          var applied := ApplyUpdateHunk(files[path], chunks);
          if applied.Failure? {
            return Some(BadUpdate(path, applied.error));
          }
          if Moves(movePath) {
            files := files[movePath.value := applied.value];
            files := files - {path};
            RecordSummary(Modified, movePath.value);
          } else {
            files := files[path := applied.value];
            RecordSummary(Modified, path);
          }
      }
      forall done | old(Report()) == SummaryOf(done)
        ensures Report() == SummaryOf(done + [h])
      {
        assert (done + [h])[..|done|] == done;
      }
      return None;
    }

    method ApplyPatch(input: string) returns (r: Result<Summary, RunError>)
      requires Valid() && Report() == SummaryOf([])
      modifies this
      ensures var parsed := ParsePatch(input);
              if parsed.Failure? then r == Failure(BadPatch(parsed.error)) && files == old(files)
              else if parsed.value == [] then r == Failure(NothingToDo) && files == old(files)
              else
                var (after, error) := FilesAfterAll(old(files), parsed.value);
                && files == after
                && r == if error.Some? then Failure(error.value) else Success(SummaryOf(parsed.value))
    {
      hide ParsePatch, FilesAfter, SummaryOf;
      var parsed := ParsePatchText(input);
      if parsed.Failure? {
        return Failure(BadPatch(parsed.error));
      }
      var hunks := parsed.value;
      if |hunks| == 0 {
        return Failure(NothingToDo);
      }
      assert hunks[..0] == [] && hunks[0..] == hunks;
      for i := 0 to |hunks|
        invariant Valid() && Report() == SummaryOf(hunks[..i])
        invariant FilesAfterAll(files, hunks[i..]) == FilesAfterAll(old(files), hunks)
      {
        assert hunks[i..][0] == hunks[i] && hunks[i..][1..] == hunks[i + 1..];
        assert hunks[..i + 1] == hunks[..i] + [hunks[i]];
        var error := ApplyOne(hunks[i]);
        if error.Some? {
          return Failure(error.value);
        }
      }
      assert hunks[..|hunks|] == hunks && hunks[|hunks|..] == [];
      return Success(Report());
    }
  }

  // What a run guarantees ------------------------------------------------------

  predicate NoDuplicates(s: seq<string>) {
    forall i, j | 0 <= i < j < |s| :: s[i] != s[j]
  }

  /** A bucket lists exactly the paths its hunks report, each once. */
  lemma {:induction false} ReportsAreDistinct(hunks: seq<Hunk>, bucket: Bucket)
    ensures NoDuplicates(FirstReports(hunks, bucket))
    ensures forall p :: p in FirstReports(hunks, bucket)
                        <==> exists i :: 0 <= i < |hunks| && BucketOf(hunks[i]) == bucket && Reported(hunks[i]) == p
  {
    if hunks == [] {
    } else {
      ReportsAreDistinct(hunks[..|hunks| - 1], bucket);
    }
  }

  /** A bucket lists its paths in the order of their first report. */
  lemma {:induction false} ReportsGrow(hunks: seq<Hunk>, more: seq<Hunk>, bucket: Bucket)
    ensures FirstReports(hunks, bucket) <= FirstReports(hunks + more, bucket)
    decreases |more|
  {
    if more == [] {
      NothingAdded(hunks);
    } else {
      var front := more[..|more| - 1];
      ReportsGrow(hunks, front, bucket);
      assert (hunks + more)[..|hunks + more| - 1] == hunks + front;
    }
  }

  predicate Names(h: Hunk, path: string) {
    match h
    case AddFile(p, _) => p == path
    case DeleteFile(p) => p == path
    case UpdateFile(p, movePath, _) => p == path || movePath == Some(path)
  }

  ghost predicate SameAt(a: Files, b: Files, path: string) {
    (path in a <==> path in b) && (path in a ==> a[path] == b[path])
  }

  /** Files that no hunk names stay as they are, even when a hunk fails. */
  lemma {:induction false} OtherFilesUntouched(files: Files, hunks: seq<Hunk>, path: string)
    requires forall i | 0 <= i < |hunks| :: !Names(hunks[i], path)
    ensures SameAt(files, FilesAfterAll(files, hunks).0, path)
    decreases |hunks|
  {
    hide UpdateText;
    if hunks == [] {
    } else {
      var next := FilesAfter(files, hunks[0]);
      if next.Success? {
        OtherFilesUntouched(next.value, hunks[1..], path);
      }
    }
  }

  /** A failing run has applied exactly the hunks before the one that fails. */
  lemma {:induction false} FailureKeepsPrefix(files: Files, hunks: seq<Hunk>)
    ensures var (after, error) := FilesAfterAll(files, hunks);
            error.Some? ==>
              exists k | 0 <= k < |hunks| ::
                && FilesAfterAll(files, hunks[..k]) == (after, None)
                && FilesAfter(after, hunks[k]) == Failure(error.value)
    decreases |hunks|
  {
    hide FilesAfter;
    var (after, error) := FilesAfterAll(files, hunks);
    if error.Some? {
      var next := FilesAfter(files, hunks[0]);
      if next.Failure? {
        assert hunks[..0] == [];
        assert FilesAfterAll(files, hunks[..0]) == (after, None);
      } else {
        FailureKeepsPrefix(next.value, hunks[1..]);
        var k :| 0 <= k < |hunks[1..]|
                 && FilesAfterAll(next.value, hunks[1..][..k]) == (after, None)
                 && FilesAfter(after, hunks[1..][k]) == Failure(error.value);
        assert hunks[..k + 1][1..] == hunks[1..][..k];
        assert FilesAfterAll(files, hunks[..k + 1]) == (after, None);
      }
    }
  }

  // What decides the state of a file ----------------------------------------------

  lemma {:induction false} RunTwice(files: Files, a: seq<Hunk>, b: seq<Hunk>)
    ensures var (middle, error) := FilesAfterAll(files, a);
            FilesAfterAll(files, a + b) == if error.Some? then (middle, error) else FilesAfterAll(middle, b)
    decreases |a|
  {
    hide FilesAfter;
    if a == [] {
      assert a + b == b;
    } else {
      assert (a + b)[0] == a[0] && (a + b)[1..] == a[1..] + b;
      var next := FilesAfter(files, a[0]);
      if next.Success? {
        RunTwice(next.value, a[1..], b);
      }
    }
  }

  /**
   After a patch has been applied, a path is as the last hunk that names it leaves it: an
   added file has its contents, a deleted one is gone, and an updated one has its updated
   text, at its new path if there is one.
   */
  lemma LastHunkDecides(files: Files, a: seq<Hunk>, h: Hunk, b: seq<Hunk>, path: string)
    requires FilesAfterAll(files, a + ([h] + b)).1 == None
    requires forall i | 0 <= i < |b| :: !Names(b[i], path)
    ensures var before, after := FilesAfterAll(files, a).0, FilesAfterAll(files, a + ([h] + b)).0;
            && (h.AddFile? && h.path == path ==> path in after && after[path] == h.contents)
            && (h.DeleteFile? && h.path == path ==> path in before && path !in after)
            && (h.UpdateFile? ==>
                  var target := if Moves(h.movePath) then h.movePath.value else h.path;
                  && h.path in before && UpdateText(before[h.path], h.chunks).Success?
                  && (path == h.path && Moves(h.movePath) ==> path !in after)
                  && (path == target && !(path == h.path && Moves(h.movePath)) ==>
                        path in after && after[path] == UpdateText(before[h.path], h.chunks).value))
  {
    hide FilesAfterAll, FilesAfter, UpdateText, Names, Moves;
    var before := FilesAfterAll(files, a).0;
    RunTwice(files, a, [h] + b);
    FirstOfRun(before, h, b);
    HunkLeaves(before, h, path);
    OtherFilesUntouched(FilesAfter(before, h).value, b, path);
  }

  lemma HunkLeaves(before: Files, h: Hunk, path: string)
    requires FilesAfter(before, h).Success?
    ensures var after := FilesAfter(before, h).value;
            && (h.AddFile? && h.path == path ==> path in after && after[path] == h.contents)
            && (h.DeleteFile? && h.path == path ==> path in before && path !in after)
            && (h.UpdateFile? ==>
                  var target := if Moves(h.movePath) then h.movePath.value else h.path;
                  && h.path in before && UpdateText(before[h.path], h.chunks).Success?
                  && (path == h.path && Moves(h.movePath) ==> path !in after)
                  && (path == target && !(path == h.path && Moves(h.movePath)) ==>
                        path in after && after[path] == UpdateText(before[h.path], h.chunks).value))
  {
    hide UpdateText;
  }

  lemma FirstOfRun(files: Files, h: Hunk, b: seq<Hunk>)
    ensures FilesAfterAll(files, [h] + b)
            == if FilesAfter(files, h).Failure? then (files, Some(FilesAfter(files, h).error))
               else FilesAfterAll(FilesAfter(files, h).value, b)
  {
    assert ([h] + b)[1..] == b;
    hide FilesAfter;
  }

  /** A hunk fails exactly when its file is not there, or when it is an update that cannot be applied to it. */
  lemma HunkFailsIff(files: Files, h: Hunk)
    ensures FilesAfter(files, h) == Failure(MissingFile(h.path)) <==> !h.AddFile? && h.path !in files
    ensures FilesAfter(files, h).Failure?
            <==> !h.AddFile? && (h.path in files ==> h.UpdateFile? && UpdateText(files[h.path], h.chunks).Failure?)
  {
    hide UpdateText;
  }

  /** The summary lists an added or deleted path as such, and an updated one as modified, under its new path. */
  lemma SummaryLists(hunks: seq<Hunk>, path: string)
    ensures path in SummaryOf(hunks).added <==> exists i :: 0 <= i < |hunks| && hunks[i].AddFile? && hunks[i].path == path
    ensures path in SummaryOf(hunks).deleted
            <==> exists i :: 0 <= i < |hunks| && hunks[i].DeleteFile? && hunks[i].path == path
    ensures path in SummaryOf(hunks).modified
            <==> exists i :: 0 <= i < |hunks| && hunks[i].UpdateFile?
                             && path == if hunks[i].movePath.Some? && hunks[i].movePath.value != ""
                                        then hunks[i].movePath.value else hunks[i].path
  {
    ReportsAreDistinct(hunks, Added);
    ReportsAreDistinct(hunks, Modified);
    ReportsAreDistinct(hunks, Deleted);
    hide FirstReports, NoDuplicates;
  }

  /**
   The printed patch that updates and moves a file leaves nothing at its old path, so
   moving a file onto itself deletes it; the new path has the updated text.
   */
  lemma MoveLeavesSource(files: Files, path: string, target: string, chunks: seq<Chunk>)
    requires path in files && UpdateText(files[path], chunks).Success?
    requires WellFormed(UpdateFile(path, Some(target), chunks))
    ensures var parsed := ParsePatch(PrintPatch([UpdateFile(path, Some(target), chunks)]));
            && parsed.Success?
            && var (after, error) := FilesAfterAll(files, parsed.value);
               && error == None && path !in after
               && (forall p | p != path && p != target :: SameAt(files, after, p))
               && (target in after <==> target != path)
               && (target != path ==> after[target] == UpdateText(files[path], chunks).value)
  {
    hide *;
    MoveTargetIsPath(path, target, chunks);
    WellFormedComesBack(UpdateFile(path, Some(target), chunks));
    FilesAfterMove(files, path, target, chunks);
    MovedFiles(files, path, target, UpdateText(files[path], chunks).value);
  }

  lemma MovedFiles(files: Files, path: string, target: string, text: string)
    ensures var after := files[target := text] - {path};
            && path !in after
            && (forall p | p != path && p != target :: SameAt(files, after, p))
            && (target in after <==> target != path)
            && (target != path ==> after[target] == text)
  {
  }

  lemma MoveTargetIsPath(path: string, target: string, chunks: seq<Chunk>)
    requires WellFormed(UpdateFile(path, Some(target), chunks))
    ensures target != ""
  {
  }

  lemma FilesAfterMove(files: Files, path: string, target: string, chunks: seq<Chunk>)
    requires path in files && UpdateText(files[path], chunks).Success? && target != ""
    ensures FilesAfterAll(files, [UpdateFile(path, Some(target), chunks)])
            == (files[target := UpdateText(files[path], chunks).value] - {path}, None)
  {
    hide UpdateText;
    assert [UpdateFile(path, Some(target), chunks)][1..] == [];
  }

  /**
   From text to text: printing a block patch for one file and applying it, then
   printing and applying the exchanged patch, restores all files exactly when the
   file was empty or ended in one newline, and a last block at the very end that is
   blank there when new is found in its place.
   */
  lemma PatchTextsUndoEachOther(files: Files, path: string, sites: seq<Site>, tail: seq<string>)
    requires path in files && ReadLines(files[path]) == OldVersion(sites, tail)
    requires Anchored(OldVersion(sites, tail), sites, 0)
    requires Anchored(NewVersion(sites, tail), Swapped(sites), 0) && Plain(NewVersion(sites, tail))
    requires WellFormed(UpdateFile(path, None, ChunksOf(sites)))
    requires WellFormed(UpdateFile(path, None, ChunksOf(Swapped(sites))))
    ensures var there := ParsePatch(PrintPatch([UpdateFile(path, None, ChunksOf(sites))]));
            var back := ParsePatch(PrintPatch([UpdateFile(path, None, ChunksOf(Swapped(sites)))]));
            && there.Success? && back.Success?
            && var (patched, error) := FilesAfterAll(files, there.value);
               && error == None
               && var (restored, error') := FilesAfterAll(patched, back.value);
                  && error' == None
                  && (restored == files
                      <==> Canonical(files[path])
                           && (BlankEndIsBlock(sites, tail) ==> FoundWithoutBlankEnd(sites)))
  {
    hide *;
    var there, back := UpdateFile(path, None, ChunksOf(sites)), UpdateFile(path, None, ChunksOf(Swapped(sites)));
    WellFormedComesBack(there);
    WellFormedComesBack(back);
    PatchAndPatchBack(files[path], sites, tail);
    var patched := UpdateText(files[path], there.chunks).value;
    OneUpdate(files, path, there.chunks);
    OneUpdate(files[path := patched], path, back.chunks);
    var restored := UpdateText(patched, back.chunks).value;
    assert files[path := patched][path := restored] == files[path := restored];
    assert files[path := restored] == files <==> restored == files[path];
  }

  lemma OneUpdate(files: Files, path: string, chunks: seq<Chunk>)
    requires path in files && UpdateText(files[path], chunks).Success?
    ensures FilesAfterAll(files, [UpdateFile(path, None, chunks)])
            == (files[path := UpdateText(files[path], chunks).value], None)
  {
    hide UpdateText;
    assert [UpdateFile(path, None, chunks)][1..] == [];
  }
}
