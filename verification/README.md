# Verified models of the patch engine, the doc runner, the process registry and the translation pipelines

This project models four parts of the repository in Dafny and proves what they are for.
`dafny verify dfyconfig.toml` checks everything.

- **The patch engine** (`src/agents/apply-patch.ts`, `src/agents/apply-patch-update.ts`).
  `PatchFormat` is the line parser of the `*** Begin Patch` format and `PatchUpdate` the four-pass fuzzy
  matcher with the right-to-left splicer, both as the loops they are. `PatchTiling` says which lines a
  parsed hunk comes from and which line an error names. `PatchPrinting` prints patches and says when the
  parser is the inverse, `PatchReprinting` that everything the parser returns can be printed.
  `PatchDiff` says what kept, deleted and inserted lines in any order parse to, `PatchSearch` what the
  passes of the search identify and where contexts and ends of file send it, and `PatchContext` what a patch
  written with context lines does to a file, from its text on.
  `PatchEffect` says what a patch does to a file and when its edits overlap, `PatchBack` when the reversed
  patch undoes it, and `PatchRun` applies whole patches to a map of files.
- **The parallel doc runner** (`scripts/docs-i18n/main.go`). `DocRunner` is a state machine whose actions
  are the atomic steps of feeder, workers and collector, with an inductive invariant, freedom from
  deadlock, a ranking and an exact account of all jobs.
- **Background processes** (`src/agents/bash-process-registry.ts` and its drivers). `ProcessOutput` keeps
  the capped chunk lists of a session in agreement with its history of writes and drains;
  `SessionRegistry` drives the two session maps by repeatable exit reports, polls in flight and the
  actions of the process tool.
- **Translation** (`scripts/control-ui-i18n.ts`, `scripts/docs-i18n`). `Batching` and `TranslateBatch` are
  the greedy batching and the split-on-timeout recursion, `NestedKeys` flattening and rebuilding of
  locale trees, `SegmentText` says which texts share a remembered translation, and `Reconcile` is the pass
  that brings a locale up to date. `Placeholders`, `Masking`,
  `MaskedText` and `MaskRoundTrip` mask code and addresses and put them back, `Links` and
  `LinkChains` resolve redirects and localize links, `TaggedDocument`, `FrontTemplate`, `FrontRoundTrip` and `FrontMatter` frame
  documents for the translator.

`Text` holds the string operations of the two host languages, `Wrappers` the usual option and result types.

Code that works by changing things in steps is modelled as methods with loops, or as classes whose methods
change fields, each proved equal to a function of its inputs or of the old state; the laws are lemmas about
those functions. Names of files, replies of the model, regular-expression matches, exit reports, sweeps and
schedules are parameters: every law holds for all of them.

## What the proofs found

- The patch matcher drops a trailing blank line from a pattern it cannot find. A patch and then the same
  patch with old and new lines exchanged restore a text exactly when the text was empty or ended in one
  newline and, if the last block is at the very end and its new version ends in a blank line, that block is
  found in its place without the blank line (`PatchAndPatchBack`, `BlankEndRoundTrip`). Such a text can come
  back (`BlankEndCanComeBack`), and it can come back with its lines swapped (`BlankEndCanSwapLines`).
- Edits can overlap (`EndOfFileChunksCanOverlap`, `InsertionsCanOverlapBeforeBlankEnd`). They do exactly
  when an end-of-file chunk is found before the end of an earlier edit, or when a pure insertion into a file
  with a blank end falls inside another edit (`EditsAreOrderly`).
- The error for an unexpected line names the line after it exactly when the chunk starts without an `@@`
  line (`LateIffNoMarker`; an input: `LateLineNumber`).
- What a patch parses to, printed and parsed again, is the same exactly when no line of it ends in a
  carriage return; one carriage return goes at every pass (`ReprintingIff`, `ReturnsAreLost`).
- In a chunk without an `@@` line blank context lines at the start are skipped, so they are not part of what
  is searched (`BlankLinesAreSkipped`); everything else in a chunk is taken as a diff says (`ParsedDiffs`).
- A chunk that only inserts goes to the end of the file, before a blank last line, also when it names a
  context line (`ContextIsPassed`).
- Moving a file onto itself deletes it (`MoveLeavesSource`).
- A `remove` that had to kill the process by its id leaves the session backgrounded, so that the next exit
  report puts the id back among the finished sessions (`FallbackRemoveComesBack`).
- A locale key that starts with a dot loses it, and a key that runs through a property every object
  inherits, such as `constructor.x`, is lost: prefix-free keys come back exactly when there is neither
  (`FlattenInvertsRebuildIff`, `InheritedKeyIsLost`). A locale tree comes back exactly when none of its
  sub-objects has an inherited name (`RebuildInvertsFlattenIff`).
- The placeholder numbering skips only the placeholders its scan finds, and the scan misses one whose first
  underscores belong to an earlier match, so a number already in the text can be handed out again
  (`FreshCanOccur`, exactly when: `FreshIsAbsentIff`).
- Unmasking replaces in the order of masking, so inline code inside the address of a link is lost
  (`CodeInLinkIsLost`, exactly when: `UnmaskUndoesMaskIff`). The spans of a later pass must also not cut a
  placeholder in two; spans with delimiters around them, as all patterns here have, never do.
- A locale name with `?` or `#` in it is localized again and again; without them localizing twice is
  localizing once (`IdempotentIff`).
- The name of a key is part of the error for a missing translation. The batch is split as if the prompt had
  timed out exactly when the first missing key contains `timed out`, and tried again otherwise
  (`MissingLooksTimedOutIff`, `MissingSplitsIff`; an input: `KeyLooksLikeTimeout`).

## Model

| member | source | states |
|---|---|---|
| `PatchUpdate.LinesMatch` | src/agents/apply-patch-update.ts:150-162 | the loop says whether the pattern matches at a start under one normalisation |
| `PatchUpdate.ScanPass` | src/agents/apply-patch-update.ts:125-146 | one pass finds the earliest match of its strength, or none |
| `PatchUpdate.SeekSequence` | src/agents/apply-patch-update.ts:107-148 | the four passes in order give the specified search result; an end-of-file search starts at the last possible place |
| `PatchUpdate.StrongerImpliesWeaker` | src/agents/apply-patch-update.ts:125-146 | what matches in one pass matches in every later one |
| `PatchUpdate.BestMatchCharacterised` | src/agents/apply-patch-update.ts:125-146 | a place is returned exactly when it is the earliest of the strongest pass that matches anywhere in range |
| `PatchUpdate.SeekIsStrongestEarliest` | src/agents/apply-patch-update.ts:107-148 | both directions: the result of a search is the earliest match of the strongest pass, and that match is the result |
| `PatchUpdate.SeekFailsIffNothingMatches` | src/agents/apply-patch-update.ts:107-148 | for a non-empty pattern the search fails exactly when nothing in range matches even the weakest normalisation |
| `PatchUpdate.SeekInRange` | src/agents/apply-patch-update.ts:107-148 | a found pattern lies within the file, at or behind the start of the search |
| `PatchSearch.PassIdentifies` | src/agents/apply-patch-update.ts:125-215 | the four passes identify equal lines, lines equal up to white space at the end, lines equal up to white space at both ends, and lines whose inner text is equal character by character up to dashes, quotes and blanks of a kind |
| `PatchSearch.EndOfFileIff` | src/agents/apply-patch-update.ts:120-124 | a search at the end of the file succeeds exactly where the pattern would end the file, when it matches there under the weakest pass |
| `PatchSearch.ContextFailsIff` | src/agents/apply-patch-update.ts:45-50 | a chunk fails on its context line exactly when no line from the cursor on matches it under the weakest pass |
| `PatchSearch.ContextIsPassed` | src/agents/apply-patch-update.ts:45-82 | with the best match of its context line at line i, a chunk is placed as the same chunk without context from line i + 1 on, so its edit starts behind line i unless it is an end-of-file chunk; a chunk that only inserts goes to the insertion point of the file |
| `PatchSearch.EmptyContextIsNone` | src/agents/apply-patch-update.ts:45-46 | an empty context line counts as none |
| `PatchSearch.SortIsStable` | src/agents/apply-patch-update.ts:84-86 | the edits are sorted by start, and edits with the same start keep the order of their chunks |
| `PatchUpdate.PlaceChunk` | src/agents/apply-patch-update.ts:44-82 | context, insertion, match and retry without a trailing blank line place one chunk or fail as specified |
| `PatchUpdate.ComputeReplacements` | src/agents/apply-patch-update.ts:37-87 | the chunk loop and the sort give the specified edits or the first failure |
| `PatchUpdate.RemoveLines` | src/agents/apply-patch-update.ts:97-99 | removing line by line is cutting the range, as far as there are lines |
| `PatchUpdate.InsertLines` | src/agents/apply-patch-update.ts:100-102 | inserting line by line is pasting the lines |
| `PatchUpdate.ApplyReplacements` | src/agents/apply-patch-update.ts:89-105 | the splices from right to left give the specified lines |
| `PatchUpdate.SplicingIsLeftToRight` | src/agents/apply-patch-update.ts:89-105 | for edits in range, sorted and disjoint the right-to-left splicing equals copying gaps and new lines from left to right |
| `PatchUpdate.ApplyUpdateHunk` | src/agents/apply-patch-update.ts:14-35 | reading, editing and writing back a file gives the specified text or error |
| `PatchEffect.LocateKeepsOrder` | src/agents/apply-patch-update.ts:44-82 | without end-of-file chunks and insertions before a blank end, edits are in range and each later one lies behind, or is an insertion at the end |
| `PatchEffect.SortingMakesDisjoint` | src/agents/apply-patch-update.ts:84-86 | edits sorted by start are disjoint in order exactly when any two of them are compatible: the one placed first ends before the other starts, or starts strictly behind its end |
| `PatchEffect.EditsAreOrderly` | src/agents/apply-patch-update.ts:37-105 | computed edits are in range; they are disjoint exactly when no two chunks overlap, that is when no end-of-file chunk is found before the end of an earlier edit and no pure insertion falls inside another edit; disjoint edits are the left-to-right rewriting |
| `PatchEffect.LocateLies` | src/agents/apply-patch-update.ts:44-82 | every edit is in range and starts at or behind the end of each earlier edit that is no pure insertion, except that an end-of-file chunk may be found at the very end of the file and a pure insertion goes to the insertion point |
| `PatchEffect.OrderlyChunksNeverOverlap` | src/agents/apply-patch-update.ts:37-87 | without end-of-file chunks and without pure insertions into a file with a blank end no edits overlap |
| `PatchEffect.EndOfFileChunksCanOverlap` | src/agents/apply-patch-update.ts:120-122 | a two-line file and two chunks whose edits overlap because an end-of-file chunk ignores the cursor |
| `PatchEffect.InsertionsCanOverlapBeforeBlankEnd` | src/agents/apply-patch-update.ts:55-59 | a file with a blank end and two chunks whose edits overlap because an insertion goes before that end |
| `PatchEffect.PatchRewritesBlocks` | src/agents/apply-patch-update.ts:37-105 | a file of gaps and old blocks, each first matching where it is, becomes the same gaps with the new blocks |
| `PatchContext.UpdateOfSpots` | src/agents/apply-patch-update.ts:14-105 | a file of gaps, context lines and old lines of diffs, each context line and old block first matching where it is, becomes the same file with the new lines of the diffs |
| `PatchContext.DiffsRewriteFile` | src/agents/apply-patch.ts:123-187 | from text to files: a patch written as diffs with and without context lines, parsed and applied, keeps, deletes and inserts exactly the lines it marks so and leaves every other line and file alone |
| `PatchBack.WriteOfRead` | src/agents/apply-patch-update.ts:19-34 | reading and writing leave a text alone exactly when it is empty or ends in one newline |
| `PatchBack.CanonicalIffNoBlankEnd` | src/agents/apply-patch-update.ts:19-34 | a text that ends in a newline is left alone by reading and writing exactly when its last line is not blank |
| `PatchBack.PatchAndPatchBack` | src/agents/apply-patch-update.ts:14-105 | a block patch and then the exchanged patch restore the text exactly when it was empty or ended in one newline and a last block that is at the very end and blank there when new is found in its place without that blank line |
| `PatchBack.BlankEndCanComeBack` | src/agents/apply-patch-update.ts:66-73 | a text that is restored although the new version of its last block ends in a blank line |
| `PatchBack.BlankEndCanSwapLines` | src/agents/apply-patch-update.ts:66-73 | a text of two lines that comes back with its lines swapped, because the new block is a single blank line and is then searched as no line at all |
| `PatchBack.BlankEndRoundTrip` | src/agents/apply-patch-update.ts:14-105 | when the new version ends in a blank line and nothing is behind the last block, the text comes back exactly when it was empty or ended in one newline and the block is found in its place only without its blank line |
| `PatchFormat.ParseUpdateFileChunk` | src/agents/apply-patch.ts:484-569 | the loop over the lines of a chunk gives the specified chunk, count or error |
| `PatchFormat.ParseAddedLines` | src/agents/apply-patch.ts:405-418 | the lines that start with a plus become the contents |
| `PatchFormat.ParseOneHunk` | src/agents/apply-patch.ts:398-482 | the three kinds of hunk, the optional move line and the loop over chunks give the specified hunk, count or error |
| `PatchFormat.CheckPatchBoundariesLenient` | src/agents/apply-patch.ts:362-396 | the markers are where they must be, possibly inside a here-document, or the specified error |
| `PatchFormat.AcceptedIff` | src/agents/apply-patch.ts:362-396 | lines are accepted exactly when their first and last line, trimmed, are the two markers, or when that is so inside a here-document of at least four lines; otherwise the first missing marker is reported |
| `PatchFormat.EmptyIff` | src/agents/apply-patch.ts:338-342 | a patch is refused as empty exactly when it is blank |
| `PatchFormat.ParsePatchText` | src/agents/apply-patch.ts:338-360 | trimming, splitting, the boundary check and the loop over hunks give the specified hunks or error; it ends on every input |
| `PatchFormat.ScanBody` | src/agents/apply-patch.ts:514-566 | the scan of a chunk consumes no more lines than there are, and at least one when there are any |
| `PatchFormat.ParseChunk` | src/agents/apply-patch.ts:484-569 | a parsed chunk has consumed at least one line and at most all |
| `PatchFormat.ParseHunk` | src/agents/apply-patch.ts:398-482 | a parsed hunk has consumed at least one line and at most all |
| `PatchDiff.ParseDiffChunk` | src/agents/apply-patch.ts:484-569 | kept, deleted and inserted lines in any order, a kept empty line with or without its mark, behind any marker: the chunk has the kept and deleted texts for its old lines and the kept and inserted texts for its new lines, in order |
| `PatchDiff.ParsedChunkIsDiff` | src/agents/apply-patch.ts:484-569 | whatever lines parse to a chunk are a marker, the lines of a diff and maybe an end-of-file line, up to a line that ends the chunk, and the chunk is the old and the new version of that diff; the marker is missing only where it may be |
| `PatchDiff.ParseDiffHunk` | src/agents/apply-patch.ts:430-478 | an update hunk written as diffs parses to the chunks of its diffs and is consumed whole |
| `PatchDiff.BlankLinesAreSkipped` | src/agents/apply-patch.ts:443-448 | blank lines before a chunk are skipped |
| `PatchDiff.ParsedDiffs` | src/agents/apply-patch.ts:338-569 | a patch whose updates are written as diffs, among any other printed hunks, parses to the chunks of those diffs |
| `PatchTiling.ScanBodyLocal` | src/agents/apply-patch.ts:514-566 | a chunk depends on the lines it consumes and on what ends it, not on the rest |
| `PatchTiling.ParseChunkLocal` | src/agents/apply-patch.ts:484-569 | a chunk with its marker depends on the lines it consumes and on what ends it, not on the rest |
| `PatchTiling.ScanChunksLocal` | src/agents/apply-patch.ts:446-470 | the chunks of a hunk depend on the lines they consume and on what ends them, not on the rest |
| `PatchTiling.ParseHunkLocal` | src/agents/apply-patch.ts:398-482 | a hunk read from exactly the lines it consumed is the same hunk |
| `PatchTiling.HunksTile` | src/agents/apply-patch.ts:345-358 | on success consecutive runs of lines cover the patch body, and each run read alone, from its true line number, gives its hunk |
| `PatchTiling.FailureTiles` | src/agents/apply-patch.ts:345-358 | on failure the lines before the hunk at fault tile, and that hunk read from its true line number gives the error |
| `PatchTiling.ErrorsNameTheirLine` | src/agents/apply-patch.ts:398-569 | every error names the number of its line among the lines of the patch, or the next number for an unexpected line in a chunk without a marker |
| `PatchTiling.LateIffNoMarker` | src/agents/apply-patch.ts:484-569 | the number in an error for an unexpected line is its own exactly when the first line of its chunk is a context marker, and the next one exactly when it is not |
| `PatchTiling.LateLineNumber` | src/agents/apply-patch.ts:560-564 | a patch whose third line is unexpected and reported as line 4 |
| `PatchPrinting.ParsePrintedChunk` | src/agents/apply-patch.ts:484-569 | a printed chunk parses to itself, whatever hunk or chunk follows |
| `PatchPrinting.ParsePrintedHunk` | src/agents/apply-patch.ts:398-482 | a printable hunk, printed, parses to itself and is consumed whole |
| `PatchPrinting.ParsePrintedHunks` | src/agents/apply-patch.ts:345-358 | the lines of printable hunks, printed, parse to those hunks |
| `PatchPrinting.ParsingUndoesPrinting` | src/agents/apply-patch.ts:338-569 | for every list of printable hunks, the printed patch, plain or inside any of the three here-document forms, parses to the hunks less one carriage return per line, so to the same hunks exactly when none of their lines ends in one |
| `PatchReprinting.ParsedIsPrintable` | src/agents/apply-patch.ts:338-569 | all hunks of every patch the parser accepts can be printed: paths are not empty and have no white space at the end, update hunks have chunks, chunks have lines, and no line has a line break in it |
| `PatchReprinting.ReprintingIff` | src/agents/apply-patch.ts:338-569 | what any accepted patch parsed to, printed and parsed again, is the same exactly when none of its lines ends in a carriage return |
| `PatchReprinting.ReturnsAreLost` | src/agents/apply-patch.ts:344 | a line that ends in two carriage returns loses one of them at each of two parses |
| `PatchRun.Run.constructor` | src/agents/apply-patch.ts:132-142 | a run starts with an empty summary and the given files |
| `PatchRun.Run.RecordSummary` | src/agents/apply-patch.ts:189-204 | a path joins its bucket unless it is there already; nothing else changes |
| `PatchRun.Run.ApplyOne` | src/agents/apply-patch.ts:151-180 | one hunk changes files and summary as specified, or nothing at all when it fails |
| `PatchRun.Run.ApplyPatch` | src/agents/apply-patch.ts:123-187 | a run leaves the files after all hunks before the first failing one, and returns its error or the summary |
| `PatchRun.ReportsAreDistinct` | src/agents/apply-patch.ts:189-204 | a bucket lists exactly the paths its hunks report, each once |
| `PatchRun.ReportsGrow` | src/agents/apply-patch.ts:189-204 | a bucket lists its paths in the order of their first report |
| `PatchRun.OtherFilesUntouched` | src/agents/apply-patch.ts:144-181 | files that no hunk names stay as they are, even when a hunk fails |
| `PatchRun.FailureKeepsPrefix` | src/agents/apply-patch.ts:144-181 | a failing run has applied exactly the hunks before one that fails on the files so reached |
| `PatchRun.HunkFailsIff` | src/agents/apply-patch.ts:151-180 | a hunk fails exactly when its file is missing or its update cannot be applied, and an added file never fails |
| `PatchRun.LastHunkDecides` | src/agents/apply-patch.ts:144-181 | after a successful run a path is as the last hunk that names it leaves it: with the added contents, gone, with the updated text, or moved away |
| `PatchRun.SummaryLists` | src/agents/apply-patch.ts:151-204 | the summary lists exactly the added paths, the deleted paths, and the updated paths under their new names, each in its own bucket |
| `PatchRun.MoveLeavesSource` | src/agents/apply-patch.ts:171-176 | the printed patch that updates and moves a file, parsed and applied, leaves nothing at the old path, the updated text at the new one and all other files as they were, so moving a file onto itself deletes it |
| `PatchRun.PatchTextsUndoEachOther` | src/agents/apply-patch.ts:123-187 | from text to text: printing, parsing and applying a block patch and then the exchanged one restores all files exactly when the file was empty or ended in one newline and a last block that is blank at the very end when new is found in its place without that blank line |
| `DocRunner.InitInv` | scripts/docs-i18n/main.go:164-212 | the invariant holds at the start |
| `DocRunner.StepKeepsInv` | scripts/docs-i18n/main.go:164-228 | every step keeps it: each job handed out is held, answered or dropped once; cancelling, dropping and leaving early follow an error already sent; answers are true; the collector has counted what it took |
| `DocRunner.StepKeepsJobs` | scripts/docs-i18n/main.go:181-208 | every step keeps each job in exactly one place |
| `DocRunner.StepKeepsErrorsFirst` | scripts/docs-i18n/main.go:188-198 | every step keeps that cancelling and dropping follow an error result already sent |
| `DocRunner.StepKeepsAnswersTrue` | scripts/docs-i18n/main.go:187-194 | an answer is the outcome of its job, or an error after some job really failed |
| `DocRunner.StepKeepsCounted` | scripts/docs-i18n/main.go:210-227 | the counters are the answers taken so far, and the collector stops at the first error |
| `DocRunner.SendNeverBlocks` | scripts/docs-i18n/main.go:166-194 | a worker that sends a result finds room in the channel |
| `DocRunner.NoDeadlock` | scripts/docs-i18n/main.go:164-228 | in every reachable state in which the collector has not returned, some step is possible |
| `DocRunner.StepLowersRank` | scripts/docs-i18n/main.go:164-228 | every step lowers a rank over feeder, workers, results and collector that stays natural |
| `DocRunner.RunsReturn` | scripts/docs-i18n/main.go:164-228 | every run has at most 5 n + 2 parallel + 3 steps, and one that cannot go on has returned |
| `DocRunner.DropsFollowErrors` | scripts/docs-i18n/main.go:182-184 | a job is dropped unanswered only after an error result has been sent |
| `DocRunner.CleanReturnAnswersAll` | scripts/docs-i18n/main.go:210-227 | on an error-free return every file has been answered exactly once with its own outcome, and nothing was dropped |
| `DocRunner.CleanReturnCounts` | scripts/docs-i18n/main.go:210-227 | on an error-free return the processed and skipped counts are those of the files and add up to all of them |
| `DocRunner.FailedReturnAccountsForAll` | scripts/docs-i18n/main.go:213-217 | on an error return the answered and the dropped jobs are exactly those handed out, each once |
| `DocRunner.CancelStopsJobs` | scripts/docs-i18n/main.go:181-198 | once a worker has cancelled a run, no worker goes from receiving a job to working on it, so a job that nobody had begun is never worked on and never answered |
| `DocRunner.CancelDropsJobs` | scripts/docs-i18n/main.go:181-198 | when such a run has returned, the jobs handed out and not begun before the cancellation are dropped |
| `DocRunner.ErrorIffSomeJobFails` | scripts/docs-i18n/main.go:164-228 | a returned run reports an error exactly when some file fails |
| `DocRunner.RunDocSequential` | scripts/docs-i18n/main.go:142-162 | the sequential runner stops at the first failing file and counts those before it |
| `DocRunner.RunDocParallel` | scripts/docs-i18n/main.go:164-228 | under every schedule the parallel runner returns; it fails exactly when some file fails and otherwise has the totals of the sequential one |
| `ProcessOutput.OverflowedMeans` | src/agents/bash-process-registry.ts:116-121 | overflow of a history: at some point a stream had more than the cap since its last drain |
| `ProcessOutput.CapPendingBuffer` | src/agents/bash-process-registry.ts:232-252 | the chunk list keeps the last cap characters and its exact length |
| `ProcessOutput.PushCapped` | src/agents/bash-process-registry.ts:113-121 | adding a chunk keeps the last cap characters, and tells whether there were more |
| `ProcessOutput.Session.constructor` | src/agents/bash-process-registry.ts:28-58 | a new session looks like an empty history |
| `ProcessOutput.Session.AppendOutput` | src/agents/bash-process-registry.ts:106-134 | after any write both pending lists, their cached lengths, the aggregate, the tail, the total and the truncation flag are what the history amounts to; neither pending list exceeds the session limit or the pending limit, and each is complete unless it reaches one of them |
| `ProcessOutput.KeptIsWithinLimits` | src/agents/bash-process-registry.ts:110-121 | what is kept of pending output is its end, within both limits, and all of it unless it is as long as one of them |
| `ProcessOutput.Session.DrainSession` | src/agents/bash-process-registry.ts:136-144 | a drain returns the last cap characters of each stream since the drain before and empties the lists |
| `ProcessOutput.Session.HandleData` | src/agents/bash-tools.exec-runtime.ts:603-607 | a write handed on in chunks looks like one write |
| `ProcessOutput.ViewAfterAppend` | src/agents/bash-process-registry.ts:106-134 | how one write changes what can be seen, in terms of what could be seen |
| `ProcessOutput.ViewAfterDrain` | src/agents/bash-process-registry.ts:136-144 | a drain clears the pending output and nothing else |
| `ProcessOutput.AggregateIsEnd` | src/agents/bash-process-registry.ts:122-134 | the aggregate is the end of all that was written, as long as the session limit allows, the tail its last 2000 characters, and the truncation flag says whether some text exceeded its limit |
| `ProcessOutput.LastNOfLastN` | src/agents/bash-process-registry.ts:254-259 | capping after every write is capping once |
| `ProcessOutput.ChunkString` | src/agents/bash-tools.shared.ts:69-75 | the loop gives the specified chunks |
| `ProcessOutput.ChunksConcat` | src/agents/bash-tools.shared.ts:69-75 | chunks are not empty, within the limit, and concatenate to the input |
| `ProcessOutput.ChunksAreFull` | src/agents/bash-tools.shared.ts:69-75 | all chunks but the last have exactly the limit |
| `ProcessOutput.PiecesLookWhole` | src/agents/bash-tools.exec-runtime.ts:603-607 | any way to cut up a write leaves the same view |
| `ProcessOutput.SplitWritesLookWhole` | src/agents/bash-tools.exec-runtime.ts:594-616 | the splitting of a write by the stream handlers leaves the same view as the write as a whole |
| `ProcessOutput.DrainsConserveOutput` | src/agents/bash-process-registry.ts:106-144 | as long as nothing overflows, drained and pending output are together all that was written |
| `SessionRegistry.StepKeepsInv` | src/agents/bash-process-registry.ts:88-215 | every event keeps: no id in both maps, running sessions have not exited, finished ones have, and notices are for sessions marked notified, once each |
| `SessionRegistry.ReachableIsConsistent` | src/agents/bash-process-registry.ts:146-215 | after any interleaving of events no id is in both maps and no session has two exit notices |
| `SessionRegistry.EntriesNeedBackground` | src/agents/bash-process-registry.ts:163-215 | a finished entry appears or changes only when a backgrounded session is marked exited |
| `SessionRegistry.FinishedHasCause` | src/agents/bash-process-registry.ts:146-215 | every finished entry goes back to an event that marked its backgrounded session exited |
| `SessionRegistry.FinishedAfter` | src/agents/bash-process-registry.ts:146-215 | a finished entry is written exactly when a backgrounded session is marked exited, with the outcome of the report, the outcome the polled session has, or a kill; every other entry stays unless it is cleared, removed or expired |
| `SessionRegistry.FinishedIsRecorded` | src/agents/bash-tools.process.ts:353-365 | a finished entry has the scope of its session and the outcome of the event that wrote it; for a poll the status is completed exactly when the exit code is absent or 0 and there is no signal |
| `SessionRegistry.RunningAfter` | src/agents/bash-process-registry.ts:88-215 | a session is running from when it is added until it is marked exited or removed |
| `SessionRegistry.SessionAfter` | src/agents/bash-process-registry.ts:146-161 | after any event a session is backgrounded until a remove cancels its run, has exited once reported or killed, and has the outcome of the last report or kill |
| `SessionRegistry.PollsAfter` | src/agents/bash-tools.process.ts:309-365 | a poll waits from when it finds a backgrounded session in scope until it goes on |
| `SessionRegistry.NoticesAfter` | src/agents/bash-tools.exec-runtime.ts:307-330 | no event changes the notices but an exit report that finds its session backgrounded, with a session key and notices asked for, not yet notified, and with something to say; it adds one notice |
| `SessionRegistry.NoticedIff` | src/agents/bash-tools.exec-runtime.ts:307-330 | over every run from the empty registry, a session has its notice exactly when the first exit report that found it backgrounded, with a session key and notices asked for, was a failure, had output, or was to be announced even when empty |
| `SessionRegistry.SeesIff` | src/agents/bash-tools.process.ts:143-144 | a caller sees the sessions of its own scope, and all sessions when it has none |
| `SessionRegistry.ComesBackIff` | src/agents/bash-process-registry.ts:163-215 | an id in neither map comes back exactly when its session is marked exited while backgrounded |
| `SessionRegistry.GoneStaysGone` | src/agents/bash-process-registry.ts:146-215 | an id in neither map whose session is not backgrounded stays away until it is backgrounded again |
| `SessionRegistry.CancelledRemoveIsFinal` | src/agents/bash-tools.process.ts:619-625 | after a remove that cancelled the run, later exit reports and polls in flight do not bring the id back |
| `SessionRegistry.FallbackRemoveComesBack` | src/agents/bash-tools.process.ts:626-635 | after a remove that killed the process by its id the next exit report brings the id back |
| `SessionRegistry.ToolStaysInScope` | src/agents/bash-tools.process.ts:308-669 | poll, kill, clear and remove of a scoped caller leave sessions of other scopes alone |
| `SessionRegistry.Registry.constructor` | src/agents/bash-process-registry.ts:70-78 | an empty registry |
| `SessionRegistry.Registry.AddSession` | src/agents/bash-process-registry.ts:88-91 | a session becomes running |
| `SessionRegistry.Registry.DeleteSession` | src/agents/bash-process-registry.ts:101-104 | an id leaves both maps |
| `SessionRegistry.Registry.MarkBackgrounded` | src/agents/bash-process-registry.ts:159-161 | a session becomes backgrounded |
| `SessionRegistry.Registry.MarkExited` | src/agents/bash-process-registry.ts:146-157 | a session is marked exited and moved |
| `SessionRegistry.Registry.MoveToFinished` | src/agents/bash-process-registry.ts:163-215 | an exited session stops running, and is finished when it was backgrounded |
| `SessionRegistry.Registry.MaybeNotifyOnExit` | src/agents/bash-tools.exec-runtime.ts:307-330 | an exit notice goes out at most once, and not for empty successes |
| `SessionRegistry.Registry.HandleExit` | src/agents/bash-tools.exec-runtime.ts:738-764 | an exit report marks the session and notifies |
| `SessionRegistry.Registry.BeginPoll` | src/agents/bash-tools.process.ts:309-352 | a poll waits exactly for a backgrounded session in scope |
| `SessionRegistry.Registry.FinishPoll` | src/agents/bash-tools.process.ts:353-365 | a poll that has waited marks an exited session again, by the object it holds |
| `SessionRegistry.Registry.KillSession` | src/agents/bash-tools.process.ts:565-597 | a kill that could not cancel marks the session killed |
| `SessionRegistry.Registry.ClearSession` | src/agents/bash-tools.process.ts:599-617 | clear deletes a finished session in scope |
| `SessionRegistry.Registry.RemoveSession` | src/agents/bash-tools.process.ts:619-669 | remove deletes a session in scope, with or without cancelling it |
| `SessionRegistry.Registry.PruneFinishedSessions` | src/agents/bash-process-registry.ts:288-295 | a sweep removes expired finished entries |
| `Batching.BuildTranslationBatches` | scripts/control-ui-i18n.ts:658-682 | the loop gives the greedy split: it concatenates to the input, respects both limits, and no order-preserving split within them has fewer batches |
| `Batching.GreedyIsSplit` | scripts/control-ui-i18n.ts:658-682 | the greedy batches are a split within the limits |
| `Batching.GreedyIsOptimal` | scripts/control-ui-i18n.ts:658-682 | no split within the limits is shorter |
| `Batching.FewerOpenNotWorse` | scripts/control-ui-i18n.ts:664-675 | with fewer items in the open batch the greedy loop does not make more batches |
| `Batching.SplitRespectsLimits` | scripts/control-ui-i18n.ts:664-675 | no batch is empty or over 20 items, and batches of several items are within the budget by the running total and by the estimate |
| `Batching.EstimateBelowCost` | scripts/control-ui-i18n.ts:498-500 | the running total exceeds the estimate by two for every item |
| `Batching.CostCounts` | scripts/control-ui-i18n.ts:664-676 | the running total of a batch is the characters of all keys and texts, ten for every item, and two |
| `TranslateBatch.CollectTranslations` | scripts/control-ui-i18n.ts:942-951 | the translations of a reply, or an error at the first missing one |
| `TranslateBatch.TranslateItems` | scripts/control-ui-i18n.ts:924-986 | the attempts and the splits give the specified outcome; they end under every reply pattern |
| `TranslateBatch.PromptBound` | scripts/control-ui-i18n.ts:924-986 | n items take at most 4 n - 2 prompts and nest splits at most ceil(log2 n) deep |
| `TranslateBatch.BoundsAreAttained` | scripts/control-ui-i18n.ts:924-986 | for every batch there are replies that take all 4 n - 2 prompts and all ceil(log2 n) splits in depth |
| `TranslateBatch.CeilLog2IsLeast` | scripts/control-ui-i18n.ts:959 | the depth bound is the least exponent whose power of two covers the items |
| `TranslateBatch.AllOrNothing` | scripts/control-ui-i18n.ts:924-986 | a batch fails, or returns exactly its keys, each with a non-blank text that one of its prompts gave for it |
| `TranslateBatch.CollectIsComplete` | scripts/control-ui-i18n.ts:942-951 | a collected reply has exactly the keys of the items |
| `TranslateBatch.DecidingPrompt` | scripts/control-ui-i18n.ts:932-986 | a batch is decided by its first prompt when that answers or times out and by its second one otherwise: an answer is taken as it is, a timeout splits several items at the upper middle and fails a single one, and a second failure of another kind fails the batch |
| `TranslateBatch.SingleTimeoutFails` | scripts/control-ui-i18n.ts:976-978 | a single item whose prompt times out fails with that prompt as its last |
| `TranslateBatch.MissingLooksTimedOutIff` | scripts/control-ui-i18n.ts:472-474 | the error for a missing translation counts as a timeout exactly when its key contains `timed out` in any case |
| `TranslateBatch.CollectFailsIff` | scripts/control-ui-i18n.ts:942-951 | a parsed reply that misses a translation gives an error for the first key it misses, which counts as a timeout exactly when that key contains `timed out` |
| `TranslateBatch.MissingSplitsIff` | scripts/control-ui-i18n.ts:942-979 | a batch of several items whose reply misses a key is split at once exactly when the first missing key contains `timed out`, and tried again otherwise |
| `TranslateBatch.KeyLooksLikeTimeout` | scripts/control-ui-i18n.ts:942-979 | two items and an empty reply that split the batch although no prompt has timed out |
| `NestedKeys.FlattenTranslations` | scripts/control-ui-i18n.ts:280-290 | the recursion over entries gives the specified bindings in order |
| `NestedKeys.RebuildMap` | scripts/control-ui-i18n.ts:1134-1137 | setting all keys one after the other gives the specified tree, where a key that runs into an inherited property is lost |
| `NestedKeys.SettingLeavesRebuilds` | scripts/control-ui-i18n.ts:292-307 | setting the leaves of a tree whose keys are its own, in order, rebuilds it |
| `NestedKeys.FlattenWritesLeaves` | scripts/control-ui-i18n.ts:280-290 | flattening writes the leaves under their dotted names, in order |
| `NestedKeys.RebuildInvertsFlattenIff` | scripts/control-ui-i18n.ts:280-307 | a tree with non-empty dot-free keys and no empty sub-objects comes back from its flat form, order included, exactly when no sub-object has an inherited name and no text the name `__proto__` |
| `NestedKeys.FlattenNamesLeaves` | scripts/control-ui-i18n.ts:280-290 | the flat form of a tree with non-empty dot-free keys and no empty sub-objects is the list of its leaves under their dotted names; the keys are distinct and none is the beginning of another |
| `NestedKeys.FlatIsSettableIff` | scripts/control-ui-i18n.ts:280-307 | a tree with non-empty dot-free keys and no empty sub-objects has no inherited names exactly when no key of its flat form runs into one |
| `NestedKeys.SetAddsLeaf` | scripts/control-ui-i18n.ts:292-307 | setting a path that clashes with no leaf keeps all leaves and adds that one, unless the path runs into an inherited property, when it adds nothing |
| `NestedKeys.RebuildAddsLeaves` | scripts/control-ui-i18n.ts:292-307 | rebuilding from prefix-free keys adds exactly the leaves of the keys that do not run into an inherited property, whatever the order |
| `NestedKeys.FlattenInvertsRebuildIff` | scripts/control-ui-i18n.ts:280-307 | prefix-free keys come back from rebuilding and flattening exactly when none starts with a dot and none runs into an inherited property |
| `NestedKeys.InheritedKeyIsLost` | scripts/control-ui-i18n.ts:296-304 | the single key `constructor.x` has no leading dot and leaves the rebuilt tree empty |
| `Reconcile.StoreBatch` | scripts/control-ui-i18n.ts:1078-1100 | the values of a translated batch go into the values and the memory |
| `Reconcile.SyncLocale` | scripts/control-ui-i18n.ts:1021-1132 | the three loops give the specified values, fallbacks and memory, or fail with a batch |
| `SegmentText.NormalizedIsWords` | scripts/control-ui-i18n.ts:226-228 | the normalized text is the words of the text with single spaces between them |
| `SegmentText.SlotIff` | scripts/control-ui-i18n.ts:226-248 | two segments share a remembered translation exactly when they have the same key and the same words, the words being the maximal runs of characters that are no white space |
| `Reconcile.QueuePending` | scripts/control-ui-i18n.ts:1020-1049 | the first loop keeps what is known and queues the rest |
| `Reconcile.TranslatePending` | scripts/control-ui-i18n.ts:1069-1100 | the loop over batches gives the specified values and memory, or fails with the first batch that fails |
| `Reconcile.FillPending` | scripts/control-ui-i18n.ts:1113-1127 | the last loop gives each queued key without a value an earlier translation or English |
| `Reconcile.TranslateAllAdds` | scripts/control-ui-i18n.ts:1069-1100 | when all batches succeed every pending key has a non-blank value that is remembered, and nothing else changes |
| `Reconcile.ReuseBranchIsDead` | scripts/control-ui-i18n.ts:1112-1123 | whenever the last loop gets to the branch for earlier translations, the key has none |
| `Reconcile.ForceIsIrrelevant` | scripts/control-ui-i18n.ts:1112-1126 | a run with the force option has the same result as one without |
| `Reconcile.BindingSettles` | scripts/control-ui-i18n.ts:1025-1126 | kept translations stay; pending keys are translated and remembered, or become English fallbacks |
| `Reconcile.RunIsTotal` | scripts/control-ui-i18n.ts:1021-1137 | every source key gets a value and no other key does |
| `Reconcile.ValueComesFrom` | scripts/control-ui-i18n.ts:1020-1127 | the value of a source key is the text remembered for the key and the same words, or else the existing one, unless it is a fallback to be translated; otherwise a prompt of this run gave it, or without a provider it is English |
| `Reconcile.StaleIsTranslated` | scripts/control-ui-i18n.ts:1020-1100 | without an existing value a key whose remembered texts all have other words is pending, and ends with a text that a prompt of this run gave for it, or without a provider with English |
| `Reconcile.FallbacksAreExact` | scripts/control-ui-i18n.ts:1021-1126 | a run with a provider leaves no fallbacks; one without keeps those it knew that are still in the source, and adds the keys without a translation |
| `Reconcile.RerunChangesNothing` | scripts/control-ui-i18n.ts:1016-1137 | running again in the same mode on the output makes no prompt and changes neither values nor fallbacks nor memory |
| `Reconcile.WrittenReadsBackIff` | scripts/control-ui-i18n.ts:1134-1137 | the written file reads back as the values that went into it exactly when the source tree has no inherited names |
| `Reconcile.RerunFromFileChangesNothing` | scripts/control-ui-i18n.ts:1016-1137 | a run whose values are written as a tree and read back leaves the next run in the same mode nothing to ask and nothing to change, and the next file is the same |
| `Placeholders.PlaceholderState.constructor` | scripts/docs-i18n/placeholders.go:12-18 | the numbering starts at 900000 with the placeholders found in the text in use |
| `Placeholders.PlaceholderState.Next` | scripts/docs-i18n/placeholders.go:20-30 | the loop ends and hands out the first number from the counter on whose placeholder is not in use |
| `Placeholders.IssuedAreDistinct` | scripts/docs-i18n/placeholders.go:20-30 | no two placeholders handed out are equal |
| `Placeholders.MissedIffSwallowed` | scripts/docs-i18n/placeholders.go:14-16 | the scan misses a match exactly when an earlier hit has taken its first underscores |
| `Placeholders.FreshIsAbsentIff` | scripts/docs-i18n/placeholders.go:12-30 | the placeholders handed out are absent from the text exactly when each swallowed one stands free somewhere else |
| `Placeholders.FreshCanOccur` | scripts/docs-i18n/placeholders.go:12-30 | a text that contains the first placeholder handed out for it |
| `Masking.MaskMatches` | scripts/docs-i18n/masking.go:23-44 | a pass over matches gives the specified masked text, names, values and numbering |
| `Masking.MaskLinkURLs` | scripts/docs-i18n/masking.go:46-71 | the pass over the addresses of links gives the specified masked text, names, values and numbering |
| `Masking.AllMatchesAreMasked` | scripts/docs-i18n/masking.go:23-71 | a pass over matches that come one behind the other masks the part of every one of them, in order, and nothing else |
| `Masking.OverlappingMatchIsSkipped` | scripts/docs-i18n/masking.go:31-65 | a match whose group took no part, or that starts before the end of the one masked last, is left as it is |
| `Masking.MaskMarkdown` | scripts/docs-i18n/masking.go:16-21 | masking a text is its three passes one after the other |
| `Masking.UnmaskMarkdown` | scripts/docs-i18n/masking.go:73-80 | unmasking a text is the replacement of each placeholder in the order of masking |
| `Masking.ValidatePlaceholders` | scripts/docs-i18n/masking.go:82-89 | the validation names the first placeholder that is missing, or none when all are there |
| `MaskedText.FirstOccurrence` | scripts/docs-i18n/masking.go:75-78 | in masked text a placeholder occurs only where its hole is |
| `MaskedText.ReplacingPlugs` | scripts/docs-i18n/masking.go:75-78 | replacing a placeholder plugs its holes and does nothing else |
| `MaskedText.UnmaskingPlugs` | scripts/docs-i18n/masking.go:73-80 | unmasking in order plugs the outer holes and leaves what they bring to the surface |
| `MaskedText.UnmaskingRestoresIff` | scripts/docs-i18n/masking.go:73-80 | unmasking restores the original exactly when no value contains the core of a placeholder |
| `MaskedText.AllPresentIff` | scripts/docs-i18n/masking.go:82-89 | all placeholders are in the masked text exactly when no value contains the core of a placeholder |
| `MaskRoundTrip.DelimitedMeansNoCuts` | scripts/docs-i18n/masking.go:9-14 | parts bounded by characters that no placeholder has never cut one |
| `MaskRoundTrip.UnmaskUndoesMaskIff` | scripts/docs-i18n/masking.go:16-80 | for a text without OC_I18N_ and any delimited spans in any number of passes, unmasking gives the text back exactly when no masked value contains an earlier placeholder |
| `MaskRoundTrip.MaskedTextIsValidIff` | scripts/docs-i18n/masking.go:82-89 | the masked text passes the validation exactly when no masked value contains an earlier placeholder |
| `MaskRoundTrip.CodeInLinkIsLost` | scripts/docs-i18n/masking.go:16-80 | a link with code for its address does not come back |
| `Links.LoadRedirects` | scripts/docs-i18n/localized_links.go:58-76 | the loaded map has for every route exactly the destination of the last item that sends it anywhere, both normalized and non-empty |
| `Links.RedirectsAreHops` | scripts/docs-i18n/localized_links.go:58-76 | the redirects are exactly the hops of the items: a route is sent to the destination of the last item whose normalized source it is and whose normalized routes are not empty |
| `LinkChains.NormalizedCore` | scripts/docs-i18n/localized_links.go:206-216 | a route is its text without blanks and slashes at either end, behind one slash |
| `LinkChains.NormalizedSlashes` | scripts/docs-i18n/localized_links.go:206-216 | slashes alone are the root, and blanks alone are no route |
| `Links.ResolveRoute` | scripts/docs-i18n/localized_links.go:368-398 | the loop ends on every redirect map and gives the specified result |
| `Links.ResolvesIff` | scripts/docs-i18n/localized_links.go:368-398 | a route resolves exactly to the end of its redirect chain, when there is one and it is served |
| `LinkChains.ResolvesByHops` | scripts/docs-i18n/localized_links.go:58-76 | in terms of the items as they were written: a route resolves exactly to the last route of a chain of hops from it that no hop leads on from, when that is localized, or is no root and in the source |
| `Links.EndIsUnique` | scripts/docs-i18n/localized_links.go:374-386 | a chain has at most one end |
| `Links.CycleHasNoEnd` | scripts/docs-i18n/localized_links.go:381-383 | a chain that comes back to a route has no end |
| `Links.LinkBecomes` | scripts/docs-i18n/localized_links.go:290-321 | a site-absolute link becomes the localized version of the end of its chain with its query and fragment, when it has no locale prefix and the end is localized, and stays otherwise |
| `LinkChains.LinkByHops` | scripts/docs-i18n/localized_links.go:290-349 | in terms of the items as they were written: a site-absolute link without a locale prefix becomes the locale, the last route of its chain of hops, and its query and fragment, when that route is localized |
| `LinkChains.LocalePrefixIff` | scripts/docs-i18n/localized_links.go:351-366 | a route has a locale prefix exactly when its first segment is the name of a locale |
| `Links.OtherLinksStay` | scripts/docs-i18n/localized_links.go:290-305 | links that are not site-absolute stay as they are |
| `Links.LocalizedStays` | scripts/docs-i18n/localized_links.go:307-310 | a link below the localized root stays |
| `Links.LocalizeTwice` | scripts/docs-i18n/localized_links.go:290-321 | localizing twice is localizing once for a slash-free, mark-free locale prefix |
| `Links.IdempotentIff` | scripts/docs-i18n/localized_links.go:290-321 | localizing twice is localizing once for all routes and links exactly when the locale has no ? and no # |
| `TaggedDocument.ParseUndoesFormatIff` | scripts/docs-i18n/doc_mode.go:83-131 | a formatted document comes back exactly when its front matter and its body lack their closing tags |
| `TaggedDocument.ClosingTagIsOptional` | scripts/docs-i18n/doc_mode.go:105-116 | a formatted document without its last closing tag parses to the same parts |
| `TaggedDocument.TextAroundIff` | scripts/docs-i18n/doc_mode.go:87-125 | a formatted document with text around it comes back exactly when that text is blank, and is refused otherwise |
| `TaggedDocument.MissingTagIff` | scripts/docs-i18n/doc_mode.go:87-103 | each opening tag and the closing tag of the front matter is reported as missing exactly when it is not there behind the tag before it |
| `FrontTemplate.BuildFrontmatterTemplate` | scripts/docs-i18n/doc_mode.go:140-174 | the template and the markers of the fields, in order |
| `FrontTemplate.TemplateIs` | scripts/docs-i18n/doc_mode.go:140-174 | the template is summary, title and conditions, in this order, each string between its own numbered markers |
| `FrontTemplate.SetReadWhenValue` | scripts/docs-i18n/doc_mode.go:216-226 | the list is filled up to the index and the value set |
| `FrontTemplate.SetItemMeans` | scripts/docs-i18n/doc_mode.go:216-226 | one item is set, the others stay, and missing ones before it are empty |
| `FrontTemplate.ApplyFrontmatterTranslations` | scripts/docs-i18n/doc_mode.go:180-200 | the loop over markers gives the specified data, or the first missing marker |
| `FrontTemplate.ExtractIff` | scripts/docs-i18n/doc_mode.go:202-214 | a value is extracted exactly from between the first start marker and the first end marker behind it |
| `FrontTemplate.MissingMarkerIs` | scripts/docs-i18n/doc_mode.go:202-214 | the start marker is reported as missing exactly when it is not in the text, and the end marker exactly when it is not behind the first start marker |
| `FrontTemplate.ApplyStopsAtMissing` | scripts/docs-i18n/doc_mode.go:180-200 | at the first missing marker the fields before it have been set and nothing else |
| `FrontRoundTrip.ExtractFinds` | scripts/docs-i18n/doc_mode.go:202-214 | from a text with distinct markers and no marker starts elsewhere, every value is extracted |
| `FrontRoundTrip.ReplySets` | scripts/docs-i18n/doc_mode.go:180-226 | a reply with every marker once, in any order, sets each field to its trimmed value |
| `FrontRoundTrip.UntouchedTemplateTrims` | scripts/docs-i18n/doc_mode.go:140-226 | applying the untouched template trims the strings and leaves everything else, when no value contains the start of a marker |
| `FrontMatter.SplitFrontMatter` | scripts/docs-i18n/process.go:92-116 | the scan for the delimiter gives the specified parts |
| `FrontMatter.SplitUndoesEncodeIff` | scripts/docs-i18n/process.go:92-134 | front matter that ends its last line and the exact body come back from the written file exactly when no line of it is a delimiter |
| `FrontMatter.SplitOfFenced` | scripts/docs-i18n/process.go:92-116 | a document whose first line starts with three dashes and has a delimiter line behind it is cut into the lines between them and the lines behind, less one newline |
| `FrontMatter.SplitOfUnfenced` | scripts/docs-i18n/process.go:92-116 | every other document is all body |

## Left out

- File access, process spawning, pseudo-terminals, timers, model prompts and log output: an abstract map of files, arbitrary replies and arbitrary interleavings of events take their place.
- `applyPatch`: abort signals, directories, boundary guards and path resolution. A path is identified with its display form, so two spellings of one path count as two files.
- `formatSummary` and the tool wrappers around `applyPatch`.
- Regular expressions, YAML and JSON: matches are any spans inside the text, YAML is any text, a parsed reply is a map from keys to strings or other values. A reply that repeats a key or is not an object at all counts as parsed or thrown, whatever the oracle says.
- Hashes: a cache key is the pair of a key and its normalized text, so different texts have different hashes; locale, provider and model are fixed for all runs.
- Characters stand for code units of the original strings, and `toLowerCase` folds ASCII letters only.
- Sorting fallback keys for the metadata file, the metadata itself, and the check mode of `syncLocale`.
- `setNestedValue` moves a cursor through shared objects; the model rebuilds the path on values, which does not show aliasing between sub-objects.
- JavaScript lists integer-like keys of an object first; the model keeps plain insertion order.
- A value that `setNestedValue` sets on an inherited object is lost from the tree here; that it changes that object for all later code, or throws when the property is read-only, is not followed.
- The doc runner when a translator fails to start: then more results than files can be sent. The feeder that stays blocked after an error return is not followed further.
- `runDocParallel` is modelled as a state machine over values, because its goroutines share channels and not fields; `RunDocParallel` is that machine under one schedule function.
- The parallel runner of text segments in `main.go`, whose jobs need no answers.
- Sessions in the registry are values keyed by id, so the aliasing of one session object by several closures is the shared entry of the `sessions` map; that an id is not used again after it was deleted is a precondition of `AddSession`.
- The log, write, send-keys, paste and list actions of the process tool, retry suggestions of polls, and the times and output copied into finished entries.
- Exit notices carry no text here, and whether there was output is a parameter of the exit report.
- Exec approval, targets, environment handling and the other helpers of the exec runtime.
- `appendOutput` fills in missing pending lists of sessions made elsewhere; sessions here always have them.
- Rewriting the targets of links and `href` attributes in a text: the loops are those of the masking passes with `localizeURL` in place of a placeholder.
- Collecting routes from the file tree and reading `docs.json`.
- Translating segments of a page and the translation memory on disk.
- UnmaskUndoesMaskIff: spans that cut a placeholder in two are excluded; the patterns of the code cannot produce them (`DelimitedMeansNoCuts`).
- UntouchedTemplateTrims: one direction only. A value with the start of a marker can still come back: when it does not complete a marker of the template, and also when it does and the text read in its stead has the same trimmed form.
- FallbackRemoveComesBack: the witness is the next exit report; polls in flight bring the id back in the same way (`ComesBackIff`).
- `encodeFrontMatter` adds its own field to the data before the YAML is written; only the text around the YAML is modelled.
