/**
 The output of a background process: capped pending buffers per stream, kept as
 lists of chunks with cached lengths, and a capped aggregate. A character stands
 for one code unit of the original strings.
 */
module ProcessOutput {
  import opened Wrappers
  import opened Text

  const DEFAULT_PENDING_OUTPUT_CHARS: nat := 30_000
  const TAIL_CHARS: nat := 2000

  datatype Stream = Stdout | Stderr

  /** `trimWithCap` and `tail`: the last `n` characters of a text, or all of it. */
  function LastN(s: string, n: nat): string {
    if |s| <= n then s else s[|s| - n..]
  }

  function Concat(chunks: seq<string>): string {
    if chunks == [] then "" else chunks[0] + Concat(chunks[1..])
  }

  lemma {:induction false} ConcatAppend(a: seq<string>, b: seq<string>)
    ensures Concat(a + b) == Concat(a) + Concat(b)
  {
    if a == [] {
      assert a + b == b;
    } else {
      assert (a + b)[0] == a[0] && (a + b)[1..] == a[1..] + b;
      ConcatAppend(a[1..], b);
    }
  }

  lemma ConcatPush(chunks: seq<string>, chunk: string)
    ensures Concat(chunks + [chunk]) == Concat(chunks) + chunk
  {
    ConcatAppend(chunks, [chunk]);
  }

  lemma LastNFacts(s: string, n: nat)
    ensures |s| <= n ==> LastN(s, n) == s
    ensures |LastN(s, n)| == if |s| <= n then |s| else n
  {
  }

  lemma LastNOfLastN(s: string, t: string, n: nat)
    ensures LastN(LastN(s, n) + t, n) == LastN(s + t, n)
  {
  }

  // What happened ----------------------------------------------------------------

  datatype Op = Append(stream: Stream, chunk: string) | Drain

  /** Everything written to a stream since the last drain. */
  function SinceDrain(ops: seq<Op>, stream: Stream): string {
    if ops == [] then ""
    else
      match ops[|ops| - 1]
      case Drain => ""
      case Append(st, chunk) => SinceDrain(ops[..|ops| - 1], stream) + if st == stream then chunk else ""
  }

  /** Everything written to either stream. */
  function Written(ops: seq<Op>): string {
    if ops == [] then ""
    else
      match ops[|ops| - 1]
      case Drain => Written(ops[..|ops| - 1])
      case Append(_, chunk) => Written(ops[..|ops| - 1]) + chunk
  }

  /** Some stream got more than `cap` characters between drains. */
  function Overflowed(ops: seq<Op>, cap: nat): bool {
    ops != [] &&
    (|SinceDrain(ops, Stdout)| > cap || |SinceDrain(ops, Stderr)| > cap || Overflowed(ops[..|ops| - 1], cap))
  }

  lemma NothingSince(stream: Stream, k: int)
    requires k == 0
    ensures SinceDrain([], stream) == "" && SinceDrain([][..k], stream) == ""
  {
  }

  lemma {:induction false} OverflowedAt(ops: seq<Op>, cap: nat, k: nat, stream: Stream)
    requires k <= |ops| && |SinceDrain(ops[..k], stream)| > cap
    ensures Overflowed(ops, cap)
  {
    hide SinceDrain;
    if ops == [] {
      NothingSince(stream, k);
    } else if k == |ops| {
      assert ops[..k] == ops;
    } else {
      assert ops[..|ops| - 1][..k] == ops[..k];
      OverflowedAt(ops[..|ops| - 1], cap, k, stream);
    }
  }

  lemma {:induction false} OverflowWitness(ops: seq<Op>, cap: nat) returns (k: nat, stream: Stream)
    requires Overflowed(ops, cap)
    ensures k <= |ops| && |SinceDrain(ops[..k], stream)| > cap
  {
    hide SinceDrain;
    assert ops[..|ops|] == ops;
    if |SinceDrain(ops, Stdout)| > cap {
      return |ops|, Stdout;
    }
    if |SinceDrain(ops, Stderr)| > cap {
      return |ops|, Stderr;
    }
    k, stream := OverflowWitness(ops[..|ops| - 1], cap);
    assert ops[..|ops| - 1][..k] == ops[..k];
  }

  lemma OverflowedMeans(ops: seq<Op>, cap: nat)
    ensures Overflowed(ops, cap)
            <==> exists k: nat, stream :: k <= |ops| && |SinceDrain(ops[..k], stream)| > cap
  {
    hide *;
    if Overflowed(ops, cap) {
      var k, stream := OverflowWitness(ops, cap);
    }
    if k: nat, stream :| k <= |ops| && |SinceDrain(ops[..k], stream)| > cap {
      OverflowedAt(ops, cap, k, stream);
    }
  }

  lemma OpsAppend(ops: seq<Op>, op: Op)
    ensures (ops + [op])[..|ops + [op]| - 1] == ops && (ops + [op])[|ops + [op]| - 1] == op
  {
    hide *;
    SplitSum(ops, [op]);
    assert |ops + [op]| - 1 == |ops|;
  }

  // What a caller can observe -----------------------------------------------------

  datatype View = View(
    stdout: string, stderr: string, aggregated: string, tail: string, total: nat, truncated: bool)

  function PendingCap(pendingMax: Option<nat>, maxOutput: nat): nat {
    var wanted := if pendingMax.Some? then pendingMax.value else DEFAULT_PENDING_OUTPUT_CHARS;
    if wanted <= maxOutput then wanted else maxOutput
  }

  /**
   What is kept of the output that waits: its end, within both limits, and all of it unless
   one of the limits is reached.
   */
  predicate WithinLimits(kept: string, all: string, pendingMax: Option<nat>, maxOutput: nat) {
    var wanted := if pendingMax.Some? then pendingMax.value else 30_000;
    && |kept| <= wanted && |kept| <= maxOutput
    && |kept| <= |all| && kept == all[|all| - |kept|..]
    && (kept == all || |kept| == wanted || |kept| == maxOutput)
  }

  lemma KeptIsWithinLimits(all: string, pendingMax: Option<nat>, maxOutput: nat)
    ensures WithinLimits(LastN(all, PendingCap(pendingMax, maxOutput)), all, pendingMax, maxOutput)
  {
  }

  /** The specification: what the history of writes and drains amounts to. */
  function ViewOf(ops: seq<Op>, cap: nat, maxOutput: nat): View {
    View(
      LastN(SinceDrain(ops, Stdout), cap),
      LastN(SinceDrain(ops, Stderr), cap),
      LastN(Written(ops), maxOutput),
      LastN(LastN(Written(ops), maxOutput), TAIL_CHARS),
      |Written(ops)|,
      |Written(ops)| > maxOutput || Overflowed(ops, cap))
  }

  predicate IsEnd(kept: string, all: string, n: nat) {
    |kept| == (if |all| <= n then |all| else n) && kept == all[|all| - |kept|..]
  }

  /** The aggregate is the end of all that was written, and the tail its last 2000 characters. */
  lemma AggregateIsEnd(ops: seq<Op>, cap: nat, maxOutput: nat)
    ensures var v := ViewOf(ops, cap, maxOutput);
            && IsEnd(v.aggregated, Written(ops), maxOutput) && IsEnd(v.tail, v.aggregated, 2000)
            && v.total == |Written(ops)|
            && (v.truncated <==>
                 |Written(ops)| > maxOutput
                 || exists k: nat, stream :: k <= |ops| && |SinceDrain(ops[..k], stream)| > cap)
  {
    OverflowedMeans(ops, cap);
    hide Written, SinceDrain, Overflowed;
  }

  lemma PendingViews(ops: seq<Op>, cap: nat, maxOutput: nat)
    ensures ViewOf(ops, cap, maxOutput).stdout == LastN(SinceDrain(ops, Stdout), cap)
    ensures ViewOf(ops, cap, maxOutput).stderr == LastN(SinceDrain(ops, Stderr), cap)
  {
  }

  lemma HistoryAfter(ops: seq<Op>, op: Op, stream: Stream)
    ensures SinceDrain(ops + [op], stream)
            == if op.Drain? then "" else SinceDrain(ops, stream) + if op.stream == stream then op.chunk else ""
    ensures Written(ops + [op]) == if op.Drain? then Written(ops) else Written(ops) + op.chunk
  {
    OpsAppend(ops, op);
  }

  lemma OverflowedAfter(ops: seq<Op>, op: Op, cap: nat)
    ensures Overflowed(ops + [op], cap)
            <==> Overflowed(ops, cap)
                 || |SinceDrain(ops + [op], Stdout)| > cap || |SinceDrain(ops + [op], Stderr)| > cap
  {
    OpsAppend(ops, op);
    hide SinceDrain;
  }

  lemma FullMeansOverflowed(ops: seq<Op>, stream: Stream, cap: nat)
    ensures |SinceDrain(ops, stream)| > cap ==> Overflowed(ops, cap)
  {
    if ops != [] {
      hide SinceDrain;
    }
  }

  function PendingOf(v: View, stream: Stream): string {
    if stream == Stdout then v.stdout else v.stderr
  }

  /** How one write changes what can be observed, in terms of what could be observed. */
  lemma ViewAfterAppend(ops: seq<Op>, stream: Stream, chunk: string, cap: nat, maxOutput: nat)
    ensures var v, v' := ViewOf(ops, cap, maxOutput), ViewOf(ops + [Append(stream, chunk)], cap, maxOutput);
            Appended(v, v', stream, chunk, cap, maxOutput)
  {
    var op := Append(stream, chunk);
    HistoryAfter(ops, op, Stdout);
    HistoryAfter(ops, op, Stderr);
    OverflowedAfter(ops, op, cap);
    FullMeansOverflowed(ops, Stdout, cap);
    FullMeansOverflowed(ops, Stderr, cap);
    LastNOfLastN(SinceDrain(ops, stream), chunk, cap);
    LastNOfLastN(Written(ops), chunk, maxOutput);
    NothingAdded(SinceDrain(ops, Stdout));
    NothingAdded(SinceDrain(ops, Stderr));
    hide SinceDrain, Written, Overflowed;
  }

  predicate Appended(v: View, v': View, stream: Stream, chunk: string, cap: nat, maxOutput: nat) {
    && v'.stdout == (if stream == Stdout then LastN(v.stdout + chunk, cap) else v.stdout)
    && v'.stderr == (if stream == Stderr then LastN(v.stderr + chunk, cap) else v.stderr)
    && v'.aggregated == LastN(v.aggregated + chunk, maxOutput)
    && v'.tail == LastN(v'.aggregated, TAIL_CHARS)
    && v'.total == v.total + |chunk|
    && (v'.truncated <==>
         v.truncated || |PendingOf(v, stream) + chunk| > cap || |v.aggregated + chunk| > maxOutput)
  }

  lemma AppendedOnce(v: View, a: View, b: View, stream: Stream, chunk: string, cap: nat, maxOutput: nat)
    requires Appended(v, a, stream, chunk, cap, maxOutput) && Appended(v, b, stream, chunk, cap, maxOutput)
    ensures a == b
  {
  }

  lemma ViewAfterDrain(ops: seq<Op>, cap: nat, maxOutput: nat)
    ensures var v, v' := ViewOf(ops, cap, maxOutput), ViewOf(ops + [Drain], cap, maxOutput);
            v' == v.(stdout := "", stderr := "")
  {
    HistoryAfter(ops, Drain, Stdout);
    HistoryAfter(ops, Drain, Stderr);
    OverflowedAfter(ops, Drain, cap);
    hide SinceDrain, Written, Overflowed;
  }

  // The session --------------------------------------------------------------------

  lemma LastNDrops(a: string, b: string, n: nat)
    requires n <= |b|
    ensures LastN(a + b, n) == LastN(b, n) == b[|b| - n..]
  {
  }

  lemma CutFirst(buffer: seq<string>, overflow: nat)
    requires buffer != [] && overflow <= |buffer[0]|
    ensures Concat(buffer) == buffer[0] + Concat(buffer[1..])
    ensures Concat([buffer[0][overflow..]] + buffer[1..]) == Concat(buffer)[overflow..]
  {
  }

  /** Shrinks a list of chunks to its last `cap` characters. */
  method CapPendingBuffer(chunks: seq<string>, chars: nat, cap: nat) returns (buffer: seq<string>, pendingChars: nat)
    requires chars == |Concat(chunks)|
    ensures Concat(buffer) == LastN(Concat(chunks), cap) && pendingChars == |Concat(buffer)|
  {
    hide LastN, Concat;
    buffer, pendingChars := chunks, chars;
    ConcatOne("");
    LastNFacts(Concat(chunks), cap);
    if pendingChars <= cap {
      return;
    }
    var last := if |buffer| > 0 then buffer[|buffer| - 1] else "";
    if last != "" && |last| >= cap {
      InitLast(chunks);
      ConcatPush(chunks[..|chunks| - 1], last);
      LastNDrops(Concat(chunks[..|chunks| - 1]), last, cap);
      buffer := [last[|last| - cap..]];
      ConcatOne(last[|last| - cap..]);
      return buffer, cap;
    }
    while |buffer| > 0 && pendingChars - |buffer[0]| >= cap
      invariant pendingChars == |Concat(buffer)| && cap <= pendingChars
      invariant LastN(Concat(buffer), cap) == LastN(Concat(chunks), cap)
      decreases |buffer|
    {
      CutFirst(buffer, 0);
      LastNDrops(buffer[0], Concat(buffer[1..]), cap);
      pendingChars := pendingChars - |buffer[0]|;
      buffer := buffer[1..];
    }
    LastNFacts(Concat(buffer), cap);
    if |buffer| > 0 && pendingChars > cap {
      var overflow := pendingChars - cap;
      CutFirst(buffer, overflow);
      LastNDrops("", Concat(buffer), cap);
      NothingAdded(Concat(buffer));
      buffer := [buffer[0][overflow..]] + buffer[1..];
      pendingChars := cap;
    }
  }

  /** Adds a chunk to a stream's list, capping the list when it is over. */
  method PushCapped(chunks: seq<string>, chars: nat, chunk: string, cap: nat)
    returns (buffer: seq<string>, pendingChars: nat, over: bool)
    requires chars == |Concat(chunks)|
    ensures Concat(buffer) == LastN(Concat(chunks) + chunk, cap) && pendingChars == |Concat(buffer)|
    ensures over <==> |Concat(chunks) + chunk| > cap
  {
    hide LastN, Concat;
    ConcatPush(chunks, chunk);
    LastNFacts(Concat(chunks) + chunk, cap);
    buffer, pendingChars := chunks + [chunk], chars + |chunk|;
    over := pendingChars > cap;
    if over {
      buffer, pendingChars := CapPendingBuffer(buffer, pendingChars, cap);
    }
  }

  lemma ConcatOne(chunk: string)
    ensures Concat([chunk]) == chunk && Concat([]) == ""
  {
  }

  class Session {
    const maxOutputChars: nat
    const pendingMaxOutputChars: Option<nat>
    var pendingStdout: seq<string>
    var pendingStderr: seq<string>
    var pendingStdoutChars: nat
    var pendingStderrChars: nat
    var totalOutputChars: nat
    var aggregated: string
    var tail: string
    var truncated: bool
    ghost var ops: seq<Op>

    ghost function Cap(): nat {
      PendingCap(pendingMaxOutputChars, maxOutputChars)
    }

    /** What the fields say, chunk boundaries aside. */
    function Observed(): View
      reads this
    {
      View(Concat(pendingStdout), Concat(pendingStderr), aggregated, tail, totalOutputChars, truncated)
    }

    /** The fields say what the history amounts to, and the cached lengths are exact. */
    ghost predicate Valid()
      reads this
    {
      && Observed() == ViewOf(ops, Cap(), maxOutputChars)
      && pendingStdoutChars == |Concat(pendingStdout)|
      && pendingStderrChars == |Concat(pendingStderr)|
    }

    constructor (maxOutputChars: nat, pendingMaxOutputChars: Option<nat>)
      ensures Valid() && ops == []
      ensures this.maxOutputChars == maxOutputChars && this.pendingMaxOutputChars == pendingMaxOutputChars
    {
      this.maxOutputChars, this.pendingMaxOutputChars := maxOutputChars, pendingMaxOutputChars;
      pendingStdout, pendingStderr, pendingStdoutChars, pendingStderrChars := [], [], 0, 0;
      totalOutputChars, aggregated, tail, truncated := 0, "", "", false;
      ops := [];
    }

    /** Both streams keep the end of what they got since the last drain, within the limits. */
    ghost predicate Capped()
      reads this
    {
      && WithinLimits(Concat(pendingStdout), SinceDrain(ops, Stdout), pendingMaxOutputChars, maxOutputChars)
      && WithinLimits(Concat(pendingStderr), SinceDrain(ops, Stderr), pendingMaxOutputChars, maxOutputChars)
    }

    lemma PendingIsCapped()
      requires Valid()
      ensures Capped()
    {
      hide LastN, Concat, SinceDrain, Written, Overflowed, WithinLimits, PendingCap, ViewOf;
      PendingViews(ops, Cap(), maxOutputChars);
      KeptIsWithinLimits(SinceDrain(ops, Stdout), pendingMaxOutputChars, maxOutputChars);
      KeptIsWithinLimits(SinceDrain(ops, Stderr), pendingMaxOutputChars, maxOutputChars);
    }

    method AppendOutput(stream: Stream, chunk: string)
      requires Valid()
      modifies this
      ensures Valid() && ops == old(ops) + [Append(stream, chunk)]
      ensures Capped()
    {
      hide ViewOf, LastN, Concat, SinceDrain, Written, Overflowed, Capped;
      ghost var before := Observed();
      ViewAfterAppend(ops, stream, chunk, Cap(), maxOutputChars);
      LastNFacts(aggregated + chunk, maxOutputChars);
      var buffer := if stream == Stdout then pendingStdout else pendingStderr;
      var bufferChars := if stream == Stdout then pendingStdoutChars else pendingStderrChars;
      var wanted := if pendingMaxOutputChars.Some? then pendingMaxOutputChars.value else DEFAULT_PENDING_OUTPUT_CHARS;
      var pendingCap := if wanted <= maxOutputChars then wanted else maxOutputChars;
      var pendingChars, over;
      buffer, pendingChars, over := PushCapped(buffer, bufferChars, chunk, pendingCap);
      truncated := truncated || over;
      if stream == Stdout {
        pendingStdout, pendingStdoutChars := buffer, pendingChars;
      } else {
        pendingStderr, pendingStderrChars := buffer, pendingChars;
      }
      totalOutputChars := totalOutputChars + |chunk|;
      var trimmed := LastN(aggregated + chunk, maxOutputChars);
      truncated := truncated || |trimmed| < |aggregated| + |chunk|;
      aggregated := trimmed;
      tail := LastN(aggregated, TAIL_CHARS);
      AppendedOnce(before, ViewOf(ops + [Append(stream, chunk)], Cap(), maxOutputChars), Observed(),
                   stream, chunk, Cap(), maxOutputChars);
      ops := ops + [Append(stream, chunk)];
      PendingIsCapped();
    }

    method DrainSession() returns (stdout: string, stderr: string)
      requires Valid()
      modifies this
      ensures Valid() && ops == old(ops) + [Drain]
      ensures stdout == LastN(SinceDrain(old(ops), Stdout), Cap())
      ensures stderr == LastN(SinceDrain(old(ops), Stderr), Cap())
    {
      stdout, stderr := Concat(pendingStdout), Concat(pendingStderr);
      pendingStdout, pendingStderr := [], [];
      pendingStdoutChars, pendingStderrChars := 0, 0;
      ViewAfterDrain(ops, Cap(), maxOutputChars);
      ops := ops + [Drain];
    }
  
    /** A write in pieces, as the stream handlers do it. */
    method HandleData(stream: Stream, data: string)
      requires Valid()
      modifies this
      ensures Valid() && ops == old(ops) + AppendAll(stream, ChunksOf(data, 8192))
      ensures Observed() == ViewOf(old(ops) + [Append(stream, data)], Cap(), maxOutputChars)
    {
      hide ViewOf, SinceDrain, Concat, LastN;
      var chunks := ChunkString(data, CHUNK_LIMIT);
      NothingAdded(ops);
      for i := 0 to |chunks|
        invariant Valid() && ops == old(ops) + AppendAll(stream, chunks[..i])
      {
        assert chunks[..i + 1] == chunks[..i] + [chunks[i]];
        AppendAllPush(stream, chunks[..i], chunks[i]);
        AppendOutput(stream, chunks[i]);
        Assoc(old(ops), AppendAll(stream, chunks[..i]), [Append(stream, chunks[i])]);
      }
      assert chunks[..|chunks|] == chunks;
      SplitWritesLookWhole(old(ops), stream, data, CHUNK_LIMIT, Cap(), maxOutputChars);
    }
  }

  // Splitting a write ---------------------------------------------------------------

  const CHUNK_LIMIT: nat := 8 * 1024

  function ChunksOf(input: string, limit: nat): seq<string>
    requires limit > 0
    decreases |input|
  {
    if input == "" then []
    else if |input| <= limit then [input]
    else [input[..limit]] + ChunksOf(input[limit..], limit)
  }

  method ChunkString(input: string, limit: nat) returns (chunks: seq<string>)
    requires limit > 0
    ensures chunks == ChunksOf(input, limit)
  {
    chunks := [];
    var i := 0;
    assert input[0..] == input;
    while i < |input|
      invariant 0 <= i
      invariant chunks + (if i <= |input| then ChunksOf(input[i..], limit) else []) == ChunksOf(input, limit)
      decreases |input| - i
    {
      var end := if i + limit <= |input| then i + limit else |input|;
      var rest := input[i..];
      assert if |rest| <= limit then input[i..end] == rest
             else rest[..limit] == input[i..end] && rest[limit..] == input[i + limit..];
      chunks := chunks + [input[i..end]];
      i := i + limit;
    }
  }

  lemma {:induction false} ChunksConcat(input: string, limit: nat)
    requires limit > 0
    ensures Concat(ChunksOf(input, limit)) == input
    ensures forall k | 0 <= k < |ChunksOf(input, limit)| :: 0 < |ChunksOf(input, limit)[k]| <= limit
    decreases |input|
  {
    if |input| > limit {
      ChunksConcat(input[limit..], limit);
      assert input == input[..limit] + input[limit..];
    }
  }

  /** Only the last chunk may be shorter than the limit. */
  lemma {:induction false} ChunksAreFull(input: string, limit: nat, k: nat)
    requires limit > 0 && k + 1 < |ChunksOf(input, limit)|
    ensures |ChunksOf(input, limit)[k]| == limit
    decreases |input|
  {
    if k > 0 {
      ChunksAreFull(input[limit..], limit, k - 1);
    }
  }

  function AppendAll(stream: Stream, chunks: seq<string>): seq<Op> {
    if chunks == [] then [] else AppendAll(stream, chunks[..|chunks| - 1]) + [Append(stream, chunks[|chunks| - 1])]
  }

  lemma AppendAllPush(stream: Stream, chunks: seq<string>, chunk: string)
    ensures AppendAll(stream, chunks + [chunk]) == AppendAll(stream, chunks) + [Append(stream, chunk)]
  {
    var all := chunks + [chunk];
    assert all[..|all| - 1] == chunks;
  }

  lemma {:induction false} HistoryOfPieces(ops: seq<Op>, stream: Stream, chunks: seq<string>, cap: nat)
    ensures var all := ops + AppendAll(stream, chunks);
            && (forall st :: SinceDrain(all, st) == SinceDrain(ops, st) + if st == stream then Concat(chunks) else "")
            && Written(all) == Written(ops) + Concat(chunks)
            && (Overflowed(all, cap) <==>
                 Overflowed(ops, cap) || |SinceDrain(all, Stdout)| > cap || |SinceDrain(all, Stderr)| > cap)
    decreases |chunks|
  {
    hide *;
    if chunks == [] {
      NoPieces(ops, stream);
      FullMeansOverflowed(ops, Stdout, cap);
      FullMeansOverflowed(ops, Stderr, cap);
    } else {
      var front, last := chunks[..|chunks| - 1], chunks[|chunks| - 1];
      var before, op := ops + AppendAll(stream, front), Append(stream, last);
      assert chunks == front + [last];
      AppendAllPush(stream, front, last);
      Assoc(ops, AppendAll(stream, front), [op]);
      HistoryOfPieces(ops, stream, front, cap);
      ConcatPush(front, last);
      HistoryAfter(before, op, Stdout);
      HistoryAfter(before, op, Stderr);
      OverflowedAfter(before, op, cap);
      Assoc(SinceDrain(ops, stream), Concat(front), last);
      Assoc(Written(ops), Concat(front), last);
    }
  }

  lemma NoPieces(ops: seq<Op>, stream: Stream)
    ensures ops + AppendAll(stream, []) == ops && Concat([]) == ""
  {
  }

  /** Histories that differ only in how writes are cut up cannot be told apart. */
  lemma PiecesLookWhole(ops: seq<Op>, stream: Stream, chunks: seq<string>, cap: nat, maxOutput: nat)
    ensures ViewOf(ops + AppendAll(stream, chunks), cap, maxOutput)
            == ViewOf(ops + [Append(stream, Concat(chunks))], cap, maxOutput)
  {
    var op := Append(stream, Concat(chunks));
    HistoryOfPieces(ops, stream, chunks, cap);
    HistoryAfter(ops, op, Stdout);
    HistoryAfter(ops, op, Stderr);
    OverflowedAfter(ops, op, cap);
    hide SinceDrain, Written, Overflowed, Concat, AppendAll, LastN;
  }

  lemma SplitWritesLookWhole(ops: seq<Op>, stream: Stream, data: string, limit: nat, cap: nat, maxOutput: nat)
    requires limit > 0
    ensures ViewOf(ops + AppendAll(stream, ChunksOf(data, limit)), cap, maxOutput)
            == ViewOf(ops + [Append(stream, data)], cap, maxOutput)
  {
    hide *;
    ChunksConcat(data, limit);
    PiecesLookWhole(ops, stream, ChunksOf(data, limit), cap, maxOutput);
  }

  // Nothing is lost below the cap -----------------------------------------------------

  function WrittenTo(ops: seq<Op>, stream: Stream): string {
    if ops == [] then ""
    else
      match ops[|ops| - 1]
      case Drain => WrittenTo(ops[..|ops| - 1], stream)
      case Append(st, chunk) => WrittenTo(ops[..|ops| - 1], stream) + if st == stream then chunk else ""
  }

  /** What all drains so far have returned for a stream. */
  function DrainedFrom(ops: seq<Op>, stream: Stream, cap: nat): string {
    if ops == [] then ""
    else
      var front := ops[..|ops| - 1];
      if ops[|ops| - 1] == Drain then DrainedFrom(front, stream, cap) + LastN(SinceDrain(front, stream), cap)
      else DrainedFrom(front, stream, cap)
  }

  /** As long as no stream overflows, drained and pending output are together all that was written. */
  lemma {:induction false} DrainsConserveOutput(ops: seq<Op>, stream: Stream, cap: nat)
    requires !Overflowed(ops, cap)
    ensures DrainedFrom(ops, stream, cap) + LastN(SinceDrain(ops, stream), cap) == WrittenTo(ops, stream)
  {
    if ops == [] {
    } else {
      var front := ops[..|ops| - 1];
      DrainsConserveOutput(front, stream, cap);
      FullMeansOverflowed(front, stream, cap);
      match ops[|ops| - 1] {
        case Drain => NothingAdded(WrittenTo(ops, stream));
        case Append(st, chunk) =>
          if st == stream {
            Assoc(DrainedFrom(front, stream, cap), SinceDrain(front, stream), chunk);
          } else {
            NothingAdded(SinceDrain(front, stream));
            NothingAdded(WrittenTo(front, stream));
          }
      }
    }
  }
}
