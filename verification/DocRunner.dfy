/**
 The parallel document runner: a feeder on an unbuffered channel, workers, a
 result channel with room for one result per file, a cancel flag and a collector,
 as a state machine whose actions are the atomic steps of the goroutines.
 */
module DocRunner {
  import opened Wrappers
  import opened Text

  /** What processing a file comes to when nothing cancels it. */
  datatype Outcome = Processed | Skipped | Failed

  datatype Config = Config(outcomes: seq<Outcome>, parallel: nat)

  datatype Worker =
    | Starting
    | Receiving
    | Checking(job: nat)
    | Working(job: nat)
    | Sending(job: nat, outcome: Outcome)
    | Cancelling
    | Exited

  datatype Answer = Answer(job: nat, outcome: Outcome)

  datatype Collector = Collecting | Waiting(failed: bool) | Returned(failed: bool)

  /**
   `sent` is everything ever put on the result channel; its first `received`
   answers have been taken off again. `dropped` are the jobs given up unanswered.
   */
  datatype State = State(
    next: nat,
    closed: bool,
    workers: seq<Worker>,
    sent: seq<Answer>,
    received: nat,
    cancelled: bool,
    dropped: seq<nat>,
    processed: nat,
    skipped: nat,
    collector: Collector)

  datatype Action =
    | Start(w: nat)
    | Hand(w: nat)
    | Close
    | Check(w: nat)
    | Finish(w: nat, outcome: Outcome)
    | Send(w: nat)
    | Cancel(w: nat)
    | Leave(w: nat)
    | Receive
    | EndLoop
    | Return

  function Init(cfg: Config): State {
    State(0, false, seq(cfg.parallel, _ => Starting), [], 0, false, [], 0, 0, Collecting)
  }

  predicate AllExited(workers: seq<Worker>) {
    forall w | 0 <= w < |workers| :: workers[w] == Exited
  }

  predicate Enabled(cfg: Config, s: State, a: Action) {
    match a
    case Start(w) => w < |s.workers| && s.workers[w] == Starting
    case Hand(w) => w < |s.workers| && s.workers[w] == Receiving && s.next < |cfg.outcomes| && !s.closed
    case Close => s.next == |cfg.outcomes| && !s.closed
    case Check(w) => w < |s.workers| && s.workers[w].Checking?
    case Finish(w, outcome) =>
      && w < |s.workers| && s.workers[w].Working? && s.workers[w].job < |cfg.outcomes|
      && (outcome == cfg.outcomes[s.workers[w].job] || (s.cancelled && outcome == Failed))
    case Send(w) => w < |s.workers| && s.workers[w].Sending? && HasRoom(cfg, s)
    case Cancel(w) => w < |s.workers| && s.workers[w] == Cancelling
    case Leave(w) => w < |s.workers| && s.workers[w] == Receiving && s.closed
    case Receive => s.collector == Collecting && s.received < |cfg.outcomes| && s.received < |s.sent|
    case EndLoop => s.collector == Collecting && s.received >= |cfg.outcomes|
    case Return => s.collector.Waiting? && AllExited(s.workers)
  }

  /** The result channel holds one result per file. */
  predicate HasRoom(cfg: Config, s: State) {
    |s.sent| < s.received + |cfg.outcomes|
  }

  function Apply(cfg: Config, s: State, a: Action): State
    requires Enabled(cfg, s, a)
  {
    match a
    case Start(w) => s.(workers := s.workers[w := Receiving])
    case Hand(w) => s.(workers := s.workers[w := Checking(s.next)], next := s.next + 1)
    case Close => s.(closed := true)
    case Check(w) =>
      var job := s.workers[w].job;
      if s.cancelled then s.(workers := s.workers[w := Exited], dropped := s.dropped + [job])
      else s.(workers := s.workers[w := Working(job)])
    case Finish(w, outcome) => s.(workers := s.workers[w := Sending(s.workers[w].job, outcome)])
    case Send(w) =>
      var Sending(job, outcome) := s.workers[w];
      s.(workers := s.workers[w := if outcome == Failed then Cancelling else Receiving],
         sent := s.sent + [Answer(job, outcome)])
    case Cancel(w) => s.(workers := s.workers[w := Exited], cancelled := true)
    case Leave(w) => s.(workers := s.workers[w := Exited])
    case Receive =>
      var outcome := s.sent[s.received].outcome;
      if outcome == Failed then s.(received := s.received + 1, collector := Waiting(true))
      else if outcome == Skipped then s.(received := s.received + 1, skipped := s.skipped + 1)
      else s.(received := s.received + 1, processed := s.processed + 1)
    case EndLoop => s.(collector := Waiting(false))
    case Return => s.(collector := Returned(s.collector.failed))
  }

  // Jobs are handed out once and never lost ------------------------------------

  predicate Owns(w: Worker, job: nat) {
    (w.Checking? || w.Working? || w.Sending?) && w.job == job
  }

  predicate Busy(w: Worker) {
    w.Checking? || w.Working? || w.Sending?
  }

  /** How many workers hold `job`. */
  function HeldCopies(workers: seq<Worker>, job: nat): nat {
    if workers == [] then 0 else (if Owns(workers[0], job) then 1 else 0) + HeldCopies(workers[1..], job)
  }

  function BusyWorkers(workers: seq<Worker>): nat {
    if workers == [] then 0 else (if Busy(workers[0]) then 1 else 0) + BusyWorkers(workers[1..])
  }

  function SentCopies(sent: seq<Answer>, job: nat): nat {
    if sent == [] then 0
    else SentCopies(sent[..|sent| - 1], job) + if sent[|sent| - 1].job == job then 1 else 0
  }

  function DroppedCopies(dropped: seq<nat>, job: nat): nat {
    if dropped == [] then 0
    else DroppedCopies(dropped[..|dropped| - 1], job) + if dropped[|dropped| - 1] == job then 1 else 0
  }

  lemma {:induction false} HeldUpdate(workers: seq<Worker>, w: nat, next: Worker, job: nat)
    requires w < |workers|
    ensures HeldCopies(workers[w := next], job) + (if Owns(workers[w], job) then 1 else 0)
            == HeldCopies(workers, job) + (if Owns(next, job) then 1 else 0)
    ensures BusyWorkers(workers[w := next]) + (if Busy(workers[w]) then 1 else 0)
            == BusyWorkers(workers) + (if Busy(next) then 1 else 0)
  {
    if w == 0 {
      assert workers[w := next][1..] == workers[1..];
    } else {
      assert workers[w := next][0] == workers[0] && workers[w := next][1..] == workers[1..][w - 1 := next];
      HeldUpdate(workers[1..], w - 1, next, job);
    }
  }

  lemma {:induction false} BusyCounts(workers: seq<Worker>, w: nat)
    requires w < |workers| && Busy(workers[w])
    ensures BusyWorkers(workers) > 0
  {
    if w == 0 {
    } else {
      BusyCounts(workers[1..], w - 1);
    }
  }

  lemma {:induction false} NoneBusy(workers: seq<Worker>, job: nat)
    requires forall w | 0 <= w < |workers| :: !Busy(workers[w])
    ensures BusyWorkers(workers) == 0 && HeldCopies(workers, job) == 0
  {
    if workers == [] {
    } else {
      NoneBusy(workers[1..], job);
    }
  }

  lemma SentAppend(sent: seq<Answer>, a: Answer, job: nat)
    ensures SentCopies(sent + [a], job) == SentCopies(sent, job) + (if a.job == job then 1 else 0)
  {
    var all := sent + [a];
    assert all[..|all| - 1] == sent && all[|all| - 1] == a;
  }

  lemma DroppedAppend(dropped: seq<nat>, d: nat, job: nat)
    ensures DroppedCopies(dropped + [d], job) == DroppedCopies(dropped, job) + (if d == job then 1 else 0)
  {
    var all := dropped + [d];
    assert all[..|all| - 1] == dropped && all[|all| - 1] == d;
  }

  // The invariant ----------------------------------------------------------------

  predicate HasFailure(sent: seq<Answer>) {
    exists k :: 0 <= k < |sent| && sent[k].outcome == Failed
  }

  predicate SomeJobFails(cfg: Config) {
    exists j :: 0 <= j < |cfg.outcomes| && cfg.outcomes[j] == Failed
  }

  /** Every job handed out is held by a worker, answered, or dropped: once. */
  ghost predicate JobsKept(cfg: Config, s: State) {
    && |s.workers| == cfg.parallel
    && s.next <= |cfg.outcomes| && (s.closed ==> s.next == |cfg.outcomes|)
    && BusyWorkers(s.workers) + |s.sent| + |s.dropped| == s.next
    && forall job: nat :: Copies(s, job) == if job < s.next then 1 else 0
  }

  /** Where a job is: with a worker, among the answers, or among the dropped jobs. */
  function Copies(s: State, job: nat): nat {
    HeldCopies(s.workers, job) + SentCopies(s.sent, job) + DroppedCopies(s.dropped, job)
  }

  /** Cancelling, dropping and leaving early happen only after an error has been sent. */
  ghost predicate ErrorsFirst(cfg: Config, s: State) {
    && (s.cancelled ==> HasFailure(s.sent))
    && (s.dropped != [] ==> HasFailure(s.sent))
    && (forall w | 0 <= w < |s.workers| :: s.workers[w] == Cancelling ==> HasFailure(s.sent))
    && (forall w | 0 <= w < |s.workers| :: s.workers[w] == Exited ==> s.closed || HasFailure(s.sent))
  }

  ghost predicate Truthful(cfg: Config, job: nat, outcome: Outcome) {
    && job < |cfg.outcomes|
    && (outcome == Failed || outcome == cfg.outcomes[job])
    && (outcome == Failed ==> SomeJobFails(cfg))
  }

  /** Answers are the outcomes of their jobs, except that cancelled jobs fail. */
  ghost predicate AnswersTrue(cfg: Config, s: State) {
    && (forall k | 0 <= k < |s.sent| :: Truthful(cfg, s.sent[k].job, s.sent[k].outcome))
    && (forall w | 0 <= w < |s.workers| ::
          && (s.workers[w].Checking? || s.workers[w].Working? ==> s.workers[w].job < |cfg.outcomes|)
          && (s.workers[w].Sending? ==> Truthful(cfg, s.workers[w].job, s.workers[w].outcome)))
  }

  function Count(sent: seq<Answer>, outcome: Outcome): nat {
    if sent == [] then 0
    else Count(sent[..|sent| - 1], outcome) + if sent[|sent| - 1].outcome == outcome then 1 else 0
  }

  /** The collector has counted the answers it received, up to the first error. */
  ghost predicate Counted(cfg: Config, s: State) {
    && s.received <= |s.sent| && s.received <= |cfg.outcomes|
    && s.processed == Count(s.sent[..s.received], Processed)
    && s.skipped == Count(s.sent[..s.received], Skipped)
    && match s.collector
       case Collecting => !HasFailure(s.sent[..s.received])
       case Waiting(failed) => CollectorDone(cfg, s, failed)
       case Returned(failed) => CollectorDone(cfg, s, failed) && AllExited(s.workers)
  }

  ghost predicate CollectorDone(cfg: Config, s: State, failed: bool)
    requires s.received <= |s.sent|
  {
    if failed then
      && s.received > 0 && s.sent[s.received - 1].outcome == Failed
      && !HasFailure(s.sent[..s.received - 1])
    else s.received == |cfg.outcomes| && !HasFailure(s.sent[..s.received])
  }

  ghost predicate Inv(cfg: Config, s: State) {
    JobsKept(cfg, s) && ErrorsFirst(cfg, s) && AnswersTrue(cfg, s) && Counted(cfg, s)
  }

  lemma InitInv(cfg: Config)
    ensures Inv(cfg, Init(cfg))
  {
    NoneBusy(Init(cfg).workers, 0);
    forall job: nat
      ensures Copies(Init(cfg), job) == 0
    {
      NoneBusy(Init(cfg).workers, job);
    }
  }

  predicate OfWorker(a: Action) {
    !(a.Close? || a.Receive? || a.EndLoop? || a.Return?)
  }

  lemma StepKeepsShape(cfg: Config, s: State, a: Action)
    requires JobsKept(cfg, s) && Enabled(cfg, s, a)
    ensures var s' := Apply(cfg, s, a);
            && |s'.workers| == cfg.parallel
            && s'.next <= |cfg.outcomes| && (s'.closed ==> s'.next == |cfg.outcomes|)
            && (!OfWorker(a) ==>
                 s'.workers == s.workers && s'.sent == s.sent && s'.dropped == s.dropped && s'.next == s.next)
            && (OfWorker(a) ==> a.w < |s.workers| && s'.workers == s.workers[a.w := s'.workers[a.w]])
  {
    hide HeldCopies, SentCopies, DroppedCopies, BusyWorkers, Copies, AllExited, HasRoom;
  }

  /** A step of a worker moves its job, and issues one when it is a hand-over. */
  lemma StepMovesJob(cfg: Config, s: State, a: Action, job: nat)
    requires Enabled(cfg, s, a) && OfWorker(a)
    ensures var s' := Apply(cfg, s, a);
            && Copies(s', job) == Copies(s, job) + (if a.Hand? && s.next == job then 1 else 0)
            && BusyWorkers(s'.workers) + |s'.sent| + |s'.dropped| - s'.next
               == BusyWorkers(s.workers) + |s.sent| + |s.dropped| - s.next
            && s'.next == s.next + (if a.Hand? then 1 else 0)
  {
    var s' := Apply(cfg, s, a);
    HeldUpdate(s.workers, a.w, s'.workers[a.w], job);
    if a.Send? {
      SentAppend(s.sent, Answer(s.workers[a.w].job, s.workers[a.w].outcome), job);
    }
    if a.Check? {
      DroppedAppend(s.dropped, s.workers[a.w].job, job);
    }
    hide HeldCopies, SentCopies, DroppedCopies, BusyWorkers, AllExited, HasRoom;
  }

  lemma StepKeepsJobs(cfg: Config, s: State, a: Action)
    requires JobsKept(cfg, s) && Enabled(cfg, s, a)
    ensures JobsKept(cfg, Apply(cfg, s, a))
  {
    hide Apply, Enabled, HeldCopies, SentCopies, DroppedCopies, BusyWorkers;
    var s' := Apply(cfg, s, a);
    StepKeepsShape(cfg, s, a);
    forall job: nat
      ensures Copies(s', job) == if job < s'.next then 1 else 0
    {
      if OfWorker(a) {
        StepMovesJob(cfg, s, a, job);
      }
    }
    if OfWorker(a) {
      StepMovesJob(cfg, s, a, 0);
    }
  }

  lemma FailureGrows(sent: seq<Answer>, a: Answer)
    ensures HasFailure(sent + [a]) <==> HasFailure(sent) || a.outcome == Failed
  {
    if HasFailure(sent) {
      var k :| 0 <= k < |sent| && sent[k].outcome == Failed;
      assert (sent + [a])[k].outcome == Failed;
    }
    if a.outcome == Failed {
      assert (sent + [a])[|sent|].outcome == Failed;
    }
  }

  lemma StepKeepsErrorsFirst(cfg: Config, s: State, a: Action)
    requires ErrorsFirst(cfg, s) && Enabled(cfg, s, a)
    ensures ErrorsFirst(cfg, Apply(cfg, s, a))
  {
    if a.Send? {
      FailureGrows(s.sent, Answer(s.workers[a.w].job, s.workers[a.w].outcome));
    }
    hide HasFailure;
  }

  lemma FailureIsReal(cfg: Config, s: State)
    requires AnswersTrue(cfg, s) && HasFailure(s.sent)
    ensures SomeJobFails(cfg)
  {
    var k :| 0 <= k < |s.sent| && s.sent[k].outcome == Failed;
    assert Truthful(cfg, s.sent[k].job, s.sent[k].outcome);
  }

  lemma StepKeepsAnswersTrue(cfg: Config, s: State, a: Action)
    requires ErrorsFirst(cfg, s) && AnswersTrue(cfg, s) && s.next <= |cfg.outcomes| && Enabled(cfg, s, a)
    ensures AnswersTrue(cfg, Apply(cfg, s, a))
  {
    if HasFailure(s.sent) {
      FailureIsReal(cfg, s);
    }
    hide HasFailure;
    if a.Finish? && a.outcome == Failed && !s.cancelled {
      assert cfg.outcomes[s.workers[a.w].job] == Failed;
    }
  }

  lemma CountAppend(sent: seq<Answer>, a: Answer, outcome: Outcome)
    ensures Count(sent + [a], outcome) == Count(sent, outcome) + (if a.outcome == outcome then 1 else 0)
  {
    var all := sent + [a];
    assert all[..|all| - 1] == sent && all[|all| - 1] == a;
  }

  lemma ReceiveKeepsCounted(cfg: Config, s: State)
    requires Counted(cfg, s) && Enabled(cfg, s, Receive)
    ensures Counted(cfg, Apply(cfg, s, Receive))
  {
    var taken, answer := s.sent[..s.received], s.sent[s.received];
    assert s.sent[..s.received + 1] == taken + [answer];
    assert s.sent[..s.received + 1 - 1] == taken;
    CountAppend(taken, answer, Processed);
    CountAppend(taken, answer, Skipped);
    FailureGrows(taken, answer);
    hide HasFailure, Count, AllExited;
  }

  /** The other steps leave the answers taken so far alone. */
  lemma OtherStepsKeepTaken(cfg: Config, s: State, a: Action)
    requires Enabled(cfg, s, a) && !a.Receive? && s.received <= |s.sent|
    ensures var s' := Apply(cfg, s, a);
            && s'.received == s.received && s'.processed == s.processed && s'.skipped == s.skipped
            && s.sent <= s'.sent
            && (a.EndLoop? || a.Return? || s'.collector == s.collector)
            && (a.EndLoop? ==>
                 s.collector == Collecting && s'.collector == Waiting(false) && s.received >= |cfg.outcomes|)
            && (a.Return? ==> s.collector.Waiting? && s'.collector == Returned(s.collector.failed)
                              && AllExited(s'.workers))
            && (AllExited(s.workers) ==> s'.workers == s.workers)
  {
    hide HasRoom;
  }

  lemma StepKeepsCounted(cfg: Config, s: State, a: Action)
    requires Counted(cfg, s) && Enabled(cfg, s, a)
    ensures Counted(cfg, Apply(cfg, s, a))
  {
    hide Apply, Enabled, HasFailure, Count, AllExited;
    if a.Receive? {
      ReceiveKeepsCounted(cfg, s);
    } else {
      var s' := Apply(cfg, s, a);
      OtherStepsKeepTaken(cfg, s, a);
      PrefixTwice(s.sent, s'.sent, s.received);
      if s.received > 0 {
        PrefixTwice(s.sent, s'.sent, s.received - 1);
        assert s'.sent[s.received - 1] == s.sent[s.received - 1];
      }
    }
  }

  lemma PrefixTwice(a: seq<Answer>, b: seq<Answer>, k: nat)
    requires a <= b && k <= |a|
    ensures b[..k] == a[..k]
  {
  }

  /** The invariant holds in every reachable state. */
  lemma StepKeepsInv(cfg: Config, s: State, a: Action)
    requires Inv(cfg, s) && Enabled(cfg, s, a)
    ensures Inv(cfg, Apply(cfg, s, a))
  {
    assert s.next <= |cfg.outcomes|;
    hide JobsKept, ErrorsFirst, AnswersTrue, Counted, Apply, Enabled;
    StepKeepsJobs(cfg, s, a);
    StepKeepsErrorsFirst(cfg, s, a);
    StepKeepsAnswersTrue(cfg, s, a);
    StepKeepsCounted(cfg, s, a);
  }

  // Progress ---------------------------------------------------------------------

  /** The buffered send never blocks: a worker that sends finds room. */
  lemma SendNeverBlocks(cfg: Config, s: State, w: nat)
    requires Inv(cfg, s) && w < |s.workers| && s.workers[w].Sending?
    ensures Enabled(cfg, s, Send(w))
  {
    BusyCounts(s.workers, w);
  }

  /** A worker that has not left can always make a step, or the feeder can. */
  lemma WorkerCanStep(cfg: Config, s: State, w: nat) returns (a: Action)
    requires Inv(cfg, s) && w < |s.workers| && s.workers[w] != Exited
    ensures Enabled(cfg, s, a)
  {
    match s.workers[w] {
      case Starting => a := Start(w);
      case Receiving => a := if s.closed then Leave(w) else if s.next < |cfg.outcomes| then Hand(w) else Close;
      case Checking(_) => a := Check(w);
      case Working(job) => a := Finish(w, cfg.outcomes[job]);
      case Sending(_, _) =>
        SendNeverBlocks(cfg, s, w);
        a := Send(w);
      case Cancelling => a := Cancel(w);
    }
  }

  lemma EveryoneLeft(cfg: Config, s: State)
    requires Inv(cfg, s) && AllExited(s.workers) && s.workers != []
    requires s.collector == Collecting && s.received < |cfg.outcomes|
    ensures Enabled(cfg, s, Receive)
  {
    NoneBusy(s.workers, 0);
    assert s.workers[0] == Exited;
    assert s.sent[..|s.sent|] == s.sent;
    hide Copies, BusyWorkers, Count;
  }

  /** No state before the collector has returned is stuck. */
  lemma NoDeadlock(cfg: Config, s: State) returns (a: Action)
    requires cfg.parallel >= 1 && Inv(cfg, s) && !s.collector.Returned?
    ensures Enabled(cfg, s, a)
  {
    if w :| 0 <= w < |s.workers| && s.workers[w] != Exited {
      a := WorkerCanStep(cfg, s, w);
    } else if s.collector.Waiting? {
      a := Return;
    } else if s.received >= |cfg.outcomes| {
      a := EndLoop;
    } else {
      EveryoneLeft(cfg, s);
      a := Receive;
    }
  }

  function WorkerRank(w: Worker): nat {
    match w
    case Starting => 2
    case Receiving => 1
    case Checking(_) => 5
    case Working(_) => 4
    case Sending(_, _) => 3
    case Cancelling => 1
    case Exited => 0
  }

  function WorkersRank(workers: seq<Worker>): nat {
    if workers == [] then 0 else WorkerRank(workers[0]) + WorkersRank(workers[1..])
  }

  /** Feeder, workers, undelivered results and collector together. */
  function Rank(cfg: Config, s: State): int {
    5 * (|cfg.outcomes| - s.next) + (if s.closed then 0 else 1) + WorkersRank(s.workers)
    + (|s.sent| - s.received)
    + (match s.collector case Collecting => 2 case Waiting(_) => 1 case Returned(_) => 0)
  }

  lemma {:induction false} RankUpdate(workers: seq<Worker>, w: nat, next: Worker)
    requires w < |workers|
    ensures WorkersRank(workers[w := next]) + WorkerRank(workers[w]) == WorkersRank(workers) + WorkerRank(next)
  {
    if w == 0 {
      assert workers[w := next][1..] == workers[1..];
    } else {
      assert workers[w := next][0] == workers[0] && workers[w := next][1..] == workers[1..][w - 1 := next];
      RankUpdate(workers[1..], w - 1, next);
    }
  }

  lemma StepFalls(cfg: Config, s: State, a: Action)
    requires Enabled(cfg, s, a)
    ensures Rank(cfg, Apply(cfg, s, a)) < Rank(cfg, s)
  {
    hide WorkersRank, AllExited, HasRoom;
    var s' := Apply(cfg, s, a);
    if OfWorker(a) {
      RankUpdate(s.workers, a.w, s'.workers[a.w]);
    }
  }

  lemma RankIsNat(cfg: Config, s: State)
    requires Inv(cfg, s)
    ensures Rank(cfg, s) >= 0
  {
    hide WorkersRank, ErrorsFirst, AnswersTrue, Copies, BusyWorkers, HasFailure, Count;
  }

  /** Every step lowers the rank, which never gets negative. */
  lemma StepLowersRank(cfg: Config, s: State, a: Action)
    requires Inv(cfg, s) && Enabled(cfg, s, a)
    ensures 0 <= Rank(cfg, Apply(cfg, s, a)) < Rank(cfg, s)
  {
    hide *;
    StepKeepsInv(cfg, s, a);
    StepFalls(cfg, s, a);
    RankIsNat(cfg, Apply(cfg, s, a));
  }

  /** A run: states connected by steps. */
  ghost predicate IsRun(cfg: Config, run: seq<State>) {
    && run != [] && run[0] == Init(cfg)
    && forall i | 0 < i < |run| :: IsStep(cfg, run[i - 1], run[i])
  }

  ghost predicate IsStep(cfg: Config, s: State, s': State) {
    exists a :: Enabled(cfg, s, a) && s' == Apply(cfg, s, a)
  }

  lemma {:induction false} RunsKeepInv(cfg: Config, run: seq<State>, i: nat)
    requires IsRun(cfg, run) && i < |run|
    ensures Inv(cfg, run[i]) && 0 <= Rank(cfg, run[i]) <= Rank(cfg, Init(cfg)) - i
  {
    hide Inv, Rank, Enabled, Apply;
    if i == 0 {
      InitInv(cfg);
      RankIsNat(cfg, run[0]);
    } else {
      RunsKeepInv(cfg, run, i - 1);
      assert IsStep(cfg, run[i - 1], run[i]);
      var a :| Enabled(cfg, run[i - 1], a) && run[i] == Apply(cfg, run[i - 1], a);
      StepKeepsInv(cfg, run[i - 1], a);
      StepLowersRank(cfg, run[i - 1], a);
    }
  }

  lemma {:induction false} IdleRank(workers: seq<Worker>)
    requires forall w | 0 <= w < |workers| :: workers[w] == Starting
    ensures WorkersRank(workers) == 2 * |workers|
  {
    if workers == [] {
    } else {
      IdleRank(workers[1..]);
    }
  }

  /**
   Every run is short, and one that cannot go on has returned: whatever the
   schedule, `5 n + 2 parallel + 3` steps suffice for the collector to return.
   */
  lemma RunsReturn(cfg: Config, run: seq<State>)
    requires cfg.parallel >= 1 && IsRun(cfg, run)
    ensures |run| <= 5 * |cfg.outcomes| + 2 * cfg.parallel + 4
    ensures var last := run[|run| - 1];
            last.collector.Returned? || exists a :: Enabled(cfg, last, a)
  {
    hide Inv, Enabled;
    RunsKeepInv(cfg, run, |run| - 1);
    IdleRank(Init(cfg).workers);
    var last := run[|run| - 1];
    if !last.collector.Returned? {
      var a := NoDeadlock(cfg, last);
    }
  }

  // What cancelling stops -----------------------------------------------------------

  /** Nobody works on the job, and it has no answer. */
  predicate Unstarted(s: State, job: nat) {
    && (forall w | 0 <= w < |s.workers| :: (s.workers[w].Working? || s.workers[w].Sending?) ==> s.workers[w].job != job)
    && (forall k | 0 <= k < |s.sent| :: s.sent[k].job != job)
  }

  lemma CancelledStays(cfg: Config, s: State, a: Action, job: nat)
    requires Enabled(cfg, s, a) && s.cancelled
    ensures Apply(cfg, s, a).cancelled
    ensures Unstarted(s, job) ==> Unstarted(Apply(cfg, s, a), job)
    ensures forall w | 0 <= w < |s.workers| && s.workers[w].Checking? ::
              w < |Apply(cfg, s, a).workers| && !Apply(cfg, s, a).workers[w].Working?
  {
    hide HasRoom, AllExited;
  }

  /** A worker goes from cancelling to having left only by cancelling the run. */
  lemma LeavesByCancelling(cfg: Config, s: State, s': State, w: nat)
    requires IsStep(cfg, s, s') && w < |s.workers| && s.workers[w] == Cancelling
    requires w < |s'.workers| && s'.workers[w] == Exited
    ensures s'.cancelled && s'.sent == s.sent && s' == s.(workers := s.workers[w := Exited], cancelled := true)
  {
    var a :| Enabled(cfg, s, a) && s' == Apply(cfg, s, a);
    assert a == Cancel(w);
    hide HasRoom, AllExited;
  }

  /**
   Once a worker has cancelled the run, no worker begins a job that it has not begun before:
   such a job is never worked on and never answered.
   */
  lemma {:induction false} CancelStopsJobs(cfg: Config, run: seq<State>, i: nat, w: nat, j: nat, job: nat)
    requires IsRun(cfg, run) && i < j < |run|
    requires w < |run[i].workers| && run[i].workers[w] == Cancelling
    requires w < |run[i + 1].workers| && run[i + 1].workers[w] == Exited
    ensures run[j].cancelled
    ensures Unstarted(run[i], job) ==> Unstarted(run[j], job)
    ensures j + 1 < |run| ==> forall v | 0 <= v < |run[j].workers| && run[j].workers[v].Checking? ::
              v < |run[j + 1].workers| && !run[j + 1].workers[v].Working?
  {
    hide Enabled, Apply;
    if j == i + 1 {
      assert IsStep(cfg, run[i], run[i + 1]);
      LeavesByCancelling(cfg, run[i], run[i + 1], w);
    } else {
      CancelStopsJobs(cfg, run, i, w, j - 1, job);
      assert IsStep(cfg, run[j - 1], run[j]);
      var a :| Enabled(cfg, run[j - 1], a) && run[j] == Apply(cfg, run[j - 1], a);
      CancelledStays(cfg, run[j - 1], a, job);
    }
    if j + 1 < |run| {
      assert IsStep(cfg, run[j], run[j + 1]);
      var a :| Enabled(cfg, run[j], a) && run[j + 1] == Apply(cfg, run[j], a);
      CancelledStays(cfg, run[j], a, job);
    }
  }

  lemma {:induction false} UnstartedCopies(workers: seq<Worker>, sent: seq<Answer>, job: nat)
    requires forall w | 0 <= w < |workers| :: workers[w] == Exited
    requires forall k | 0 <= k < |sent| :: sent[k].job != job
    ensures HeldCopies(workers, job) == 0 && SentCopies(sent, job) == 0
    decreases |workers| + |sent|
  {
    if workers != [] {
      UnstartedCopies(workers[1..], sent, job);
    } else if sent != [] {
      UnstartedCopies(workers, sent[..|sent| - 1], job);
    }
  }

  lemma {:induction false} DroppedMember(dropped: seq<nat>, job: nat)
    ensures DroppedCopies(dropped, job) > 0 <==> job in dropped
  {
    if dropped == [] {
    } else {
      DroppedMember(dropped[..|dropped| - 1], job);
    }
  }

  /** So when the run has returned, the jobs handed out but not begun before the cancellation are dropped. */
  lemma CancelDropsJobs(cfg: Config, run: seq<State>, i: nat, w: nat, job: nat)
    requires IsRun(cfg, run) && i < |run| - 1 && run[|run| - 1].collector.Returned?
    requires w < |run[i].workers| && run[i].workers[w] == Cancelling
    requires w < |run[i + 1].workers| && run[i + 1].workers[w] == Exited
    requires Unstarted(run[i], job)
    ensures var last := run[|run| - 1]; job in last.dropped <==> job < last.next
  {
    hide Enabled, Apply, ErrorsFirst, AnswersTrue, HeldCopies, SentCopies, DroppedCopies, BusyWorkers, HasFailure;
    var last := run[|run| - 1];
    RunsKeepInv(cfg, run, |run| - 1);
    CancelStopsJobs(cfg, run, i, w, |run| - 1, job);
    UnstartedCopies(last.workers, last.sent, job);
    DroppedMember(last.dropped, job);
    assert Copies(last, job) == if job < last.next then 1 else 0;
  }

  // Accounting -------------------------------------------------------------------

  /** A worker gives a job up unanswered only after an error result has been sent. */
  lemma DropsFollowErrors(cfg: Config, s: State, a: Action)
    requires Inv(cfg, s) && Enabled(cfg, s, a)
    ensures Apply(cfg, s, a).dropped != s.dropped ==> HasFailure(s.sent)
  {
    hide JobsKept, AnswersTrue, Counted, HasFailure;
  }

  function CountOutcomes(outcomes: seq<Outcome>, outcome: Outcome): nat {
    if outcomes == [] then 0
    else CountOutcomes(outcomes[..|outcomes| - 1], outcome) + if outcomes[|outcomes| - 1] == outcome then 1 else 0
  }

  /** Answers with one outcome, counted job by job for the jobs below `n`. */
  function CountByJob(sent: seq<Answer>, outcome: Outcome, n: nat): nat {
    if n == 0 then 0
    else CountByJob(sent, outcome, n - 1) + AnswersFor(sent, outcome, n - 1)
  }

  function AnswersFor(sent: seq<Answer>, outcome: Outcome, job: nat): nat {
    if sent == [] then 0
    else AnswersFor(sent[..|sent| - 1], outcome, job)
         + if sent[|sent| - 1] == Answer(job, outcome) then 1 else 0
  }

  lemma {:induction false} CountByJobAppend(sent: seq<Answer>, a: Answer, outcome: Outcome, n: nat)
    ensures CountByJob(sent + [a], outcome, n)
            == CountByJob(sent, outcome, n) + (if a.outcome == outcome && a.job < n then 1 else 0)
  {
    if n == 0 {
    } else {
      CountByJobAppend(sent, a, outcome, n - 1);
      var all := sent + [a];
      assert all[..|all| - 1] == sent && all[|all| - 1] == a;
    }
  }

  lemma {:induction false} CountByJobOfNone(outcome: Outcome, n: nat)
    ensures CountByJob([], outcome, n) == 0
  {
    if n == 0 {
    } else {
      CountByJobOfNone(outcome, n - 1);
    }
  }

  /** Counting answers one by one and job by job is the same. */
  lemma {:induction false} CountIsByJob(sent: seq<Answer>, outcome: Outcome, n: nat)
    requires forall k | 0 <= k < |sent| :: sent[k].job < n
    ensures Count(sent, outcome) == CountByJob(sent, outcome, n)
  {
    if sent == [] {
      CountByJobOfNone(outcome, n);
    } else {
      var front, a := sent[..|sent| - 1], sent[|sent| - 1];
      CountIsByJob(front, outcome, n);
      assert front + [a] == sent;
      CountByJobAppend(front, a, outcome, n);
    }
  }

  /** When every answer is its job's own outcome, a job answered once counts once for that outcome. */
  lemma {:induction false} AnswersForJob(outcomes: seq<Outcome>, sent: seq<Answer>, outcome: Outcome, job: nat)
    requires job < |outcomes|
    requires forall k | 0 <= k < |sent| :: sent[k].job < |outcomes| && sent[k].outcome == outcomes[sent[k].job]
    ensures AnswersFor(sent, outcome, job) == if outcomes[job] == outcome then SentCopies(sent, job) else 0
  {
    if sent == [] {
    } else {
      AnswersForJob(outcomes, sent[..|sent| - 1], outcome, job);
    }
  }

  lemma {:induction false} CountByJobIsOutcomes(outcomes: seq<Outcome>, sent: seq<Answer>, outcome: Outcome, n: nat)
    requires n <= |outcomes|
    requires forall k | 0 <= k < |sent| :: sent[k].job < |outcomes| && sent[k].outcome == outcomes[sent[k].job]
    requires forall job: nat | job < |outcomes| :: SentCopies(sent, job) == 1
    ensures CountByJob(sent, outcome, n) == CountOutcomes(outcomes[..n], outcome)
  {
    if n == 0 {
    } else {
      CountByJobIsOutcomes(outcomes, sent, outcome, n - 1);
      AnswersForJob(outcomes, sent, outcome, n - 1);
      assert outcomes[..n][..n - 1] == outcomes[..n - 1];
    }
  }

  lemma {:induction false} CountAll(outcomes: seq<Outcome>)
    requires forall j | 0 <= j < |outcomes| :: outcomes[j] != Failed
    ensures CountOutcomes(outcomes, Processed) + CountOutcomes(outcomes, Skipped) == |outcomes|
  {
    if outcomes == [] {
    } else {
      CountAll(outcomes[..|outcomes| - 1]);
    }
  }

  /** On an error-free return every file has been answered exactly once, and nothing dropped. */
  lemma CleanReturnAnswersAll(cfg: Config, s: State)
    requires Inv(cfg, s) && s.collector == Returned(false)
    ensures |s.sent| == |cfg.outcomes| == s.next && s.dropped == []
    ensures forall job: nat :: SentCopies(s.sent, job) == if job < |cfg.outcomes| then 1 else 0
    ensures forall k | 0 <= k < |s.sent| ::
              s.sent[k].job < |cfg.outcomes| && s.sent[k].outcome == cfg.outcomes[s.sent[k].job] != Failed
  {
    assert s.sent[..s.received] == s.sent by {
      NoneBusy(s.workers, 0);
    }
    forall job: nat
      ensures SentCopies(s.sent, job) == if job < |cfg.outcomes| then 1 else 0
    {
      NoneBusy(s.workers, job);
      assert Copies(s, job) == if job < s.next then 1 else 0;
    }
    forall k | 0 <= k < |s.sent|
      ensures s.sent[k].job < |cfg.outcomes| && s.sent[k].outcome == cfg.outcomes[s.sent[k].job] != Failed
    {
      assert Truthful(cfg, s.sent[k].job, s.sent[k].outcome);
    }
    hide HeldCopies, SentCopies, DroppedCopies, BusyWorkers, Count;
  }

  /** On an error the answers and the dropped jobs are exactly the jobs handed out, each once. */
  lemma FailedReturnAccountsForAll(cfg: Config, s: State, job: nat)
    requires Inv(cfg, s) && s.collector == Returned(true)
    ensures SentCopies(s.sent, job) + DroppedCopies(s.dropped, job) == if job < s.next then 1 else 0
    ensures s.processed + s.skipped == s.received - 1 < |s.sent|
  {
    NoneBusy(s.workers, job);
    assert Copies(s, job) == if job < s.next then 1 else 0;
    CountsAddUp(s.sent[..s.received - 1]);
    var taken := s.sent[..s.received - 1];
    assert s.sent[..s.received] == taken + [s.sent[s.received - 1]];
    CountAppend(taken, s.sent[s.received - 1], Processed);
    CountAppend(taken, s.sent[s.received - 1], Skipped);
    hide HeldCopies, SentCopies, DroppedCopies, BusyWorkers, Count, AnswersTrue, ErrorsFirst;
  }

  lemma {:induction false} CountsAddUp(sent: seq<Answer>)
    requires !HasFailure(sent)
    ensures Count(sent, Processed) + Count(sent, Skipped) == |sent|
  {
    if sent == [] {
    } else {
      InitLast(sent);
      FailureGrows(sent[..|sent| - 1], sent[|sent| - 1]);
      CountsAddUp(sent[..|sent| - 1]);
      hide HasFailure;
    }
  }

  /** The totals of an error-free return are those of the files. */
  lemma CleanReturnCounts(cfg: Config, s: State)
    requires Inv(cfg, s) && s.collector == Returned(false)
    ensures s.processed == CountOutcomes(cfg.outcomes, Processed)
    ensures s.skipped == CountOutcomes(cfg.outcomes, Skipped)
    ensures s.processed + s.skipped == |cfg.outcomes|
  {
    var n := |cfg.outcomes|;
    CleanReturnAnswersAll(cfg, s);
    CleanTotals(cfg, s);
    hide Inv;
    CountIsByJob(s.sent, Processed, n);
    CountIsByJob(s.sent, Skipped, n);
    CountByJobIsOutcomes(cfg.outcomes, s.sent, Processed, n);
    CountByJobIsOutcomes(cfg.outcomes, s.sent, Skipped, n);
    assert cfg.outcomes[..n] == cfg.outcomes;
    CountsAddUp(s.sent);
  }

  lemma CleanTotals(cfg: Config, s: State)
    requires Inv(cfg, s) && s.collector == Returned(false) && |s.sent| == |cfg.outcomes|
    ensures s.processed == Count(s.sent, Processed) && s.skipped == Count(s.sent, Skipped) && !HasFailure(s.sent)
  {
    assert s.sent[..s.received] == s.sent;
    hide Count, HasFailure, JobsKept, ErrorsFirst, AnswersTrue;
  }

  /** A run returns an error exactly when some file fails. */
  lemma ErrorIffSomeJobFails(cfg: Config, s: State)
    requires Inv(cfg, s) && s.collector.Returned?
    ensures s.collector.failed <==> SomeJobFails(cfg)
  {
    if s.collector.failed {
      assert s.sent[s.received - 1].outcome == Failed;
      FailureIsReal(cfg, s);
    } else {
      CleanReturnAnswersAll(cfg, s);
      if SomeJobFails(cfg) {
        var j :| 0 <= j < |cfg.outcomes| && cfg.outcomes[j] == Failed;
        AnsweredSomewhere(s.sent, j);
      }
    }
  }

  lemma {:induction false} AnsweredSomewhere(sent: seq<Answer>, job: nat)
    requires SentCopies(sent, job) > 0
    ensures exists k :: 0 <= k < |sent| && sent[k].job == job
  {
    if sent[|sent| - 1].job != job {
      AnsweredSomewhere(sent[..|sent| - 1], job);
      var k :| 0 <= k < |sent| - 1 && sent[..|sent| - 1][k].job == job;
      assert sent[k].job == job;
    }
  }

  // The sequential runner ----------------------------------------------------------

  datatype Totals = Totals(processed: nat, skipped: nat, failed: bool)

  method RunDocSequential(outcomes: seq<Outcome>) returns (r: Totals)
    ensures r.failed <==> Failed in outcomes
    ensures exists k ::
              && 0 <= k <= |outcomes| && Failed !in outcomes[..k]
              && (if r.failed then k < |outcomes| && outcomes[k] == Failed else k == |outcomes|)
              && r.processed == CountOutcomes(outcomes[..k], Processed)
              && r.skipped == CountOutcomes(outcomes[..k], Skipped)
  {
    var processed, skipped := 0, 0;
    for i := 0 to |outcomes|
      invariant Failed !in outcomes[..i]
      invariant processed == CountOutcomes(outcomes[..i], Processed)
      invariant skipped == CountOutcomes(outcomes[..i], Skipped)
    {
      assert outcomes[..i + 1][..i] == outcomes[..i];
      match outcomes[i] {
        case Failed => return Totals(processed, skipped, true);
        case Skipped => skipped := skipped + 1;
        case Processed => processed := processed + 1;
      }
    }
    assert outcomes[..|outcomes|] == outcomes;
    return Totals(processed, skipped, false);
  }

  /**
   The parallel run under any schedule: `pick` chooses the next step of every
   state that has one. It always returns; it reports an error exactly when some
   file fails, and otherwise the totals of the sequential run.
   */
  method RunDocParallel(cfg: Config, pick: State -> Action) returns (r: Totals)
    requires cfg.parallel >= 1
    requires forall s, a {:trigger Enabled(cfg, s, a)} :: Enabled(cfg, s, a) ==> Enabled(cfg, s, pick(s))
    ensures r.failed <==> Failed in cfg.outcomes
    ensures !r.failed ==>
              && r.processed == CountOutcomes(cfg.outcomes, Processed)
              && r.skipped == CountOutcomes(cfg.outcomes, Skipped)
              && r.processed + r.skipped == |cfg.outcomes|
    ensures r.failed ==> r.processed + r.skipped < |cfg.outcomes|
  {
    var s := Init(cfg);
    InitInv(cfg);
    while !s.collector.Returned?
      invariant Inv(cfg, s)
      decreases Rank(cfg, s)
    {
      hide Inv, Rank, Enabled, Apply;
      var possible := NoDeadlock(cfg, s);
      var a := pick(s);
      StepKeepsInv(cfg, s, a);
      StepLowersRank(cfg, s, a);
      RankIsNat(cfg, s);
      s := Apply(cfg, s, a);
    }
    r := Totals(s.processed, s.skipped, s.collector.failed);
    ErrorIffSomeJobFails(cfg, s);
    if r.failed {
      FailedReturnAccountsForAll(cfg, s, 0);
    } else {
      CleanReturnCounts(cfg, s);
    }
  }
}
