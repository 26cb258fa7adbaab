/**
 The registry of background sessions: two maps driven by exit reports that may be
 repeated, by polls that are in flight while sessions come and go, and by the
 kill, clear and remove actions of the process tool. An id names one session.
 */
module SessionRegistry {
  import opened Wrappers
  import opened Text

  type Id = string

  datatype Status = Completed | Failed

  /** The parts of a session object that decide where its id is kept. */
  datatype Session = Session(
    scope: string,
    notifyOnExit: bool,
    hasSessionKey: bool,
    notifyEmptySuccess: bool,
    exitNotified: bool,
    backgrounded: bool,
    exited: bool,
    exitCode: Option<int>,
    exitSignal: Option<string>)

  datatype Finished = Finished(scope: string, status: Status, exitCode: Option<int>, exitSignal: Option<string>)

  /**
   `sessions` are the session objects that closures may still hold; `running` and
   `finished` are the two maps of the registry; `polls` are polls that have found
   their session and wait; `notices` are the exit notices sent so far.
   */
  datatype State = State(
    sessions: map<Id, Session>,
    running: set<Id>,
    finished: map<Id, Finished>,
    polls: multiset<Id>,
    notices: seq<Id>)

  datatype Event =
    | Add(id: Id, session: Session)
    | Background(id: Id)
    | ReportExit(id: Id, code: Option<int>, signal: Option<string>, status: Status, hasOutput: bool)
    | PollBegin(id: Id, caller: Option<string>)
    | PollEnd(id: Id)
    | Kill(id: Id, caller: Option<string>, cancelled: bool, terminated: bool)
    | Clear(id: Id, caller: Option<string>)
    | Remove(id: Id, caller: Option<string>, cancelled: bool, terminated: bool)
    | Sweep(expired: set<Id>)

  function Init(): (s: State)
    ensures Inv(s)
  {
    State(map[], {}, map[], multiset{}, [])
  }

  /** A caller without a scope key sees everything. */
  predicate InScope(caller: Option<string>, scope: string) {
    caller.None? || caller.value == "" || scope == caller.value
  }

  predicate Sees(s: State, id: Id, caller: Option<string>) {
    id in s.running && id in s.sessions && InScope(caller, s.sessions[id].scope)
  }

  predicate SeesFinished(s: State, id: Id, caller: Option<string>) {
    id in s.finished && InScope(caller, s.finished[id].scope)
  }

  /** Which events can happen: an id is added once, and continuations exist only for added sessions. */
  predicate Possible(s: State, e: Event) {
    match e
    case Add(id, session) => id !in s.sessions && !session.backgrounded && !session.exited && !session.exitNotified
    case Background(id) => id in s.sessions
    case ReportExit(id, _, _, _, _) => id in s.sessions
    case PollEnd(id) => id in s.polls
    case _ => true
  }

  function Deleted(s: State, id: Id): State {
    s.(running := s.running - {id}, finished := s.finished - {id})
  }

  function MarkedExited(s: State, id: Id, code: Option<int>, signal: Option<string>, status: Status): State
    requires id in s.sessions
  {
    var session := s.sessions[id].(exited := true, exitCode := code, exitSignal := signal);
    s.(sessions := s.sessions[id := session],
       running := s.running - {id},
       finished := if session.backgrounded then s.finished[id := Finished(session.scope, status, code, signal)]
                   else s.finished)
  }

  predicate WantsNotice(session: Session) {
    session.backgrounded && session.notifyOnExit && !session.exitNotified && session.hasSessionKey
  }

  function Notified(s: State, id: Id, status: Status, hasOutput: bool): State
    requires id in s.sessions
  {
    var session := s.sessions[id];
    if !WantsNotice(session) then s
    else
      var marked := s.(sessions := s.sessions[id := session.(exitNotified := true)]);
      if status == Completed && !hasOutput && !session.notifyEmptySuccess then marked
      else marked.(notices := s.notices + [id])
  }

  function PollStatus(session: Session): Status {
    if (session.exitCode.None? || session.exitCode.value == 0) && session.exitSignal.None? then Completed else Failed
  }

  function Step(s: State, e: Event): State
    requires Possible(s, e) && Inv(s)
  {
    match e
    case Add(id, session) => s.(sessions := s.sessions[id := session], running := s.running + {id})
    case Background(id) => s.(sessions := s.sessions[id := s.sessions[id].(backgrounded := true)])
    case ReportExit(id, code, signal, status, hasOutput) =>
      Notified(MarkedExited(s, id, code, signal, status), id, status, hasOutput)
    case PollBegin(id, caller) =>
      if Sees(s, id, caller) && s.sessions[id].backgrounded then s.(polls := s.polls + multiset{id}) else s
    case PollEnd(id) =>
      var session, over := s.sessions[id], s.(polls := s.polls - multiset{id});
      if session.exited then MarkedExited(over, id, session.exitCode, session.exitSignal, PollStatus(session)) else over
    case Kill(id, caller, cancelled, terminated) =>
      if Sees(s, id, caller) && s.sessions[id].backgrounded && !cancelled && terminated
      then MarkedExited(s, id, None, Some("SIGKILL"), Failed) else s
    case Clear(id, caller) => if SeesFinished(s, id, caller) then Deleted(s, id) else s
    case Remove(id, caller, cancelled, terminated) =>
      if Sees(s, id, caller) then
        if cancelled then Deleted(s.(sessions := s.sessions[id := s.sessions[id].(backgrounded := false)]), id)
        else if terminated then Deleted(MarkedExited(s, id, None, Some("SIGKILL"), Failed), id)
        else s
      else if SeesFinished(s, id, caller) then Deleted(s, id)
      else s
    case Sweep(expired) => s.(finished := s.finished - expired)
  }

  // The invariant ----------------------------------------------------------------

  predicate Inv(s: State) {
    && (forall id :: id in s.running ==> id in s.sessions && !s.sessions[id].exited && id !in s.finished)
    && (forall id :: id in s.finished ==> id in s.sessions && s.sessions[id].exited)
    && (forall id :: id in s.finished ==> s.finished[id].scope == s.sessions[id].scope)
    && (forall id :: id in s.polls ==> id in s.sessions)
    && (forall id :: id in s.notices ==> id in s.sessions && s.sessions[id].exitNotified)
    && (forall i, j | 0 <= i < j < |s.notices| :: s.notices[i] != s.notices[j])
  }

  lemma DeletedInv(s: State, id: Id)
    requires Inv(s)
    ensures Inv(Deleted(s, id))
  {
  }

  lemma MarkedExitedInv(s: State, id: Id, code: Option<int>, signal: Option<string>, status: Status)
    requires Inv(s) && id in s.sessions
    ensures Inv(MarkedExited(s, id, code, signal, status))
  {
  }

  lemma NotifiedInv(s: State, id: Id, status: Status, hasOutput: bool)
    requires Inv(s) && id in s.sessions
    ensures Inv(Notified(s, id, status, hasOutput))
  {
  }

  lemma AddInv(s: State, e: Event)
    requires Inv(s) && Possible(s, e) && (e.Add? || e.Background?)
    ensures Inv(Step(s, e))
  {
    hide MarkedExited, Notified, Deleted;
  }

  /** The invariant holds in every reachable state; in particular no id is in both maps. */
  lemma StepKeepsInv(s: State, e: Event)
    requires Inv(s) && Possible(s, e)
    ensures Inv(Step(s, e))
  {
    hide Inv, MarkedExited, Notified, Deleted, WantsNotice, InScope, Sees, SeesFinished;
    match e {
      case Add(_, _) => AddInv(s, e);
      case Background(_) => AddInv(s, e);
      case ReportExit(id, code, signal, status, hasOutput) =>
        MarkedExitedInv(s, id, code, signal, status);
        MarkedExitedKnows(s, id, code, signal, status);
        NotifiedInv(MarkedExited(s, id, code, signal, status), id, status, hasOutput);
      case PollBegin(id, caller) =>
        if Sees(s, id, caller) {
          SeesKnows(s, id, caller);
          PollsInv(s, s.polls + multiset{id});
        }
      case PollEnd(id) =>
        PollsInv(s, s.polls - multiset{id});
        KnownPoll(s, id);
        var session := s.sessions[id];
        MarkedExitedInv(s.(polls := s.polls - multiset{id}), id, session.exitCode, session.exitSignal, PollStatus(session));
      case Kill(id, caller, cancelled, terminated) =>
        if Sees(s, id, caller) {
          SeesKnows(s, id, caller);
          MarkedExitedInv(s, id, None, Some("SIGKILL"), Failed);
        }
      case Clear(id, caller) => DeletedInv(s, id);
      case Remove(id, caller, cancelled, terminated) =>
        DeletedInv(s, id);
        if Sees(s, id, caller) {
          SeesKnows(s, id, caller);
          MarkedExitedInv(s, id, None, Some("SIGKILL"), Failed);
          DeletedInv(MarkedExited(s, id, None, Some("SIGKILL"), Failed), id);
          ForegroundInv(s, id);
          DeletedInv(s.(sessions := s.sessions[id := s.sessions[id].(backgrounded := false)]), id);
        }
      case Sweep(expired) => SweepInv(s, expired);
    }
  }

  lemma MarkedExitedKnows(s: State, id: Id, code: Option<int>, signal: Option<string>, status: Status)
    requires id in s.sessions
    ensures id in MarkedExited(s, id, code, signal, status).sessions
  {
  }

  lemma SeesKnows(s: State, id: Id, caller: Option<string>)
    requires Sees(s, id, caller)
    ensures id in s.sessions
  {
  }

  lemma KnownPoll(s: State, id: Id)
    requires Inv(s) && id in s.polls
    ensures id in s.sessions
  {
  }

  lemma PollsInv(s: State, polls: multiset<Id>)
    requires Inv(s)
    ensures (forall id :: id in polls ==> id in s.sessions) ==> Inv(s.(polls := polls))
    ensures forall id :: id in s.running || id in s.polls ==> id in s.sessions
  {
  }

  lemma ForegroundInv(s: State, id: Id)
    requires Inv(s) && id in s.sessions
    ensures Inv(s.(sessions := s.sessions[id := s.sessions[id].(backgrounded := false)]))
  {
  }

  lemma SweepInv(s: State, expired: set<Id>)
    requires Inv(s)
    ensures Inv(s.(finished := s.finished - expired))
  {
  }

  // Runs ---------------------------------------------------------------------------

  /** The state after a run, unless one of its events was not possible. */
  function After(s: State, events: seq<Event>): (r: Option<State>)
    requires Inv(s)
    ensures r.Some? ==> Inv(r.value)
  {
    if events == [] then Some(s)
    else
      var before := After(s, events[..|events| - 1]);
      var e := events[|events| - 1];
      if before.None? || !Possible(before.value, e) then None
      else
        StepKeepsInv(before.value, e);
        Some(Step(before.value, e))
  }

  predicate Reachable(s: State, events: seq<Event>) {
    After(Init(), events) == Some(s)
  }

  /** However the events interleave, no id is in both maps and no session gets two notices. */
  lemma ReachableIsConsistent(s: State, events: seq<Event>)
    requires Reachable(s, events)
    ensures s.running !! s.finished.Keys
    ensures s.running + s.finished.Keys <= s.sessions.Keys
    ensures forall id :: multiset(s.notices)[id] <= 1
  {
    hide After;
    forall id
      ensures multiset(s.notices)[id] <= 1
    {
      NoticedOnce(s.notices, id);
    }
  }

  lemma {:induction false} NoticedOnce(notices: seq<Id>, id: Id)
    requires forall i, j | 0 <= i < j < |notices| :: notices[i] != notices[j]
    ensures multiset(notices)[id] == if id in notices then 1 else 0
  {
    if notices == [] {
    } else {
      NoticedOnce(notices[1..], id);
      assert notices == [notices[0]] + notices[1..];
    }
  }

  // Where finished entries come from ---------------------------------------------------

  /** The event calls `markExited` on the session of `id`. */
  predicate MarksExit(s: State, e: Event, id: Id) {
    match e
    case ReportExit(other, _, _, _, _) => other == id
    case PollEnd(other) => other == id && id in s.sessions && s.sessions[id].exited
    case Kill(other, caller, cancelled, terminated) =>
      other == id && Sees(s, id, caller) && s.sessions[id].backgrounded && !cancelled && terminated
    case _ => false
  }

  /** An entry appears or changes only when a backgrounded session is marked exited. */
  lemma EntriesNeedBackground(s: State, e: Event, id: Id)
    requires Inv(s) && Possible(s, e)
    requires id in Step(s, e).finished
    requires id !in s.finished || Step(s, e).finished[id] != s.finished[id]
    ensures MarksExit(s, e, id) && id in s.sessions && s.sessions[id].backgrounded
  {
    hide Inv, InScope, WantsNotice, PollStatus;
    if e.PollEnd? {
      KnownPoll(s, e.id);
    }
  }

  /** Every finished entry goes back to the event that marked its then backgrounded session exited. */
  lemma {:induction false} FinishedHasCause(s: State, events: seq<Event>, id: Id) returns (k: nat)
    requires Inv(s) && After(s, events).Some?
    requires id in After(s, events).value.finished && id !in s.finished
    ensures k < |events| && After(s, events[..k]).Some?
    ensures var at := After(s, events[..k]).value;
            MarksExit(at, events[k], id) && id in at.sessions && at.sessions[id].backgrounded
    ensures After(s, events[..k + 1]).Some?
    ensures var later := After(s, events[..k + 1]).value;
            id in later.finished && later.finished[id] == After(s, events).value.finished[id]
  {
    hide Step, Possible, Inv, MarksExit;
    var front, e := events[..|events| - 1], events[|events| - 1];
    assert events != [];
    var before := After(s, front).value;
    if id in before.finished && before.finished[id] == After(s, events).value.finished[id] {
      k := FinishedHasCause(s, front, id);
      assert front[..k] == events[..k] && front[..k + 1] == events[..k + 1];
    } else {
      k := |events| - 1;
      EntriesNeedBackground(before, e, id);
      assert events[..k + 1] == events;
    }
  }

  /** What `markExited` writes down: the outcome that the event reports, or the one the session has. */
  predicate Records(s: State, e: Event, entry: Finished) {
    match e
    case ReportExit(_, code, signal, status, _) =>
      entry.status == status && entry.exitCode == code && entry.exitSignal == signal
    case PollEnd(id) =>
      && id in s.sessions
      && entry.exitCode == s.sessions[id].exitCode && entry.exitSignal == s.sessions[id].exitSignal
      && (entry.status == Completed <==> entry.exitCode in {None, Some(0)} && entry.exitSignal == None)
    case Kill(_, _, _, _) => entry == Finished(entry.scope, Failed, None, Some("SIGKILL"))
    case _ => false
  }

  /** The event takes a finished entry away. */
  predicate Drops(s: State, e: Event, id: Id) {
    match e
    case Clear(other, caller) => other == id && SeesFinished(s, id, caller)
    case Remove(other, caller, cancelled, terminated) =>
      other == id && (if Sees(s, id, caller) then cancelled || terminated else SeesFinished(s, id, caller))
    case Sweep(expired) => id in expired
    case _ => false
  }

  /**
   The finished entries after any event: one is written exactly when a backgrounded session
   is marked exited, with the outcome the event has for it, and the others stay unless the
   event drops them.
   */
  lemma FinishedAfter(s: State, e: Event, id: Id)
    requires Inv(s) && Possible(s, e)
    ensures var s' := Step(s, e);
            if MarksExit(s, e, id) && id in s.sessions && s.sessions[id].backgrounded then
              && id in s'.finished && s'.finished[id].scope == s.sessions[id].scope
              && Records(s, e, s'.finished[id])
            else
              && (id in s'.finished <==> id in s.finished && !Drops(s, e, id))
              && (id in s'.finished ==> s'.finished[id] == s.finished[id])
  {
    hide Inv, InScope, MarkedExited, Notified, Sees, SeesFinished;
    RunningIsNotFinished(s, id);
    match e {
      case ReportExit(other, code, signal, status, hasOutput) =>
        MarkedFinished(s, other, code, signal, status, id);
        NotifiedFinished(MarkedExited(s, other, code, signal, status), other, status, hasOutput);
      case PollEnd(other) =>
        KnownPoll(s, other);
        var session := s.sessions[other];
        MarkedFinished(s.(polls := s.polls - multiset{other}), other, session.exitCode, session.exitSignal,
                       PollStatus(session), id);
      case Kill(other, caller, _, _) =>
        if Sees(s, other, caller) {
          SeesKnows(s, other, caller);
          MarkedFinished(s, other, None, Some("SIGKILL"), Failed, id);
        }
      case Remove(other, caller, _, _) =>
        if Sees(s, other, caller) {
          SeesKnows(s, other, caller);
          MarkedFinished(s, other, None, Some("SIGKILL"), Failed, id);
        }
      case _ =>
    }
  }

  lemma MarkedFinished(s: State, id: Id, code: Option<int>, signal: Option<string>, status: Status, x: Id)
    requires id in s.sessions
    ensures var s' := MarkedExited(s, id, code, signal, status);
            if x == id && s.sessions[id].backgrounded then
              x in s'.finished && s'.finished[x] == Finished(s.sessions[id].scope, status, code, signal)
            else (x in s'.finished <==> x in s.finished) && (x in s'.finished ==> s'.finished[x] == s.finished[x])
    ensures id in MarkedExited(s, id, code, signal, status).sessions
  {
  }

  lemma NotifiedFinished(s: State, id: Id, status: Status, hasOutput: bool)
    requires id in s.sessions
    ensures Notified(s, id, status, hasOutput).finished == s.finished
  {
  }

  lemma RunningIsNotFinished(s: State, id: Id)
    requires Inv(s)
    ensures id in s.running ==> id !in s.finished
  {
  }

  /** A session runs from when it is added until it is marked exited or removed. */
  lemma RunningAfter(s: State, e: Event, id: Id)
    requires Inv(s) && Possible(s, e)
    ensures id in Step(s, e).running
            <==> (e.Add? && e.id == id)
                 || (id in s.running && !MarksExit(s, e, id)
                     && !(e.Remove? && e.id == id && Sees(s, id, e.caller) && (e.cancelled || e.terminated)))
  {
    hide Inv, InScope, WantsNotice, PollStatus;
    RunningIsNotFinished(s, id);
    if e.PollEnd? {
      KnownPoll(s, e.id);
    }
  }

  /** The event kills the process of the session by its id. */
  predicate Kills(s: State, e: Event, id: Id) {
    || (e.Kill? && e.id == id && Sees(s, id, e.caller) && s.sessions[id].backgrounded && !e.cancelled && e.terminated)
    || (e.Remove? && e.id == id && Sees(s, id, e.caller) && !e.cancelled && e.terminated)
  }

  /**
   The session object after any event: it is backgrounded until a remove cancels its run, has
   exited once reported or killed, and has the outcome of the last report or kill.
   */
  lemma SessionAfter(s: State, e: Event, id: Id)
    requires Inv(s) && Possible(s, e) && id in s.sessions
    ensures id in Step(s, e).sessions
    ensures var was, now := s.sessions[id], Step(s, e).sessions[id];
            var reported := e.ReportExit? && e.id == id;
            && now.scope == was.scope
            && (now.backgrounded
                <==> e == Background(id)
                     || (was.backgrounded && !(e.Remove? && e.id == id && Sees(s, id, e.caller) && e.cancelled)))
            && (now.exited <==> was.exited || reported || Kills(s, e, id))
            && now.exitCode == (if reported then e.code else if Kills(s, e, id) then None else was.exitCode)
            && now.exitSignal == (if reported then e.signal else if Kills(s, e, id) then Some("SIGKILL") else was.exitSignal)
  {
    SessionIs(s, e, id);
    hide Step, Inv, Possible, Sees, PollStatus;
  }

  /** The session object after any event, spelled out. */
  function Touched(s: State, e: Event, id: Id): Session
    requires id in s.sessions
  {
    var was := s.sessions[id];
    if e.Background? && e.id == id then was.(backgrounded := true)
    else if e.ReportExit? && e.id == id then
      was.(exited := true, exitCode := e.code, exitSignal := e.signal, exitNotified := was.exitNotified || Reports(s, e, id))
    else if Kills(s, e, id) then was.(exited := true, exitCode := None, exitSignal := Some("SIGKILL"))
    else if e.Remove? && e.id == id && Sees(s, id, e.caller) && e.cancelled then was.(backgrounded := false)
    else was
  }

  lemma MarkedSession(s: State, id: Id, code: Option<int>, signal: Option<string>, status: Status, x: Id)
    requires id in s.sessions && x in s.sessions
    ensures var s' := MarkedExited(s, id, code, signal, status);
            && x in s'.sessions && id in s'.sessions
            && s'.sessions[x] == (if x == id then s.sessions[x].(exited := true, exitCode := code, exitSignal := signal)
                                  else s.sessions[x])
  {
  }

  lemma NotifiedSession(s: State, id: Id, status: Status, hasOutput: bool, x: Id)
    requires id in s.sessions && x in s.sessions
    ensures var s', session := Notified(s, id, status, hasOutput), s.sessions[x];
            && x in s'.sessions
            && s'.sessions[x] == if x == id && WantsNotice(session) then session.(exitNotified := true) else session
  {
    hide WantsNotice;
  }

  lemma SessionIs(s: State, e: Event, id: Id)
    requires Inv(s) && Possible(s, e) && id in s.sessions
    ensures id in Step(s, e).sessions && Step(s, e).sessions[id] == Touched(s, e, id)
  {
    hide Inv, InScope, PollStatus, MarkedExited, Notified, Sees, SeesFinished;
    match e {
      case ReportExit(other, code, signal, status, hasOutput) =>
        MarkedSession(s, other, code, signal, status, id);
        NotifiedSession(MarkedExited(s, other, code, signal, status), other, status, hasOutput, id);
      case PollEnd(other) =>
        KnownPoll(s, other);
        var session := s.sessions[other];
        MarkedSession(s.(polls := s.polls - multiset{other}), other, session.exitCode, session.exitSignal,
                      PollStatus(session), id);
      case Kill(other, caller, _, _) =>
        if Sees(s, other, caller) {
          SeesKnows(s, other, caller);
          MarkedSession(s, other, None, Some("SIGKILL"), Failed, id);
        }
      case Remove(other, caller, _, _) =>
        if Sees(s, other, caller) {
          SeesKnows(s, other, caller);
          MarkedSession(s, other, None, Some("SIGKILL"), Failed, id);
        }
      case _ =>
    }
  }

  /** A poll waits from when it finds a backgrounded session in scope until it goes on. */
  lemma PollsAfter(s: State, e: Event, id: Id)
    requires Inv(s) && Possible(s, e)
    ensures Step(s, e).polls[id]
            == s.polls[id]
               + (if e.PollBegin? && e.id == id && Sees(s, id, e.caller) && s.sessions[id].backgrounded then 1 else 0)
               - (if e == PollEnd(id) then 1 else 0)
  {
    hide Inv, InScope, PollStatus, WantsNotice;
    if e.PollEnd? {
      KnownPoll(s, e.id);
    }
  }

  /** The entry of a finished session: what its cause recorded. */
  lemma FinishedIsRecorded(s: State, events: seq<Event>, id: Id) returns (k: nat)
    requires Inv(s) && After(s, events).Some?
    requires id in After(s, events).value.finished && id !in s.finished
    ensures k < |events| && After(s, events[..k]).Some?
    ensures var at, entry := After(s, events[..k]).value, After(s, events).value.finished[id];
            && MarksExit(at, events[k], id) && id in at.sessions && at.sessions[id].backgrounded
            && entry.scope == at.sessions[id].scope && Records(at, events[k], entry)
  {
    hide Step, Possible, Inv, MarksExit, Records;
    k := FinishedHasCause(s, events, id);
    assert events[..k + 1][..k] == events[..k];
    FinishedAfter(After(s, events[..k]).value, events[k], id);
  }

  // Notices ------------------------------------------------------------------------------

  /** An exit report that finds its session backgrounded, with a session key and notices asked for. */
  predicate Reports(s: State, e: Event, id: Id) {
    && e.ReportExit? && e.id == id && id in s.sessions
    && s.sessions[id].backgrounded && s.sessions[id].notifyOnExit && s.sessions[id].hasSessionKey
  }

  /** There is something to say: a failure, output, or a success that is announced even when empty. */
  predicate Tells(s: State, e: Event, id: Id) {
    && e.ReportExit? && id in s.sessions
    && (e.status == Failed || e.hasOutput || s.sessions[id].notifyEmptySuccess)
  }

  /** No event but the first report of a session changes the notices, and that one by its own id. */
  lemma NoticesAfter(s: State, e: Event)
    requires Inv(s) && Possible(s, e)
    ensures var s' := Step(s, e);
            s'.notices == if e.ReportExit? && Reports(s, e, e.id) && !s.sessions[e.id].exitNotified && Tells(s, e, e.id)
                          then s.notices + [e.id] else s.notices
  {
    hide Inv, InScope, PollStatus, Sees, SeesFinished;
    if e.PollEnd? {
      KnownPoll(s, e.id);
    }
    if (e.Kill? || e.Remove?) && Sees(s, e.id, e.caller) {
      SeesKnows(s, e.id, e.caller);
    }
  }

  /** The mark of a session that has had its first report, and what never changes about a session. */
  lemma NotifiedAfter(s: State, e: Event, id: Id)
    requires Inv(s) && Possible(s, e) && id in Step(s, e).sessions
    ensures var session := Step(s, e).sessions[id];
            if id in s.sessions then
              && (session.exitNotified <==> s.sessions[id].exitNotified || Reports(s, e, id))
              && session.notifyOnExit == s.sessions[id].notifyOnExit
              && session.hasSessionKey == s.sessions[id].hasSessionKey
              && session.notifyEmptySuccess == s.sessions[id].notifyEmptySuccess
            else !session.exitNotified && !Reports(s, e, id)
  {
    hide Step, Inv, Possible, Sees, Reports, Kills, Touched;
    if id in s.sessions {
      SessionIs(s, e, id);
      TouchedNotice(s, e, id);
    } else {
      NewSession(s, e, id);
      ReportsOwn(s, e, id);
    }
  }

  lemma TouchedNotice(s: State, e: Event, id: Id)
    requires id in s.sessions
    ensures var was, now := s.sessions[id], Touched(s, e, id);
            && (now.exitNotified <==> was.exitNotified || Reports(s, e, id))
            && now.notifyOnExit == was.notifyOnExit && now.hasSessionKey == was.hasSessionKey
            && now.notifyEmptySuccess == was.notifyEmptySuccess
  {
    ReportsOwn(s, e, id);
    hide Kills, Sees, Reports;
  }

  lemma NewSession(s: State, e: Event, id: Id)
    requires Inv(s) && Possible(s, e) && id in Step(s, e).sessions && id !in s.sessions
    ensures e.Add? && e.id == id && Step(s, e).sessions[id] == e.session && !e.session.exitNotified
  {
    hide Inv, InScope, PollStatus, SeesFinished, WantsNotice;
    if e.PollEnd? {
      KnownPoll(s, e.id);
    }
  }

  /** Event `k` of a run is a report for `id`. */
  predicate ReportAt(events: seq<Event>, k: nat, id: Id) {
    && k < |events| && After(Init(), events[..k]).Some?
    && Reports(After(Init(), events[..k]).value, events[k], id)
  }

  /** Event `k` is the first report for `id`, and has something to say. */
  predicate FirstTells(events: seq<Event>, k: nat, id: Id) {
    && ReportAt(events, k, id) && Tells(After(Init(), events[..k]).value, events[k], id)
    && forall j: nat | j < k :: !ReportAt(events, j, id)
  }

  lemma EarlierReports(events: seq<Event>, k: nat, id: Id)
    requires k < |events| - 1
    ensures var front := events[..|events| - 1];
            && (ReportAt(events, k, id) <==> ReportAt(front, k, id))
            && front[..k] == events[..k] && front[k] == events[k]
  {
    hide After, Reports;
    var front := events[..|events| - 1];
    assert front[..k] == events[..k];
  }

  lemma EarlierTells(events: seq<Event>, k: nat, id: Id)
    requires k < |events| - 1
    ensures FirstTells(events, k, id) <==> FirstTells(events[..|events| - 1], k, id)
  {
    hide After, Reports, Tells, ReportAt;
    var front := events[..|events| - 1];
    EarlierReports(events, k, id);
    assert k < |front|;
    forall j: nat | j < k
      ensures ReportAt(events, j, id) <==> ReportAt(front, j, id)
    {
      EarlierReports(events, j, id);
    }
    assert ReportAt(events, k, id) ==> After(Init(), events[..k]).Some? by {
      ReportIsReached(events, k, id);
    }
  }

  lemma ReportIsReached(events: seq<Event>, k: nat, id: Id)
    ensures ReportAt(events, k, id) ==> k < |events| && After(Init(), events[..k]).Some?
  {
  }

  /** The last event of a run tells first when it reports, tells, and no earlier one reported. */
  lemma LastTells(s: State, events: seq<Event>, id: Id)
    requires events != [] && After(Init(), events[..|events| - 1]) == Some(s)
    ensures var n, front, e := |events| - 1, events[..|events| - 1], events[|events| - 1];
            && (ReportAt(events, n, id) <==> Reports(s, e, id))
            && (FirstTells(events, n, id)
                <==> Reports(s, e, id) && Tells(s, e, id) && forall j: nat :: !ReportAt(front, j, id))
  {
    var n, front := |events| - 1, events[..|events| - 1];
    assert events[..n] == front;
    assert forall j: nat | j >= n :: !ReportAt(front, j, id);
    hide After, Reports, Tells, ReportAt;
    forall j: nat | j < n {
      EarlierReports(events, j, id);
    }
    assert ReportAt(events, n, id) <==> Reports(s, events[n], id) by {
      LastReport(s, events, id);
    }
  }

  lemma LastReport(s: State, events: seq<Event>, id: Id)
    requires events != [] && After(Init(), events[..|events| - 1]) == Some(s)
    ensures ReportAt(events, |events| - 1, id) <==> Reports(s, events[|events| - 1], id)
  {
    hide After, Reports;
  }

  lemma ReportsOneMore(events: seq<Event>, id: Id)
    requires events != []
    ensures var n, front := |events| - 1, events[..|events| - 1];
            && ((exists k: nat :: ReportAt(events, k, id))
                <==> ReportAt(events, n, id) || exists k: nat :: ReportAt(front, k, id))
            && ((exists k: nat :: FirstTells(events, k, id))
                <==> FirstTells(events, n, id) || exists k: nat :: FirstTells(front, k, id))
  {
    var n, front := |events| - 1, events[..|events| - 1];
    assert forall k: nat | k >= n :: !ReportAt(front, k, id);
    assert forall k: nat | k > n :: !ReportAt(events, k, id);
    assert forall k: nat | k >= n :: !FirstTells(front, k, id);
    assert forall k: nat | k > n :: !FirstTells(events, k, id);
    hide ReportAt, FirstTells;
    forall k: nat | k < n
      ensures ReportAt(events, k, id) <==> ReportAt(front, k, id)
      ensures FirstTells(events, k, id) <==> FirstTells(front, k, id)
    {
      EarlierReports(events, k, id);
      EarlierTells(events, k, id);
    }
    if k: nat :| ReportAt(front, k, id) {
      assert ReportAt(events, k, id);
    }
    if k: nat :| FirstTells(front, k, id) {
      assert FirstTells(events, k, id);
    }
    if k: nat :| ReportAt(events, k, id) {
      assert k == n || ReportAt(front, k, id);
    }
    if k: nat :| FirstTells(events, k, id) {
      assert k == n || FirstTells(front, k, id);
    }
  }

  /** The session of `id` has had a report. */
  predicate Marked(s: State, id: Id) {
    id in s.sessions && s.sessions[id].exitNotified
  }

  /**
   Over every run: a session has its notice exactly when the first exit report that found it
   backgrounded, with a session key and notices asked for, had something to say.
   */
  lemma {:induction false} NoticedIff(s: State, events: seq<Event>, id: Id)
    requires Reachable(s, events)
    ensures id in s.notices <==> exists k: nat :: FirstTells(events, k, id)
    ensures Marked(s, id) <==> exists k: nat :: ReportAt(events, k, id)
    decreases |events|
  {
    if events == [] {
      NothingYet();
    } else {
      var n := |events| - 1;
      var front, e := events[..n], events[n];
      var before := After(Init(), front).value;
      assert After(Init(), events) == Some(Step(before, e)) && Possible(before, e) && Inv(before);
      hide *;
      ReachableIs(before, front);
      NoticedIff(before, front, id);
      ReportsOneMore(events, id);
      LastTells(before, events, id);
      NoticedStep(before, e, id);
    }
  }

  lemma ReachableIs(s: State, events: seq<Event>)
    requires After(Init(), events) == Some(s)
    ensures Reachable(s, events)
  {
  }

  lemma NoticedStep(s: State, e: Event, id: Id)
    requires Inv(s) && Possible(s, e)
    ensures Marked(Step(s, e), id) <==> Marked(s, id) || Reports(s, e, id)
    ensures id in Step(s, e).notices
            <==> id in s.notices || (Reports(s, e, id) && Tells(s, e, id) && !Marked(s, id))
  {
    NoticesAfter(s, e);
    SessionsStay(s, e, id);
    if id in Step(s, e).sessions {
      NotifiedAfter(s, e, id);
    }
    ReportsOwn(s, e, id);
    hide Step, Inv, Possible, Tells;
  }

  lemma ReportsOwn(s: State, e: Event, id: Id)
    ensures Reports(s, e, id) ==> e.ReportExit? && e.id == id && id in s.sessions
  {
  }

  lemma SessionsStay(s: State, e: Event, id: Id)
    requires Inv(s) && Possible(s, e)
    ensures id in s.sessions ==> id in Step(s, e).sessions
  {
    hide Inv, InScope, PollStatus, Sees, SeesFinished, WantsNotice;
    if e.PollEnd? {
      KnownPoll(s, e.id);
    }
    if (e.Kill? || e.Remove?) && Sees(s, e.id, e.caller) {
      SeesKnows(s, e.id, e.caller);
    }
  }

  lemma NothingYet()
    ensures Init().notices == [] && Init().sessions == map[]
    ensures forall k: nat, id :: !ReportAt([], k, id) && !FirstTells([], k, id)
  {
  }

  // Removed for good? --------------------------------------------------------------------

  /** A session whose id is in neither map. */
  predicate Gone(s: State, id: Id) {
    id in s.sessions && id !in s.running && id !in s.finished
  }

  /** The exact condition for the id of a removed session to turn up again. */
  lemma ComesBackIff(s: State, e: Event, id: Id)
    requires Inv(s) && Possible(s, e) && Gone(s, id)
    ensures Gone(Step(s, e), id) <==> !(MarksExit(s, e, id) && s.sessions[id].backgrounded)
    ensures id !in Step(s, e).running
  {
    hide Inv, InScope, WantsNotice, PollStatus;
  }

  lemma MarkKeepsBackground(s: State, id: Id, code: Option<int>, signal: Option<string>, status: Status, x: Id)
    requires id in s.sessions && x in s.sessions
    ensures var s' := MarkedExited(s, id, code, signal, status);
            id in s'.sessions && x in s'.sessions && s'.sessions[x].backgrounded == s.sessions[x].backgrounded
  {
  }

  lemma NoticeKeepsBackground(s: State, id: Id, status: Status, hasOutput: bool, x: Id)
    requires id in s.sessions && x in s.sessions
    ensures var s' := Notified(s, id, status, hasOutput);
            x in s'.sessions && s'.sessions[x].backgrounded == s.sessions[x].backgrounded
  {
  }

  lemma OnlyBackgroundBackgrounds(s: State, e: Event, x: Id)
    requires Inv(s) && Possible(s, e) && x in s.sessions && !s.sessions[x].backgrounded && e != Background(x)
    ensures x in Step(s, e).sessions && !Step(s, e).sessions[x].backgrounded
  {
    hide Inv, MarkedExited, Notified, Sees, SeesFinished;
    match e {
      case ReportExit(id, code, signal, status, hasOutput) =>
        MarkKeepsBackground(s, id, code, signal, status, x);
        NoticeKeepsBackground(MarkedExited(s, id, code, signal, status), id, status, hasOutput, x);
      case PollEnd(id) =>
        KnownPoll(s, id);
        var session := s.sessions[id];
        MarkKeepsBackground(s.(polls := s.polls - multiset{id}), id, session.exitCode, session.exitSignal,
                            PollStatus(session), x);
      case Kill(id, caller, _, _) =>
        if Sees(s, id, caller) {
          SeesKnows(s, id, caller);
          MarkKeepsBackground(s, id, None, Some("SIGKILL"), Failed, x);
        }
      case Remove(id, caller, _, _) =>
        if Sees(s, id, caller) {
          SeesKnows(s, id, caller);
          MarkKeepsBackground(s, id, None, Some("SIGKILL"), Failed, x);
        }
      case _ =>
    }
  }

  /** A removed session in the foreground stays out of both maps until it is marked backgrounded again. */
  lemma {:induction false} GoneStaysGone(s: State, events: seq<Event>, id: Id)
    requires Inv(s) && Gone(s, id) && !s.sessions[id].backgrounded
    requires After(s, events).Some? && Background(id) !in events
    ensures Gone(After(s, events).value, id) && !After(s, events).value.sessions[id].backgrounded
  {
    hide Step, Possible, Inv, MarksExit;
    if events == [] {
    } else {
      var front, e := events[..|events| - 1], events[|events| - 1];
      assert Background(id) !in front by {
        assert forall x | x in front :: x in events;
      }
      GoneStaysGone(s, front, id);
      var before := After(s, front).value;
      ComesBackIff(before, e, id);
      assert e in events;
      OnlyBackgroundBackgrounds(before, e, id);
    }
  }

  lemma RemoveLeaves(s: State, id: Id, caller: Option<string>, terminated: bool)
    requires Inv(s) && Sees(s, id, caller)
    ensures var s' := Step(s, Remove(id, caller, true, terminated));
            Gone(s', id) && !s'.sessions[id].backgrounded
  {
    hide Inv, InScope;
  }

  /**
   A `remove` that cancelled the run is final: later exit reports and polls already
   in flight do not bring the id back, unless the session is backgrounded again.
   */
  lemma CancelledRemoveIsFinal(s: State, id: Id, caller: Option<string>, terminated: bool, events: seq<Event>)
    requires Inv(s) && Sees(s, id, caller)
    requires var s' := Step(s, Remove(id, caller, true, terminated));
             Inv(s') && After(s', events).Some? && Background(id) !in events
    ensures var last := After(Step(s, Remove(id, caller, true, terminated)), events).value;
            id !in last.running && id !in last.finished
  {
    hide Step, Inv, After, Sees;
    RemoveLeaves(s, id, caller, terminated);
    GoneStaysGone(Step(s, Remove(id, caller, true, terminated)), events, id);
  }

  // A `remove` that had to kill the process by its id leaves the session backgrounded,
  // so the next exit report puts it back among the finished ones.
  lemma FallbackRemoveComesBack(s: State, id: Id, caller: Option<string>, report: Event)
    requires Inv(s) && Sees(s, id, caller) && s.sessions[id].backgrounded
    requires report.ReportExit? && report.id == id
    requires var s' := Step(s, Remove(id, caller, false, true)); Inv(s') && Possible(s', report)
    ensures var s' := Step(s, Remove(id, caller, false, true));
            Gone(s', id) && id in Step(s', report).finished
  {
    hide Inv, InScope, WantsNotice;
  }

  /** The tool of a scoped caller leaves the sessions of other scopes alone. */
  lemma ToolStaysInScope(s: State, e: Event, other: Id)
    requires Inv(s) && Possible(s, e) && (e.Kill? || e.Clear? || e.Remove? || e.PollBegin?)
    requires e.caller.Some? && e.caller.value != ""
    requires other in s.sessions && s.sessions[other].scope != e.caller.value
    ensures var s' := Step(s, e);
            && other in s'.sessions && s'.sessions[other] == s.sessions[other]
            && (other in s'.running <==> other in s.running)
            && (other in s'.finished <==> other in s.finished)
            && (other in s.finished ==> s'.finished[other] == s.finished[other])
            && s'.polls[other] == s.polls[other]
  {
  }

  /** A caller sees the sessions of its own scope, and every session when it has none. */
  lemma SeesIff(s: State, id: Id, caller: Option<string>)
    ensures Sees(s, id, caller)
            <==> id in s.running && id in s.sessions && caller in {None, Some(""), Some(s.sessions[id].scope)}
    ensures SeesFinished(s, id, caller)
            <==> id in s.finished && caller in {None, Some(""), Some(s.finished[id].scope)}
  {
  }

  // The registry ---------------------------------------------------------------------------

  class Registry {
    var sessions: map<Id, Session>
    var runningSessions: set<Id>
    var finishedSessions: map<Id, Finished>
    var polls: multiset<Id>
    var notices: seq<Id>

    function Now(): State
      reads this
    {
      State(sessions, runningSessions, finishedSessions, polls, notices)
    }

    ghost predicate Valid()
      reads this
    {
      Inv(Now())
    }

    constructor ()
      ensures Valid() && Now() == Init()
    {
      sessions, runningSessions, finishedSessions, polls, notices := map[], {}, map[], multiset{}, [];
    }

    method AddSession(id: Id, session: Session)
      requires Valid() && Possible(Now(), Add(id, session))
      modifies this
      ensures Valid() && Now() == Step(old(Now()), Add(id, session))
    {
      StepKeepsInv(Now(), Add(id, session));
      sessions := sessions[id := session];
      runningSessions := runningSessions + {id};
    }

    method DeleteSession(id: Id)
      modifies `runningSessions, `finishedSessions
      ensures Now() == Deleted(old(Now()), id)
    {
      runningSessions := runningSessions - {id};
      finishedSessions := finishedSessions - {id};
    }

    method MarkBackgrounded(id: Id)
      requires Valid() && id in sessions
      modifies this
      ensures Valid() && Now() == Step(old(Now()), Background(id))
    {
      StepKeepsInv(Now(), Background(id));
      sessions := sessions[id := sessions[id].(backgrounded := true)];
    }

    method MarkExited(id: Id, code: Option<int>, signal: Option<string>, status: Status)
      requires id in sessions
      modifies `sessions, `runningSessions, `finishedSessions
      ensures Now() == MarkedExited(old(Now()), id, code, signal, status)
    {
      sessions := sessions[id := sessions[id].(exited := true, exitCode := code, exitSignal := signal)];
      MoveToFinished(id, status);
    }

    method MoveToFinished(id: Id, status: Status)
      requires id in sessions
      modifies `runningSessions, `finishedSessions
      ensures runningSessions == old(runningSessions) - {id}
      ensures finishedSessions
              == if sessions[id].backgrounded then
                   old(finishedSessions)[id := Finished(sessions[id].scope, status, sessions[id].exitCode, sessions[id].exitSignal)]
                 else old(finishedSessions)
    {
      runningSessions := runningSessions - {id};
      if !sessions[id].backgrounded {
        return;
      }
      var session := sessions[id];
      finishedSessions := finishedSessions[id := Finished(session.scope, status, session.exitCode, session.exitSignal)];
    }

    method MaybeNotifyOnExit(id: Id, status: Status, hasOutput: bool)
      requires id in sessions
      modifies `sessions, `notices
      ensures Now() == Notified(old(Now()), id, status, hasOutput)
    {
      var session := sessions[id];
      if !session.backgrounded || !session.notifyOnExit || session.exitNotified {
        return;
      }
      if !session.hasSessionKey {
        return;
      }
      sessions := sessions[id := session.(exitNotified := true)];
      if status == Completed && !hasOutput && !session.notifyEmptySuccess {
        return;
      }
      notices := notices + [id];
    }

    /** The exit continuation of a run; nothing stops it from happening more than once. */
    method HandleExit(id: Id, code: Option<int>, signal: Option<string>, status: Status, hasOutput: bool)
      requires Valid() && id in sessions
      modifies this
      ensures Valid() && Now() == Step(old(Now()), ReportExit(id, code, signal, status, hasOutput))
    {
      StepKeepsInv(Now(), ReportExit(id, code, signal, status, hasOutput));
      MarkExited(id, code, signal, status);
      MaybeNotifyOnExit(id, status, hasOutput);
    }

    /** A poll up to its wait: it goes on only for a backgrounded session in scope. */
    method BeginPoll(id: Id, caller: Option<string>) returns (waiting: bool)
      requires Valid()
      modifies this
      ensures Valid() && Now() == Step(old(Now()), PollBegin(id, caller))
      ensures waiting <==> Sees(old(Now()), id, caller) && old(sessions)[id].backgrounded
    {
      StepKeepsInv(Now(), PollBegin(id, caller));
      if id !in runningSessions || !InScope(caller, sessions[id].scope) {
        return false;
      }
      if !sessions[id].backgrounded {
        return false;
      }
      polls := polls + multiset{id};
      return true;
    }

    /** A poll after its wait, on the session object it found before. */
    method FinishPoll(id: Id) returns (exited: bool)
      requires Valid() && id in polls
      modifies this
      ensures Valid() && Now() == Step(old(Now()), PollEnd(id))
      ensures exited <==> old(Now()).sessions[id].exited
    {
      StepKeepsInv(Now(), PollEnd(id));
      polls := polls - multiset{id};
      var session := sessions[id];
      exited := session.exited;
      if exited {
        var exitCode := if session.exitCode.Some? then session.exitCode.value else 0;
        var status := if exitCode == 0 && session.exitSignal.None? then Completed else Failed;
        MarkExited(id, session.exitCode, session.exitSignal, status);
      }
    }

    method KillSession(id: Id, caller: Option<string>, cancelled: bool, terminated: bool) returns (ok: bool)
      requires Valid()
      modifies this
      ensures Valid() && Now() == Step(old(Now()), Kill(id, caller, cancelled, terminated))
      ensures ok <==> Sees(old(Now()), id, caller) && old(sessions)[id].backgrounded && (cancelled || terminated)
    {
      StepKeepsInv(Now(), Kill(id, caller, cancelled, terminated));
      if id !in runningSessions || !InScope(caller, sessions[id].scope) || !sessions[id].backgrounded {
        return false;
      }
      if !cancelled {
        if !terminated {
          return false;
        }
        MarkExited(id, None, Some("SIGKILL"), Failed);
      }
      return true;
    }

    method ClearSession(id: Id, caller: Option<string>) returns (ok: bool)
      requires Valid()
      modifies this
      ensures Valid() && Now() == Step(old(Now()), Clear(id, caller))
      ensures ok <==> SeesFinished(old(Now()), id, caller)
    {
      StepKeepsInv(Now(), Clear(id, caller));
      if id in finishedSessions && InScope(caller, finishedSessions[id].scope) {
        DeleteSession(id);
        return true;
      }
      return false;
    }

    method RemoveSession(id: Id, caller: Option<string>, cancelled: bool, terminated: bool) returns (ok: bool)
      requires Valid()
      modifies this
      ensures Valid() && Now() == Step(old(Now()), Remove(id, caller, cancelled, terminated))
      ensures ok <==> if Sees(old(Now()), id, caller) then cancelled || terminated
                      else SeesFinished(old(Now()), id, caller)
    {
      StepKeepsInv(Now(), Remove(id, caller, cancelled, terminated));
      if id in runningSessions && InScope(caller, sessions[id].scope) {
        if cancelled {
          sessions := sessions[id := sessions[id].(backgrounded := false)];
          DeleteSession(id);
        } else {
          if !terminated {
            return false;
          }
          MarkExited(id, None, Some("SIGKILL"), Failed);
          DeleteSession(id);
        }
        return true;
      }
      if id in finishedSessions && InScope(caller, finishedSessions[id].scope) {
        DeleteSession(id);
        return true;
      }
      return false;
    }

    method PruneFinishedSessions(expired: set<Id>)
      requires Valid()
      modifies this
      ensures Valid() && Now() == Step(old(Now()), Sweep(expired))
    {
      StepKeepsInv(Now(), Sweep(expired));
      finishedSessions := finishedSessions - expired;
    }
  }
}
