/** Whose events does a turn get credited with?

    The runner cannot see which pi run an event comes from. Here the events carry it, and the
    theorems say when the tracker's bookkeeping comes to the same thing. */
module RunnerAttribution {
  import opened Wrappers
  import opened RunnerProtocol
  import opened RunnerSafety

  /** The runs that may still emit events. A run starts with its turn and is over when it settles,
      when `isIdle()` says so, or when a call that throws (the send, `abort`, `isIdle`) leaves none. */
  function Live(trace: seq<Event>): set<nat>
    requires Possible(trace)
  {
    if trace == [] then {}
    else
      var n := |trace| - 1;
      LiveAfter(Live(trace[..n]), trace[n], After(trace).value.tracker.generation)
  }

  /** `gen` is the generation after the event. */
  function LiveAfter(before: set<nat>, e: Event, gen: nat): set<nat> {
    match e
    case TurnBegun => before + {gen}
    case AgentSettled(run) => before - {run}
    case RaceResumed(idle, idleAgain) => if idle || idleAgain then {} else before
    case SendThrew(_, running) => if running then before else before - {gen}
    case AbandonThrew(_, running) => if running then before else before - {gen}
    case _ => before
  }

  function RunOf(e: Event): Option<nat> {
    match e
    case MessageEnded(run, _) => Some(run)
    case TurnEnded(run) => Some(run)
    case AgentSettled(run) => Some(run)
    case _ => None
  }

  /** pi emits events of live runs only. */
  ghost predicate Behaves(trace: seq<Event>)
    requires Possible(trace)
  {
    trace == []
    || (var n := |trace| - 1;
        Behaves(trace[..n]) && (RunOf(trace[n]).Some? ==> RunOf(trace[n]).value in Live(trace[..n])))
  }

  /** The runs that the runner gave up and that have not ended since. It gives a run up in three
      places: the drain's backstop expires, the send throws although the run was started, or
      abandoning a timed-out run throws. */
  function GivenUp(trace: seq<Event>): set<nat>
    requires Possible(trace)
  {
    if trace == [] then {}
    else
      var n := |trace| - 1;
      GivenUpAfter(GivenUp(trace[..n]), trace[n], After(trace[..n]).value.tracker)
  }

  /** `t` is the tracker before the event. */
  function GivenUpAfter(before: set<nat>, e: Event, t: Tracker): set<nat> {
    match e
    case BackstopFired => before + {t.generation}
    case SendThrew(_, running) => if running && !t.settled then before + {t.generation} else before
    case AbandonThrew(_, running) => if running && !t.settled then before + {t.generation} else before
    case AgentSettled(run) => before - {run}
    case RaceResumed(idle, idleAgain) => if idle || idleAgain then {} else before
    case _ => before
  }

  lemma OneMore(trace: seq<Event>, s: System, e: Event)
    requires After(trace) == Some(s) && Enabled(s, e)
    ensures After(trace + [e]) == Some(Apply(s, e))
    ensures Behaves(trace + [e]) <==> Behaves(trace) && (RunOf(e).Some? ==> RunOf(e).value in Live(trace))
    ensures Live(trace + [e]) == LiveAfter(Live(trace), e, Apply(s, e).tracker.generation)
    ensures GivenUp(trace + [e]) == GivenUpAfter(GivenUp(trace), e, s.tracker)
  {
    hide Apply, Enabled, LiveAfter, GivenUpAfter, RunOf;
    AfterSnoc(trace, e);
    assert (trace + [e])[..|trace|] == trace;
  }

  lemma OneLess(trace: seq<Event>)
    requires Possible(trace) && trace != []
    ensures var p, e := trace[..|trace| - 1], trace[|trace| - 1];
            && Possible(p) && Enabled(After(p).value, e)
            && After(trace) == Some(Apply(After(p).value, e))
            && (Behaves(trace) ==> Behaves(p) && (RunOf(e).Some? ==> RunOf(e).value in Live(p)))
            && Live(trace) == LiveAfter(Live(p), e, After(trace).value.tracker.generation)
            && GivenUp(trace) == GivenUpAfter(GivenUp(p), e, After(p).value.tracker)
  {
    hide Apply, Enabled, LiveAfter, GivenUpAfter, RunOf;
  }

  /** At every poll so far, no run given up was still going on. */
  ghost predicate NothingLeftBehind(trace: seq<Event>)
    requires Possible(trace)
  {
    && (trace == [] || NothingLeftBehind(trace[..|trace| - 1]))
    && (After(trace).value.phase.Polling? ==> GivenUp(trace) == {})
  }

  /** At every poll so far, no run at all was still going on. */
  ghost predicate QuietAtPolls(trace: seq<Event>)
    requires Possible(trace)
  {
    && (trace == [] || QuietAtPolls(trace[..|trace| - 1]))
    && (After(trace).value.phase.Polling? ==> Live(trace) == {})
  }

  /** Past the turn the runs that go on are those given up; during it, at most the turn's own is. */
  ghost predicate Accounted(s: System, live: set<nat>, given: set<nat>) {
    && given <= live <= {s.tracker.generation}
    && (s.tracker.settled ==> live == {})
    && (InTurn(s.phase) ==> s.tracker.settled || s.phase.Draining? || live == {s.tracker.generation})
    && (s.phase.Polling? || s.phase.Starting? || s.phase.Flushing? || s.phase.Closing? ==> live == given)
    && (s.phase.Starting? ==> live == {})
    && (s.phase.Sending? || s.phase.Racing? ==> given == {})
    && (s.phase.Sending? && s.phase.turnDone ==> live == {})
    && (s.phase.Racing? && s.phase.winner == Some(TurnDone) ==> live == {})
    && (s.phase.Draining? ==>
          if s.phase.outcome.None? then !s.tracker.settled && given == {} && live == {s.tracker.generation}
          else live == given)
  }

  lemma AccountedStep(s: System, o: Observed, e: Event, live: set<nat>, given: set<nat>)
    requires Inv(s, o) && Enabled(s, e)
    requires RunOf(e).Some? ==> RunOf(e).value in live
    requires Accounted(s, live, given) && (s.phase.Polling? ==> live == {})
    ensures var s' := Apply(s, e);
            Accounted(s', LiveAfter(live, e, s'.tracker.generation), GivenUpAfter(given, e, s.tracker))
  {
    hide HubInv, FlushInv, Serial, Batches, LastError, HeardAssistant, OfGeneration, QueueConversationFlush, Judge;
    if e.RaceResumed? && s.phase.winner != Some(TurnDone) {
      assert s.phase.winner.value == Timeout by { match s.phase.winner.value case TurnDone => case Timeout => }
    }
  }

  lemma {:induction false} AllAccounted(trace: seq<Event>)
    requires Possible(trace) && Behaves(trace)
    requires trace == [] || QuietAtPolls(trace[..|trace| - 1])
    ensures Accounted(After(trace).value, Live(trace), GivenUp(trace))
  {
    if trace == [] {
      Untouched();
    } else {
      var p, e := trace[..|trace| - 1], trace[|trace| - 1];
      OneLess(trace);
      assert QuietAtPolls(p) && (p == [] || QuietAtPolls(p[..|p| - 1]));
      hide After, Behaves, Live, GivenUp, QuietAtPolls, Apply, Enabled, Inv, Observe, Accounted;
      AllAccounted(p);
      Reachable(p);
      AccountedStep(After(p).value, Observe(p), e, Live(p), GivenUp(p));
    }
  }

  /** Runs are left over at some poll exactly when one was given up and had not ended by then. */
  lemma {:induction false} LeftOverExactlyWhenGivenUp(trace: seq<Event>)
    requires Possible(trace) && Behaves(trace)
    ensures QuietAtPolls(trace) <==> NothingLeftBehind(trace)
  {
    if trace != [] {
      LeftOverExactlyWhenGivenUp(trace[..|trace| - 1]);
    }
    if trace == [] || QuietAtPolls(trace[..|trace| - 1]) {
      AllAccounted(trace);
    }
  }

  /** If nothing was left behind so far, every event that reaches an open turn comes from that turn's
      own run: it is neither captured for another task nor able to end another turn. */
  lemma NothingMisattributed(trace: seq<Event>, e: Event)
    requires Possible(trace + [e]) && Behaves(trace + [e])
    requires Possible(trace) && NothingLeftBehind(trace)
    requires RunOf(e).Some?
    ensures var t := After(trace).value.tracker;
            t.activeGeneration != 0 ==> RunOf(e).value == t.activeGeneration
  {
    assert (trace + [e])[..|trace|] == trace;
    LeftOverExactlyWhenGivenUp(trace);
    AllAccounted(trace);
    Reachable(trace);
  }

  // ---------------------------------------------------------------------------
  // The windows that are left
  // ---------------------------------------------------------------------------

  /** The next task's turn takes in a message of run `run`, which is not its own. */
  ghost predicate NextTurnTakes(trace: seq<Event>, task: Task, run: nat, m: Message) {
    var longer := trace + [TaskClaimed(task)] + [TurnBegun] + [MessageEnded(run, m)];
    && Possible(longer) && Behaves(longer)
    && (var t := After(longer).value.tracker;
        t.capturedMessages == [Captured(t.generation, m)] && run != t.generation)
  }

  lemma ClaimAndBegin(trace: seq<Event>, task: Task)
    requires Possible(trace) && Behaves(trace) && After(trace).value.phase.Polling?
    ensures var claimed := trace + [TaskClaimed(task)];
            var begun := claimed + [TurnBegun];
            && Possible(claimed) && Possible(begun) && Behaves(begun)
            && (var g := After(trace).value.tracker.generation + 1;
                && Live(begun) == Live(trace) + {g}
                && After(begun).value.tracker.generation == After(begun).value.tracker.activeGeneration == g
                && After(begun).value.tracker.capturedMessages == [])
  {
    hide After, Behaves, Live, GivenUp;
    var s := After(trace).value;
    OneMore(trace, s, TaskClaimed(task));
    OneMore(trace + [TaskClaimed(task)], s.(phase := Starting(task)), TurnBegun);
  }

  lemma {:induction false} LiveRunsHaveBegun(trace: seq<Event>)
    requires Possible(trace)
    ensures forall run :: run in Live(trace) ==> run <= After(trace).value.tracker.generation
  {
    if trace != [] {
      var n := |trace| - 1;
      LiveRunsHaveBegun(trace[..n]);
      Reachable(trace[..n]);
      GenerationStep(After(trace[..n]).value, trace[n]);
    }
  }

  lemma TakenExactlyWhenLive(trace: seq<Event>, task: Task, run: nat, m: Message)
    requires Possible(trace) && Behaves(trace) && After(trace).value.phase.Polling?
    ensures NextTurnTakes(trace, task, run, m) <==> run in Live(trace)
  {
    hide After, Behaves, Live, GivenUp;
    ClaimAndBegin(trace, task);
    LiveRunsHaveBegun(trace);
    var begun := trace + [TaskClaimed(task)] + [TurnBegun];
    OneMore(begun, After(begun).value, MessageEnded(run, m));
  }

  /** At the first poll at which a run may be left over: the next task can be credited with its
      message exactly when the runner gave that run up and the run has not ended since. */
  lemma LeaksExactlyWhenGivenUp(trace: seq<Event>, task: Task, run: nat, m: Message)
    requires Possible(trace) && Behaves(trace) && After(trace).value.phase.Polling?
    requires trace == [] || NothingLeftBehind(trace[..|trace| - 1])
    ensures NextTurnTakes(trace, task, run, m) <==> run in GivenUp(trace)
  {
    if trace != [] { LeftOverExactlyWhenGivenUp(trace[..|trace| - 1]); }
    AllAccounted(trace);
    TakenExactlyWhenLive(trace, task, run, m);
  }

  /** At no poll so far could the next task have been credited with another run's message. */
  ghost predicate NeverLeaked(trace: seq<Event>)
    requires Possible(trace)
  {
    && (trace == [] || NeverLeaked(trace[..|trace| - 1]))
    && (After(trace).value.phase.Polling? ==>
          forall task, run, m :: !NextTurnTakes(trace, task, run, m))
  }

  /** Over a whole history: no task could be credited with another run's message exactly when no run
      given up was still going on at a poll. */
  lemma {:induction false} NeverLeaksExactlyWhen(trace: seq<Event>)
    requires Possible(trace) && Behaves(trace)
    ensures NeverLeaked(trace) <==> NothingLeftBehind(trace)
  {
    if trace != [] {
      NeverLeaksExactlyWhen(trace[..|trace| - 1]);
    }
    if After(trace).value.phase.Polling? && (trace == [] || NothingLeftBehind(trace[..|trace| - 1])) {
      var any := Message(User, false, None, "");
      forall task, run, m ensures NextTurnTakes(trace, task, run, m) <==> run in GivenUp(trace) {
        LeaksExactlyWhenGivenUp(trace, task, run, m);
      }
      assert forall run :: run in GivenUp(trace) ==> NextTurnTakes(trace, Task(0), run, any);
    }
  }

  /** Extends a history by one event, keeping track of where it leads. */
  lemma Extend(trace: seq<Event>, s: System, live: set<nat>, e: Event, s': System, live': set<nat>)
    requires After(trace) == Some(s) && Behaves(trace) && Live(trace) == live
    requires Enabled(s, e) && Apply(s, e) == s'
    requires RunOf(e).Some? ==> RunOf(e).value in live
    requires live' == LiveAfter(live, e, s'.tracker.generation)
    ensures After(trace + [e]) == Some(s') && Behaves(trace + [e]) && Live(trace + [e]) == live'
  {
    hide Apply, Enabled, LiveAfter, RunOf, After, Behaves, Live;
    OneMore(trace, s, e);
  }

  lemma Untouched()
    ensures After([]) == Some(Initial()) && Behaves([]) && Live([]) == {}
  {
  }

  /** The tracker as a turn begins it. */
  function OpenTracker(gen: nat): Tracker {
    Tracker(gen, gen, Some(gen), None, false, [], false, false, true)
  }

  lemma FirstSend(task: Task) returns (trace: seq<Event>)
    ensures After(trace) == Some(System(OpenTracker(1), Sending(task, 1, false), Some(NewPostContext(1, task.id)), []))
    ensures Behaves(trace) && Live(trace) == {1}
    ensures forall e :: e in trace ==> RunOf(e).None? && !e.BackstopFired? && !e.SendThrew?
  {
    hide After, Behaves, Live;
    Untouched();
    var s1 := Initial().(phase := Starting(task));
    var s2 := System(OpenTracker(1), Sending(task, 1, false), Some(NewPostContext(1, task.id)), []);
    Extend([], Initial(), {}, TaskClaimed(task), s1, {});
    trace := [] + [TaskClaimed(task)];
    Extend(trace, s1, {}, TurnBegun, s2, {1});
    trace := trace + [TurnBegun];
  }

  lemma TimerFires(task: Task) returns (trace: seq<Event>)
    ensures After(trace) == Some(System(OpenTracker(1), Racing(task, 1, Some(Timeout)),
                                        Some(NewPostContext(1, task.id)), []))
    ensures Behaves(trace) && Live(trace) == {1}
    ensures forall e :: e in trace ==> RunOf(e).None? && !e.BackstopFired? && !e.SendThrew?
  {
    hide After, Behaves, Live;
    trace := FirstSend(task);
    var s2 := System(OpenTracker(1), Sending(task, 1, false), Some(NewPostContext(1, task.id)), []);
    var s3 := s2.(phase := Racing(task, 1, None));
    Extend(trace, s2, {1}, SendReturned, s3, {1});
    trace := trace + [SendReturned];
    Extend(trace, s3, {1}, TurnTimerFired, s2.(phase := Racing(task, 1, Some(Timeout))), {1});
    trace := trace + [TurnTimerFired];
  }

  lemma TimesOut(task: Task) returns (trace: seq<Event>)
    ensures After(trace) == Some(System(OpenTracker(1).(activeGeneration := 0, resolve := None, settleResolve := true),
                                        Draining(task, 1, None), Some(NewPostContext(1, task.id)), []))
    ensures Behaves(trace) && Live(trace) == {1}
    ensures forall e :: e in trace ==> RunOf(e).None?
  {
    hide After, Behaves, Live;
    trace := TimerFires(task);
    var s4 := System(OpenTracker(1), Racing(task, 1, Some(Timeout)), Some(NewPostContext(1, task.id)), []);
    var s5 := s4.(tracker := OpenTracker(1).(activeGeneration := 0, resolve := None, settleResolve := true),
                  phase := Draining(task, 1, None));
    Extend(trace, s4, {1}, RaceResumed(false, false), s5, {1});
    trace := trace + [RaceResumed(false, false)];
  }

  /** The runner, polling again after the first turn's backstop expired. */
  function GaveUp(task: Task): System {
    System(OpenTracker(1).(activeGeneration := 0, resolve := None, posting := false), Polling, None,
           [Verdicted(task.id, Nack(TimedOut))])
  }

  lemma BackstopExpires(task: Task) returns (trace: seq<Event>)
    ensures After(trace) == Some(GaveUp(task)) && Behaves(trace) && Live(trace) == {1}
    ensures forall e :: e in trace ==> RunOf(e).None?
  {
    hide After, Behaves, Live;
    trace := TimesOut(task);
    var dropped := OpenTracker(1).(activeGeneration := 0, resolve := None);
    var ctx := NewPostContext(1, task.id);
    var s5 := System(dropped.(settleResolve := true), Draining(task, 1, None), Some(ctx), []);
    var s6 := System(dropped, Draining(task, 1, Some(false)), Some(ctx), []);
    var s7 := System(dropped.(posting := false), Flushing(task, 0, Nack(TimedOut)), Some(ctx), []);
    var s8 := GaveUp(task).(phase := Closing);
    Extend(trace, s5, {1}, BackstopFired, s6, {1});
    trace := trace + [BackstopFired];
    Extend(trace, s6, {1}, DrainResumed, s7, {1});
    trace := trace + [DrainResumed];
    Extend(trace, s7, {1}, ChainResumed, s8, {1});
    trace := trace + [ChainResumed];
    Extend(trace, s8, {1}, VerdictAnswered, GaveUp(task), {1});
    trace := trace + [VerdictAnswered];
  }

  /** The first gap: the backstop expires while the aborted run goes on, and its next message is
      captured for the next task. */
  lemma BackstopLeaks(task: Task, next: Task, m: Message) returns (trace: seq<Event>)
    ensures Possible(trace) && Behaves(trace) && After(trace).value.phase.Polling?
    ensures NextTurnTakes(trace, next, 1, m)
  {
    trace := BackstopExpires(task);
    TakenExactlyWhenLive(trace, next, 1, m);
  }

  /** Events of the runner's own that say nothing about runs. */
  predicate Quiet(e: Event) {
    RunOf(e).None? && !e.TurnBegun? && !e.SendThrew? && !e.AbandonThrew?
    && (e.RaceResumed? ==> !e.idle && !e.idleAgain)
  }

  lemma {:induction false} QuietSuffix(trace: seq<Event>, more: seq<Event>)
    requires Possible(trace + more) && Possible(trace) && Behaves(trace)
    requires forall e :: e in more ==> Quiet(e)
    ensures Behaves(trace + more) && Live(trace + more) == Live(trace)
  {
    if more == [] {
      assert trace + more == trace;
    } else {
      var n := |more| - 1;
      assert (trace + more)[..|trace + more| - 1] == trace + more[..n];
      assert (trace + more)[|trace + more| - 1] == more[n] && Quiet(more[n]);
      QuietSuffix(trace, more[..n]);
    }
  }

  /** The run has said nothing. */
  ghost predicate Silent(trace: seq<Event>, run: nat) {
    forall e :: e in trace && e.MessageEnded? ==> e.run != run
  }

  /** The second turn, after the first was given up. */
  function NextTurn(task: Task, next: Task, t: Tracker, winner: Option<Winner>): System {
    System(t, Racing(next, 2, winner), Some(NewPostContext(2, next.id)), GaveUp(task).hub)
  }

  lemma NextSend(task: Task, next: Task) returns (trace: seq<Event>)
    ensures After(trace) == Some(NextTurn(task, next, OpenTracker(2), None))
    ensures Behaves(trace) && Live(trace) == {1, 2} && Silent(trace, 2)
  {
    hide After, Behaves, Live;
    trace := BackstopExpires(task);
    assert Silent(trace, 2);
    var s1 := GaveUp(task).(phase := Starting(next));
    var s3 := NextTurn(task, next, OpenTracker(2), None);
    var s2 := s3.(phase := Sending(next, 2, false));
    Extend(trace, GaveUp(task), {1}, TaskClaimed(next), s1, {1});
    trace := trace + [TaskClaimed(next)];
    Extend(trace, s1, {1}, TurnBegun, s2, {1, 2});
    trace := trace + [TurnBegun];
    Extend(trace, s2, {1, 2}, SendReturned, s3, {1, 2});
    trace := trace + [SendReturned];
  }

  /** That turn hears the abandoned run's message and is closed by its settling. */
  lemma SettlesLate(task: Task, next: Task, m: Message) returns (trace: seq<Event>)
    requires m.role == Assistant && !m.stopError
    ensures var heard := OpenTracker(2).(assistantMessageCompleted := true, capturedMessages := [Captured(2, m)],
                                         activeGeneration := 0, resolve := None, settled := true);
            After(trace) == Some(NextTurn(task, next, heard, Some(TurnDone)))
    ensures Behaves(trace) && Live(trace) == {2} && Silent(trace, 2)
  {
    hide After, Behaves, Live, GaveUp;
    trace := NextSend(task, next);
    var heard := OpenTracker(2).(assistantMessageCompleted := true, capturedMessages := [Captured(2, m)]);
    var closed := heard.(activeGeneration := 0, resolve := None, settled := true);
    var s3, s4 := NextTurn(task, next, OpenTracker(2), None), NextTurn(task, next, heard, None);
    Extend(trace, s3, {1, 2}, MessageEnded(1, m), s4, {1, 2});
    trace := trace + [MessageEnded(1, m)];
    Extend(trace, s4, {1, 2}, AgentSettled(1), NextTurn(task, next, closed, Some(TurnDone)), {2});
    trace := trace + [AgentSettled(1)];
  }

  /** The worse half of it: the abandoned run settles late, which closes the next task's turn. That
      task is acked with the abandoned run's message for its transcript, and the loop polls again
      while the task's own run goes on without having said a word. */
  lemma LateSettleAcks(task: Task, next: Task, m: Message) returns (trace: seq<Event>)
    requires m.role == Assistant && !m.stopError
    ensures Possible(trace) && Behaves(trace) && After(trace).value.phase.Polling?
    ensures After(trace).value.hub ==
            [Verdicted(task.id, Nack(TimedOut))]
            + [PostBegan(next.id, [m]), PostEnded(next.id), Verdicted(next.id, Ack)]
    ensures Live(trace) == {2} && Silent(trace, 2)
  {
    hide After, Behaves, Live;
    var before := SettlesLate(task, next, m);
    PostAndAnswer(before, After(before).value, next, m, 2);
    var judged := before + ToVerdict();
    QuietSuffix(before, ToVerdict());
    var s := After(judged).value;
    Extend(judged, s, {2}, VerdictAnswered, s.(phase := Polling), {2});
    trace := judged + [VerdictAnswered];
  }

  /** The second gap, which the source does not mention: a send that throws while pi goes on is
      neither aborted nor drained. */
  lemma ThrowLeaks(task: Task, next: Task, m: Message, error: string) returns (trace: seq<Event>)
    ensures Possible(trace) && Behaves(trace) && After(trace).value.phase.Polling?
    ensures NextTurnTakes(trace, next, 1, m)
  {
    hide After, Behaves, Live;
    trace := FirstSend(task);
    var left := OpenTracker(1).(posting := false);
    var ctx := NewPostContext(1, task.id);
    var verdict := Nack(Threw(error));
    var s2 := System(OpenTracker(1), Sending(task, 1, false), Some(ctx), []);
    var s3 := System(left, Flushing(task, 0, verdict), Some(ctx), []);
    var s4 := System(left, Closing, None, [Verdicted(task.id, verdict)]);
    Extend(trace, s2, {1}, SendThrew(error, true), s3, {1});
    trace := trace + [SendThrew(error, true)];
    Extend(trace, s3, {1}, ChainResumed, s4, {1});
    trace := trace + [ChainResumed];
    Extend(trace, s4, {1}, VerdictAnswered, s4.(phase := Polling), {1});
    trace := trace + [VerdictAnswered];
    TakenExactlyWhenLive(trace, next, 1, m);
  }

  /** The third gap, in the same catch: the timer fires, and aborting the run throws while it goes
      on, so nothing waits for it to settle. */
  lemma AbandonThrowLeaks(task: Task, next: Task, m: Message, error: string) returns (trace: seq<Event>)
    ensures Possible(trace) && Behaves(trace) && After(trace).value.phase.Polling?
    ensures forall e :: e in trace ==> !e.BackstopFired? && !e.SendThrew?
    ensures NextTurnTakes(trace, next, 1, m)
  {
    hide After, Behaves, Live;
    trace := TimerFires(task);
    var left := OpenTracker(1).(activeGeneration := 0, resolve := None, posting := false);
    var ctx := NewPostContext(1, task.id);
    var verdict := Nack(Threw(error));
    var s4 := System(OpenTracker(1), Racing(task, 1, Some(Timeout)), Some(ctx), []);
    var s5 := System(left, Flushing(task, 0, verdict), Some(ctx), []);
    var s6 := System(left, Closing, None, [Verdicted(task.id, verdict)]);
    Extend(trace, s4, {1}, AbandonThrew(error, true), s5, {1});
    trace := trace + [AbandonThrew(error, true)];
    Extend(trace, s5, {1}, ChainResumed, s6, {1});
    trace := trace + [ChainResumed];
    Extend(trace, s6, {1}, VerdictAnswered, s6.(phase := Polling), {1});
    trace := trace + [VerdictAnswered];
    TakenExactlyWhenLive(trace, next, 1, m);
  }

  // ---------------------------------------------------------------------------
  // Progress
  // ---------------------------------------------------------------------------

  /** Timers, and continuations of what the runner or its bounded posts have finished; the send's
      return and the hub's answer to a verdict are bounded by nothing. */
  predicate RunnersOwn(e: Event) {
    RunOf(e).None? && !e.TaskClaimed? && !e.SendReturned? && !e.SendThrew? && !e.AbandonThrew?
    && !e.VerdictAnswered?
  }

  /** How many of the runner's own steps are left until the verdict is sent. */
  function Remaining(s: System): nat {
    var posts := if s.ctx.Some? then LinkWork(s.ctx.value.links) else 0;
    match s.phase
    case Polling => 0
    case Closing => 0
    case Flushing(_, _, _) => 2 + posts
    case Draining(_, _, outcome) => posts + (if outcome.Some? then 5 else 6)
    case Racing(_, _, winner) => posts + (if winner.Some? then 7 else 8)
    case Sending(_, _, _) => posts + 9
    case Starting(_) => posts + 10
  }

  function LinkWork(links: seq<Link>): nat {
    if links == [] then 0
    else
      LinkWork(links[..|links| - 1])
      + (match links[|links| - 1].state case Waiting => 2 case Posting => 1 case Done => 0)
  }

  lemma {:induction false} LinkWorkDrops(links: seq<Link>, i: nat, l: Link)
    requires i < |links| && links[i].state != Done
    requires l.state == if links[i].state == Waiting then Posting else Done
    ensures LinkWork(links[i := l]) < LinkWork(links)
  {
    var n := |links| - 1;
    if i < n {
      assert links[i := l][..n] == links[..n][i := l];
      LinkWorkDrops(links[..n], i, l);
    } else {
      assert links[i := l][..n] == links[..n];
    }
  }

  lemma AfterTheRace(s: System, o: Observed, idle: bool)
    requires Inv(s, o) && Enabled(s, RaceResumed(idle, idle))
    ensures Remaining(Apply(s, RaceResumed(idle, idle))) < Remaining(s)
  {
    hide HubInv, Serial, Batches, LinkWork, LastError, HeardAssistant, OfGeneration;
    FlushWork(s.tracker, s.ctx.value);
  }

  lemma FlushWork(t: Tracker, ctx: PostContext)
    ensures LinkWork(QueueConversationFlush(t, ctx).links) <= LinkWork(ctx.links) + 2
  {
    var q := QueueConversationFlush(t, ctx);
    if q != ctx { assert q.links[..|ctx.links|] == ctx.links; }
  }

  /** Between sending and the verdict there is always a step the runner can take on its own, and it
      brings the verdict closer. */
  lemma OwnStep(s: System, o: Observed) returns (e: Event)
    requires Inv(s, o) && (s.phase.Racing? || s.phase.Draining? || s.phase.Flushing?)
    ensures RunnersOwn(e) && Enabled(s, e)
    ensures Remaining(Apply(s, e)) < Remaining(s)
    ensures var p := Apply(s, e).phase; p.Racing? || p.Draining? || p.Flushing? || p.Closing?
  {
    hide HubInv, Batches, LinkWork, LastError, HeardAssistant, OfGeneration;
    match s.phase
    case Draining(_, _, outcome) =>
      e := if outcome.None? then BackstopFired else DrainResumed;
      FlushWork(s.tracker, s.ctx.value);
    case Racing(_, _, winner) =>
      e := if winner.None? then TurnTimerFired else RaceResumed(false, false);
      if winner.Some? { AfterTheRace(s, o, false); }
    case Flushing(_, _, _) =>
      var ctx := s.ctx.value;
      if PromiseDone(ctx.links, ctx.postChain) {
        e := ChainResumed;
      } else {
        var i := FirstUndone(ctx);
        e := if ctx.links[i].state == Waiting then LinkStarted(i) else LinkEnded(i);
        LinkWorkDrops(ctx.links, i,
          ctx.links[i].(state := if ctx.links[i].state == Waiting then Posting else Done));
      }
  }

  lemma FirstUndone(ctx: PostContext) returns (i: nat)
    requires Serial(ctx) && !PromiseDone(ctx.links, ctx.postChain)
    ensures i < |ctx.links| && ctx.links[i].state != Done && PromiseDone(ctx.links, ctx.links[i].after)
  {
    i := |ctx.links| - 1;
    while !PromiseDone(ctx.links, ctx.links[i].after)
      invariant i < |ctx.links| && ctx.links[i].state != Done
      decreases i
    {
      assert ctx.links[i].after == i;
      i := i - 1;
    }
  }

  /** Once the message is sent, the runner's own timers and continuations, without any help from pi,
      send the hub a verdict for every claimed task; then only the hub's answer is missing for the
      loop to poll again. */
  lemma VerdictIsSent(trace: seq<Event>) returns (own: seq<Event>)
    requires Possible(trace)
    requires var p := After(trace).value.phase; p.Racing? || p.Draining? || p.Flushing? || p.Closing?
    ensures forall e :: e in own ==> RunnersOwn(e)
    ensures Possible(trace + own) && After(trace + own).value.phase.Closing?
    ensures ReadHub(After(trace + own).value.hub).Reading?
    ensures AnsweredIds(ReadHub(After(trace + own).value.hub).finished) == Claims(trace + own) == Claims(trace)
    ensures After(trace + own + [VerdictAnswered]) == Some(After(trace + own).value.(phase := Polling))
    decreases Remaining(After(trace).value)
  {
    hide Apply, Enabled, Inv, Observe, ReadHub, Remaining, AnsweredIds;
    Reachable(trace);
    var s := After(trace).value;
    if s.phase.Closing? {
      own := [];
      assert trace + own == trace;
      AllAnswered(trace);
    } else {
      var e := OwnStep(s, Observe(trace));
      AfterSnoc(trace, e);
      assert (trace + [e])[..|trace|] == trace;
      var rest := VerdictIsSent(trace + [e]);
      own := [e] + rest;
      assert trace + own == trace + [e] + rest;
    }
  }

  /** Once the verdict is sent nothing is unanswered. */
  lemma AllAnswered(trace: seq<Event>)
    requires Possible(trace) && After(trace).value.phase.Closing?
    ensures ReadHub(After(trace).value.hub).Reading?
    ensures AnsweredIds(ReadHub(After(trace).value.hub).finished) == Claims(trace)
    ensures After(trace + [VerdictAnswered]) == Some(After(trace).value.(phase := Polling))
  {
    hide ReadHub, Observe, AnsweredIds, Claims;
    AfterSnoc(trace, VerdictAnswered);
    assert (trace + [VerdictAnswered])[..|trace|] == trace;
    EachClaimAnsweredOnce(trace + [VerdictAnswered]);
    SameClaims(trace);
  }

  lemma SameClaims(trace: seq<Event>)
    ensures Claims(trace + [VerdictAnswered]) == Claims(trace)
  {
    assert (trace + [VerdictAnswered])[..|trace|] == trace;
  }
}
