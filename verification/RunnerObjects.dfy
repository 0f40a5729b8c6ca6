/** The objects of the runner extension, updated in place: the tracker, the post context that the
    tracker and the running task share, and the poll loop with the locals of its current task.
    The loop carries the history of its events, and every method that handles one keeps the
    objects in the state that history leads to; so what is proved of histories holds of them. */
module RunnerObjects {
  import opened Wrappers
  import P = RunnerProtocol
  import S = RunnerSafety

  class TaskPostContext {
    const gen: nat
    const taskId: int
    var postedCount: nat
    var links: seq<P.Link>
    var postChain: nat

    constructor (gen: nat, taskId: int)
      ensures View() == P.NewPostContext(gen, taskId)
    {
      this.gen := gen;
      this.taskId := taskId;
      postedCount := 0;
      links := [];
      postChain := 0;
    }

    function View(): P.PostContext
      reads this
    {
      P.PostContext(gen, taskId, postedCount, links, postChain)
    }

    method QueueConversationFlush(tracker: TurnTracker)
      modifies this`postedCount, this`links, this`postChain
      ensures View() == P.QueueConversationFlush(old(tracker.View()), old(View()))
    {
      var pending := P.OfGeneration(tracker.capturedMessages, gen);
      if |pending| <= postedCount {
        return;
      }
      var batch := pending[postedCount..];
      postedCount := |pending|;
      links := links + [P.Link(postChain, batch, P.Waiting)];
      postChain := |links|;
    }

    /** A link's callback starts, or the post it returned ends. */
    method SetLink(i: nat, state: P.LinkState)
      requires i < |links|
      modifies this`links
      ensures View() == P.SetLink(old(View()), i, state)
    {
      links := links[i := links[i].(state := state)];
    }
  }

  class TurnTracker {
    var generation: nat
    var activeGeneration: nat
    var resolve: Option<nat>
    var errorMessage: Option<string>
    var assistantMessageCompleted: bool
    var capturedMessages: seq<P.Captured>
    var settled: bool
    var settleResolve: bool
    var postCtx: TaskPostContext?

    constructor ()
      ensures View() == P.NewTracker() && postCtx == null
    {
      generation, activeGeneration, resolve := 0, 0, None;
      errorMessage, assistantMessageCompleted, capturedMessages := None, false, [];
      settled, settleResolve, postCtx := true, false, null;
    }

    function View(): P.Tracker
      reads this
    {
      P.Tracker(generation, activeGeneration, resolve, errorMessage, assistantMessageCompleted,
                capturedMessages, settled, settleResolve, postCtx != null)
    }

    method BeginTurn()
      modifies this
      ensures View() == P.BeginTurn(old(View())) && postCtx == old(postCtx)
    {
      generation := generation + 1;
      activeGeneration := generation;
      errorMessage := None;
      assistantMessageCompleted := false;
      capturedMessages := [];
      settled := false;
      resolve := Some(generation);
    }

    method EndTurn() returns (fulfilled: Option<nat>)
      modifies this
      ensures (View(), fulfilled) == P.EndTurn(old(View())) && postCtx == old(postCtx)
    {
      if activeGeneration == 0 {
        return None;
      }
      fulfilled := resolve;
      resolve := None;
      activeGeneration := 0;
    }

    method RecordAssistantEnd(error: Option<string>)
      modifies this
      ensures View() == P.RecordAssistantEnd(old(View()), error) && postCtx == old(postCtx)
    {
      if activeGeneration == 0 {
        return;
      }
      assistantMessageCompleted := true;
      if error.Some? && error.value != "" {
        errorMessage := error;
      }
    }

    method MarkSettled() returns (woken: bool)
      modifies this
      ensures (View(), woken) == P.MarkSettled(old(View())) && postCtx == old(postCtx)
    {
      settled := true;
      woken := settleResolve;
      settleResolve := false;
    }

    method CaptureMessage(m: P.Message)
      modifies this
      ensures View() == P.CaptureMessage(old(View()), m) && postCtx == old(postCtx)
    {
      if activeGeneration == 0 {
        return;
      }
      capturedMessages := capturedMessages + [P.Captured(activeGeneration, m)];
    }

    method FlushTurnMessages()
      modifies postCtx
      ensures old(postCtx != null && activeGeneration != 0 && activeGeneration == postCtx.gen) ==>
                postCtx.View() == P.QueueConversationFlush(old(View()), old(postCtx.View()))
      ensures old(postCtx != null && (activeGeneration == 0 || activeGeneration != postCtx.gen)) ==>
                postCtx.View() == old(postCtx.View())
    {
      if postCtx == null {
        return;
      }
      if activeGeneration == 0 || activeGeneration != postCtx.gen {
        return;
      }
      postCtx.QueueConversationFlush(this);
    }
  }

  /** The poll loop. `ctx` is the local of `processTask`: it outlives the tracker's reference. */
  class PollLoop {
    const tracker: TurnTracker
    var phase: P.Phase
    var ctx: TaskPostContext?
    var hub: seq<P.HubCall>
    ghost var history: seq<P.Event>

    constructor ()
      ensures Valid() && fresh(tracker) && history == []
    {
      tracker := new TurnTracker();
      phase := P.Polling;
      ctx := null;
      hub := [];
      history := [];
    }

    /** The tracker's reference, when there is one, is to the running task's own context, and it is
        gone once the final flush is queued. */
    ghost predicate Shares()
      reads this, tracker
    {
      && (tracker.postCtx != null ==> tracker.postCtx == ctx)
      && (phase.Flushing? ==> tracker.postCtx == null)
    }

    function View(): P.System
      reads this, tracker, ctx
    {
      P.System(tracker.View(), phase, if ctx == null then None else Some(ctx.View()), hub)
    }

    /** The objects are in the state to which the history leads. */
    ghost predicate Valid()
      reads this, tracker, ctx
    {
      Shares() && P.After(history) == Some(View())
    }

    /** Notes an event once its step is taken. */
    ghost method Happened(e: P.Event)
      requires Shares() && P.Possible(history) && P.Enabled(P.After(history).value, e)
      requires View() == P.Apply(P.After(history).value, e)
      modifies this`history
      ensures Valid() && history == old(history) + [e]
    {
      hide P.Apply, P.Enabled;
      P.AfterSnoc(history, e);
      history := history + [e];
    }

    method OnMessageEnd(run: nat, m: P.Message)
      requires Valid()
      modifies this`history, tracker
      ensures Valid() && history == old(history) + [P.MessageEnded(run, m)]
    {
      tracker.CaptureMessage(m);
      if m.role != P.Assistant {
        Happened(P.MessageEnded(run, m));
        return;
      }
      tracker.RecordAssistantEnd(P.ErrorOf(m));
      Happened(P.MessageEnded(run, m));
    }

    method OnTurnEnd(run: nat)
      requires Valid()
      modifies this`history, tracker.postCtx
      ensures Valid() && history == old(history) + [P.TurnEnded(run)]
    {
      tracker.FlushTurnMessages();
      Happened(P.TurnEnded(run));
    }

    method OnAgentSettled(run: nat)
      requires Valid()
      modifies this`history, tracker, this`phase
      ensures Valid() && history == old(history) + [P.AgentSettled(run)]
    {
      var fulfilled := tracker.EndTurn();
      phase := P.WakeTurn(phase, fulfilled);
      var woken := tracker.MarkSettled();
      phase := P.WakeDrain(phase, woken);
      Happened(P.AgentSettled(run));
    }

    method ClaimTask(task: P.Task)
      requires Valid() && P.Enabled(View(), P.TaskClaimed(task))
      modifies this`history, this`phase
      ensures Valid() && history == old(history) + [P.TaskClaimed(task)]
    {
      phase := P.Starting(task);
      Happened(P.TaskClaimed(task));
    }

    /** From the first task log to the call of `sendUserMessage`. */
    method StartTurn()
      requires Valid() && P.Enabled(View(), P.TurnBegun)
      modifies this, tracker
      ensures Valid() && history == old(history) + [P.TurnBegun]
      ensures fresh(ctx) && tracker.postCtx == ctx
    {
      tracker.BeginTurn();
      var thisGeneration := tracker.activeGeneration;
      ctx := new TaskPostContext(thisGeneration, phase.task.id);
      tracker.postCtx := ctx;
      phase := P.Sending(phase.task, thisGeneration, false);
      Happened(P.TurnBegun);
    }

    method OnSendReturned()
      requires Valid() && P.Enabled(View(), P.SendReturned)
      modifies this`history, this`phase
      ensures Valid() && history == old(history) + [P.SendReturned]
    {
      phase := P.Racing(phase.task, phase.gen, if phase.turnDone then Some(P.TurnDone) else None);
      Happened(P.SendReturned);
    }

    /** Detach the context from the tracker, queue the rest through the local, await the chain. */
    method FinalFlush(task: P.Task, verdict: P.Verdict)
      requires Shares()
      modifies this`phase, tracker`postCtx, ctx
      ensures Shares() && View() == P.FinalFlush(old(View()), task, verdict)
    {
      var postCtx := tracker.postCtx;
      tracker.postCtx := null;
      if postCtx != null {
        postCtx.QueueConversationFlush(tracker);
        phase := P.Flushing(task, postCtx.postChain, verdict);
      } else {
        phase := P.Flushing(task, 0, verdict);
      }
    }

    method OnSendThrew(error: string, running: bool)
      requires Valid() && P.Enabled(View(), P.SendThrew(error, running))
      modifies this`history, this`phase, tracker`postCtx, ctx
      ensures Valid() && history == old(history) + [P.SendThrew(error, running)]
    {
      FinalFlush(phase.task, P.Nack(P.Threw(error)));
      Happened(P.SendThrew(error, running));
    }

    method OnTurnTimer()
      requires Valid() && P.Enabled(View(), P.TurnTimerFired)
      modifies this`history, this`phase
      ensures Valid() && history == old(history) + [P.TurnTimerFired]
    {
      phase := phase.(winner := Some(P.Timeout));
      Happened(P.TurnTimerFired);
    }

    /** `waitForSettle` up to its `await`: with nothing in between, its two checks come to one. */
    method WaitForSettle(idle: bool, idleAgain: bool) returns (outcome: Option<bool>)
      modifies tracker`settleResolve
      ensures outcome == (if tracker.settled || idle || idleAgain then Some(true) else None)
      ensures tracker.settleResolve == (outcome.None? || old(tracker.settleResolve))
    {
      if tracker.settled || idle {
        return Some(true);
      }
      if tracker.settled || idleAgain {
        return Some(true);
      }
      tracker.settleResolve := true;
      outcome := None;
    }

    /** The two checks on a turn that came back, and the branch that is never taken. The verdict is
        the one that what was heard deserves. */
    method Judge(thisGeneration: nat) returns (verdict: P.Verdict)
      requires Valid() && phase.Racing? && phase.winner == Some(P.TurnDone) && thisGeneration == phase.gen
      ensures S.Observe(history).current.Some? && verdict == S.Deserved(S.Observe(history).current.value)
      ensures verdict == P.Judge(tracker.View(), thisGeneration)
    {
      TurnJudged();
      var succeeded := true;
      verdict := P.Ack;
      if tracker.activeGeneration == 0 || tracker.activeGeneration == thisGeneration {
        if tracker.errorMessage.Some? {
          succeeded := false;
          verdict := P.Nack(P.ModelError(tracker.errorMessage.value));
        }
        if succeeded && !tracker.assistantMessageCompleted {
          verdict := P.Nack(P.NoAssistant);
        }
      } else {
        verdict := P.Nack(P.GenerationMismatch);
      }
    }

    lemma TurnJudged()
      requires Valid() && phase.Racing? && phase.winner == Some(P.TurnDone)
      ensures S.Observe(history).current.Some?
      ensures P.Judge(tracker.View(), phase.gen) == S.Deserved(S.Observe(history).current.value)
    {
      hide P.After, S.Observe, S.HubInv, S.Batches, S.LastError, S.HeardAssistant, S.Serial;
      S.Reachable(history);
    }

    /** The timer won, but aborting the run or asking whether it is idle throws. */
    method OnAbandonThrew(error: string, running: bool)
      requires Valid() && P.Enabled(View(), P.AbandonThrew(error, running))
      modifies this`history, this`phase, tracker, ctx
      ensures Valid() && history == old(history) + [P.AbandonThrew(error, running)]
    {
      hide P.FinalFlush;
      tracker.resolve := None;
      tracker.activeGeneration := 0;
      FinalFlush(phase.task, P.Nack(P.Threw(error)));
      Happened(P.AbandonThrew(error, running));
    }

    /** The timer won: close the turn and see whether the run has to be waited for. */
    method Abandon(idle: bool, idleAgain: bool)
      requires Valid() && phase.Racing? && phase.winner == Some(P.Timeout)
      modifies this`phase, tracker
      ensures Shares() && View() == P.ResumeRace(old(View()), idle, idleAgain)
    {
      tracker.resolve := None;
      tracker.activeGeneration := 0;
      var outcome := WaitForSettle(idle, idleAgain);
      phase := P.Draining(phase.task, phase.gen, outcome);
    }

    method OnRaceResumed(idle: bool, idleAgain: bool)
      requires Valid() && P.Enabled(View(), P.RaceResumed(idle, idleAgain))
      modifies this`history, this`phase, tracker, ctx
      ensures Valid() && history == old(history) + [P.RaceResumed(idle, idleAgain)]
    {
      hide P.FinalFlush, P.Judge, S.Observe, S.Deserved;
      if phase.winner == Some(P.Timeout) {
        Abandon(idle, idleAgain);
      } else {
        assert phase.winner.value == P.TurnDone by { match phase.winner.value case TurnDone => case Timeout => }
        var verdict := Judge(phase.gen);
        FinalFlush(phase.task, verdict);
      }
      Happened(P.RaceResumed(idle, idleAgain));
    }

    method OnBackstop()
      requires Valid() && P.Enabled(View(), P.BackstopFired)
      modifies this`history, this`phase, tracker`settleResolve
      ensures Valid() && history == old(history) + [P.BackstopFired]
    {
      tracker.settleResolve := false;
      phase := phase.(outcome := Some(false));
      Happened(P.BackstopFired);
    }

    method OnDrainResumed()
      requires Valid() && P.Enabled(View(), P.DrainResumed)
      modifies this`history, this`phase, tracker`postCtx, ctx
      ensures Valid() && history == old(history) + [P.DrainResumed]
    {
      FinalFlush(phase.task, P.Nack(P.TimedOut));
      Happened(P.DrainResumed);
    }

    method OnLinkStarted(i: nat)
      requires Valid() && P.Enabled(View(), P.LinkStarted(i))
      modifies this`history, this`hub, ctx
      ensures Valid() && history == old(history) + [P.LinkStarted(i)]
    {
      hub := hub + [P.PostBegan(ctx.taskId, ctx.links[i].batch)];
      ctx.SetLink(i, P.Posting);
      Happened(P.LinkStarted(i));
    }

    method OnLinkEnded(i: nat)
      requires Valid() && P.Enabled(View(), P.LinkEnded(i))
      modifies this`history, this`hub, ctx
      ensures Valid() && history == old(history) + [P.LinkEnded(i)]
    {
      hub := hub + [P.PostEnded(ctx.taskId)];
      ctx.SetLink(i, P.Done);
      Happened(P.LinkEnded(i));
    }

    method OnChainResumed()
      requires Valid() && P.Enabled(View(), P.ChainResumed)
      modifies this
      ensures Valid() && history == old(history) + [P.ChainResumed]
      ensures var turn := old(S.Observe(history)).current;
              && turn.Some?
              && S.ReadHub(old(hub)).Reading? && S.ReadHub(hub).Reading?
              && S.ReadHub(hub).finished == S.ReadHub(old(hub)).finished
                   + [S.Delivery(turn.value.taskId, turn.value.heard, S.Deserved(turn.value))]
    {
      ghost var before := history;
      hub := hub + [P.Verdicted(phase.task.id, phase.verdict)];
      ctx := null;
      phase := P.Closing;
      Happened(P.ChainResumed);
      Delivered(before);
    }

    lemma Delivered(before: seq<P.Event>)
      requires P.Possible(before) && P.After(before).value.phase.Flushing?
      requires P.Possible(before + [P.ChainResumed])
      ensures var turn := S.Observe(before).current;
              var v, v' := S.ReadHub(P.After(before).value.hub), S.ReadHub(P.After(before + [P.ChainResumed]).value.hub);
              && turn.Some? && v.Reading? && v'.Reading?
              && v'.finished == v.finished
                   + [S.Delivery(turn.value.taskId, turn.value.heard, S.Deserved(turn.value))]
    {
      hide P.Apply, P.After, S.ReadHub, S.Deserved;
      var o := S.Observe(before);
      S.Reachable(before);
      S.HubReceivesWhatWasHeard(before);
      S.HubReceivesWhatWasHeard(before + [P.ChainResumed]);
      assert (before + [P.ChainResumed])[..|before|] == before;
      assert S.Deliveries(o.finished + [o.current.value]) == S.Deliveries(o.finished) + S.Deliveries([o.current.value]);
    }

    method OnVerdictAnswered()
      requires Valid() && P.Enabled(View(), P.VerdictAnswered)
      modifies this`history, this`phase
      ensures Valid() && history == old(history) + [P.VerdictAnswered]
    {
      phase := P.Polling;
      Happened(P.VerdictAnswered);
    }
  }

  // ---------------------------------------------------------------------------
  // What the histories promise, of the objects
  // ---------------------------------------------------------------------------

  /** Whatever methods were called on it in whatever order, the loop has sent the hub each finished
      turn once, in order of the claims, with all that was heard and the verdict it deserves. */
  lemma LoopDelivers(loop: PollLoop)
    requires loop.Valid()
    ensures var v := S.ReadHub(loop.hub);
            && v.Reading?
            && v.finished == S.Deliveries(S.Observe(loop.history).finished)
            && S.AnsweredIds(v.finished) <= S.Claims(loop.history)
            && (loop.phase.Polling? ==> S.AnsweredIds(v.finished) == S.Claims(loop.history) && v.transcript == [])
  {
    S.HubReceivesWhatWasHeard(loop.history);
    S.EachClaimAnsweredOnce(loop.history);
  }

  /** Which of them it acked. */
  lemma LoopAcks(loop: PollLoop, i: nat)
    requires loop.Valid() && i < |S.Observe(loop.history).finished|
    ensures var v := S.ReadHub(loop.hub);
            && v.Reading? && i < |v.finished|
            && (var turn := S.Observe(loop.history).finished[i];
                v.finished[i].verdict == P.Ack <==>
                  && turn.thrown.None? && !turn.timedOut
                  && S.HeardAssistant(turn.heard) && !S.HeardError(turn.heard))
  {
    S.AckedExactlyWhen(loop.history, i);
  }

  /** The shared tracker never holds anything of an older turn, and the context it refers to is the
      running task's. */
  lemma TrackerIsCurrent(loop: PollLoop)
    requires loop.Valid()
    ensures var t := loop.tracker;
            && t.activeGeneration in {0, t.generation}
            && (t.activeGeneration != 0 ==> t.resolve == Some(t.generation))
            && (forall c :: c in t.capturedMessages ==> c.gen == t.generation)
            && (t.postCtx != null ==> t.postCtx == loop.ctx && t.postCtx.gen == t.generation)
            && (t.settleResolve <==> loop.phase.Draining? && loop.phase.outcome.None?)
            && S.NoMismatchIn(loop.hub)
  {
    S.GenerationsAgree(loop.history);
    S.Reachable(loop.history);
  }
}
