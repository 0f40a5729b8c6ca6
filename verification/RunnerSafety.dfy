/** Safety of the turn protocol over every run.

    Two observers read the same history and know none of the protocol's machinery. `Observe`
    reads the events and notes, for each turn, what was said while the turn was open and how it
    ended. `ReadHub` reads the calls the hub received. The theorems say that the two agree. */
module RunnerSafety {
  import opened Wrappers
  import opened RunnerProtocol

  // ---------------------------------------------------------------------------
  // First observer: the history of events
  // ---------------------------------------------------------------------------

  /** `open` lasts from the start of the turn to the first of: the agent settled, sending threw,
      the poll loop gave the turn up. `heard` is what was said in that time. */
  datatype Turn = Turn(taskId: int, heard: seq<Message>, open: bool, timedOut: bool, thrown: Option<string>)

  datatype Observed = Observed(claimed: Option<Task>, current: Option<Turn>, finished: seq<Turn>)

  function See(o: Observed, e: Event): Observed {
    match e
    case TaskClaimed(task) => o.(claimed := Some(task))
    case TurnBegun =>
      if o.claimed.None? then o
      else o.(claimed := None, current := Some(Turn(o.claimed.value.id, [], true, false, None)))
    case ChainResumed =>
      if o.current.None? then o
      else o.(current := None, finished := o.finished + [o.current.value])
    case _ =>
      if o.current.None? then o else o.(current := Some(SeeTurn(o.current.value, e)))
  }

  function SeeTurn(t: Turn, e: Event): Turn {
    match e
    case MessageEnded(_, m) => if t.open then t.(heard := t.heard + [m]) else t
    case AgentSettled(_) => t.(open := false)
    case TurnTimerFired => if t.open then t.(timedOut := true) else t
    case RaceResumed(_, _) => t.(open := false)
    case SendThrew(error, _) => t.(open := false, thrown := Some(error))
    case AbandonThrew(error, _) => t.(open := false, thrown := Some(error))
    case _ => t
  }

  function Observe(trace: seq<Event>): Observed {
    if trace == [] then Observed(None, None, [])
    else See(Observe(trace[..|trace| - 1]), trace[|trace| - 1])
  }

  /** An assistant message that ended in an error the runner takes for one. */
  predicate CountsAsError(m: Message) {
    m.role == Assistant && m.stopError && m.errorMessage != Some("")
  }

  /** The last error heard. */
  function LastError(heard: seq<Message>): Option<string> {
    if heard == [] then None
    else
      var m := heard[|heard| - 1];
      if CountsAsError(m) then Some(m.errorMessage.GetOr(DEFAULT_ERROR))
      else LastError(heard[..|heard| - 1])
  }

  predicate HeardAssistant(heard: seq<Message>) {
    exists m :: m in heard && m.role == Assistant
  }

  predicate HeardError(heard: seq<Message>) {
    exists m :: m in heard && CountsAsError(m)
  }

  function Deserved(t: Turn): Verdict {
    if t.thrown.Some? then Nack(Threw(t.thrown.value))
    else if t.timedOut then Nack(TimedOut)
    else if LastError(t.heard).Some? then Nack(ModelError(LastError(t.heard).value))
    else if !HeardAssistant(t.heard) then Nack(NoAssistant)
    else Ack
  }

  /** A turn whose only assistant message fails without an error text. */
  lemma UnnamedErrorDeserves(taskId: int, body: string)
    ensures var m := Message(Assistant, true, None, body);
            Deserved(Turn(taskId, [m], false, false, None)) ==
            Nack(ModelError("LLM returned stopReason=error with no message"))
  {
  }

  // ---------------------------------------------------------------------------
  // Second observer: the calls the hub received
  // ---------------------------------------------------------------------------

  datatype Delivery = Delivery(taskId: int, transcript: seq<Message>, verdict: Verdict)

  /** What the hub has put together. It rejects a batch that overlaps another, a batch of one task
      in the middle of another's, and a verdict that overtakes a batch. */
  datatype HubView =
    | Rejected
    | Reading(finished: seq<Delivery>, owner: Option<int>, transcript: seq<Message>, posting: bool)

  function Receive(v: HubView, c: HubCall): HubView {
    if v.Rejected? then v
    else
      match c
      case PostBegan(taskId, batch) =>
        if v.posting || (v.owner.Some? && v.owner.value != taskId) then Rejected
        else v.(owner := Some(taskId), transcript := v.transcript + batch, posting := true)
      case PostEnded(taskId) =>
        if v.posting && v.owner == Some(taskId) then v.(posting := false) else Rejected
      case Verdicted(taskId, verdict) =>
        if v.posting || (v.owner.Some? && v.owner.value != taskId) then Rejected
        else Reading(v.finished + [Delivery(taskId, v.transcript, verdict)], None, [], false)
  }

  function ReadHub(calls: seq<HubCall>): HubView {
    if calls == [] then Reading([], None, [], false)
    else Receive(ReadHub(calls[..|calls| - 1]), calls[|calls| - 1])
  }

  lemma ReadHubSnoc(calls: seq<HubCall>, c: HubCall)
    ensures ReadHub(calls + [c]) == Receive(ReadHub(calls), c)
  {
    assert (calls + [c])[..|calls|] == calls;
  }

  // ---------------------------------------------------------------------------
  // Transcripts and chains
  // ---------------------------------------------------------------------------

  /** The messages of the first `n` links, in order. */
  function Batches(links: seq<Link>, n: nat): seq<Message>
    requires n <= |links|
  {
    if n == 0 then [] else Batches(links, n - 1) + links[n - 1].batch
  }

  lemma {:induction false} BatchesPrefix(a: seq<Link>, b: seq<Link>, n: nat)
    requires n <= |a| && n <= |b|
    requires forall i :: 0 <= i < n ==> a[i].batch == b[i].batch
    ensures Batches(a, n) == Batches(b, n)
  {
    if n > 0 { BatchesPrefix(a, b, n - 1); }
  }

  /** How many links have been started: the ones before the first that still waits. */
  function Started(links: seq<Link>): (n: nat)
    ensures n <= |links|
    ensures forall i :: 0 <= i < n ==> links[i].state != Waiting
    ensures n < |links| ==> links[n].state == Waiting
  {
    if links == [] then 0
    else if links[0].state == Waiting then 0
    else 1 + Started(links[1..])
  }

  predicate AnyPosting(links: seq<Link>) {
    exists i :: 0 <= i < |links| && links[i].state == Posting
  }

  /** Links await one another in the order in which they were queued. */
  ghost predicate Serial(ctx: PostContext) {
    && ctx.postChain == |ctx.links|
    && (forall i :: 0 <= i < |ctx.links| ==> ctx.links[i].after == i)
    && (forall i, j :: 0 <= i < j < |ctx.links| && ctx.links[j].state != Waiting ==> ctx.links[i].state == Done)
  }

  ghost predicate OneGeneration(captured: seq<Captured>, gen: nat) {
    forall i :: 0 <= i < |captured| ==> captured[i].gen == gen
  }

  lemma {:induction false} LastErrorHeard(heard: seq<Message>)
    ensures LastError(heard).Some? <==> HeardError(heard)
  {
    if heard != [] {
      var n := |heard| - 1;
      LastErrorHeard(heard[..n]);
      assert heard == heard[..n] + [heard[n]];
      forall m | m in heard[..n] && CountsAsError(m) ensures HeardError(heard) { assert m in heard; }
    }
  }

  // ---------------------------------------------------------------------------
  // The invariant
  // ---------------------------------------------------------------------------

  /** The tracker never holds anything of an older turn. */
  ghost predicate TrackerInv(t: Tracker) {
    && t.activeGeneration in {0, t.generation}
    && (t.activeGeneration != 0 ==> t.resolve == Some(t.generation))
    && OneGeneration(t.capturedMessages, t.generation)
  }

  predicate InTurn(p: Phase) {
    p.Sending? || p.Racing? || p.Draining?
  }

  /** Until the final flush the tracker's buffer is what the turn has heard, and the batches
      queued so far are its first `postedCount` messages. */
  ghost predicate TurnInv(s: System, turn: Turn)
    requires InTurn(s.phase)
  {
    var t := s.tracker;
    && s.phase.gen == t.generation > 0
    && t.posting
    && s.ctx.Some?
    && Serial(s.ctx.value)
    && s.ctx.value.gen == t.generation
    && s.ctx.value.taskId == s.phase.task.id == turn.taskId
    && OfGeneration(t.capturedMessages, t.generation) == turn.heard
    && s.ctx.value.postedCount <= |turn.heard|
    && Batches(s.ctx.value.links, |s.ctx.value.links|) == turn.heard[..s.ctx.value.postedCount]
    && (turn.open <==> t.activeGeneration != 0)
    && t.errorMessage == LastError(turn.heard)
    && (t.assistantMessageCompleted <==> HeardAssistant(turn.heard))
    && turn.thrown.None?
    && (s.phase.Sending? ==> !turn.timedOut && (s.phase.turnDone <==> !turn.open))
    && (s.phase.Racing? ==>
          && (s.phase.winner.None? ==> turn.open && !turn.timedOut)
          && (s.phase.winner == Some(TurnDone) ==> !turn.open && !turn.timedOut)
          && (s.phase.winner == Some(Timeout) ==> turn.timedOut))
    && (s.phase.Draining? ==>
          && !turn.open && turn.timedOut
          && (t.settleResolve <==> s.phase.outcome.None?))
  }

  ghost predicate FlushInv(s: System, turn: Turn)
    requires s.phase.Flushing?
  {
    && !s.tracker.posting && !turn.open
    && s.ctx.Some?
    && Serial(s.ctx.value)
    && s.ctx.value.taskId == s.phase.task.id == turn.taskId
    && s.phase.awaited == s.ctx.value.postChain
    && Batches(s.ctx.value.links, |s.ctx.value.links|) == turn.heard
    && s.phase.verdict == Deserved(turn)
  }

  ghost predicate PhaseInv(s: System, o: Observed) {
    && (s.phase.Starting? <==> o.claimed.Some?)
    && (s.phase.Starting? ==> o.claimed.value == s.phase.task)
    && ((InTurn(s.phase) || s.phase.Flushing?) <==> o.current.Some?)
    && (InTurn(s.phase) ==> TurnInv(s, o.current.value))
    && (s.phase.Flushing? ==> FlushInv(s, o.current.value))
    && (!InTurn(s.phase) && !s.phase.Flushing? ==> s.ctx.None? && !s.tracker.posting)
    && (!s.phase.Draining? ==> !s.tracker.settleResolve)
  }

  function Deliveries(turns: seq<Turn>): (ds: seq<Delivery>)
    ensures |ds| == |turns|
    ensures forall i :: 0 <= i < |turns| ==> ds[i] == Delivery(turns[i].taskId, turns[i].heard, Deserved(turns[i]))
  {
    seq(|turns|, i requires 0 <= i < |turns| => Delivery(turns[i].taskId, turns[i].heard, Deserved(turns[i])))
  }

  /** The hub has every finished turn, and of the current one the batches started so far. */
  ghost predicate HubInv(s: System, o: Observed) {
    var v := ReadHub(s.hub);
    && v.Reading?
    && v.finished == Deliveries(o.finished)
    && (s.ctx.None? ==> v.owner.None? && v.transcript == [] && !v.posting)
    && (s.ctx.Some? ==>
          var links := s.ctx.value.links;
          && (v.owner.Some? ==> v.owner.value == s.ctx.value.taskId)
          && (Started(links) > 0 ==> v.owner.Some?)
          && v.transcript == Batches(links, Started(links))
          && (v.posting <==> AnyPosting(links)))
  }

  ghost predicate Inv(s: System, o: Observed) {
    TrackerInv(s.tracker) && PhaseInv(s, o) && HubInv(s, o)
  }

  // ---------------------------------------------------------------------------
  // Preservation, one lemma per kind of step
  // ---------------------------------------------------------------------------

  lemma OfGenerationSnoc(captured: seq<Captured>, c: Captured, gen: nat)
    ensures OfGeneration(captured + [c], gen) ==
            OfGeneration(captured, gen) + (if c.gen == gen then [c.message] else [])
  {
    assert (captured + [c])[..|captured|] == captured;
  }

  lemma HeardGrows(heard: seq<Message>, m: Message)
    ensures LastError(heard + [m]) ==
            if CountsAsError(m) then Some(m.errorMessage.GetOr(DEFAULT_ERROR)) else LastError(heard)
    ensures HeardAssistant(heard + [m]) <==> HeardAssistant(heard) || m.role == Assistant
  {
    assert (heard + [m])[..|heard|] == heard;
    assert forall x :: x in heard + [m] <==> x in heard || x == m;
  }

  lemma HearInv(s: System, o: Observed, run: nat, m: Message)
    requires Inv(s, o)
    ensures Inv(Apply(s, MessageEnded(run, m)), See(o, MessageEnded(run, m)))
  {
    hide ReadHub, LastError, HeardAssistant, Batches, Started, OfGeneration;
    var t := s.tracker;
    if t.activeGeneration != 0 {
      OfGenerationSnoc(t.capturedMessages, Captured(t.activeGeneration, m), t.generation);
      if InTurn(s.phase) {
        var heard := o.current.value.heard;
        HeardGrows(heard, m);
        assert (heard + [m])[..s.ctx.value.postedCount] == heard[..s.ctx.value.postedCount];
      }
    }
  }

  lemma AppendBatch(links: seq<Link>, l: Link)
    ensures Batches(links + [l], |links| + 1) == Batches(links, |links|) + l.batch
  {
    BatchesPrefix(links, links + [l], |links|);
  }

  lemma AppendWaiting(links: seq<Link>, l: Link)
    requires l.state == Waiting
    ensures Started(links + [l]) == Started(links)
    ensures Batches(links + [l], Started(links)) == Batches(links, Started(links))
    ensures AnyPosting(links + [l]) <==> AnyPosting(links)
  {
    var longer := links + [l];
    StartedUnique(longer, Started(links));
    BatchesPrefix(links, longer, Started(links));
    forall i | 0 <= i < |links| ensures longer[i] == links[i] {}
  }

  /** Queueing keeps the chain serial and adds exactly what is not yet queued. */
  lemma QueueInv(t: Tracker, ctx: PostContext, heard: seq<Message>)
    requires Serial(ctx) && OfGeneration(t.capturedMessages, ctx.gen) == heard
    requires ctx.postedCount <= |heard|
    requires Batches(ctx.links, |ctx.links|) == heard[..ctx.postedCount]
    ensures var q := QueueConversationFlush(t, ctx);
            && Serial(q) && q.taskId == ctx.taskId && q.gen == ctx.gen && q.postedCount == |heard|
            && Batches(q.links, |q.links|) == heard
            && Started(q.links) == Started(ctx.links)
            && Batches(q.links, Started(q.links)) == Batches(ctx.links, Started(ctx.links))
            && (AnyPosting(q.links) <==> AnyPosting(ctx.links))
  {
    hide Started, AnyPosting, Batches, OfGeneration;
    assert heard == heard[..ctx.postedCount] + heard[ctx.postedCount..];
    if |heard| > ctx.postedCount {
      var l := Link(ctx.postChain, heard[ctx.postedCount..], Waiting);
      AppendBatch(ctx.links, l);
      AppendWaiting(ctx.links, l);
    } else {
      assert heard[..ctx.postedCount] == heard;
    }
  }

  lemma StartedUnique(links: seq<Link>, n: nat)
    requires n <= |links|
    requires forall i :: 0 <= i < n ==> links[i].state != Waiting
    requires n < |links| ==> links[n].state == Waiting
    ensures Started(links) == n
  {
  }

  lemma FlushStepInv(s: System, o: Observed, run: nat)
    requires Inv(s, o)
    ensures Inv(Apply(s, TurnEnded(run)), See(o, TurnEnded(run)))
  {
    if InTurn(s.phase) && s.tracker.activeGeneration != 0 {
      QueueInv(s.tracker, s.ctx.value, o.current.value.heard);
      var heard := o.current.value.heard;
      assert heard[..|heard|] == heard;
    }
  }

  lemma SettleInv(s: System, o: Observed, run: nat)
    requires Inv(s, o)
    ensures Inv(Apply(s, AgentSettled(run)), See(o, AgentSettled(run)))
  {
    hide ReadHub, LastError, HeardAssistant, Batches, Started, OfGeneration;
  }

  /** The final flush leaves the whole transcript queued. */
  lemma FinalFlushInv(s: System, o: Observed, verdict: Verdict, o': Observed)
    requires Inv(s, o) && InTurn(s.phase)
    requires o'.current.Some? && o'.claimed == o.claimed && o'.finished == o.finished && !o'.current.value.open
    requires o'.current.value.taskId == o.current.value.taskId && o'.current.value.heard == o.current.value.heard
    requires s.phase.Draining? ==> s.phase.outcome.Some?
    requires verdict == Deserved(o'.current.value)
    ensures Inv(FinalFlush(s, s.phase.task, verdict), o')
  {
    hide ReadHub, LastError, HeardAssistant, Batches, Started, OfGeneration;
    var heard := o.current.value.heard;
    QueueInv(s.tracker, s.ctx.value, heard);
    var q := QueueConversationFlush(s.tracker, s.ctx.value);
    var s' := FinalFlush(s, s.phase.task, verdict);
    assert s' == System(s.tracker.(posting := false), Flushing(s.phase.task, q.postChain, verdict), Some(q), s.hub);
    assert FlushInv(s', o'.current.value);
    assert HubInv(s', o');
  }

  /** A link that may start is the first that waits, and nothing else is posting. */
  lemma StartLink(ctx: PostContext, i: nat)
    requires Serial(ctx) && i < |ctx.links| && ctx.links[i].state == Waiting
    requires PromiseDone(ctx.links, ctx.links[i].after)
    ensures var links' := SetLink(ctx, i, Posting).links;
            && Serial(SetLink(ctx, i, Posting)) && !AnyPosting(ctx.links) && AnyPosting(links')
            && Started(ctx.links) == i && Started(links') == i + 1
            && Batches(links', i + 1) == Batches(ctx.links, i) + ctx.links[i].batch
            && Batches(links', |links'|) == Batches(ctx.links, |ctx.links|)
  {
    hide Started;
    var links := ctx.links;
    var links' := SetLink(ctx, i, Posting).links;
    assert forall j :: 0 <= j < i ==> links[j].state == Done by {
      assert links[i].after == i;
      if i > 0 { assert links[i - 1].state == Done; }
    }
    assert forall j :: i <= j < |links| ==> links[j].state == Waiting;
    StartedUnique(links, i);
    StartedUnique(links', i + 1);
    BatchesPrefix(links, links', |links|);
    BatchesPrefix(links, links', i);
    assert links'[i].state == Posting;
  }

  /** The one link that is posting is the last one started. */
  lemma PostingIsLast(ctx: PostContext, i: nat)
    requires Serial(ctx) && i < |ctx.links| && ctx.links[i].state == Posting
    ensures forall j :: 0 <= j < i ==> ctx.links[j].state == Done
    ensures forall j :: i < j < |ctx.links| ==> ctx.links[j].state == Waiting
    ensures Started(ctx.links) == i + 1
  {
    forall j | i < j < |ctx.links| ensures ctx.links[j].state == Waiting {
    }
    StartedUnique(ctx.links, i + 1);
  }

  lemma EndLink(ctx: PostContext, i: nat)
    requires Serial(ctx) && i < |ctx.links| && ctx.links[i].state == Posting
    ensures var links' := SetLink(ctx, i, Done).links;
            && Serial(SetLink(ctx, i, Done)) && AnyPosting(ctx.links) && !AnyPosting(links')
            && Started(links') == Started(ctx.links) > 0
            && Batches(links', Started(links')) == Batches(ctx.links, Started(ctx.links))
            && Batches(links', |links'|) == Batches(ctx.links, |ctx.links|)
  {
    var links' := SetLink(ctx, i, Done).links;
    PostingIsLast(ctx, i);
    StartedUnique(links', i + 1);
    BatchesPrefix(ctx.links, links', |links'|);
    BatchesPrefix(ctx.links, links', i + 1);
  }

  lemma StartLinkInv(s: System, o: Observed, i: nat)
    requires Inv(s, o) && Enabled(s, LinkStarted(i))
    ensures Inv(Apply(s, LinkStarted(i)), See(o, LinkStarted(i)))
  {
    hide Serial, Batches, Started, AnyPosting, OfGeneration, OneGeneration, LastError, HeardAssistant, Deliveries, ReadHub;
    ReadHubSnoc(s.hub, PostBegan(s.ctx.value.taskId, s.ctx.value.links[i].batch));
    StartLink(s.ctx.value, i);
  }

  lemma EndLinkInv(s: System, o: Observed, i: nat)
    requires Inv(s, o) && Enabled(s, LinkEnded(i))
    ensures Inv(Apply(s, LinkEnded(i)), See(o, LinkEnded(i)))
  {
    hide Serial, Batches, Started, AnyPosting, OfGeneration, OneGeneration, LastError, HeardAssistant, Deliveries, ReadHub;
    ReadHubSnoc(s.hub, PostEnded(s.ctx.value.taskId));
    EndLink(s.ctx.value, i);
  }

  lemma {:induction false} AllDone(ctx: PostContext)
    requires Serial(ctx) && PromiseDone(ctx.links, ctx.postChain)
    ensures forall i :: 0 <= i < |ctx.links| ==> ctx.links[i].state == Done
    ensures Started(ctx.links) == |ctx.links|
  {
    var n := |ctx.links|;
    if n > 0 {
      assert ctx.links[n - 1].state == Done;
      StartedUnique(ctx.links, n);
    }
  }

  lemma VerdictInv(s: System, o: Observed)
    requires Inv(s, o) && Enabled(s, ChainResumed)
    ensures Inv(Apply(s, ChainResumed), See(o, ChainResumed))
  {
    ReadHubSnoc(s.hub, Verdicted(s.phase.task.id, s.phase.verdict));
    AllDone(s.ctx.value);
    assert Deliveries(o.finished + [o.current.value]) ==
           Deliveries(o.finished) + [Delivery(o.current.value.taskId, o.current.value.heard, Deserved(o.current.value))];
  }

  lemma ResumeRaceInv(s: System, o: Observed, idle: bool, idleAgain: bool)
    requires Inv(s, o) && Enabled(s, RaceResumed(idle, idleAgain))
    ensures Inv(Apply(s, RaceResumed(idle, idleAgain)), See(o, RaceResumed(idle, idleAgain)))
  {
    if s.phase.winner == Some(TurnDone) {
      FinalFlushInv(s, o, Judge(s.tracker, s.phase.gen), See(o, RaceResumed(idle, idleAgain)));
    } else {
      assert s.phase.winner.value == Timeout by { match s.phase.winner.value case TurnDone => case Timeout => }
    }
  }

  lemma AbandonInv(s: System, o: Observed, error: string, running: bool)
    requires Inv(s, o) && Enabled(s, AbandonThrew(error, running))
    ensures Inv(Apply(s, AbandonThrew(error, running)), See(o, AbandonThrew(error, running)))
  {
    hide ReadHub, LastError, HeardAssistant, Batches, Started, OfGeneration, Serial;
    var closed := s.(tracker := CloseTurn(s.tracker));
    var o1 := o.(current := Some(o.current.value.(open := false)));
    assert Inv(closed, o1);
    FinalFlushInv(closed, o1, Nack(Threw(error)), See(o, AbandonThrew(error, running)));
  }

  lemma BeginInv(s: System, o: Observed)
    requires Inv(s, o) && Enabled(s, TurnBegun)
    ensures Inv(Apply(s, TurnBegun), See(o, TurnBegun))
  {
    hide ReadHub;
  }

  lemma StepInv(s: System, o: Observed, e: Event)
    requires Inv(s, o) && Enabled(s, e)
    ensures Inv(Apply(s, e), See(o, e))
  {
    hide ReadHub, LastError, HeardAssistant, Batches, Started, OfGeneration;
    match e
    case TurnBegun => BeginInv(s, o);
    case MessageEnded(run, m) => HearInv(s, o, run, m);
    case TurnEnded(run) => FlushStepInv(s, o, run);
    case AgentSettled(run) => SettleInv(s, o, run);
    case SendThrew(error, running) => FinalFlushInv(s, o, Nack(Threw(error)), See(o, e));
    case AbandonThrew(error, running) => AbandonInv(s, o, error, running);
    case DrainResumed => FinalFlushInv(s, o, Nack(TimedOut), See(o, e));
    case RaceResumed(idle, idleAgain) => ResumeRaceInv(s, o, idle, idleAgain);
    case LinkStarted(i) => StartLinkInv(s, o, i);
    case LinkEnded(i) => EndLinkInv(s, o, i);
    case ChainResumed => VerdictInv(s, o);
    case _ =>
  }

  // ---------------------------------------------------------------------------
  // Theorems
  // ---------------------------------------------------------------------------

  lemma {:induction false} Reachable(trace: seq<Event>)
    requires Possible(trace)
    ensures Inv(After(trace).value, Observe(trace))
  {
    if trace != [] {
      var n := |trace| - 1;
      Reachable(trace[..n]);
      StepInv(After(trace[..n]).value, Observe(trace[..n]), trace[n]);
    }
  }

  /** The hub never sees two batches overlap, a batch of another task in between, or a verdict
      before its transcript. Each finished turn reaches it once, in order, with exactly the
      messages heard while the turn was open and with the verdict it deserves. */
  lemma HubReceivesWhatWasHeard(trace: seq<Event>)
    requires Possible(trace)
    ensures var v := ReadHub(After(trace).value.hub);
            && v.Reading?
            && v.finished == Deliveries(Observe(trace).finished)
            && (After(trace).value.phase.Polling? ==> !v.posting && v.transcript == [])
  {
    Reachable(trace);
  }

  /** The ids of the claimed tasks, in order of claim. */
  function Claims(trace: seq<Event>): seq<int> {
    if trace == [] then []
    else
      var before := Claims(trace[..|trace| - 1]);
      var e := trace[|trace| - 1];
      if e.TaskClaimed? then before + [e.task.id] else before
  }

  function AnsweredIds(ds: seq<Delivery>): seq<int> {
    seq(|ds|, i requires 0 <= i < |ds| => ds[i].taskId)
  }

  function Unanswered(o: Observed): seq<int> {
    (if o.current.Some? then [o.current.value.taskId] else [])
    + (if o.claimed.Some? then [o.claimed.value.id] else [])
  }

  function Settled(o: Observed): seq<int> {
    AnsweredIds(Deliveries(o.finished)) + Unanswered(o)
  }

  lemma ClaimStep(s: System, o: Observed, e: Event)
    requires PhaseInv(s, o) && Enabled(s, e)
    ensures Settled(See(o, e)) == if e.TaskClaimed? then Settled(o) + [e.task.id] else Settled(o)
  {
    hide TurnInv, FlushInv, Apply;
    var o' := See(o, e);
    if e.ChainResumed? {
      assert AnsweredIds(Deliveries(o'.finished)) == AnsweredIds(Deliveries(o.finished)) + [o.current.value.taskId];
    }
  }

  lemma {:induction false} ClaimsObserved(trace: seq<Event>)
    requires Possible(trace)
    ensures Claims(trace) == Settled(Observe(trace))
  {
    hide PhaseInv, HubInv, TrackerInv, Apply, Enabled, See, Settled;
    if trace == [] {
      assert Settled(Observe([])) == [] by { NothingSettled(); }
    } else {
      var n := |trace| - 1;
      ClaimsObserved(trace[..n]);
      Reachable(trace[..n]);
      ClaimStep(After(trace[..n]).value, Observe(trace[..n]), trace[n]);
    }
  }

  lemma NothingSettled()
    ensures Settled(Observe([])) == []
  {
  }

  /** Claimed tasks are answered one by one, in the order of the claims and each once; whenever
      the loop polls again nothing is left unanswered. */
  lemma EachClaimAnsweredOnce(trace: seq<Event>)
    requires Possible(trace)
    ensures var v := ReadHub(After(trace).value.hub);
            && v.Reading?
            && AnsweredIds(v.finished) <= Claims(trace)
            && |Claims(trace)| <= |v.finished| + 1
            && (After(trace).value.phase.Polling? ==> AnsweredIds(v.finished) == Claims(trace))
  {
    Reachable(trace);
    ClaimsObserved(trace);
    var o := Observe(trace);
    assert Settled(o) == AnsweredIds(Deliveries(o.finished)) + Unanswered(o);
  }

  lemma {:induction false} BatchesSplit(links: seq<Link>, n: nat, k: nat)
    requires n <= k <= |links|
    ensures Batches(links, n) <= Batches(links, k)
  {
    if n < k { BatchesSplit(links, n, k - 1); }
  }

  /** While a turn is still going on the hub has a prefix of it, and a `turn_end` that finds the
      turn open leaves nothing said so far unqueued. */
  lemma LiveTranscript(trace: seq<Event>, run: nat)
    requires Possible(trace) && InTurn(After(trace).value.phase)
    ensures Observe(trace).current.Some?
    ensures var heard := Observe(trace).current.value.heard;
            && ReadHub(After(trace).value.hub).Reading?
            && ReadHub(After(trace).value.hub).transcript <= heard
            && (Observe(trace).current.value.open ==>
                  var after := Apply(After(trace).value, TurnEnded(run));
                  after.ctx.Some? && Batches(after.ctx.value.links, |after.ctx.value.links|) == heard)
  {
    Reachable(trace);
    LiveState(After(trace).value, Observe(trace), run);
  }

  lemma LiveState(s: System, o: Observed, run: nat)
    requires Inv(s, o) && InTurn(s.phase)
    ensures ReadHub(s.hub).transcript <= o.current.value.heard
    ensures o.current.value.open ==>
              var after := Apply(s, TurnEnded(run));
              after.ctx.Some? && Batches(after.ctx.value.links, |after.ctx.value.links|) == o.current.value.heard
  {
    hide ReadHub, LastError, OfGeneration, Deliveries;
    BatchesSplit(s.ctx.value.links, Started(s.ctx.value.links), |s.ctx.value.links|);
    QueueInv(s.tracker, s.ctx.value, o.current.value.heard);
  }

  /** When a task is acked: sending returned, the run settled before the timer, an assistant
      message ended while the turn was open, and none of them ended in an error. */
  lemma AckedExactlyWhen(trace: seq<Event>, i: nat)
    requires Possible(trace) && i < |Observe(trace).finished|
    ensures var v := ReadHub(After(trace).value.hub);
            && v.Reading? && i < |v.finished|
            && (var turn := Observe(trace).finished[i];
                v.finished[i].verdict == Ack <==>
                  && turn.thrown.None? && !turn.timedOut
                  && HeardAssistant(turn.heard) && !HeardError(turn.heard))
  {
    Reachable(trace);
    LastErrorHeard(Observe(trace).finished[i].heard);
  }

  /** `activeGeneration` is 0 or the current one, the buffer and the post context are of the
      current one, and so the generation mismatch is never found. */
  lemma GenerationsAgree(trace: seq<Event>)
    requires Possible(trace)
    ensures var s := After(trace).value;
            && s.tracker.activeGeneration in {0, s.tracker.generation}
            && (forall c :: c in s.tracker.capturedMessages ==> c.gen == s.tracker.generation)
            && (s.tracker.posting ==> s.ctx.Some? && s.ctx.value.gen == s.tracker.generation)
            && (s.phase.Racing? ==> Judge(s.tracker, s.phase.gen) != Nack(GenerationMismatch))
            && NoMismatchIn(s.hub)
  {
    Reachable(trace);
    NoMismatch(trace);
  }

  ghost predicate NoMismatchIn(hub: seq<HubCall>) {
    forall c :: c in hub && c.Verdicted? ==> c.verdict != Nack(GenerationMismatch)
  }

  lemma NoMismatchStep(s: System, o: Observed, e: Event)
    requires Inv(s, o) && Enabled(s, e) && NoMismatchIn(s.hub)
    ensures NoMismatchIn(Apply(s, e).hub)
  {
    if e.ChainResumed? { assert s.phase.verdict == Deserved(o.current.value); }
  }

  lemma {:induction false} NoMismatch(trace: seq<Event>)
    requires Possible(trace)
    ensures NoMismatchIn(After(trace).value.hub)
  {
    if trace != [] {
      var n := |trace| - 1;
      NoMismatch(trace[..n]);
      Reachable(trace[..n]);
      NoMismatchStep(After(trace[..n]).value, Observe(trace[..n]), trace[n]);
    }
  }

  /** The turns whose promise was fulfilled, in order. */
  function Fulfilled(trace: seq<Event>): seq<nat>
    requires Possible(trace)
  {
    if trace == [] then []
    else
      var n := |trace| - 1;
      var f := if trace[n].AgentSettled? then EndTurn(After(trace[..n]).value.tracker).1 else None;
      Fulfilled(trace[..n]) + if f.Some? then [f.value] else []
  }

  ghost predicate Increasing(s: seq<nat>, bound: nat) {
    && (forall i, j :: 0 <= i < j < |s| ==> s[i] < s[j])
    && (forall i :: 0 <= i < |s| ==> s[i] < bound)
  }

  /** Stale and repeated settle events resolve nothing: over a whole history each turn's promise is
      fulfilled at most once, in the order of the turns, and an open turn's not yet. */
  lemma {:induction false} EachPromiseFulfilledOnce(trace: seq<Event>)
    requires Possible(trace)
    ensures var t := After(trace).value.tracker;
            Increasing(Fulfilled(trace), if t.activeGeneration != 0 then t.generation else t.generation + 1)
  {
    hide PhaseInv, HubInv;
    if trace != [] {
      var n := |trace| - 1;
      EachPromiseFulfilledOnce(trace[..n]);
      Reachable(trace[..n]);
      GenerationStep(After(trace[..n]).value, trace[n]);
    }
  }

  lemma HearingKeeps(t: Tracker, m: Message)
    ensures HearMessage(t, m).generation == t.generation && HearMessage(t, m).activeGeneration == t.activeGeneration
  {
  }

  lemma GenerationStep(s: System, e: Event)
    requires TrackerInv(s.tracker) && Enabled(s, e)
    ensures var t, t' := s.tracker, Apply(s, e).tracker;
            && t'.generation >= t.generation
            && (e.TurnBegun? ==> t'.generation == t.generation + 1)
            && (!e.TurnBegun? ==> t'.generation == t.generation && t'.activeGeneration in {0, t.activeGeneration})
            && (e.AgentSettled? ==> t'.activeGeneration == 0)
  {
    hide HearMessage, QueueConversationFlush, Judge, SetLink, PromiseDone, OneGeneration, WakeTurn, WakeDrain, OfGeneration;
    if e.MessageEnded? {
      HearingKeeps(s.tracker, e.message);
    }
  }

  /** A drain that waits is ended by whichever comes first, the run settling or the backstop, and the
      other then changes nothing; outside a waiting drain no resolver is left behind. */
  lemma DrainEndsOnce(trace: seq<Event>, run: nat)
    requires Possible(trace)
    ensures var s := After(trace).value;
            if s.phase.Draining? && s.phase.outcome.None? then
              var settled, backstop := Apply(s, AgentSettled(run)), Apply(s, BackstopFired);
              && settled.phase == s.phase.(outcome := Some(true)) && !Enabled(settled, BackstopFired)
              && backstop.phase == s.phase.(outcome := Some(false))
              && Apply(backstop, AgentSettled(run)).phase == backstop.phase
            else !s.tracker.settleResolve
  {
    hide HubInv, FlushInv, Serial, Batches, OfGeneration, LastError, HeardAssistant, Observe, After;
    Reachable(trace);
  }

  lemma Start()
    ensures After([]) == Some(Initial())
  {
  }

  lemma Then(trace: seq<Event>, s: System, e: Event, s': System)
    requires After(trace) == Some(s) && Enabled(s, e) && Apply(s, e) == s'
    ensures After(trace + [e]) == Some(s')
  {
    AfterSnoc(trace, e);
  }

  /** A message that stops in error with an empty text is not taken for an error: the runner
      acks the task although its only assistant message failed. */
  lemma EmptyErrorTextIsAcked() returns (trace: seq<Event>)
    ensures Possible(trace)
    ensures var m := Message(Assistant, true, Some(""), "half an answer");
            After(trace).value.hub == [PostBegan(7, [m]), PostEnded(7), Verdicted(7, Ack)]
  {
    hide After;
    var m := Message(Assistant, true, Some(""), "half an answer");
    var task := Task(7);
    var open := Tracker(1, 1, Some(1), None, false, [], false, false, true);
    var heard := open.(assistantMessageCompleted := true, capturedMessages := [Captured(1, m)]);
    var done := heard.(activeGeneration := 0, resolve := None, settled := true);
    var ctx := NewPostContext(1, 7);
    var s1 := Initial().(phase := Starting(task));
    var s2 := System(open, Sending(task, 1, false), Some(ctx), []);
    var s3 := s2.(phase := Racing(task, 1, None));
    var s4 := s3.(tracker := heard);
    var s5 := System(done, Racing(task, 1, Some(TurnDone)), Some(ctx), []);
    trace := [];
    Start();
    Then(trace, Initial(), TaskClaimed(task), s1);
    trace := trace + [TaskClaimed(task)];
    Then(trace, s1, TurnBegun, s2);
    trace := trace + [TurnBegun];
    Then(trace, s2, SendReturned, s3);
    trace := trace + [SendReturned];
    Then(trace, s3, MessageEnded(1, m), s4);
    trace := trace + [MessageEnded(1, m)];
    Then(trace, s4, AgentSettled(1), s5);
    trace := trace + [AgentSettled(1)];
    PostAndAnswer(trace, s5, task, m, 1);
    trace := trace + ToVerdict();
  }

  /** From a settled turn with one message to its verdict. */
  function ToVerdict(): seq<Event> {
    [RaceResumed(false, false), LinkStarted(0), LinkEnded(0), ChainResumed]
  }

  /** A settled turn with one message and no recorded error: one batch, then the ack. */
  lemma PostAndAnswer(before: seq<Event>, s: System, task: Task, m: Message, gen: nat)
    requires After(before) == Some(s) && s.phase == Racing(task, gen, Some(TurnDone)) && gen > 0
    requires s.ctx == Some(NewPostContext(gen, task.id)) && s.tracker.posting
    requires s.tracker.activeGeneration == 0 && s.tracker.capturedMessages == [Captured(gen, m)]
    requires s.tracker.errorMessage.None? && s.tracker.assistantMessageCompleted
    ensures After(before + ToVerdict()) ==
            Some(System(s.tracker.(posting := false), Closing, None,
                        s.hub + [PostBegan(task.id, [m]), PostEnded(task.id), Verdicted(task.id, Ack)]))
  {
    hide After;
    var t := s.tracker.(posting := false);
    var links := Link(0, [m], Waiting);
    var queued := PostContext(gen, task.id, 1, [links], 1);
    QueuesOne(s.tracker, gen, task.id, m);
    var s1 := System(t, Flushing(task, 1, Ack), Some(queued), s.hub);
    Then(before, s, RaceResumed(false, false), s1);
    var trace := before + [RaceResumed(false, false)];
    var posting := queued.(links := [links.(state := Posting)]);
    var s2 := s1.(ctx := Some(posting), hub := s.hub + [PostBegan(task.id, [m])]);
    assert SetLink(queued, 0, Posting) == posting;
    Then(trace, s1, LinkStarted(0), s2);
    trace := trace + [LinkStarted(0)];
    var posted := queued.(links := [links.(state := Done)]);
    var s3 := s2.(ctx := Some(posted), hub := s2.hub + [PostEnded(task.id)]);
    assert SetLink(posting, 0, Done) == posted;
    Then(trace, s2, LinkEnded(0), s3);
    trace := trace + [LinkEnded(0)];
    Then(trace, s3, ChainResumed, System(t, Closing, None, s3.hub + [Verdicted(task.id, Ack)]));
    assert trace + [ChainResumed] == before + ToVerdict();
    assert s3.hub + [Verdicted(task.id, Ack)] ==
           s.hub + [PostBegan(task.id, [m]), PostEnded(task.id), Verdicted(task.id, Ack)];
  }

  lemma QueuesOne(t: Tracker, gen: nat, taskId: int, m: Message)
    requires t.capturedMessages == [Captured(gen, m)]
    ensures QueueConversationFlush(t, NewPostContext(gen, taskId)) ==
            PostContext(gen, taskId, 1, [Link(0, [m], Waiting)], 1)
  {
    OfGenerationSnoc([], Captured(gen, m), gen);
    assert [m][0..] == [m] && [] + [Captured(gen, m)] == [Captured(gen, m)];
  }
}
