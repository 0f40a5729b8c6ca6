/** The turn protocol of the pi runner extension, as values.

    One poll loop runs `processTask` while pi delivers events. JavaScript runs each stretch
    between two `await`s without interruption, so such a stretch is one atomic step here.
    Promises are named by the turn that created them. */
module RunnerProtocol {
  import opened Wrappers

  datatype Role = User | Assistant | ToolResult

  /** `stopError` is `stopReason === "error"`; `errorMessage` is the field of that name. */
  datatype Message = Message(role: Role, stopError: bool, errorMessage: Option<string>, body: string)

  datatype Task = Task(id: int)

  datatype Captured = Captured(gen: nat, message: Message)

  datatype Reason =
    | Threw(error: string)
    | TimedOut
    | ModelError(error: string)
    | NoAssistant
    | GenerationMismatch

  datatype Verdict = Ack | Nack(reason: Reason)

  // ---------------------------------------------------------------------------
  // The tracker
  // ---------------------------------------------------------------------------

  /** `resolve` is the turn whose promise the stored resolver settles; `settleResolve` says that
      a drain is waiting; `posting` says that `postCtx` is not null. */
  datatype Tracker = Tracker(
    generation: nat,
    activeGeneration: nat,
    resolve: Option<nat>,
    errorMessage: Option<string>,
    assistantMessageCompleted: bool,
    capturedMessages: seq<Captured>,
    settled: bool,
    settleResolve: bool,
    posting: bool)

  function NewTracker(): Tracker {
    Tracker(0, 0, None, None, false, [], true, false, false)
  }

  function BeginTurn(t: Tracker): Tracker {
    var g := t.generation + 1;
    t.(generation := g, activeGeneration := g, resolve := Some(g), errorMessage := None,
       assistantMessageCompleted := false, capturedMessages := [], settled := false)
  }

  /** Second result: the turn whose promise is fulfilled by the call. */
  function EndTurn(t: Tracker): (Tracker, Option<nat>) {
    if t.activeGeneration == 0 then (t, None)
    else (t.(resolve := None, activeGeneration := 0), t.resolve)
  }

  function RecordAssistantEnd(t: Tracker, error: Option<string>): Tracker {
    if t.activeGeneration == 0 then t
    else
      // An empty string is falsy, so it does not count as an error.
      var e := if error.Some? && error.value != "" then error else t.errorMessage;
      t.(assistantMessageCompleted := true, errorMessage := e)
  }

  /** Second result: whether a waiting drain is woken. */
  function MarkSettled(t: Tracker): (Tracker, bool) {
    (t.(settled := true, settleResolve := false), t.settleResolve)
  }

  function CaptureMessage(t: Tracker, m: Message): Tracker {
    if t.activeGeneration == 0 then t
    else t.(capturedMessages := t.capturedMessages + [Captured(t.activeGeneration, m)])
  }

  const DEFAULT_ERROR := "LLM returned stopReason=error with no message"

  function ErrorOf(m: Message): Option<string> {
    if m.stopError then Some(m.errorMessage.GetOr(DEFAULT_ERROR)) else None
  }

  /** The whole `message_end` handler, metrics aside. */
  function HearMessage(t: Tracker, m: Message): Tracker {
    var t1 := CaptureMessage(t, m);
    if m.role == Assistant then RecordAssistantEnd(t1, ErrorOf(m)) else t1
  }

  // ---------------------------------------------------------------------------
  // The post chain of one task
  // ---------------------------------------------------------------------------

  datatype LinkState = Waiting | Posting | Done

  /** One `.then(() => reportConversation(batch))`: it may start once promise `after` is done.
      Promise 0 is `Promise.resolve()`; promise i + 1 is the one link i returns. */
  datatype Link = Link(after: nat, batch: seq<Message>, state: LinkState)

  datatype PostContext = PostContext(
    gen: nat,
    taskId: int,
    postedCount: nat,
    links: seq<Link>,
    postChain: nat)

  function NewPostContext(gen: nat, taskId: int): PostContext {
    PostContext(gen, taskId, 0, [], 0)
  }

  predicate PromiseDone(links: seq<Link>, p: nat) {
    p == 0 || (p <= |links| && links[p - 1].state == Done)
  }

  function OfGeneration(captured: seq<Captured>, gen: nat): seq<Message> {
    if captured == [] then []
    else
      var rest := OfGeneration(captured[..|captured| - 1], gen);
      var last := captured[|captured| - 1];
      if last.gen == gen then rest + [last.message] else rest
  }

  function QueueConversationFlush(t: Tracker, ctx: PostContext): PostContext {
    var pending := OfGeneration(t.capturedMessages, ctx.gen);
    if |pending| <= ctx.postedCount then ctx
    else
      ctx.(postedCount := |pending|,
           links := ctx.links + [Link(ctx.postChain, pending[ctx.postedCount..], Waiting)],
           postChain := |ctx.links| + 1)
  }

  // ---------------------------------------------------------------------------
  // The system: tracker, the poll loop's position, and what the hub was sent
  // ---------------------------------------------------------------------------

  datatype Winner = TurnDone | Timeout

  /** Where the poll loop is suspended, with the locals `processTask` holds there. */
  datatype Phase =
    | Polling
    | Starting(task: Task)                                  // posting the first task log
    | Sending(task: Task, gen: nat, turnDone: bool)         // sendUserMessage
    | Racing(task: Task, gen: nat, winner: Option<Winner>)  // turn promise against the timer
    | Draining(task: Task, gen: nat, outcome: Option<bool>) // waitForSettle
    | Flushing(task: Task, awaited: nat, verdict: Verdict)  // postCtx.postChain
    | Closing                                               // the ack or nack request

  datatype HubCall =
    | PostBegan(taskId: int, batch: seq<Message>)
    | PostEnded(taskId: int)
    | Verdicted(taskId: int, verdict: Verdict)

  datatype System = System(tracker: Tracker, phase: Phase, ctx: Option<PostContext>, hub: seq<HubCall>)

  function Initial(): System {
    System(NewTracker(), Polling, None, [])
  }

  /** `run` names the pi run an event comes from. The runner cannot see it; only the theorems
      about attribution read it. */
  datatype Event =
    | TaskClaimed(task: Task)
    | TurnBegun
    | SendReturned
    | SendThrew(error: string, running: bool)      // running: pi goes on with the run all the same
    | TurnTimerFired
    | RaceResumed(idle: bool, idleAgain: bool)     // what the two isIdle() calls would say
    | AbandonThrew(error: string, running: bool)   // abort() or isIdle() throws after a time-out
    | BackstopFired
    | DrainResumed
    | LinkStarted(i: nat)
    | LinkEnded(i: nat)
    | ChainResumed
    | VerdictAnswered
    | MessageEnded(run: nat, message: Message)
    | TurnEnded(run: nat)
    | AgentSettled(run: nat)

  predicate Enabled(s: System, e: Event) {
    match e
    case TaskClaimed(_) => s.phase.Polling?
    case TurnBegun => s.phase.Starting?
    case SendReturned => s.phase.Sending?
    case SendThrew(_, _) => s.phase.Sending?
    case AbandonThrew(_, _) => s.phase.Racing? && s.phase.winner == Some(Timeout)
    case TurnTimerFired => s.phase.Racing? && s.phase.winner.None?
    case RaceResumed(_, _) => s.phase.Racing? && s.phase.winner.Some?
    case BackstopFired => s.phase.Draining? && s.phase.outcome.None?
    case DrainResumed => s.phase.Draining? && s.phase.outcome.Some?
    case LinkStarted(i) =>
      && s.ctx.Some? && i < |s.ctx.value.links|
      && s.ctx.value.links[i].state == Waiting
      && PromiseDone(s.ctx.value.links, s.ctx.value.links[i].after)
    case LinkEnded(i) =>
      s.ctx.Some? && i < |s.ctx.value.links| && s.ctx.value.links[i].state == Posting
    case ChainResumed =>
      && s.phase.Flushing?
      && (s.ctx.Some? ==> PromiseDone(s.ctx.value.links, s.phase.awaited))
    case VerdictAnswered => s.phase.Closing?
    case MessageEnded(_, _) => true
    case TurnEnded(_) => true
    case AgentSettled(_) => true
  }

  /** The code after the `try`: what a turn that did not throw or time out amounts to. */
  function Judge(t: Tracker, gen: nat): Verdict {
    if t.activeGeneration == 0 || t.activeGeneration == gen then
      if t.errorMessage.Some? then Nack(ModelError(t.errorMessage.value))
      else if !t.assistantMessageCompleted then Nack(NoAssistant)
      else Ack
    else Nack(GenerationMismatch)
  }

  /** Detach the post context, queue what is left, and await the chain. */
  function FinalFlush(s: System, task: Task, verdict: Verdict): System {
    if s.tracker.posting && s.ctx.Some? then
      var ctx := QueueConversationFlush(s.tracker, s.ctx.value);
      s.(tracker := s.tracker.(posting := false), ctx := Some(ctx),
         phase := Flushing(task, ctx.postChain, verdict))
    else s.(phase := Flushing(task, 0, verdict))
  }

  function StartTurn(s: System): System
    requires s.phase.Starting?
  {
    var t := BeginTurn(s.tracker);
    System(t.(posting := true),
           Sending(s.phase.task, t.activeGeneration, false),
           Some(NewPostContext(t.activeGeneration, s.phase.task.id)),
           s.hub)
  }

  /** What a time-out does to the tracker first of all. */
  function CloseTurn(t: Tracker): Tracker {
    t.(resolve := None, activeGeneration := 0)
  }

  /** After the race: either judge the turn, or abort it and start waiting for it to settle. */
  function ResumeRace(s: System, idle: bool, idleAgain: bool): System
    requires s.phase.Racing? && s.phase.winner.Some?
  {
    var Racing(task, gen, winner) := s.phase;
    if winner == Some(TurnDone) then FinalFlush(s, task, Judge(s.tracker, gen))
    else
      var t := CloseTurn(s.tracker);
      if t.settled || idle || idleAgain then
        s.(tracker := t, phase := Draining(task, gen, Some(true)))
      else
        s.(tracker := t.(settleResolve := true), phase := Draining(task, gen, None))
  }

  function FlushTurnMessages(s: System): System {
    var t := s.tracker;
    if !t.posting || s.ctx.None? then s
    else if t.activeGeneration == 0 || t.activeGeneration != s.ctx.value.gen then s
    else s.(ctx := Some(QueueConversationFlush(t, s.ctx.value)))
  }

  /** A fulfilled turn promise reaches the frame that is waiting for it, and no other. */
  function WakeTurn(p: Phase, fulfilled: Option<nat>): Phase {
    if p.Sending? && fulfilled == Some(p.gen) then p.(turnDone := true)
    else if p.Racing? && fulfilled == Some(p.gen) && p.winner.None? then p.(winner := Some(TurnDone))
    else p
  }

  function WakeDrain(p: Phase, woken: bool): Phase {
    if p.Draining? && woken then p.(outcome := Some(true)) else p
  }

  /** The `agent_settled` handler: `endTurn`, then `markSettled`. */
  function Settle(s: System): System {
    var (t1, fulfilled) := EndTurn(s.tracker);
    var (t2, woken) := MarkSettled(t1);
    s.(tracker := t2, phase := WakeDrain(WakeTurn(s.phase, fulfilled), woken))
  }

  function SetLink(ctx: PostContext, i: nat, state: LinkState): PostContext
    requires i < |ctx.links|
  {
    ctx.(links := ctx.links[i := ctx.links[i].(state := state)])
  }

  function Apply(s: System, e: Event): System
    requires Enabled(s, e)
  {
    match e
    case TaskClaimed(task) => s.(phase := Starting(task))
    case TurnBegun => StartTurn(s)
    case SendReturned =>
      var Sending(task, gen, turnDone) := s.phase;
      s.(phase := Racing(task, gen, if turnDone then Some(TurnDone) else None))
    case SendThrew(error, _) => FinalFlush(s, s.phase.task, Nack(Threw(error)))
    case AbandonThrew(error, _) =>
      FinalFlush(s.(tracker := CloseTurn(s.tracker)), s.phase.task, Nack(Threw(error)))
    case TurnTimerFired => s.(phase := s.phase.(winner := Some(Timeout)))
    case RaceResumed(idle, idleAgain) => ResumeRace(s, idle, idleAgain)
    case BackstopFired =>
      s.(tracker := s.tracker.(settleResolve := false), phase := s.phase.(outcome := Some(false)))
    case DrainResumed => FinalFlush(s, s.phase.task, Nack(TimedOut))
    case LinkStarted(i) =>
      var ctx := s.ctx.value;
      s.(ctx := Some(SetLink(ctx, i, Posting)), hub := s.hub + [PostBegan(ctx.taskId, ctx.links[i].batch)])
    case LinkEnded(i) =>
      s.(ctx := Some(SetLink(s.ctx.value, i, Done)), hub := s.hub + [PostEnded(s.ctx.value.taskId)])
    case ChainResumed =>
      System(s.tracker, Closing, None, s.hub + [Verdicted(s.phase.task.id, s.phase.verdict)])
    case VerdictAnswered => s.(phase := Polling)
    case MessageEnded(_, m) => s.(tracker := HearMessage(s.tracker, m))
    case TurnEnded(_) => FlushTurnMessages(s)
    case AgentSettled(_) => Settle(s)
  }

  // ---------------------------------------------------------------------------
  // Runs
  // ---------------------------------------------------------------------------

  /** `After(trace)` is the state a history of events leads to, or None when some event of it
      could not have happened. */
  function After(trace: seq<Event>): Option<System> {
    if trace == [] then Some(Initial())
    else
      var before := After(trace[..|trace| - 1]);
      var e := trace[|trace| - 1];
      if before.Some? && Enabled(before.value, e) then Some(Apply(before.value, e)) else None
  }

  predicate Possible(trace: seq<Event>) {
    After(trace).Some?
  }

  lemma AfterSnoc(trace: seq<Event>, e: Event)
    requires Possible(trace) && Enabled(After(trace).value, e)
    ensures After(trace + [e]) == Some(Apply(After(trace).value, e))
  {
    assert (trace + [e])[..|trace|] == trace;
  }
}
