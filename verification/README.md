# AInsel, modelled and verified

AInsel runs coding agents: a hub queues tasks, an operator scales agent pods, a runner inside each
pod feeds tasks to the pi coding agent and reports back, and a console shows it all. This Dafny
project models the parts of it that are state machines, searches, parsers and controllers, and
proves what they promise over every input, every run or every reachable state.
`dafny verify dfyconfig.toml` checks all of it.

## What is modelled

**The runner's turn protocol** (`RunnerProtocol`, `RunnerObjects`, `RunnerSafety`,
`RunnerAttribution`). One poll loop claims a task, sends it to pi, waits for the run to settle or a
timer to fire, posts the transcript in batches and acks or nacks, while pi's events arrive at any
moment. Each stretch between two `await`s is one atomic step; a history is any interleaving of
steps and events. `RunnerObjects` has the source's own objects (tracker, shared post context, poll
loop): the loop carries its history of events, and every method keeps the objects in the state
that history leads to, so the theorems about histories are stated of the objects as well.
`RunnerSafety` then compares two observers that know none of the machinery: one reads the events
and notes what was said while each turn was open, the other reads the calls the hub receives. They
agree in every history. `RunnerAttribution` tags events with the pi run they come from, which the
runner cannot see, and says exactly when one task can be credited with another run's events.

**Redaction and truncation** (`Redaction`): replacing every secret by `***`, raw and JSON-escaped,
and cutting tool results to head and tail.

**Cron** (`Calendar`, `Cron`, `CronText`, `CronNext`): parsing five fields into masks, what the texts
of fields say, the panic on a step that wraps, and the search for the next fire over the proleptic Gregorian calendar in UTC.

**The relation graph** (`RelationGraph`, `ConsoleGraph`): a depth-bounded breadth-first search over
connections that may form cycles, with unresolved ends and de-duplicated edges, and the graphs the
console makes of the hub's subscriptions.

**The queue-driven scaler** (`Scaling`) with the form that feeds it, one reconcile and whole runs.

**The tag retention planner** (`Retention`, `RetentionNames`): classes, ranks, floors and the release
purge, and what the names of tags say.

**Codecs, parsers and small lists**: URL event filters (`EventFilters`), payload filters
(`Filters`), image references (`ImageRef`), server and token lists (`ServerLists`), tool names and
the tool catalogue (`ToolNames`), the recents list (`Recents`), heading identifiers (`Headings`).
`Text` and `Wrappers` hold what they share.

## What the proofs found

- An assistant message that stops in error with an *empty* error text is not taken for an error,
  because the empty string is falsy, and its task is acked (`RunnerSafety.EmptyErrorTextIsAcked`).
- The source documents one window in which a task can be credited with another run's messages: the
  drain's backstop expires. There are two more, both in the catch that neither aborts nor drains:
  `sendUserMessage` throws while the run it started goes on (`RunnerAttribution.ThrowLeaks`), and,
  after a time-out, `abort` or `isIdle` throws while the run goes on
  (`RunnerAttribution.AbandonThrowLeaks`). Without those three no task can be
  (`RunnerAttribution.NeverLeaksExactlyWhen`).
- Through the documented window more can happen than a captured message: the abandoned run's late
  `agent_settled` closes the next task's turn, and that task is acked with the abandoned run's
  answer before its own run has said a word (`RunnerAttribution.LateSettleAcks`).
- After the verdict is sent nothing bounds the hub's answer to it, so polling again depends on the
  hub (`RunnerAttribution.VerdictIsSent`).
- The runner's README says that it awaits `turn_end`
  (`pi/pi-extensions/ainsel-runner/README.md:26`); the code awaits `agent_settled`, and the model
  follows the code.
- Redaction of a pattern is certain exactly for patterns that neither start nor end with `*` and do
  not contain `***` (`Redaction.RedactionCertainExactlyWhen`). That is weaker than containing no `*`
  at all.
- Truncation can put a redacted secret together again out of the marker and the newlines around it:
  one that starts or ends with a newline comes back (`Redaction.NewlineComesBack`), and so do
  exactly those that the marker with its newlines spells (`Redaction.CappedCertainExactlyWhen`).
  The caller serialises a capped result, redacts it again and may cut it again
  (`pi/pi-extensions/ainsel-runner/index.ts:457-466`); that last redaction and cut is the same
  function of the serialised text.
- A cron step so large that `low + step` exceeds the 64-bit range makes the parser panic
  (`Cron.LargeStepPanics`).
- `Next` gives up after five years, so a schedule that can only fire on 29 February finds nothing
  when asked on 1 March 2096, because 2100 is not a leap year (`CronNext.LeapDayTextIsMissed`).
- Inside the idle grace period the scaler returns the current count even when it is below the floor
  (`Scaling.GraceStaysBelowFloor`).
- In the graph, a connection end with no identity and one whose identity is literally `~unknown`
  share a node; no other ends do (`RelationGraph.DistinctNodesExactlyWhen`,
  `RelationGraph.UnknownIsConfused`). The console never draws such a graph: the hub generates the
  ids of channels (`services/hub/internal/channels/store.go:56-63`), and every other reference has a
  colon (`ConsoleGraph.ConsoleGraphsAreClear`).
- Viewing an agent with the empty id pushes a real agent out of a full recents list. The one caller
  does not do that (`frontend/src/pages/agents/AgentDetail.tsx:62`).
- A field that is null can equal a filter's value without containing it
  (`Filters.NullEqualsWithoutContaining`), and an array or an object
  can satisfy neither of `eq` and `neq`.
- Tool names come back apart into server and tool exactly for servers without `__` that do not end
  in `_`; the console's rule for names guarantees it, the list parser does not.
- The second malformed-entry test of the server list parser can never fail.

## Model

| member | source | states |
|---|---|---|
| RunnerSafety.HubReceivesWhatWasHeard | pi/pi-extensions/ainsel-runner/index.ts:819-870 | in every history the hub never sees overlapping batches, foreign batches or a verdict before its transcript, and each finished turn arrives once, in order, with exactly the messages heard while it was open and the verdict it deserves |
| RunnerSafety.EachClaimAnsweredOnce | pi/pi-extensions/ainsel-runner/index.ts:992-1168 | the ids answered are a prefix of the ids claimed, at most one behind, and equal whenever the loop polls |
| RunnerSafety.AckedExactlyWhen | pi/pi-extensions/ainsel-runner/index.ts:1049-1167 | a task is acked if and only if sending returned, the timer did not fire first, an assistant message ended while the turn was open and none ended in an error that counts |
| RunnerSafety.LiveTranscript | pi/pi-extensions/ainsel-runner/index.ts:850-870 | during a turn the hub holds a prefix of what was heard, and a `turn_end` of the open turn leaves nothing heard so far unqueued |
| RunnerSafety.GenerationsAgree | pi/pi-extensions/ainsel-runner/index.ts:1099-1131 | the active generation is 0 or current, captured messages and the installed post context are of the current one, and the generation mismatch branch is unreachable |
| RunnerSafety.Reachable | pi/pi-extensions/ainsel-runner/index.ts:721-870 | the joint invariant of tracker, post chain, poll loop and hub holds after every possible history |
| RunnerSafety.QueueInv | pi/pi-extensions/ainsel-runner/index.ts:850-858 | queueing what is pending makes the batches of the chain, joined, equal to the messages captured, each link after the one before |
| RunnerSafety.EachPromiseFulfilledOnce | pi/pi-extensions/ainsel-runner/index.ts:721-741 | over a whole history each turn's promise is fulfilled at most once, in the order of the turns, and stale or repeated settle events fulfil none |
| RunnerSafety.DrainEndsOnce | pi/pi-extensions/ainsel-runner/index.ts:753-796 | a waiting drain is ended by whichever comes first, the run settling or the backstop, the other then changes nothing, and no resolver outlives it |
| RunnerSafety.StartLink | pi/pi-extensions/ainsel-runner/index.ts:855-857 | the link that may start is the first not started, and everything before it is done |
| RunnerSafety.EmptyErrorTextIsAcked | pi/pi-extensions/ainsel-runner/index.ts:745-751 | a concrete history in which the only assistant message fails with an empty text and the task is acked |
| RunnerSafety.UnnamedErrorDeserves | pi/pi-extensions/ainsel-runner/index.ts:1249-1251 | a turn whose only assistant message fails without a text is nacked with the stated one |
| RunnerAttribution.NothingMisattributed | pi/pi-extensions/ainsel-runner/index.ts:798-822 | as long as no run given up was still going on at a poll, every event that meets an open turn is of that turn's own run |
| RunnerAttribution.NeverLeaksExactlyWhen | pi/pi-extensions/ainsel-runner/index.ts:1049-1097 | over a whole history, no task could be credited with another run's message if and only if at no poll a run was left that had not ended and that the runner had given up: by the expired backstop, the throwing send, or a throwing `abort` or `isIdle` |
| RunnerAttribution.LeaksExactlyWhenGivenUp | pi/pi-extensions/ainsel-runner/index.ts:1049-1097 | at the first poll that may have such a run, the next task can be credited with a run's message if and only if that run was given up in one of the three ways and has not ended since |
| RunnerAttribution.LeftOverExactlyWhenGivenUp | pi/pi-extensions/ainsel-runner/index.ts:1049-1097 | any run at all goes on at some poll if and only if one given up in one of the three ways does |
| RunnerAttribution.BackstopLeaks | pi/pi-extensions/ainsel-runner/index.ts:814-817 | a concrete history through the documented window: the backstop expires and the tail lands in the next task |
| RunnerAttribution.LateSettleAcks | pi/pi-extensions/ainsel-runner/index.ts:735-741 | a concrete history through the same window: the abandoned run settles late, closes the next turn, and that task is acked with the other run's message while its own run is silent |
| RunnerAttribution.ThrowLeaks | pi/pi-extensions/ainsel-runner/index.ts:1088-1097 | a concrete history through the other window: sending throws, the run goes on, its message lands in the next task |
| RunnerAttribution.AbandonThrowLeaks | pi/pi-extensions/ainsel-runner/index.ts:1074-1097 | a concrete history through the third window: after a time-out `abort` or `isIdle` throws, no backstop fires, and the run's message lands in the next task |
| RunnerAttribution.OwnStep | pi/pi-extensions/ainsel-runner/index.ts:1052-1146 | between sending and the verdict there is always a timer or a continuation of the runner's own that brings the verdict closer |
| RunnerAttribution.VerdictIsSent | pi/pi-extensions/ainsel-runner/index.ts:1052-1156 | once the message is sent, timers and continuations alone send the hub a verdict for every claimed task; only its answer is then missing for the next poll |
| RunnerObjects.LoopDelivers | pi/pi-extensions/ainsel-runner/index.ts:992-1168 | of the objects: however their methods were called, the hub has every finished turn once, in the order of the claims, with all that was heard and the verdict it deserves |
| RunnerObjects.LoopAcks | pi/pi-extensions/ainsel-runner/index.ts:1049-1167 | of the objects: which turns were acked, if and only if |
| RunnerObjects.TrackerIsCurrent | pi/pi-extensions/ainsel-runner/index.ts:679-703 | of the objects: the shared tracker holds nothing of an older turn, its context is the running task's, its drain resolver is set exactly while a drain waits |
| RunnerObjects.TurnTracker.FlushTurnMessages | pi/pi-extensions/ainsel-runner/index.ts:865-870 | queues fresh messages on the installed context when its generation is the active one, and changes no other context |
| RunnerObjects.TaskPostContext.QueueConversationFlush | pi/pi-extensions/ainsel-runner/index.ts:850-858 | appends one link with the unposted messages of its generation after the chain's tail, or nothing |
| RunnerObjects.PollLoop.StartTurn | pi/pi-extensions/ainsel-runner/index.ts:1030-1050 | the same for the start of a turn; installs a fresh context that tracker and loop share |
| RunnerObjects.PollLoop.OnMessageEnd | pi/pi-extensions/ainsel-runner/index.ts:1244-1258 | keeps the objects in the state of the history with this event added; captures every message, records the end of an assistant's |
| RunnerObjects.PollLoop.OnTurnEnd | pi/pi-extensions/ainsel-runner/index.ts:1231-1234 | the same for a `turn_end`; flushes through the tracker's reference, so a detached context is left alone |
| RunnerObjects.PollLoop.OnAgentSettled | pi/pi-extensions/ainsel-runner/index.ts:1239-1242 | the same for a settled run; wakes the waiting frame, turn or drain, and no other |
| RunnerObjects.PollLoop.OnRaceResumed | pi/pi-extensions/ainsel-runner/index.ts:1057-1087 | the same for the end of the race; judges a finished turn, or closes a timed-out one and starts the drain |
| RunnerObjects.PollLoop.OnAbandonThrew | pi/pi-extensions/ainsel-runner/index.ts:1060-1097 | the same for a throw while a timed-out turn is abandoned; the turn is closed, nothing is drained, the rest is flushed |
| RunnerObjects.PollLoop.Judge | pi/pi-extensions/ainsel-runner/index.ts:1099-1131 | the verdict computed from the tracker is the one that what was heard in the turn deserves, and the mismatch branch is never it |
| RunnerObjects.PollLoop.FinalFlush | pi/pi-extensions/ainsel-runner/index.ts:1141-1146 | detaches the context, queues the rest through the local reference and awaits the tail |
| RunnerObjects.PollLoop.OnChainResumed | pi/pi-extensions/ainsel-runner/index.ts:1145-1156 | the verdict step hands the hub exactly one more delivery: the running task, all that its turn heard, and the verdict that deserves |
| Redaction.AlwaysRemovedIffRobust | pi/pi-extensions/ainsel-runner/index.ts:103 | one `replaceAll` removes its pattern from every text if and only if the pattern neither starts nor ends with a star nor contains three in a row |
| Redaction.ReplacesInPlace | pi/pi-extensions/ainsel-runner/index.ts:103 | one `replaceAll` takes the text apart at its occurrences, each the first in what is left, and glues the very same pieces together with stars |
| Redaction.Survivor | pi/pi-extensions/ainsel-runner/index.ts:103 | for every other pattern, a text that still holds it after redaction |
| Redaction.NoneSurvives | pi/pi-extensions/ainsel-runner/index.ts:101-109 | a robust pattern is gone after all replacements, whatever the other patterns put in after it |
| Redaction.EscapeKeepsRobust | pi/pi-extensions/ainsel-runner/index.ts:104-108 | the JSON-escaped form of a robust secret is robust |
| Redaction.EscapeReadsBack | pi/pi-extensions/ainsel-runner/index.ts:104-105 | reading the escaped form as the contents of a JSON string gives the value back |
| Redaction.EscapedWithin | pi/pi-extensions/ainsel-runner/index.ts:104-108 | a JSON string that holds a secret holds its escaped form |
| Redaction.NoSecretLeaves | pi/pi-extensions/ainsel-runner/index.ts:79-111 | no redacted text holds a robust secret of the environment, raw or escaped |
| Redaction.RedactionCertainExactlyWhen | pi/pi-extensions/ainsel-runner/index.ts:79-111 | for a sensitive variable: its value is gone from every redacted text in every environment that has it if and only if the value neither starts nor ends with a star nor contains three in a row |
| Redaction.SurvivesRedaction | pi/pi-extensions/ainsel-runner/index.ts:97-111 | for every other value, a text that still holds it after the raw and the escaped form were replaced |
| Redaction.BuildSecretList | pi/pi-extensions/ainsel-runner/index.ts:79-90 | lists exactly the values of the sensitive variables, each once |
| Redaction.SensitiveExactly | pi/pi-extensions/ainsel-runner/index.ts:37-75 | a variable is a secret if and only if its value has eight characters and it is neither named nor prefixed as harmless |
| Redaction.SecretsExactly | pi/pi-extensions/ainsel-runner/index.ts:79-90 | the same of the list as a function of the environment |
| Redaction.Redactor.RedactSecrets | pi/pi-extensions/ainsel-runner/index.ts:97-111 | memoizes the list of the first call and applies every replacement in order |
| Redaction.TruncationIsExact | pi/pi-extensions/ainsel-runner/index.ts:162-172 | a text over the cap keeps exactly `maxChars` characters, three quarters from the head, and the marker states the true number left out; texts that fit are the next row |
| Redaction.CappedResultKeeps | pi/pi-extensions/ainsel-runner/index.ts:191-213 | a capped result keeps the number, order and kind of its blocks, of one that is no text its type and nothing else, and every other value as it is; every text that fits is what redaction makes of it, and a clean one that fits comes back unchanged |
| Redaction.FittingTextKept | pi/pi-extensions/ainsel-runner/index.ts:163-164 | a text that fits is cut nowhere |
| Redaction.TruncationIsClean | pi/pi-extensions/ainsel-runner/index.ts:162-172 | cutting never brings a pattern back unless the marker with its newlines spells it |
| Redaction.CappedTextHoldsNoSecret | pi/pi-extensions/ainsel-runner/index.ts:194-196 | redaction before truncation leaves no robust secret, raw or escaped, unless the marker with its newlines spells it |
| Redaction.CappedCertainExactlyWhen | pi/pi-extensions/ainsel-runner/index.ts:185-196 | a sensitive value is in no capped text, whatever text, cap and environment, if and only if it is robust and the marker with its newlines does not spell it |
| Redaction.CappedFormExactlyWhen | pi/pi-extensions/ainsel-runner/index.ts:185-196 | the same for either form of a robust secret |
| Redaction.BroughtBack | pi/pi-extensions/ainsel-runner/index.ts:162-172 | for every pattern so spelled, a text and a cap that bring it back |
| Redaction.NewlineEndIsSpelled | pi/pi-extensions/ainsel-runner/index.ts:167-171 | a pattern that starts or ends with a newline is always spelled |
| Redaction.NewlineComesBack | pi/pi-extensions/ainsel-runner/index.ts:185-196 | a concrete robust secret ending in a newline that a text does not hold and its capped form does |
| Redaction.CappedResultHoldsNoSecret | pi/pi-extensions/ainsel-runner/index.ts:191-213 | the same, under the same two conditions, for every text of a tool result, string or blocks |
| Cron.ParsePart | shared/api/cron/schedule.go:101-141 | the mask of one part as `PartMask` has it; what the text of a part says is `CronText.ItemMask` |
| Cron.Steps | shared/api/cron/schedule.go:136-139 | the stepping loop with a 64-bit counter yields exactly the covered values, or panics exactly on overflow |
| Cron.ParseField | shared/api/cron/schedule.go:83-97 | the union of the parts, the first bad part deciding |
| Cron.Parse | shared/api/cron/schedule.go:40-79 | exactly five fields, read in order within their bounds, with Sunday folded to 0 |
| Cron.FieldMeaning | shared/api/cron/schedule.go:83-141 | of any accepted text, however it is spelled: a value matches if and only if some part lists it, values stay within the field, and there is one; the ranges themselves are told by `CronText.FieldSays` |
| CronText.ItemMask | shared/api/cron/schedule.go:101-141 | "*", a number or "a-b", each with or without "/s", covers exactly the values from its first to its last in its steps; it is invalid out of order, out of bounds or with step zero, and panics when the first step wraps |
| CronText.FieldSays | shared/api/cron/schedule.go:83-97 | a field of such items joined by commas matches exactly the values some item runs through |
| CronText.FieldRefused | shared/api/cron/schedule.go:83-141 | the first item that is out of order, out of bounds, of step zero or too large for the machine decides: invalid, or the panic |
| CronText.ExpressionSays | shared/api/cron/schedule.go:40-79 | five such fields joined by blanks parse, and minute, hour, day, month and weekday match exactly what their fields say, 7 being Sunday too |
| Cron.ParsedMasks | shared/api/cron/schedule.go:40-79 | every mask of a parsed schedule is non-empty and within its field |
| Cron.ParsedWeekdays | shared/api/cron/schedule.go:62-70 | the weekday mask never keeps 7, has 0 if and only if 0 or 7 was listed, and any other day if and only if it was |
| Cron.PanicsExactlyWhen | shared/api/cron/schedule.go:83-97 | reading the parts of a field panics if and only if the first bad part is well formed and its first step leaves the 64-bit range |
| Cron.ExpressionPanicsExactlyWhen | shared/api/cron/schedule.go:40-79 | the parser of a whole expression panics if and only if some field does and every field before it can be read |
| Cron.LargeStepPanics | shared/api/cron/schedule.go:136-139 | a five-field text that panics: minute `1/` with the greatest 64-bit number |
| Cron.FieldsJoined | shared/api/cron/schedule.go:40-44 | words joined by blanks are read as those fields |
| Cron.DescribeMask | shared/api/cron/schedule.go:196-211 | the loop lists the values of the mask in order |
| Cron.DescribeRoundTrip | shared/api/cron/schedule.go:196-211 | joining the described values with commas and parsing them again gives the same mask |
| CronNext.Next | shared/api/cron/schedule.go:146-192 | a result is the earliest fire after t; no result means no fire on any day before the limit's day |
| CronNext.ScanDay | shared/api/cron/schedule.go:175-189 | the first fire after t on one matching day, or none on it |
| CronNext.NextIsUnique | shared/api/cron/schedule.go:142-146 | at most one answer meets the promise |
| CronNext.DaysFired | shared/api/cron/schedule.go:157-171 | the Vixie rule case by case: one day field given decides alone, of two either does |
| CronNext.MondayAtNine | shared/api/cron/schedule.go:146-192 | "0 9 * * 1-5" asked at noon on Saturday, 6 January 2024, fires on Monday at nine |
| CronNext.FiveYearsSuffice | shared/api/cron/schedule.go:143-151 | for a schedule that can fire off 29 February a fire is always found, from any instant |
| CronNext.LimitIsHarmlessExactlyWhen | shared/api/cron/schedule.go:143-151 | no fire is ever missed if and only if the schedule can fire off 29 February or never fires |
| CronNext.MissesExactlyWhen | shared/api/cron/schedule.go:143-151 | of the masks of any parsed schedule: a fire is missed at some time if and only if they allow 29 February and no other day |
| CronNext.MissedExactlyWhen | shared/api/cron/schedule.go:143-192 | at a given time, such a schedule misses a fire if and only if none of six years has a leap day that fires after it and before the limit |
| CronNext.LeapDayIsMissed | shared/api/cron/schedule.go:151 | any schedule for 29 February only finds nothing on 1 March 2096 although it fires again |
| CronNext.LeapDayTextIsMissed | shared/api/cron/schedule.go:146-151 | `0 0 29 2 *` is such a schedule, parsed from its text |
| Calendar.DayNumberOrders | shared/api/cron/schedule.go:153 | day numbers order valid dates as year, month and day do, and name them uniquely |
| Calendar.NextDayCounts | shared/api/cron/schedule.go:153 | the day after a valid date is valid and numbered one more |
| Calendar.WeekdayAdvances | shared/api/cron/schedule.go:164 | weekdays follow one another, Saturday by Sunday |
| Calendar.Epoch | shared/api/cron/schedule.go:164 | 1 January 1970 was a Thursday |
| RelationGraph.GraphBuilder.Build | frontend/src/api/channels.ts:382-488 | the connections drawn are exactly those that enter the root or leave a channel reached in fewer than `downDepth` steps; channels are expanded once each, in the order of the search; the ends placed are the root, the feeders in order and then the targets in that order, and every node has the name and ghost status of the first end placed in its slot; a node can be clicked if and only if it is resolved and has an id, and leads there; the summaries list the far ends in order, each with its label unless the same line was drawn before |
| RelationGraph.GraphBuilder.IsEmpty | frontend/src/api/channels.ts:486 | one node and no line if and only if no connection was drawn |
| RelationGraph.GraphBuilder.AddNode | frontend/src/api/channels.ts:396-411 | keys and slots stay one to one, an existing slot keeps its key and node, a new one gets the name and ghost status asked for, and only known channels become links |
| ConsoleGraph.RootNode | frontend/src/api/channels.ts:424 | the root's node is the root's own, no ghost, and leads to it |
| ConsoleGraph.ConsoleNodes | frontend/src/api/channels.ts:251-271 | in a graph built from subscriptions a node other than the root's is a ghost if and only if the channel list does not have its id; one that is not shows the channel's name and leads to that channel, and a ghost leads nowhere |
| ConsoleGraph.LabelSays | frontend/src/api/channels.ts:415-416 | what the line of a trigger and of a bridge says |
| RelationGraph.KnownTargets | frontend/src/api/channels.ts:460-463 | the channels newly found behind a node are the known targets of its connections |
| RelationGraph.GraphBuilder.AddEdge | frontend/src/api/channels.ts:415-422 | adds a line, and returns its label, if and only if no line with the same ends and label is there |
| RelationGraph.GraphBuilder.DrawFeeders | frontend/src/api/channels.ts:428-438 | draws exactly the connections into the root, and lists them |
| RelationGraph.GraphBuilder.ExpandNode | frontend/src/api/channels.ts:448-464 | draws every connection out of a node and queues each new target once |
| RelationGraph.GraphBuilder.ExpandLevel | frontend/src/api/channels.ts:445-467 | expands one frontier into the next level of the search |
| RelationGraph.DrawingGrows | frontend/src/api/channels.ts:396-422 | adding a connection keeps: every drawn connection has its line, every line has its connection, no line twice, no node without cause |
| RelationGraph.EdgeSlotInjective | frontend/src/api/channels.ts:417 | the text under which an edge is remembered determines its ends and label |
| RelationGraph.DistinctNodesExactlyWhen | frontend/src/api/channels.ts:402-406 | distinct ends get distinct nodes if and only if the drawn connections do not have both an end without identity and one literally called `~unknown` |
| RelationGraph.MergedExactlyWhen | frontend/src/api/channels.ts:402-406 | two ends of drawn connections share a node though different if and only if they are that pair |
| RelationGraph.UnknownIsConfused | frontend/src/api/channels.ts:402 | two connections with different such ends, both drawn at every depth |
| ConsoleGraph.UnknownEndExactlyWhen | frontend/src/api/channels.ts:251-271 | an end of a connection built from a subscription is called `~unknown` if and only if the subscription names a channel of that id |
| ConsoleGraph.ConsoleGraphsAreClear | frontend/src/api/channels.ts:251-271 | with the ids the hub generates, distinct ends of built connections always get distinct nodes |
| RelationGraph.ReachedIffWalk | frontend/src/api/channels.ts:440-467 | the channels reached in n rounds are exactly the ends of walks of at most n resolved connections |
| RelationGraph.RoundsBounded | frontend/src/api/channels.ts:443-445 | the search grows for at most as many rounds as there are connections, cyclic or not |
| RelationGraph.DeepEnough | frontend/src/api/channels.ts:445 | a depth beyond the number of connections draws exactly what any walk from the root can leave |
| RelationGraph.SearchStep | frontend/src/api/channels.ts:443-467 | one level of the search keeps visited, frontier and expanded in step with reachability |
| Scaling.QuietRun | operators/agent/internal/controller/scaling.go:113-203 | over any run that shows no work the count never rises and never falls below the floor |
| Scaling.NeverZeroUnproven | operators/agent/internal/controller/scaling.go:113-203 | over any run a running agent stays running until some reconcile has proof of quiet |
| Scaling.BelowFloorOverRuns | operators/agent/internal/controller/scaling.go:113-203 | over any run the count is below the floor if and only if it started there and every reconcile so far fell into the grace period |
| Scaling.GraceStaysBelowFloor | operators/agent/internal/controller/scaling.go:188-202 | a concrete agent, floor two and one pod, that a reconcile leaves at one |
| Scaling.PinnedOverRuns | frontend/src/pages/agents/agentFormModel.ts:102-139 | with wake-on-demand off, over any run the count is exactly `replicas` if and only if it started there or above or some reconcile fell outside the grace period |
| Scaling.FixedOverRuns | operators/agent/internal/controller/scaling.go:113-135 | without a floor in its spec an agent has exactly `replicas` pods, one when unset, and with a ceiling of zero none, at every reconcile of every run |
| Scaling.FixedIsDeaf | operators/agent/internal/controller/scaling.go:113-135 | so two such runs never differ, whatever their signals, clocks, settings and starts |
| Scaling.ReasonsMean | operators/agent/internal/controller/scaling.go:113-203 | when each reason is given, and when the agent is looked at again |
| Scaling.FreshExactlyWhen | operators/agent/internal/controller/scaling.go:219-229 | a signal is fresh if and only if it is at most the time to live old, five minutes by default, and at most thirty seconds ahead |
| Scaling.GraceExactlyWhen | operators/agent/internal/controller/scaling.go:234-243 | without work the grace period lasts exactly until the window after the last invocation, two minutes by default, and is proof of quiet after it |
| Scaling.BoundsMean | operators/agent/internal/controller/scaling.go:71-90 | the ceiling is one by default; the floor is as asked for, within zero and the ceiling |
| Scaling.FormMeans | frontend/src/pages/agents/agentFormModel.ts:107-139 | the checkbox moves the floor between zero and the ceiling and nothing else |
| Scaling.ZeroExactlyWhen | operators/agent/internal/controller/scaling.go:113-203 | a running agent goes to zero if and only if its floor is zero and a fresh signal proves the whole window quiet |
| Scaling.OnePodPerTask | operators/agent/internal/controller/scaling.go:154-164 | with work, one pod per task unless the ceiling or the floor says otherwise |
| Scaling.GraceEndsOnTime | operators/agent/internal/controller/scaling.go:166-202 | the requeue delay of the grace period is exactly when the decision changes to the floor |
| Scaling.BlindHolds | operators/agent/internal/controller/scaling.go:134-152 | without a fresh signal the count moves no further than its bounds demand, so a count within them is held |
| Scaling.SecondLookAgrees | operators/agent/internal/controller/scaling.go:113-203 | a reconcile that finds its decision carried out decides the same again; the decisions themselves are the other rows |
| Retention.PlanForRepo | scripts/hub-retention.py:288-302 | the loop over rank counters gives the plan that the rows below are about |
| Retention.PlanAgain | scripts/hub-retention.py:288-302 | whichever of the planned deletions succeed, planning again decides every tag that is left as before, in the same order |
| Retention.NewestFirstSorts | scripts/hub-retention.py:290 | the order is sorted and a permutation of the listing |
| Retention.EqualTimesStay | scripts/hub-retention.py:290 | tags of one instant keep the order of the listing |
| Retention.PlanIsAFixpoint | scripts/hub-retention.py:288-302 | after any of the planned deletions, planning again asks for exactly those that are missing, and once all are done for none |
| Retention.SortWithout | scripts/hub-retention.py:290 | deleting and sorting commute |
| Retention.KeptComeFirst | scripts/hub-retention.py:208-223 | in a disposable class everything kept is newer than, or before, everything deleted |
| Retention.FloorSurvives | scripts/hub-retention.py:208-213 | whichever deletions succeed, of each disposable class at least the floor, or all, are left |
| Retention.RaisingKeeps | scripts/hub-retention.py:208-223 | raising any threshold never deletes a tag that was kept |
| Retention.ReleaseCoreOfVariant | scripts/hub-retention.py:159-167 | a variant release tag is compared by its own version, never by its toolchain prefix |
| Retention.LatestReleaseSurvives | scripts/hub-retention.py:154-206 | no tag with the numbers of the latest release is ever deleted, however either is spelled: leading `v`, suffix, variant prefix |
| Retention.LeadingV | scripts/hub-retention.py:154-156 | a leading `v` changes neither that a text is a version nor its numbers |
| RetentionNames.ClassSays | scripts/hub-retention.py:135-151 | the class of any name is the first of the written shapes it has: the names in use, build caches, floating tags, releases, short and variant hashes, or none |
| RetentionNames.CacheDecided | scripts/hub-retention.py:179-189 | a build cache is deleted if and only if no registry cache is live |
| RetentionNames.NamesKept | scripts/hub-retention.py:175-177 | names in use and floating tags are protected, names of no shape are left alone |
| RetentionNames.ReleaseDecided | scripts/hub-retention.py:191-206 | a release is deleted if and only if releases are included and its three numbers come before the latest one's; variants, suffixes and the `v` of either make no difference |
| RetentionNames.ReleaseHeld | scripts/hub-retention.py:226-232 | without a latest release, or with one that names no version, every release is protected |
| RetentionNames.BuildDecided | scripts/hub-retention.py:208-223 | a build's own tag is kept as newest below its class's floor, as recent within the days, and deleted otherwise |
| RetentionNames.ComparedByNumbers | scripts/hub-retention.py:154-156 | versions compare by their three numbers |
| RetentionNames.PlanCovers | scripts/hub-retention.py:288-302 | every tag of the listing is decided, and nothing else is |
| EventFilters.DecodeEncode | frontend/src/utils/eventFilters.ts:5-28 | percent decoding inverts percent encoding on every string |
| EventFilters.NoSeparators | frontend/src/utils/eventFilters.ts:5-10 | neither separator survives encoding |
| EventFilters.FiltersRoundTrip | frontend/src/utils/eventFilters.ts:5-28 | parsing an encoded list gives exactly its complete filters, in order |
| EventFilters.CompletesAppend | frontend/src/utils/eventFilters.ts:6-7 | what is kept of a list is kept part by part, in order |
| EventFilters.CompletesHold | frontend/src/utils/eventFilters.ts:6-7 | kept are exactly the filters with field, operator and value |
| EventFilters.EncodedForms | frontend/src/utils/eventFilters.ts:8 | the escapes of a blank, the separators, a percent sign and of characters of two and three bytes |
| EventFilters.MalformedDropped | frontend/src/utils/eventFilters.ts:16-27 | a part with fewer than two colons is dropped |
| Filters.ResolveField | shared/api/filter.go:182-196 | the walk over the parts finds what the dotted path names |
| Filters.Match | shared/api/filter.go:19-147 | the branches and loops decide what the operator means of the value found |
| Filters.MatchFilters | shared/api/filter.go:151-158 | matches if and only if every filter of the list holds, so order and grouping do not matter |
| Filters.ScalarSays | shared/api/filter.go:101-146 | on a text, a truth value or a number each operator holds if and only if the text comes apart as it says; an unknown operator never does |
| Filters.ArraySays | shared/api/filter.go:49-99 | on an array each operator holds if and only if some item does, equality only of an array of one |
| Filters.OthersSay | shared/api/filter.go:20-47 | null equals the empty text and "null" only, and nothing holds of an object or where the path leads nowhere |
| Filters.TextsCompared | shared/api/filter.go:101-112 | how scalars print |
| Filters.OneOfTheTwoExactlyWhen | shared/api/filter.go:25-140 | of eq and neq, contains and not-contains, in and not-in, exactly one holds if and only if the path leads to a value that is no object and, for equality, no array but the single matching one |
| Filters.NeverBoth | shared/api/filter.go:25-140 | a filter and its negation never both hold |
| Filters.EqualImpliesContains | shared/api/filter.go:25-140 | equality implies containment if and only if the value is not null |
| Filters.NullEqualsWithoutContaining | shared/api/filter.go:26-34 | the payload {"a": null} equals the empty text and does not contain it |
| Filters.PathsCompose | shared/api/filter.go:182-196 | a dotted path resolves one part after the other, in any grouping |
| ImageRef.ParseImageRef | operators/agent/internal/controller/imagedigest.go:153-185 | the step-by-step parser computes the triple that the lemmas below are about |
| ImageRef.ParsingIsNormal | operators/agent/internal/controller/imagedigest.go:153-185 | registry + "/" + repository + ":" + tag of any result parses to the same triple |
| ImageRef.WrittenReadsBack | operators/agent/internal/controller/imagedigest.go:153-185 | every well-formed triple is the result of parsing what it spells |
| ImageRef.ResultWellFormed | operators/agent/internal/controller/imagedigest.go:140-185 | the tag has no slash or colon, the registry is a host, a Docker Hub repository has a slash |
| ImageRef.DefaultTag | operators/agent/internal/controller/imagedigest.go:154-168 | saying the default tag changes nothing for a reference without one |
| ImageRef.DefaultRegistry | operators/agent/internal/controller/imagedigest.go:170-184 | saying the default registry changes nothing for a path without a host |
| ImageRef.HostExactlyWhen | operators/agent/internal/controller/imagedigest.go:170-178 | the first component is the registry if and only if it has a dot or a colon or is "localhost" |
| ImageRef.ShortForms | operators/agent/internal/controller/imagedigest.go:154-184 | "localhost/x:t" and every bare name |
| ServerLists.ParseServers | pi/pi-extensions/ainsel-mcp/parse.ts:14-40 | the loop keeps the first entry of each name, or reports a malformed list |
| ServerLists.ParseTokens | pi/pi-extensions/ainsel-mcp/parse.ts:46-62 | the loop keeps the last token of each name and skips malformed entries |
| ServerLists.EntryBySteps | pi/pi-extensions/ainsel-mcp/parse.ts:21-34 | an entry that passes the first test has two non-blank sides, so the second test never fails |
| ServerLists.EntrySays | pi/pi-extensions/ainsel-mcp/parse.ts:21-29 | an entry is its name and value, with any blanks around either |
| ServerLists.MalformedExactlyWhen | pi/pi-extensions/ainsel-mcp/parse.ts:20-27 | a list is malformed if and only if some trimmed entry lacks an equals sign or has its first one at an end |
| ServerLists.TrimMeans | pi/pi-extensions/ainsel-mcp/parse.ts:15 | trimming drops blanks at both ends and nothing else |
| ServerLists.LastsMean | pi/pi-extensions/ainsel-mcp/parse.ts:51-60 | the last token of a name counts |
| ServerLists.FirstsMeaning | pi/pi-extensions/ainsel-mcp/parse.ts:35-38 | the list has distinct names, every name of the input, and exactly the first entry of each |
| ServerLists.ServersReadBack | pi/pi-extensions/ainsel-mcp/parse.ts:14-40 | printing an accepted list and parsing it again is the identity |
| ServerLists.TokensNameTheServers | pi/pi-extensions/ainsel-mcp/parse.ts:14-62 | both parsers find the same names in an accepted list, and the same values once it is written without duplicates |
| ToolNames.SplitsBackExactlyWhen | pi/pi-extensions/ainsel-mcp/catalog.ts:115-139 | splitting a tool name recovers server and tool if and only if the server has no "__" and does not end in "_" |
| ToolNames.ConsoleNamesAreSeparable | frontend/src/pages/mcp-servers/MCPServerForm.tsx:24 | the console's name rule guarantees it |
| ToolNames.NamesDiffer | pi/pi-extensions/ainsel-mcp/catalog.ts:115 | distinct tools of separable servers have distinct names |
| ToolNames.NamesMayClash | pi/pi-extensions/ainsel-mcp/catalog.ts:115-139 | without the rule two tools can share a name, and the call goes to the wrong one |
| ToolNames.RefusedExactlyWhen | pi/pi-extensions/ainsel-mcp/catalog.ts:134-142 | a call is refused if and only if its name lacks the prefix or a separator after it, or names a server that is not connected |
| ToolNames.Catalog.ConnectServer | pi/pi-extensions/ainsel-mcp/catalog.ts:109-122 | adds the server and everything it offers, and keeps every tool tied to a connected server and its full name |
| ToolNames.Catalog.Call | pi/pi-extensions/ainsel-mcp/catalog.ts:129-161 | refuses or routes a call by its name |
| ToolNames.ReachedExactlyWhen | pi/pi-extensions/ainsel-mcp/catalog.ts:129-161 | a listed tool called by its listed name reaches its own server under its own name if and only if that server is separable |
| ToolNames.UserAddedWhenWanted | pi/pi-extensions/ainsel-mcp/catalog.ts:144-153 | the agent's name is added only for a tool that the server reached lists as wanting it |
| Recents.Store.GetAgentRecents | frontend/src/agentRecents.ts:28-41 | shows at most five non-empty ids |
| Recents.Store.RecordAgentView | frontend/src/agentRecents.ts:48-58 | moves the id to the front, or writes and announces nothing when it is there already |
| Recents.RefinesExactlyWhen | frontend/src/agentRecents.ts:28-58 | over a whole history the bounded list follows the unbounded one if and only if the empty id is never viewed while the list is full |
| Recents.HistoryRefined | frontend/src/agentRecents.ts:28-58 | with real ids the store holds the first five distinct ids of the history read backwards |
| Recents.LatestMeans | frontend/src/agentRecents.ts:27-58 | the unbounded list is every id ever viewed, ordered by its last view |
| Recents.EmptyView | frontend/src/agentRecents.ts:35-51 | viewing the empty id costs a full list its oldest entry and changes no other |
| Headings.ParseHeadings | frontend/src/pages/docs/DocsPage.tsx:67-86 | one entry for each heading of level 2 or 3, in order, each with the identifier due to it |
| Headings.OutlineMeans | frontend/src/pages/docs/DocsPage.tsx:71-73 | listed are exactly the headings of the second and third level, in order |
| Headings.ThreeAlike | frontend/src/pages/docs/DocsPage.tsx:77-81 | of three equal headings the second and third get -2 and -3 |
| Headings.FreeId | frontend/src/pages/docs/DocsPage.tsx:75-81 | the suffix search ends and finds the least free suffix |
| Headings.Pigeonhole | frontend/src/pages/docs/DocsPage.tsx:78-79 | n - 2 taken suffixes need n - 2 identifiers in use, which bounds the search |
| Headings.IdsDiffer | frontend/src/pages/docs/DocsPage.tsx:69-83 | identifiers are pairwise distinct |
| Headings.IdsAreStable | frontend/src/pages/docs/DocsPage.tsx:67-86 | appending text to a page never changes the identifiers it already has |

## Left out

- Redaction.NoSecretLeaves: holds of robust secrets only; the others can survive, by `Redaction.SurvivesRedaction`.
- Retention.PlanAgain: needs distinct tag names, which a registry guarantees and the planner does not check.
- Runner: failures of the hub calls (they are swallowed; only the call itself is modelled), the time-out and retries inside a post, task logs, metrics, log lines, polling errors and their sleeps, and the shape of the posted payload.
- Runner: pi's behaviour is an assumption where a theorem needs it (`RunnerAttribution.Behaves`: events come from live runs only); that it settles a run once, or that `abort` ends one, is not claimed.
- Redaction and event filters: lone UTF-16 surrogates, since characters here are Unicode scalar values; so lengths count characters, not UTF-16 units.
- Redaction: the JSON text around a capped result, so the failing inputs shown are inputs of `capToolResultContent`, not of the whole message; an environment listing a variable twice; resetting the memo, which only its tests do; reading the cap from the environment.
- Cron: time zones and daylight saving (UTC only), years outside the range of Go's time type, error texts.
- Graph: node text cleaning, the rendered Mermaid string, the bridge ids of built connections, and `isChannelDeletable`, a single expression.
- Scaler: 32-bit overflow of pending + active, negative replicas, the texts of its messages.
- Retention: the floating-point rounding of ages (exact microseconds here), `re`'s `$` before a final newline and its Unicode digits, reasons, reports and `summarise`, Docker Hub requests.
- Image references: digests and the registry requests that use the parsed triple.
- Payload filters: number formatting, the printed form of nested arrays and objects, and regular expressions are parameters.
- Server lists: assigning the token of a server named `__proto__`, which a JavaScript object treats specially.
- Tool catalogue: connection retries, transports, the upstream call itself.
- Recents: storage that fails, holds something else than an array of strings, or is edited by hand.
- Headings: the Markdown lexer, slug rules and inline markup, which are parameters.
- React components, OIDC, the hub's queue and the Kubernetes reconcilers.
