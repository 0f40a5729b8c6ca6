/** The queue-driven scaler: how many pods an agent gets at one reconcile, and over runs of them. */
module Scaling {
  import opened Wrappers

  const SECOND := 1_000_000_000
  const DEFAULT_SCALE_DOWN_WINDOW := 120 * SECOND
  const DEFAULT_QUEUE_SIGNAL_TTL := 300 * SECOND
  const QUEUE_STALE_REQUEUE := 15 * SECOND
  const CLOCK_SKEW_TOLERANCE := 30 * SECOND

  /** Instants are nanoseconds; Go's zero time is 0. */
  const ZERO_TIME := 0

  datatype Spec = Spec(replicas: Option<int>, minReplicas: Option<int>)

  datatype Status = Status(
    queueObservedAt: Option<int>,
    pendingTasks: int,
    activeTasks: int,
    lastInvocation: Option<int>)

  /** The reconciler's settings; values that are not positive mean the defaults. */
  datatype Settings = Settings(scaleDownWindow: int, queueSignalTTL: int)

  datatype Reason = Static | QueueDepth | Dormant | IdleGrace | QueueSignalStale | ScaledToZero | Disabled

  datatype Decision = Decision(replicas: int, reason: Reason, requeueAfter: int)

  function Window(c: Settings): int {
    if c.scaleDownWindow > 0 then c.scaleDownWindow else DEFAULT_SCALE_DOWN_WINDOW
  }

  function TTL(c: Settings): int {
    if c.queueSignalTTL > 0 then c.queueSignalTTL else DEFAULT_QUEUE_SIGNAL_TTL
  }

  function MaxReplicas(s: Spec): int {
    s.replicas.GetOr(1)
  }

  function MinReplicas(s: Spec): Option<int> {
    if s.minReplicas.None? then None
    else Some(if s.minReplicas.value < 0 then 0 else s.minReplicas.value)
  }

  function Clamp(v: int, low: int, high: int): int {
    if v < low then low else if v > high then high else v
  }

  /** Pending and active tasks, when the signal is recent enough to act on. */
  function QueueSignal(st: Status, now: int, ttl: int): Option<(int, int)> {
    if st.queueObservedAt.None? then None
    else
      var observed := st.queueObservedAt.value;
      var age := now - observed;
      if observed == ZERO_TIME || age > ttl || age < -CLOCK_SKEW_TOLERANCE then None
      else Some((st.pendingTasks, st.activeTasks))
  }

  /** How long the agent has been quiet; None when it has never been given work. */
  function QuietFor(st: Status, now: int): Option<int> {
    if st.lastInvocation.None? then None
    else
      var stamp := st.lastInvocation.value;
      if stamp == ZERO_TIME || stamp > now then (if stamp > now then Some(0) else None)
      else Some(now - stamp)
  }

  function ResolveReplicas(c: Settings, s: Spec, st: Status, current: int, now: int): Decision {
    var max := MaxReplicas(s);
    if MinReplicas(s).None? then Decision(max, Static, 0)
    else
      var minP := if MinReplicas(s).value > max then max else MinReplicas(s).value;
      if max == 0 then Decision(0, Disabled, 0)
      else
        var signal := QueueSignal(st, now, TTL(c));
        if signal.None? then
          var raised := if current < minP then minP else current;
          Decision(if raised > max then max else raised, QueueSignalStale, QUEUE_STALE_REQUEUE)
        else
          var work := signal.value.0 + signal.value.1;
          if work > 0 then Decision(Clamp(work, minP, max), QueueDepth, 0)
          else
            var idle := QuietFor(st, now);
            if idle.None? then Decision(minP, Dormant, 0)
            else if idle.value >= Window(c) then
              Decision(minP, if minP == 0 then ScaledToZero else Dormant, 0)
            else
              var hold := if minP > 1 then minP else 1;
              Decision(if current < hold then current else hold, IdleGrace, Window(c) - idle.value)
  }

  // ---------------------------------------------------------------------------
  // One reconcile
  // ---------------------------------------------------------------------------

  /** An agent that opted into queue-driven scaling and may have pods. */
  predicate Scalable(s: Spec) {
    s.minReplicas.Some? && MaxReplicas(s) >= 1
  }

  function Floor(s: Spec): int
    requires Scalable(s)
  {
    if MinReplicas(s).value > MaxReplicas(s) then MaxReplicas(s) else MinReplicas(s).value
  }

  predicate Fresh(c: Settings, st: Status, now: int) {
    QueueSignal(st, now, TTL(c)).Some?
  }

  predicate ShowsWork(c: Settings, st: Status, now: int) {
    Fresh(c, st, now) && st.pendingTasks + st.activeTasks > 0
  }

  /** Known to be idle, and for less than the window. */
  predicate InGrace(c: Settings, st: Status, now: int) {
    && Fresh(c, st, now) && !ShowsWork(c, st, now)
    && QuietFor(st, now).Some? && QuietFor(st, now).value < Window(c)
  }

  /** Known to be idle, and for the whole window or since ever. */
  predicate ProvenQuiet(c: Settings, st: Status, now: int) {
    && Fresh(c, st, now) && !ShowsWork(c, st, now)
    && (QuietFor(st, now).None? || QuietFor(st, now).value >= Window(c))
  }

  /** The decision is below the floor exactly when the grace period meets an agent that already
      is. */
  lemma BelowFloorExactlyWhen(c: Settings, s: Spec, st: Status, current: int, now: int)
    requires Scalable(s)
    ensures ResolveReplicas(c, s, st, current, now).replicas < Floor(s) <==>
            InGrace(c, st, now) && current < Floor(s)
    ensures ResolveReplicas(c, s, st, current, now).replicas <= MaxReplicas(s)
  {
  }

  /** A running agent is sent to zero exactly when its floor is zero and a fresh signal proves that
      it has been quiet for the window. */
  lemma ZeroExactlyWhen(c: Settings, s: Spec, st: Status, current: int, now: int)
    requires Scalable(s) && current >= 1
    ensures ResolveReplicas(c, s, st, current, now).replicas == 0 <==> Floor(s) == 0 && ProvenQuiet(c, st, now)
    ensures ProvenQuiet(c, st, now) ==> ResolveReplicas(c, s, st, current, now).replicas == Floor(s)
    ensures ProvenQuiet(c, st, now) && st.lastInvocation.Some? && st.lastInvocation.value != ZERO_TIME ==>
              now >= st.lastInvocation.value + Window(c)
  {
  }

  /** A busy agent gets one pod for each task, within its bounds. */
  lemma OnePodPerTask(c: Settings, s: Spec, st: Status, current: int, now: int)
    requires Scalable(s) && ShowsWork(c, st, now)
    ensures var pods, work := ResolveReplicas(c, s, st, current, now).replicas, st.pendingTasks + st.activeTasks;
            && 1 <= pods && Floor(s) <= pods <= MaxReplicas(s)
            && (pods < work ==> pods == MaxReplicas(s))
            && (pods > work ==> pods == Floor(s))
  {
  }

  /** The grace period asks to be looked at again exactly when it ends: until then it holds, and at
      that moment, with no new work, the agent goes to its floor. */
  lemma GraceEndsOnTime(c: Settings, s: Spec, st: Status, current: int, now: int, st': Status, current': int, later: int)
    requires Scalable(s) && current >= 1 && current' >= 1
    requires InGrace(c, st, now) && st.lastInvocation.value <= now <= later
    requires st'.lastInvocation == st.lastInvocation && Fresh(c, st', later) && !ShowsWork(c, st', later)
    ensures var d := ResolveReplicas(c, s, st, current, now);
            var d' := ResolveReplicas(c, s, st', current', later);
            && d.requeueAfter > 0
            && (later < now + d.requeueAfter ==> d'.reason == IdleGrace && d'.replicas >= 1)
            && (later >= now + d.requeueAfter ==> d'.replicas == Floor(s))
  {
  }

  /** Without a fresh signal a count within the bounds is held, and any other moves to the nearer
      bound. */
  lemma BlindHolds(c: Settings, s: Spec, st: Status, current: int, now: int)
    requires Scalable(s) && !Fresh(c, st, now)
    ensures var pods := ResolveReplicas(c, s, st, current, now).replicas;
            && Floor(s) <= pods <= MaxReplicas(s)
            && forall other :: Floor(s) <= other <= MaxReplicas(s) ==> Distance(pods, current) <= Distance(other, current)
  {
  }

  function Distance(a: int, b: int): nat {
    if a < b then b - a else a - b
  }

  /** A reconcile that finds its own decision carried out decides the same again. */
  lemma SecondLookAgrees(c: Settings, s: Spec, st: Status, current: int, now: int)
    ensures var d := ResolveReplicas(c, s, st, current, now);
            ResolveReplicas(c, s, st, d.replicas, now) == d
  {
  }

  // ---------------------------------------------------------------------------
  // The inputs, in numbers
  // ---------------------------------------------------------------------------

  /** A signal is fresh exactly when the hub wrote it at most the time to live ago, five minutes when
      none is set, and at most thirty seconds ahead of this clock. */
  lemma FreshExactlyWhen(c: Settings, st: Status, now: int)
    ensures Fresh(c, st, now) <==>
            exists t :: st.queueObservedAt == Some(t) && t != 0
                        && now - (if c.queueSignalTTL > 0 then c.queueSignalTTL else 300_000_000_000) <= t
                        && t <= now + 30_000_000_000
    ensures Fresh(c, st, now) ==>
              (ShowsWork(c, st, now) <==> st.pendingTasks + st.activeTasks > 0)
  {
    if st.queueObservedAt.Some? {
      var t := st.queueObservedAt.value;
      assert st.queueObservedAt == Some(t);
    }
  }

  /** A fresh signal without work puts the agent in grace exactly while its last invocation is less
      than the window ago, two minutes when none is set, and counts as proof of quiet otherwise. */
  lemma GraceExactlyWhen(c: Settings, st: Status, now: int)
    requires Fresh(c, st, now) && st.pendingTasks + st.activeTasks <= 0
    ensures InGrace(c, st, now) <==>
            exists t :: st.lastInvocation == Some(t) && (t != 0 || t > now)
                        && now < t + (if c.scaleDownWindow > 0 then c.scaleDownWindow else 120_000_000_000)
    ensures ProvenQuiet(c, st, now) <==> !InGrace(c, st, now)
  {
    if st.lastInvocation.Some? {
      var t := st.lastInvocation.value;
      assert st.lastInvocation == Some(t);
    }
  }

  /** What each reason says, and when the agent is to be looked at again. */
  lemma ReasonsMean(c: Settings, s: Spec, st: Status, current: int, now: int)
    ensures var d := ResolveReplicas(c, s, st, current, now);
            && (d.reason == Static <==> s.minReplicas.None?)
            && (d.reason == Disabled <==> s.minReplicas.Some? && s.replicas == Some(0))
            && (Scalable(s) ==>
                  && (d.reason == QueueSignalStale <==> !Fresh(c, st, now))
                  && (d.reason == QueueDepth <==> ShowsWork(c, st, now))
                  && (d.reason == IdleGrace <==> InGrace(c, st, now))
                  && (d.reason in {Dormant, ScaledToZero} <==> ProvenQuiet(c, st, now))
                  && (d.reason == ScaledToZero ==> Floor(s) == 0))
            && (d.requeueAfter != 0 ==> d.reason in {QueueSignalStale, IdleGrace})
            && (d.reason == QueueSignalStale ==> d.requeueAfter == 15_000_000_000)
  {
  }

  /** The floor is what the spec asks for, never negative and never above the ceiling, which is one
      pod when it does not say. */
  lemma BoundsMean(s: Spec)
    requires Scalable(s)
    ensures MaxReplicas(s) == (if s.replicas.Some? then s.replicas.value else 1)
    ensures 0 <= Floor(s) <= MaxReplicas(s)
    ensures 0 <= s.minReplicas.value <= MaxReplicas(s) ==> Floor(s) == s.minReplicas.value
    ensures s.minReplicas.value < 0 ==> Floor(s) == 0
    ensures s.minReplicas.value > MaxReplicas(s) ==> Floor(s) == MaxReplicas(s)
  {
  }

  // ---------------------------------------------------------------------------
  // Runs of reconciles
  // ---------------------------------------------------------------------------

  datatype Look = Look(status: Status, now: int)

  /** The pod counts of a run: each decision is the next reconcile's current count. */
  function Counts(c: Settings, s: Spec, start: int, looks: seq<Look>): (counts: seq<int>)
    ensures |counts| == |looks| + 1 && counts[0] == start
  {
    if looks == [] then [start]
    else
      var n := |looks| - 1;
      var before := Counts(c, s, start, looks[..n]);
      before + [ResolveReplicas(c, s, looks[n].status, before[n], looks[n].now).replicas]
  }

  /** How many pods an agent gets that the queue does not scale: one that did not opt in, or whose
      ceiling is zero. */
  function FixedCount(s: Spec): int {
    if s.minReplicas.Some? then 0 else if s.replicas.Some? then s.replicas.value else 1
  }

  /** Without a floor in its spec an agent has exactly `replicas` pods, one when that is unset, and
      with a ceiling of zero it has none, at every reconcile after the first look, whatever the
      signals, the clock and the count it started with. */
  lemma {:induction false} FixedOverRuns(c: Settings, s: Spec, start: int, looks: seq<Look>, j: nat)
    requires s.minReplicas.None? || s.replicas == Some(0)
    requires 1 <= j <= |looks|
    ensures Counts(c, s, start, looks)[j] == FixedCount(s)
  {
    var n := |looks| - 1;
    if j <= n {
      FixedOverRuns(c, s, start, looks[..n], j);
    }
  }

  /** So no two such runs can differ, and no signal is ever heard. */
  lemma FixedIsDeaf(c: Settings, c': Settings, s: Spec, start: int, start': int, looks: seq<Look>, looks': seq<Look>, j: nat)
    requires s.minReplicas.None? || s.replicas == Some(0)
    requires 1 <= j <= |looks| && j <= |looks'|
    ensures Counts(c, s, start, looks)[j] == Counts(c', s, start', looks')[j]
  {
    FixedOverRuns(c, s, start, looks, j);
    FixedOverRuns(c', s, start', looks', j);
  }

  lemma QuietStep(c: Settings, s: Spec, st: Status, current: int, now: int)
    requires Scalable(s) && !ShowsWork(c, st, now) && current >= Floor(s)
    ensures Floor(s) <= ResolveReplicas(c, s, st, current, now).replicas <= current
  {
  }

  /** Over a run that shows no work the count never rises and never drops below the floor. */
  lemma {:induction false} QuietRun(c: Settings, s: Spec, start: int, looks: seq<Look>, i: nat, j: nat)
    requires Scalable(s) && start >= Floor(s) && i <= j <= |looks|
    requires forall k :: 0 <= k < |looks| ==> !ShowsWork(c, looks[k].status, looks[k].now)
    ensures var counts := Counts(c, s, start, looks);
            counts[i] >= counts[j] >= Floor(s)
  {
    if looks != [] {
      var n := |looks| - 1;
      QuietRun(c, s, start, looks[..n], if i <= n then i else n, if j <= n then j else n);
      if j == n + 1 {
        QuietRun(c, s, start, looks[..n], if i <= n then i else n, n);
        QuietStep(c, s, looks[n].status, Counts(c, s, start, looks[..n])[n], looks[n].now);
      }
    }
  }

  /** One pod, a floor of two, work a second ago and none now: the reconcile leaves one pod. */
  lemma GraceStaysBelowFloor(now: int)
    requires now > 2 * SECOND
    ensures var c, s := Settings(0, 0), Spec(Some(3), Some(2));
            var st := Status(Some(now), 0, 0, Some(now - SECOND));
            Floor(s) == 2 && InGrace(c, st, now) && Counts(c, s, 1, [Look(st, now)]) == [1, 1]
  {
    var st := Status(Some(now), 0, 0, Some(now - SECOND));
    assert [Look(st, now)][..0] == [];
  }

  ghost predicate OutOfGrace(c: Settings, look: Look) {
    !InGrace(c, look.status, look.now)
  }

  /** Over any run the count is below the floor exactly when it started there and every reconcile so
      far fell into the grace period: the first one outside it restores the floor for good. */
  lemma {:induction false} BelowFloorOverRuns(c: Settings, s: Spec, start: int, looks: seq<Look>, j: nat)
    requires Scalable(s) && j <= |looks|
    ensures Counts(c, s, start, looks)[j] < Floor(s) <==>
            start < Floor(s) && forall k :: 0 <= k < j ==> !OutOfGrace(c, looks[k])
  {
    if looks != [] {
      hide ResolveReplicas, Floor, InGrace;
      var n := |looks| - 1;
      BelowFloorOverRuns(c, s, start, looks[..n], if j <= n then j else n);
      BelowFloorExactlyWhen(c, s, looks[n].status, Counts(c, s, start, looks[..n])[n], looks[n].now);
      assert forall k :: 0 <= k < n ==> looks[..n][k] == looks[k];
    }
  }

  /** Over any run, a running agent stays running until some reconcile has proof that it is quiet. */
  lemma {:induction false} NeverZeroUnproven(c: Settings, s: Spec, start: int, looks: seq<Look>, j: nat)
    requires Scalable(s) && start >= 1 && j <= |looks|
    requires forall k :: 0 <= k < j ==> !ProvenQuiet(c, looks[k].status, looks[k].now)
    ensures Counts(c, s, start, looks)[j] >= 1
  {
    if looks != [] {
      var n := |looks| - 1;
      if j <= n {
        NeverZeroUnproven(c, s, start, looks[..n], j);
      } else {
        NeverZeroUnproven(c, s, start, looks[..n], n);
        var current := Counts(c, s, start, looks[..n])[n];
        StaysRunning(c, s, looks[n].status, current, looks[n].now);
      }
    }
  }

  lemma StaysRunning(c: Settings, s: Spec, st: Status, current: int, now: int)
    requires Scalable(s) && current >= 1 && !ProvenQuiet(c, st, now)
    ensures ResolveReplicas(c, s, st, current, now).replicas >= 1
  {
  }

  // ---------------------------------------------------------------------------
  // The form that feeds it
  // ---------------------------------------------------------------------------

  /** The pair `buildAgentRequest` sends. */
  function FormSpec(replicas: Option<int>, wakeOnDemand: bool): Spec {
    Spec(replicas, if wakeOnDemand then Some(0) else replicas)
  }

  /** Wake-on-demand off pins the count: one reconcile gives exactly `replicas`, except in the
      grace period from below. */
  lemma PinnedExactlyWhen(c: Settings, replicas: int, st: Status, current: int, now: int)
    requires replicas >= 1
    ensures ResolveReplicas(c, FormSpec(Some(replicas), false), st, current, now).replicas == replicas <==>
            !(InGrace(c, st, now) && current < replicas)
  {
  }

  /** The checkbox moves the floor between zero and the ceiling, and nothing else. */
  lemma FormMeans(replicas: int)
    requires replicas >= 1
    ensures var wake, pin := FormSpec(Some(replicas), true), FormSpec(Some(replicas), false);
            && Scalable(wake) && Scalable(pin)
            && MaxReplicas(wake) == MaxReplicas(pin) == replicas
            && Floor(wake) == 0 && Floor(pin) == replicas
  {
  }

  /** Over a whole run: after at least one reconcile the count is exactly `replicas` if and only if it
      started there or above, or some reconcile fell outside the grace period. From then on no signal
      changes it. */
  lemma {:induction false} PinnedOverRuns(c: Settings, replicas: int, start: int, looks: seq<Look>, j: nat)
    requires replicas >= 1 && 1 <= j <= |looks|
    ensures Counts(c, FormSpec(Some(replicas), false), start, looks)[j] == replicas <==>
            start >= replicas || exists k :: 0 <= k < j && OutOfGrace(c, looks[k])
  {
    var s := FormSpec(Some(replicas), false);
    BelowFloorOverRuns(c, s, start, looks, j);
    NeverAbove(c, s, start, looks, j);
  }

  lemma {:induction false} NeverAbove(c: Settings, s: Spec, start: int, looks: seq<Look>, j: nat)
    requires Scalable(s) && 1 <= j <= |looks|
    ensures Counts(c, s, start, looks)[j] <= MaxReplicas(s)
  {
    var n := |looks| - 1;
    if j <= n {
      NeverAbove(c, s, start, looks[..n], j);
    } else {
      BelowFloorExactlyWhen(c, s, looks[n].status, Counts(c, s, start, looks[..n])[n], looks[n].now);
    }
  }
}
