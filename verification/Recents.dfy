/** The recently viewed agents a browser remembers for one account. */
module Recents {

  const LIMIT: nat := 5

  /** The list without one id. */
  function Without(ids: seq<string>, id: string): (r: seq<string>)
    ensures id !in r && forall x :: x in r <==> x in ids && x != id
  {
    if ids == [] then []
    else (if ids[0] == id then [] else [ids[0]]) + Without(ids[1..], id)
  }

  function Take(ids: seq<string>): seq<string> {
    if |ids| <= LIMIT then ids else ids[..LIMIT]
  }

  /** The distinct agents of a history, the latest first; the empty id is no agent. */
  function Latest(history: seq<string>): (r: seq<string>)
    ensures "" !in r && Distinct(r)
  {
    if history == [] then []
    else
      var n := |history| - 1;
      var before := Latest(history[..n]);
      if history[n] == "" then before
      else WithoutDistinct(before, history[n]); [history[n]] + Without(before, history[n])
  }

  ghost predicate Distinct(ids: seq<string>) {
    forall i, j :: 0 <= i < j < |ids| ==> ids[i] != ids[j]
  }

  /** What stays in the list stays in order. */
  lemma {:induction false} WithoutPair(ids: seq<string>, id: string, i: nat, j: nat) returns (a: nat, b: nat)
    requires i < j < |Without(ids, id)|
    ensures a < b < |ids| && ids[a] == Without(ids, id)[i] && ids[b] == Without(ids, id)[j]
  {
    if ids[0] == id {
      a, b := WithoutPair(ids[1..], id, i, j);
      a, b := a + 1, b + 1;
    } else if i == 0 {
      assert Without(ids, id)[j] in ids[1..];
      b :| 0 <= b < |ids[1..]| && ids[1..][b] == Without(ids, id)[j];
      a, b := 0, b + 1;
    } else {
      a, b := WithoutPair(ids[1..], id, i - 1, j - 1);
      a, b := a + 1, b + 1;
    }
  }

  lemma WithoutDistinct(ids: seq<string>, id: string)
    requires Distinct(ids)
    ensures Distinct([id] + Without(ids, id))
  {
    var r := Without(ids, id);
    forall i, j | 0 <= i < j < |r| ensures r[i] != r[j] {
      var a, b := WithoutPair(ids, id, i, j);
    }
  }

  /** What the navigation shows of a stored list. */
  function Shown(stored: seq<string>): (r: seq<string>)
    ensures |r| <= LIMIT && "" !in r
  {
    Take(Without(stored, ""))
  }

  /** The stored list after one view. */
  function View(stored: seq<string>, id: string): seq<string> {
    var current := Shown(stored);
    if current != [] && current[0] == id then stored
    else Take([id] + Without(current, id))
  }

  function Run(history: seq<string>): seq<string> {
    if history == [] then [] else View(Run(history[..|history| - 1]), history[|history| - 1])
  }

  class Store {
    var stored: seq<string>

    constructor ()
      ensures stored == Run([])
    {
      stored := [];
    }

    method GetAgentRecents() returns (ids: seq<string>)
      ensures ids == Shown(stored)
    {
      ids := Take(Without(stored, ""));
    }

    /** Returns whether the change was announced. */
    method RecordAgentView(id: string) returns (announced: bool)
      modifies this
      ensures stored == View(old(stored), id)
      ensures announced <==> !(Shown(old(stored)) != [] && Shown(old(stored))[0] == id)
    {
      var current := GetAgentRecents();
      if current != [] && current[0] == id {
        return false;
      }
      stored := Take([id] + Without(current, id));
      return true;
    }
  }

  // ---- Taking the first five commutes with moving to the front ----

  lemma {:induction false} WithoutAbsent(ids: seq<string>, id: string)
    requires id !in ids
    ensures Without(ids, id) == ids
  {
    if ids != [] {
      WithoutAbsent(ids[1..], id);
    }
  }

  lemma DistinctTail(ids: seq<string>)
    requires Distinct(ids) && ids != []
    ensures Distinct(ids[1..]) && ids[0] !in ids[1..]
  {
  }

  lemma WithoutCons(ids: seq<string>, id: string)
    requires ids != []
    ensures Without(ids, id) == (if ids[0] == id then [] else [ids[0]]) + Without(ids[1..], id)
  {
  }

  /** Dropping one id shortens a list of distinct ids by at most one, and keeps its order. */
  lemma {:induction false} WithoutTake(ids: seq<string>, id: string, k: nat)
    requires Distinct(ids) && k < |ids|
    ensures |Without(ids[..k + 1], id)| >= k
    ensures |Without(ids, id)| >= k
    ensures Without(ids, id)[..k] == Without(ids[..k + 1], id)[..k]
  {
    hide Distinct, Without;
    if k > 0 {
      var tail := ids[1..];
      assert ids[..k + 1][1..] == tail[..k];
      DistinctTail(ids);
      WithoutCons(ids, id);
      WithoutCons(ids[..k + 1], id);
      if ids[0] == id {
        WithoutAbsent(tail, id);
        WithoutAbsent(tail[..k], id);
      } else {
        WithoutTake(tail, id, k - 1);
        ConsTake(ids[0], Without(tail, id), Without(tail[..k], id), k);
      }
    }
  }

  lemma ConsTake(x: string, a: seq<string>, b: seq<string>, k: nat)
    requires 1 <= k && k - 1 <= |a| && k - 1 <= |b| && a[..k - 1] == b[..k - 1]
    ensures ([x] + a)[..k] == ([x] + b)[..k]
  {
    assert ([x] + a)[..k] == [x] + a[..k - 1] && ([x] + b)[..k] == [x] + b[..k - 1];
  }

  lemma TakeLong(ids: seq<string>)
    requires |ids| >= LIMIT
    ensures Take(ids) == ids[..LIMIT]
  {
    assert |ids| == LIMIT ==> ids == ids[..LIMIT];
  }

  lemma TakeWithout(ids: seq<string>, id: string)
    requires Distinct(ids)
    ensures Take([id] + Without(Take(ids), id)) == Take([id] + Without(ids, id))
  {
    if |ids| > LIMIT {
      TakeLong(ids);
      WithoutTake(ids, id, LIMIT - 1);
      hide Distinct, Without, Take;
      var a, b := Without(ids[..LIMIT], id), Without(ids, id);
      TakeLong([id] + a);
      TakeLong([id] + b);
      ConsTake(id, a, b, LIMIT);
    }
  }

  lemma MoveFirst(ids: seq<string>)
    requires Distinct(ids) && ids != []
    ensures [ids[0]] + Without(ids, ids[0]) == ids
  {
    WithoutAbsent(ids[1..], ids[0]);
  }

  /** One view of a real agent keeps the stored list equal to the start of the full one. */
  lemma RealView(stored: seq<string>, ids: seq<string>, id: string)
    requires id != "" && Distinct(ids) && "" !in ids && Shown(stored) == Take(ids)
    ensures Shown(View(stored, id)) == Take([id] + Without(ids, id))
  {
    if ids != [] && ids[0] == id {
      MoveFirst(ids);
    } else {
      TakeWithout(ids, id);
      var next := Take([id] + Without(ids, id));
      assert "" !in next;
      WithoutAbsent(next, "");
    }
  }

  /** Viewing the empty id stores it, and a full list loses its oldest entry to it. */
  lemma EmptyView(stored: seq<string>)
    ensures var was := Shown(stored);
      Shown(View(stored, "")) == if |was| == LIMIT then was[..LIMIT - 1] else was
  {
    var was := Shown(stored);
    WithoutAbsent(was, "");
    var next := Take([""] + was);
    var kept := if |was| == LIMIT then was[..LIMIT - 1] else was;
    assert next == [""] + kept;
    assert next[1..] == kept;
    WithoutAbsent(kept, "");
  }

  // ---- Whole histories ----

  /** The list shown after every view is the latest five agents viewed so far. */
  ghost predicate AlwaysRight(history: seq<string>) {
    forall k :: 0 <= k <= |history| ==> RightAt(history, k)
  }

  ghost predicate RightAt(history: seq<string>, k: nat)
    requires k <= |history|
  {
    Shown(Run(history[..k])) == Take(Latest(history[..k]))
  }

  /** The empty id is never viewed while the list is full. */
  ghost predicate NoEmptyWhenFull(history: seq<string>) {
    forall k :: 0 <= k < |history| && history[k] == "" ==> |Latest(history[..k])| < LIMIT
  }

  lemma LastStep(history: seq<string>)
    requires history != [] && RightAt(history, |history| - 1)
    ensures var n := |history| - 1;
      RightAt(history, n + 1) <==> (history[n] == "" ==> |Latest(history[..n])| < LIMIT)
  {
    var n := |history| - 1;
    assert history[..n + 1] == history;
    var before := Latest(history[..n]);
    if history[n] == "" {
      EmptyView(Run(history[..n]));
    } else {
      RealView(Run(history[..n]), before, history[n]);
    }
  }

  lemma AlwaysRightSnoc(history: seq<string>)
    requires history != []
    ensures var n := |history| - 1;
      AlwaysRight(history) <==> AlwaysRight(history[..n]) && RightAt(history, n + 1)
  {
    hide Run, Latest, Shown, Take;
    var n := |history| - 1;
    forall k | 0 <= k <= n ensures RightAt(history[..n], k) == RightAt(history, k) {
      assert history[..n][..k] == history[..k];
    }
  }

  lemma NoEmptySnoc(history: seq<string>)
    requires history != []
    ensures var n := |history| - 1;
      NoEmptyWhenFull(history) <==>
      NoEmptyWhenFull(history[..n]) && (history[n] == "" ==> |Latest(history[..n])| < LIMIT)
  {
    hide Latest;
    var n := |history| - 1;
    forall k | 0 <= k < n ensures history[..n][..k] == history[..k] && history[..n][k] == history[k] {
    }
  }

  /** The bounded list follows the unbounded one over a whole history exactly when the empty id is
      never viewed while the list is full. */
  lemma {:induction false} RefinesExactlyWhen(history: seq<string>)
    ensures AlwaysRight(history) <==> NoEmptyWhenFull(history)
  {
    if history != [] {
      hide NoEmptyWhenFull;
      var n := |history| - 1;
      RefinesExactlyWhen(history[..n]);
      AlwaysRightSnoc(history);
      NoEmptySnoc(history);
      if AlwaysRight(history[..n]) {
        assert RightAt(history[..n], n);
        assert history[..n][..n] == history[..n];
        LastStep(history);
      }
    }
  }

  lemma {:induction false} StoredIsShown(history: seq<string>)
    requires "" !in history
    ensures Shown(Run(history)) == Run(history)
  {
    if history != [] {
      StoredIsShown(history[..|history| - 1]);
    }
    WithoutAbsent(Run(history), "");
  }

  /** With real agents only, the store holds the five latest distinct ones, the latest first. */
  lemma HistoryRefined(history: seq<string>)
    requires "" !in history
    ensures Run(history) == Take(Latest(history))
    ensures Run(history) == if |Latest(history)| <= 5 then Latest(history) else Latest(history)[..5]
  {
    RefinesExactlyWhen(history);
    assert RightAt(history, |history|);
    assert history[..|history|] == history;
    StoredIsShown(history);
  }

  // ---- What the unbounded list means ----

  /** When an id was last viewed, counted from 1; 0 when never. */
  function LastSeen(history: seq<string>, id: string): nat {
    if history == [] then 0
    else if history[|history| - 1] == id then |history|
    else LastSeen(history[..|history| - 1], id)
  }

  lemma {:induction false} LastSeenBound(history: seq<string>, id: string)
    ensures LastSeen(history, id) <= |history|
    ensures LastSeen(history, id) > 0 <==> id in history
  {
    if history != [] {
      var n := |history| - 1;
      LastSeenBound(history[..n], id);
      assert history == history[..n] + [history[n]];
    }
  }

  /** Ids ordered by the time of their last view, latest first. */
  ghost predicate ByLastView(ids: seq<string>, history: seq<string>) {
    forall i, j :: 0 <= i < j < |ids| ==> LastSeen(history, ids[i]) > LastSeen(history, ids[j])
  }

  lemma WithoutOrder(ids: seq<string>, id: string, history: seq<string>)
    requires ByLastView(ids, history)
    ensures ByLastView(Without(ids, id), history)
  {
    var r := Without(ids, id);
    forall i, j | 0 <= i < j < |r| ensures LastSeen(history, r[i]) > LastSeen(history, r[j]) {
      var a, b := WithoutPair(ids, id, i, j);
    }
  }

  lemma LastSeenStep(history: seq<string>, last: string, id: string)
    requires id != last
    ensures LastSeen(history + [last], id) == LastSeen(history, id) <= |history|
  {
    assert (history + [last])[..|history|] == history;
    LastSeenBound(history, id);
  }

  lemma OrderStep(ids: seq<string>, history: seq<string>, last: string)
    requires last !in ids && ByLastView(ids, history)
    ensures ByLastView(ids, history + [last]) && ByLastView([last] + ids, history + [last])
  {
    forall x | x in ids ensures LastSeen(history + [last], x) == LastSeen(history, x) <= |history| {
      LastSeenStep(history, last, x);
    }
    var r := [last] + ids;
    forall i, j | 0 <= i < j < |r|
      ensures LastSeen(history + [last], r[i]) > LastSeen(history + [last], r[j])
    {
      assert r[j] == ids[j - 1] && (i > 0 ==> r[i] == ids[i - 1]);
    }
  }

  /** The full list holds every agent ever viewed, by the time of its last view, latest first. */
  lemma {:induction false} LatestMeans(history: seq<string>)
    ensures forall id :: id in Latest(history) <==> id in history && id != ""
    ensures ByLastView(Latest(history), history)
  {
    if history != [] {
      var n := |history| - 1;
      var id, h := history[n], history[..n];
      LatestMeans(h);
      assert history == h + [id];
      if id == "" {
        OrderStep(Latest(h), h, id);
      } else {
        WithoutOrder(Latest(h), id, h);
        OrderStep(Without(Latest(h), id), h, id);
      }
    }
  }
}
