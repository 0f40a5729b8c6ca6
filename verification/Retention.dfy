/** The tag retention planner: which tags of a repository are kept and which are collected. */
module Retention {
  import opened Wrappers
  import opened Text

  datatype Tag = Tag(name: string, pushed: int)

  datatype Disposition = Protected | Recent | Newest | Unknown | Delete | DeleteRelease

  datatype Policy = Policy(
    maxAgeDays: int,
    keepNewest: int,
    keepNewestVariant: int,
    registryCacheLive: bool,
    includeReleaseTags: bool,
    latestRelease: Option<string>,
    now: int)

  datatype Kind = KProtected | KCache | KRelease | KShortSha | KVariantSha | KUnknown

  // ---------------------------------------------------------------------------
  // Names
  // ---------------------------------------------------------------------------

  predicate AllDigits(s: string) {
    s != "" && forall c :: c in s ==> IsDigit(c)
  }

  /** `^\d+\.\d+$` */
  predicate IsFloat(s: string) {
    var dot := IndexOfChar(s, '.');
    dot.Some? && AllDigits(s[..dot.value]) && AllDigits(s[dot.value + 1..])
  }

  predicate IsSuffixChar(c: char) {
    IsDigit(c) || 'a' <= c <= 'z' || 'A' <= c <= 'Z' || c == '.'
  }

  /** `^\d+\.\d+\.\d+(?:-[0-9A-Za-z.]+)?$` */
  predicate IsVersion(s: string) {
    var dash := IndexOfChar(s, '-');
    var core := if dash.Some? then s[..dash.value] else s;
    && IsTriple(core)
    && (dash.Some? ==> dash.value + 1 < |s| && forall c :: c in s[dash.value + 1..] ==> IsSuffixChar(c))
  }

  predicate IsTriple(s: string) {
    var dot := IndexOfChar(s, '.');
    dot.Some? && AllDigits(s[..dot.value]) && IsFloat(s[dot.value + 1..])
  }

  function WithoutV(s: string): string {
    if s != "" && s[0] == 'v' then s[1..] else s
  }

  /** `^v?\d+\.\d+\.\d+(?:-[0-9A-Za-z.]+)?$` */
  predicate IsSemver(s: string) {
    IsVersion(WithoutV(s))
  }

  /** A floating tag, a dash, and the rest. */
  function VariantRest(s: string): Option<string> {
    var dash := IndexOfChar(s, '-');
    if dash.Some? && IsFloat(s[..dash.value]) then Some(s[dash.value + 1..]) else None
  }

  predicate IsShortSha(s: string) {
    |s| == 7 && forall c :: c in s ==> IsDigit(c) || 'a' <= c <= 'f'
  }

  predicate IsCache(s: string) {
    s == "buildcache" || ("buildcache-v" <= s && AllDigits(s[12..]))
  }

  function Classify(name: string): Kind {
    if name in {"latest", "dev", "main"} then KProtected
    else if IsCache(name) then KCache
    else if IsFloat(name) then KProtected
    else if VariantRest(name).Some? && IsSemver(VariantRest(name).value) then KRelease
    else if IsSemver(name) then KRelease
    else if IsShortSha(name) then KShortSha
    else if VariantRest(name).Some? && IsShortSha(VariantRest(name).value) then KVariantSha
    else KUnknown
  }

  /** `release_core`: the leftmost suffix that is a version. */
  function ReleaseCore(name: string): string {
    CoreFrom(name, name)
  }

  function CoreFrom(s: string, name: string): string {
    if s == "" then name
    else if IsSemver(s) then s
    else CoreFrom(s[1..], name)
  }

  /** `parse_semver` of a version: its three numbers. */
  function ParseSemver(value: string): seq<nat> {
    var v := WithoutV(value);
    var dash := IndexOfChar(v, '-');
    Numbers(Split(if dash.Some? then v[..dash.value] else v, '.'))
  }

  function Numbers(parts: seq<string>): seq<nat> {
    if parts == [] then []
    else [if AllDigits(parts[0]) then DecimalValue(parts[0]) else 0] + Numbers(parts[1..])
  }

  /** Tuple comparison. */
  predicate AtLeast(a: seq<nat>, b: seq<nat>) {
    if b == [] then true
    else if a == [] then false
    else a[0] > b[0] || (a[0] == b[0] && AtLeast(a[1..], b[1..]))
  }

  predicate PurgeBlocked(p: Policy) {
    p.latestRelease.None? || p.latestRelease.value == "" || !IsSemver(ReleaseCore(p.latestRelease.value))
  }

  /** The part of a floating tag from `k` on has too few dots for a version. */
  lemma FloatHasOneDot(f: string, k: nat)
    requires IsFloat(f) && k <= |f|
    ensures !IsTriple(f[k..])
  {
    var d := IndexOfChar(f, '.').value;
    if IsTriple(f[k..]) {
      var i := IndexOfChar(f[k..], '.').value;
      OnlyDot(f, d, k + i);
      assert f[k..][i + 1..] == f[d + 1..];
      DigitAt(f[d + 1..], IndexOfChar(f[d + 1..], '.').value);
    }
  }

  lemma DigitAt(s: string, i: nat)
    requires AllDigits(s) && i < |s|
    ensures IsDigit(s[i])
  {
  }

  lemma OnlyDot(f: string, d: nat, i: nat)
    requires d < |f| && AllDigits(f[..d]) && AllDigits(f[d + 1..]) && i < |f| && f[i] == '.'
    ensures i == d
  {
    if i < d { DigitAt(f[..d], i); }
    if i > d { DigitAt(f[d + 1..], i - d - 1); }
  }

  lemma NotAVersionYet(f: string, v: string, k: nat)
    requires IsFloat(f) && k <= |f|
    ensures !IsSemver(f[k..] + "-" + v)
  {
    var s, head := f[k..] + "-" + v, f[k..];
    var d := IndexOfChar(f, '.').value;
    forall c | c in f ensures IsDigit(c) || c == '.' {
      var i :| 0 <= i < |f| && f[i] == c;
      if i < d { assert f[i] in f[..d]; }
      if i > d { assert f[i] in f[d + 1..]; }
    }
    assert s[..|head|] == head;
    assert forall c :: c in head ==> c in f;
    IndexOfCharUnique(s, '-', |head|);
    assert WithoutV(s) == s by { if head != "" { assert head[0] in f; } }
    FloatHasOneDot(f, k);
  }

  lemma {:induction false} VariantCore(f: string, v: string, k: nat)
    requires IsFloat(f) && IsSemver(v) && v != "" && k <= |f|
    ensures CoreFrom(f[k..] + "-" + v, f + "-" + v) == v
    decreases |f| - k
  {
    hide IsSemver, IsFloat;
    var name := f + "-" + v;
    var s := f[k..] + "-" + v;
    NotAVersionYet(f, v, k);
    if k < |f| {
      assert s[1..] == f[k + 1..] + "-" + v;
      VariantCore(f, v, k + 1);
    } else {
      assert s[1..] == v && CoreFrom(v, name) == v;
    }
  }

  /** A release built on a floating tag is compared by its own version, never by the toolchain
      prefix. */
  lemma ReleaseCoreOfVariant(f: string, v: string)
    requires IsFloat(f) && IsSemver(v)
    ensures ReleaseCore(f + "-" + v) == v == ReleaseCore(v)
  {
    VariantCore(f, v, 0);
    assert f[0..] == f;
  }

  // ---------------------------------------------------------------------------
  // The plan
  // ---------------------------------------------------------------------------

  const DAY := 86_400_000_000

  predicate Disposable(k: Kind) {
    k == KShortSha || k == KVariantSha
  }

  function FloorOf(p: Policy, k: Kind): int {
    if k == KVariantSha then p.keepNewestVariant else p.keepNewest
  }

  /** `rank` counts the newer tags of the same disposable class. Times are microseconds. */
  function DecideOne(t: Tag, rank: int, p: Policy): Disposition {
    var kind := Classify(t.name);
    match kind
    case KProtected => Protected
    case KUnknown => Unknown
    case KCache => if p.registryCacheLive then Protected else Delete
    case KRelease =>
      if !p.includeReleaseTags then Protected
      else if PurgeBlocked(p) then Protected
      else if AtLeast(ParseSemver(ReleaseCore(t.name)), ParseSemver(ReleaseCore(p.latestRelease.value))) then Protected
      else DeleteRelease
    case _ =>
      if rank < FloorOf(p, kind) then Newest
      else if p.now - t.pushed <= p.maxAgeDays * DAY then Recent
      else Delete
  }

  datatype Decision = Decision(tag: Tag, disposition: Disposition)

  predicate Kept(d: Decision) {
    d.disposition != Delete && d.disposition != DeleteRelease
  }

  /** A stable sort, newest first. */
  function Insert(sorted: seq<Tag>, t: Tag): seq<Tag> {
    if sorted == [] then [t]
    else if sorted[|sorted| - 1].pushed >= t.pushed then sorted + [t]
    else Insert(sorted[..|sorted| - 1], t) + [sorted[|sorted| - 1]]
  }

  function NewestFirst(tags: seq<Tag>): seq<Tag> {
    if tags == [] then [] else Insert(NewestFirst(tags[..|tags| - 1]), tags[|tags| - 1])
  }

  function Count(tags: seq<Tag>, k: Kind): nat {
    if tags == [] then 0
    else
      Count(tags[..|tags| - 1], k) + (if Classify(tags[|tags| - 1].name) == k then 1 else 0)
  }

  const UNRANKED := 0x4000_0000

  function RankIn(newer: seq<Tag>, t: Tag): int {
    var k := Classify(t.name);
    if Disposable(k) then Count(newer, k) else UNRANKED
  }

  function Decide(ordered: seq<Tag>, p: Policy): seq<Decision> {
    if ordered == [] then []
    else
      var n := |ordered| - 1;
      Decide(ordered[..n], p) + [Decision(ordered[n], DecideOne(ordered[n], RankIn(ordered[..n], ordered[n]), p))]
  }

  function Plan(tags: seq<Tag>, p: Policy): seq<Decision> {
    Decide(NewestFirst(tags), p)
  }

  method PlanForRepo(tags: seq<Tag>, p: Policy) returns (decisions: seq<Decision>)
    ensures decisions == Plan(tags, p)
  {
    hide Classify, DecideOne, NewestFirst, Decide, Count, RankIn;
    var ordered := NewestFirst(tags);
    var ranks: map<Kind, nat> := map[];
    decisions := [];
    PlanStarts(p);
    for i := 0 to |ordered|
      invariant decisions == Decide(ordered[..i], p)
      invariant forall k :: Disposable(k) ==> (if k in ranks then ranks[k] else 0) == Count(ordered[..i], k)
    {
      var tag := ordered[i];
      var kind := Classify(tag.name);
      var rank := UNRANKED;
      PlanStep(ordered, i, p);
      if Disposable(kind) {
        rank := if kind in ranks then ranks[kind] else 0;
        ranks := ranks[kind := rank + 1];
      }
      decisions := decisions + [Decision(tag, DecideOne(tag, rank, p))];
    }
    assert ordered[..|ordered|] == ordered;
  }

  lemma PlanStarts(p: Policy)
    ensures Decide([], p) == [] && forall k :: Count([], k) == 0
  {
  }

  lemma PlanStep(ordered: seq<Tag>, i: nat, p: Policy)
    requires i < |ordered|
    ensures var tag, k := ordered[i], Classify(ordered[i].name);
            var rank := if Disposable(k) then Count(ordered[..i], k) else UNRANKED;
            && Decide(ordered[..i + 1], p) == Decide(ordered[..i], p) + [Decision(tag, DecideOne(tag, rank, p))]
            && forall j :: Count(ordered[..i + 1], j) == Count(ordered[..i], j) + (if j == k then 1 else 0)
  {
    hide Classify, DecideOne;
    assert ordered[..i + 1][..i] == ordered[..i];
  }

  // ---------------------------------------------------------------------------
  // Survivors
  // ---------------------------------------------------------------------------

  /** The decisions about tags whose names are not in `gone`. */
  function LeftOf(ds: seq<Decision>, gone: set<string>): seq<Decision> {
    if ds == [] then []
    else
      var n := |ds| - 1;
      LeftOf(ds[..n], gone) + if ds[n].tag.name in gone then [] else [ds[n]]
  }

  ghost predicate SortedNewest(tags: seq<Tag>) {
    forall i, j :: 0 <= i < j < |tags| ==> tags[i].pushed >= tags[j].pushed
  }

  /** What is decided of a tag after the newer ones. */
  function DecisionAfter(newer: seq<Tag>, t: Tag, p: Policy): Decision {
    Decision(t, DecideOne(t, RankIn(newer, t), p))
  }

  lemma DecideSnoc(ordered: seq<Tag>, t: Tag, p: Policy)
    ensures Decide(ordered + [t], p) == Decide(ordered, p) + [DecisionAfter(ordered, t, p)]
  {
    hide DecideOne, RankIn;
    assert (ordered + [t])[..|ordered|] == ordered;
  }

  lemma LeftOfSnoc(ds: seq<Decision>, d: Decision, gone: set<string>)
    ensures LeftOf(ds + [d], gone) == LeftOf(ds, gone) + if d.tag.name in gone then [] else [d]
  {
    assert (ds + [d])[..|ds|] == ds;
  }

  lemma CountSnoc(tags: seq<Tag>, t: Tag, k: Kind)
    ensures Count(tags + [t], k) == Count(tags, k) + (if Classify(t.name) == k then 1 else 0)
  {
    assert (tags + [t])[..|tags|] == tags;
  }

  lemma SortedBefore(ordered: seq<Tag>, t: Tag)
    requires SortedNewest(ordered + [t]) && ordered != []
    ensures SortedNewest(ordered[..|ordered| - 1] + [t]) && ordered[|ordered| - 1].pushed >= t.pushed
  {
    var all, n := ordered + [t], |ordered| - 1;
    var shorter := ordered[..n] + [t];
    assert all[n] == ordered[n] && all[n + 1] == t;
    forall i, j | 0 <= i < j < |shorter| ensures shorter[i].pushed >= shorter[j].pushed {
      assert shorter[i] == all[i] && shorter[j] == all[if j == n then n + 1 else j];
    }
  }

  /** Every tag named in `gone` was decided to be deleted. */
  ghost predicate Deletable(ordered: seq<Tag>, p: Policy, gone: set<string>) {
    ordered == []
    || (var n := |ordered| - 1;
        && Deletable(ordered[..n], p, gone)
        && (ordered[n].name in gone ==> !Kept(DecisionAfter(ordered[..n], ordered[n], p))))
  }

  lemma KeptByAgeOrRank(t: Tag, rank: int, p: Policy)
    requires Disposable(Classify(t.name))
    ensures Kept(Decision(t, DecideOne(t, rank, p))) <==>
            rank < FloorOf(p, Classify(t.name)) || p.now - t.pushed <= p.maxAgeDays * DAY
  {
    hide Classify;
  }

  /** What decides a disposable tag. */
  lemma KeptAfter(newer: seq<Tag>, t: Tag, p: Policy)
    requires Disposable(Classify(t.name))
    ensures Kept(DecisionAfter(newer, t, p)) <==>
            || Count(newer, Classify(t.name)) < FloorOf(p, Classify(t.name))
            || p.now - t.pushed <= p.maxAgeDays * DAY
  {
    hide Classify, Count;
    KeptByAgeOrRank(t, Count(newer, Classify(t.name)), p);
  }

  /** What the last tag adds to the counts of a class. */
  lemma CountLeft(ordered: seq<Tag>, gone: set<string>, k: Kind)
    requires ordered != []
    ensures var before, last := ordered[..|ordered| - 1], ordered[|ordered| - 1];
            var one := if Classify(last.name) == k then 1 else 0;
            && Count(ordered, k) == Count(before, k) + one
            && Count(Without(ordered, gone), k) ==
                 Count(Without(before, gone), k) + (if last.name in gone then 0 else one)
  {
    hide Classify;
    CountSnoc(Without(ordered[..|ordered| - 1], gone), ordered[|ordered| - 1], k);
  }

  lemma DeletableLast(ordered: seq<Tag>, p: Policy, gone: set<string>)
    requires Deletable(ordered, p, gone) && ordered != []
    ensures var before, last := ordered[..|ordered| - 1], ordered[|ordered| - 1];
            Deletable(before, p, gone) && (last.name in gone ==> !Kept(DecisionAfter(before, last, p)))
  {
    hide DecisionAfter, Kept;
  }

  /** If a disposable tag is kept after `ordered`, no tag of its class in it is gone. */
  lemma {:induction false} ClassPrefixKept(ordered: seq<Tag>, t: Tag, p: Policy, gone: set<string>)
    requires SortedNewest(ordered + [t]) && Disposable(Classify(t.name)) && Deletable(ordered, p, gone)
    requires Kept(DecisionAfter(ordered, t, p))
    ensures Count(Without(ordered, gone), Classify(t.name)) == Count(ordered, Classify(t.name))
  {
    hide Classify, DecisionAfter, Kept, Count, Without, SortedNewest, Deletable, FloorOf;
    if ordered != [] {
      var k := Classify(t.name);
      var before, last := ordered[..|ordered| - 1], ordered[|ordered| - 1];
      SortedBefore(ordered, t);
      DeletableLast(ordered, p, gone);
      CountLeft(ordered, gone, k);
      KeptAfter(ordered, t, p);
      KeptAfter(before, t, p);
      ClassPrefixKept(before, t, p, gone);
      if Classify(last.name) == k {
        KeptAfter(before, last, p);
      }
    } else {
      NothingLeftOver(gone);
    }
  }

  lemma NothingLeftOver(gone: set<string>)
    ensures Without([], gone) == []
  {
  }

  /** Of each disposable class the newest `floor` are never gone, nor any of a smaller class. */
  lemma {:induction false} FloorLeft(ordered: seq<Tag>, p: Policy, gone: set<string>, k: Kind)
    requires Disposable(k) && Deletable(ordered, p, gone)
    ensures Count(Without(ordered, gone), k) >= Least(Count(ordered, k), FloorOf(p, k))
  {
    hide Classify, DecisionAfter, Kept, Count, Without, Deletable, FloorOf;
    if ordered != [] {
      var before, last := ordered[..|ordered| - 1], ordered[|ordered| - 1];
      DeletableLast(ordered, p, gone);
      CountLeft(ordered, gone, k);
      FloorLeft(before, p, gone, k);
      if Classify(last.name) == k {
        KeptAfter(before, last, p);
      }
    } else {
      NothingLeftOver(gone);
    }
  }

  function Least(a: int, b: int): int {
    if a < b then a else b
  }

  /** A tag that is left is decided as before, whatever else is gone. */
  lemma SameDecision(newer: seq<Tag>, t: Tag, p: Policy, gone: set<string>)
    requires SortedNewest(newer + [t]) && Deletable(newer, p, gone)
    ensures DecisionAfter(Without(newer, gone), t, p) == DecisionAfter(newer, t, p)
  {
    hide Classify, Deletable, SortedNewest, Count, Without;
    var k := Classify(t.name);
    if Disposable(k) {
      if Kept(DecisionAfter(newer, t, p)) {
        ClassPrefixKept(newer, t, p, gone);
      } else {
        FloorLeft(newer, p, gone, k);
      }
    }
  }

  /** Planning again for what is left of the ordered tags decides every one of them as before. */
  lemma {:induction false} DecideLeft(ordered: seq<Tag>, p: Policy, gone: set<string>)
    requires SortedNewest(ordered) && Deletable(ordered, p, gone)
    ensures Decide(Without(ordered, gone), p) == LeftOf(Decide(ordered, p), gone)
  {
    if ordered != [] {
      hide DecideOne, RankIn, Kept, Decide, LeftOf, Without;
      var n := |ordered| - 1;
      var before, last := ordered[..n], ordered[n];
      assert ordered == before + [last];
      DecideLeft(before, p, gone);
      SameDecision(before, last, p, gone);
      DecideSnoc(before, last, p);
      DecideSnoc(Without(before, gone), last, p);
      WithoutSnoc(before, last, gone);
      LeftOfSnoc(Decide(before, p), DecisionAfter(before, last, p), gone);
    } else {
      NothingDecided(p, gone);
    }
  }

  lemma NothingDecided(p: Policy, gone: set<string>)
    ensures Without([], gone) == [] && Decide([], p) == [] && LeftOf([], gone) == []
  {
  }

  // ---------------------------------------------------------------------------
  // From the listing to the ordered tags
  // ---------------------------------------------------------------------------

  lemma {:induction false} InsertHolds(sorted: seq<Tag>, t: Tag)
    ensures multiset(Insert(sorted, t)) == multiset(sorted) + multiset{t}
  {
    if sorted != [] {
      var n := |sorted| - 1;
      assert sorted == sorted[..n] + [sorted[n]];
      InsertHolds(sorted[..n], t);
    }
  }

  lemma InsertedFrom(sorted: seq<Tag>, t: Tag, i: nat)
    requires i < |Insert(sorted, t)|
    ensures Insert(sorted, t)[i] == t || Insert(sorted, t)[i] in sorted
  {
    hide Insert;
    InsertHolds(sorted, t);
    assert Insert(sorted, t)[i] in multiset(Insert(sorted, t));
  }

  lemma {:induction false} InsertSorted(sorted: seq<Tag>, t: Tag)
    requires SortedNewest(sorted)
    ensures SortedNewest(Insert(sorted, t))
  {
    if sorted != [] {
      var n := |sorted| - 1;
      var last := sorted[n];
      if last.pushed < t.pushed {
        InsertSorted(sorted[..n], t);
        var r := Insert(sorted[..n], t);
        forall i | 0 <= i < |r| ensures r[i].pushed >= last.pushed {
          InsertedFrom(sorted[..n], t, i);
        }
      }
    }
  }

  /** The order is a sort of the listing. */
  lemma {:induction false} NewestFirstSorts(tags: seq<Tag>)
    ensures SortedNewest(NewestFirst(tags)) && multiset(NewestFirst(tags)) == multiset(tags)
  {
    hide Insert;
    if tags != [] {
      var n := |tags| - 1;
      NewestFirstSorts(tags[..n]);
      InsertSorted(NewestFirst(tags[..n]), tags[n]);
      InsertHolds(NewestFirst(tags[..n]), tags[n]);
      assert tags == tags[..n] + [tags[n]];
    }
  }

  /** The tags whose names are not in `gone`, in order. */
  function Without(tags: seq<Tag>, gone: set<string>): seq<Tag> {
    if tags == [] then []
    else
      var n := |tags| - 1;
      if tags[n].name in gone then Without(tags[..n], gone) else Without(tags[..n], gone) + [tags[n]]
  }

  lemma WithoutSnoc(tags: seq<Tag>, t: Tag, gone: set<string>)
    ensures Without(tags + [t], gone) == if t.name in gone then Without(tags, gone) else Without(tags, gone) + [t]
  {
    assert (tags + [t])[..|tags|] == tags;
  }

  lemma {:induction false} WithoutSubset(tags: seq<Tag>, gone: set<string>)
    ensures forall t :: t in Without(tags, gone) ==> t in tags && t.name !in gone
  {
    if tags != [] {
      WithoutSubset(tags[..|tags| - 1], gone);
    }
  }

  /** Taking tags out before or after the sort is the same: the sort is stable. */
  lemma {:induction false} InsertWithout(sorted: seq<Tag>, t: Tag, gone: set<string>)
    requires SortedNewest(sorted)
    ensures Without(Insert(sorted, t), gone) ==
            if t.name in gone then Without(sorted, gone) else Insert(Without(sorted, gone), t)
  {
    if sorted == [] {
      WithoutSnoc([], t, gone);
      assert [] + [t] == [t];
    } else {
      var n := |sorted| - 1;
      var last := sorted[n];
      assert sorted == sorted[..n] + [last];
      if last.pushed >= t.pushed {
        WithoutSnoc(sorted, t, gone);
        if t.name !in gone { InsertLast(Without(sorted, gone), t, sorted, gone); }
      } else {
        InsertWithout(sorted[..n], t, gone);
        WithoutSnoc(Insert(sorted[..n], t), last, gone);
        if t.name !in gone && last.name !in gone {
          var left := Without(sorted[..n], gone);
          assert (left + [last])[..|left|] == left;
        }
      }
    }
  }

  lemma InsertLast(left: seq<Tag>, t: Tag, sorted: seq<Tag>, gone: set<string>)
    requires left == Without(sorted, gone) && SortedNewest(sorted) && sorted != []
    requires sorted[|sorted| - 1].pushed >= t.pushed
    ensures Insert(left, t) == left + [t]
  {
    if left != [] {
      WithoutSubset(sorted, gone);
      var x := left[|left| - 1];
      assert x in sorted;
    }
  }

  lemma {:induction false} SortWithout(tags: seq<Tag>, gone: set<string>)
    ensures NewestFirst(Without(tags, gone)) == Without(NewestFirst(tags), gone)
  {
    if tags != [] {
      var n := |tags| - 1;
      SortWithout(tags[..n], gone);
      NewestFirstSorts(tags[..n]);
      InsertWithout(NewestFirst(tags[..n]), tags[n], gone);
      var left := Without(tags[..n], gone);
      assert (left + [tags[n]])[..|left|] == left;
    }
  }

  function DeletedNames(ds: seq<Decision>): set<string> {
    set d | d in ds && !Kept(d) :: d.tag.name
  }

  ghost predicate DistinctNames(tags: seq<Tag>) {
    forall i, j :: 0 <= i < j < |tags| ==> tags[i].name != tags[j].name
  }

  lemma {:induction false} DecideTags(ordered: seq<Tag>, p: Policy)
    ensures |Decide(ordered, p)| == |ordered|
    ensures forall i :: 0 <= i < |ordered| ==> Decide(ordered, p)[i].tag == ordered[i]
  {
    if ordered != [] { DecideTags(ordered[..|ordered| - 1], p); }
  }

  lemma {:induction false} NamedByDecision(ordered: seq<Tag>, p: Policy, gone: set<string>)
    requires |Decide(ordered, p)| == |ordered|
    requires forall i :: 0 <= i < |ordered| && ordered[i].name in gone ==> !Kept(Decide(ordered, p)[i])
    ensures Deletable(ordered, p, gone)
  {
    if ordered != [] {
      hide DecideOne, RankIn, Kept, Decide;
      var n := |ordered| - 1;
      var before, last := ordered[..n], ordered[n];
      assert ordered == before + [last];
      DecideSnoc(before, last, p);
      forall i | 0 <= i < n ensures Decide(before, p)[i] == Decide(ordered, p)[i] && before[i] == ordered[i] {
      }
      NamedByDecision(before, p, gone);
    }
  }

  lemma GoneExactly(ordered: seq<Tag>, p: Policy, i: nat)
    requires DistinctNames(ordered) && i < |ordered|
    ensures i < |Decide(ordered, p)|
    ensures ordered[i].name in DeletedNames(Decide(ordered, p)) <==> !Kept(Decide(ordered, p)[i])
  {
    var ds := Decide(ordered, p);
    DecideTags(ordered, p);
    if ordered[i].name in DeletedNames(ds) {
      var d :| d in ds && !Kept(d) && d.tag.name == ordered[i].name;
      var j :| 0 <= j < |ds| && ds[j] == d;
      assert ordered[j].name == ordered[i].name;
    }
    if !Kept(ds[i]) { assert ds[i] in ds; }
  }

  lemma DistinctByMultiset(a: seq<Tag>, b: seq<Tag>)
    requires DistinctNames(a) && multiset(a) == multiset(b)
    ensures DistinctNames(b)
  {
    forall i, j | 0 <= i < j < |b| ensures b[i].name != b[j].name {
      if b[i].name == b[j].name {
        assert b[i] in multiset(b) && b[j] in multiset(b);
        var x :| 0 <= x < |a| && a[x] == b[i];
        var y :| 0 <= y < |a| && a[y] == b[j];
        assert x == y;
        OnlyOnce(a, x);
        TwiceInMultiset(b, i, j);
      }
    }
  }

  lemma {:induction false} OnlyOnce(a: seq<Tag>, x: nat)
    requires DistinctNames(a) && x < |a|
    ensures multiset(a)[a[x]] == 1
  {
    assert a == a[..x] + [a[x]] + a[x + 1..];
    assert a[x] !in a[..x] && a[x] !in a[x + 1..];
  }

  lemma TwiceInMultiset(b: seq<Tag>, i: nat, j: nat)
    requires i < j < |b| && b[i] == b[j]
    ensures multiset(b)[b[i]] >= 2
  {
    assert b == b[..j] + [b[j]] + b[j + 1..];
    assert b[i] in b[..j];
    assert multiset(b[..j])[b[i]] >= 1;
  }

  /** Some of the deletions a plan asks for. */
  ghost predicate SomeOf(gone: set<string>, tags: seq<Tag>, p: Policy) {
    DistinctNames(tags) && gone <= DeletedNames(Plan(tags, p))
  }

  lemma SomeAreDeletable(tags: seq<Tag>, p: Policy, gone: set<string>)
    requires SomeOf(gone, tags, p)
    ensures Deletable(NewestFirst(tags), p, gone)
  {
    var ordered := NewestFirst(tags);
    NewestFirstSorts(tags);
    DistinctByMultiset(tags, ordered);
    DecideTags(ordered, p);
    forall i | 0 <= i < |ordered| && ordered[i].name in gone ensures !Kept(Decide(ordered, p)[i]) {
      GoneExactly(ordered, p, i);
    }
    NamedByDecision(ordered, p, gone);
  }

  /** Whichever of the planned deletions succeed: planning again, with the same policy and clock,
      decides every tag that is left as before. */
  lemma PlanAgain(tags: seq<Tag>, p: Policy, gone: set<string>)
    requires SomeOf(gone, tags, p)
    ensures Plan(Without(tags, gone), p) == LeftOf(Plan(tags, p), gone)
  {
    hide Deletable;
    SomeAreDeletable(tags, p, gone);
    NewestFirstSorts(tags);
    SortWithout(tags, gone);
    DecideLeft(NewestFirst(tags), p, gone);
  }

  lemma {:induction false} LeftOfHolds(ds: seq<Decision>, gone: set<string>)
    ensures forall d :: d in LeftOf(ds, gone) <==> d in ds && d.tag.name !in gone
  {
    if ds != [] {
      var n := |ds| - 1;
      LeftOfHolds(ds[..n], gone);
      assert ds == ds[..n] + [ds[n]];
    }
  }

  /** It asks for exactly the deletions that are missing, and for none once all are done. */
  lemma PlanIsAFixpoint(tags: seq<Tag>, p: Policy, gone: set<string>)
    requires SomeOf(gone, tags, p)
    ensures DeletedNames(Plan(Without(tags, gone), p)) == DeletedNames(Plan(tags, p)) - gone
    ensures gone == DeletedNames(Plan(tags, p)) ==>
              forall d :: d in Plan(Without(tags, gone), p) <==> d in Plan(tags, p) && Kept(d)
  {
    hide DistinctNames, Plan, Without, LeftOf, Kept;
    PlanAgain(tags, p, gone);
    LeftOfHolds(Plan(tags, p), gone);
    forall d | d in Plan(tags, p) ensures d.tag.name in DeletedNames(Plan(tags, p)) <==> !Kept(d) {
      NamedExactly(tags, p, d);
    }
  }

  lemma NamedExactly(tags: seq<Tag>, p: Policy, d: Decision)
    requires DistinctNames(tags) && d in Plan(tags, p)
    ensures d.tag.name in DeletedNames(Plan(tags, p)) <==> !Kept(d)
  {
    var ordered := NewestFirst(tags);
    NewestFirstSorts(tags);
    DistinctByMultiset(tags, ordered);
    DecideTags(ordered, p);
    var i :| 0 <= i < |ordered| && Decide(ordered, p)[i] == d;
    GoneExactly(ordered, p, i);
  }

  lemma {:induction false} DecideAt(ordered: seq<Tag>, p: Policy, i: nat)
    requires i < |ordered|
    ensures |Decide(ordered, p)| == |ordered|
    ensures Decide(ordered, p)[i] == Decision(ordered[i], DecideOne(ordered[i], RankIn(ordered[..i], ordered[i]), p))
  {
    hide DecideOne, RankIn, Kept;
    var n := |ordered| - 1;
    DecideTags(ordered, p);
    DecideTags(ordered[..n], p);
    if i < n {
      DecideAt(ordered[..n], p, i);
      assert ordered[..n][..i] == ordered[..i];
    }
  }

  lemma {:induction false} CountGrows(tags: seq<Tag>, i: nat, j: nat, k: Kind)
    requires i <= j <= |tags|
    ensures Count(tags[..i], k) <= Count(tags[..j], k)
  {
    hide Classify;
    if i < j {
      CountGrows(tags, i, j - 1, k);
      assert tags[..j] == tags[..j - 1] + [tags[j - 1]];
      CountSnoc(tags[..j - 1], tags[j - 1], k);
    }
  }

  /** Within a disposable class, newest first, everything kept comes before everything deleted. */
  lemma KeptComeFirst(tags: seq<Tag>, p: Policy, i: nat, j: nat)
    requires i < j < |Plan(tags, p)|
    requires var k := Classify(Plan(tags, p)[j].tag.name); Disposable(k) && Classify(Plan(tags, p)[i].tag.name) == k
    ensures Plan(tags, p)[i].tag.pushed >= Plan(tags, p)[j].tag.pushed
    ensures Kept(Plan(tags, p)[j]) ==> Kept(Plan(tags, p)[i])
  {
    var ordered := NewestFirst(tags);
    DecideTags(ordered, p);
    NewestFirstSorts(tags);
    DecideAt(ordered, p, i);
    DecideAt(ordered, p, j);
    CountGrows(ordered, i, j, Classify(ordered[j].name));
  }

  lemma {:induction false} InsertCounts(sorted: seq<Tag>, t: Tag, k: Kind)
    ensures Count(Insert(sorted, t), k) == Count(sorted + [t], k)
  {
    hide Classify, Count;
    CountSnoc(sorted, t, k);
    if sorted == [] {
      assert sorted + [t] == [t];
    } else {
      var n := |sorted| - 1;
      assert sorted == sorted[..n] + [sorted[n]];
      if sorted[n].pushed < t.pushed {
        InsertCounts(sorted[..n], t, k);
        CountSnoc(sorted[..n], t, k);
        CountSnoc(sorted[..n], sorted[n], k);
        CountSnoc(Insert(sorted[..n], t), sorted[n], k);
      }
    }
  }

  lemma {:induction false} SortCounts(tags: seq<Tag>, k: Kind)
    ensures Count(NewestFirst(tags), k) == Count(tags, k)
  {
    hide Classify, Insert, Count;
    if tags != [] {
      var n := |tags| - 1;
      SortCounts(tags[..n], k);
      InsertCounts(NewestFirst(tags[..n]), tags[n], k);
      CountSnoc(NewestFirst(tags[..n]), tags[n], k);
      CountSnoc(tags[..n], tags[n], k);
      assert tags == tags[..n] + [tags[n]];
    }
  }

  /** Whichever deletions succeed, of each disposable class at least `floor` are left, or all. */
  lemma FloorSurvives(tags: seq<Tag>, p: Policy, gone: set<string>, k: Kind)
    requires SomeOf(gone, tags, p) && Disposable(k)
    ensures Count(Without(tags, gone), k) >= Least(Count(tags, k), FloorOf(p, k))
  {
    hide Deletable, NewestFirst, Without;
    SomeAreDeletable(tags, p, gone);
    FloorLeft(NewestFirst(tags), p, gone, k);
    SortWithout(tags, gone);
    SortCounts(tags, k);
    SortCounts(Without(tags, gone), k);
  }

  predicate Laxer(p: Policy, q: Policy) {
    && p.maxAgeDays <= q.maxAgeDays && p.keepNewest <= q.keepNewest && p.keepNewestVariant <= q.keepNewestVariant
    && q == p.(maxAgeDays := q.maxAgeDays, keepNewest := q.keepNewest, keepNewestVariant := q.keepNewestVariant)
  }

  /** Raising thresholds never deletes a tag that was kept. */
  lemma {:induction false} RaisingKeeps(ordered: seq<Tag>, p: Policy, q: Policy, i: nat)
    requires Laxer(p, q) && i < |ordered|
    ensures |Decide(ordered, p)| == |Decide(ordered, q)| == |ordered|
    ensures Kept(Decide(ordered, p)[i]) ==> Kept(Decide(ordered, q)[i])
  {
    DecideTags(ordered, p);
    DecideTags(ordered, q);
    var n := |ordered| - 1;
    DecideTags(ordered[..n], p);
    DecideTags(ordered[..n], q);
    if i < n { RaisingKeeps(ordered[..n], p, q, i); }
  }

  // ---------------------------------------------------------------------------
  // Ties, and the latest release
  // ---------------------------------------------------------------------------

  function PushedAt(tags: seq<Tag>, time: int): seq<Tag> {
    if tags == [] then []
    else
      PushedAt(tags[..|tags| - 1], time)
      + if tags[|tags| - 1].pushed == time then [tags[|tags| - 1]] else []
  }

  lemma PushedAtSnoc(tags: seq<Tag>, t: Tag, time: int)
    ensures PushedAt(tags + [t], time) == PushedAt(tags, time) + if t.pushed == time then [t] else []
  {
    assert (tags + [t])[..|tags|] == tags;
  }

  lemma {:induction false} InsertIsStable(sorted: seq<Tag>, t: Tag, time: int)
    ensures PushedAt(Insert(sorted, t), time) == PushedAt(sorted + [t], time)
  {
    hide PushedAt;
    PushedAtSnoc(sorted, t, time);
    if sorted == [] {
      assert sorted + [t] == [t];
    } else {
      var n := |sorted| - 1;
      if sorted[n].pushed < t.pushed {
        InsertIsStable(sorted[..n], t, time);
        PushedAtSnoc(sorted[..n], t, time);
        PushedAtSnoc(sorted[..n], sorted[n], time);
        PushedAtSnoc(Insert(sorted[..n], t), sorted[n], time);
        assert sorted == sorted[..n] + [sorted[n]];
      }
    }
  }

  /** Tags pushed at the same instant keep the order of the listing. */
  lemma {:induction false} EqualTimesStay(tags: seq<Tag>, time: int)
    ensures PushedAt(NewestFirst(tags), time) == PushedAt(tags, time)
  {
    hide PushedAt;
    if tags != [] {
      var n := |tags| - 1;
      EqualTimesStay(tags[..n], time);
      InsertIsStable(NewestFirst(tags[..n]), tags[n], time);
      PushedAtSnoc(NewestFirst(tags[..n]), tags[n], time);
      PushedAtSnoc(tags[..n], tags[n], time);
      assert tags == tags[..n] + [tags[n]];
    }
  }

  lemma {:induction false} AtLeastItself(a: seq<nat>)
    ensures AtLeast(a, a)
  {
    if a != [] { AtLeastItself(a[1..]); }
  }

  lemma FloatChars(f: string)
    requires IsFloat(f)
    ensures f != "" && IsDigit(f[0]) && '-' !in f
  {
    hide IndexOfChar;
    var dot := IndexOfChar(f, '.').value;
    assert f[..dot][0] == f[0] && f[0] in f[..dot];
    assert f == f[..dot] + ['.'] + f[dot + 1..];
  }

  lemma SemverStart(v: string)
    requires IsSemver(v)
    ensures v != "" && (v[0] == 'v' || IsDigit(v[0]))
  {
    hide IndexOfChar;
    var s := WithoutV(v);
    var dash := IndexOfChar(s, '-');
    var core := if dash.Some? then s[..dash.value] else s;
    var dot := IndexOfChar(core, '.').value;
    assert core[..dot][0] == s[0] && s[0] in core[..dot];
  }

  lemma ReleaseKind(f: string, v: string)
    requires IsFloat(f) && IsSemver(v)
    ensures Classify(v) in {KProtected, KRelease} && Classify(f + "-" + v) in {KProtected, KRelease}
  {
    hide IsSemver, IsFloat, IndexOfChar;
    FloatChars(f);
    SemverStart(v);
    var s := f + "-" + v;
    assert s[..|f|] == f && s[|f| + 1..] == v && s[0] == f[0];
    IndexOfCharUnique(s, '-', |f|);
    NotACache(v);
    NotACache(s);
  }

  lemma NotACache(name: string)
    requires name != "" && name[0] != 'b'
    ensures !IsCache(name)
  {
    assert "buildcache"[0] == 'b' && "buildcache-v"[0] == 'b';
  }

  /** However it is spelled, with or without its `v`, a suffix or a variant's prefix: no tag with the
      numbers of the latest release is deleted. */
  lemma LatestReleaseSurvives(t: Tag, f: string, w: string, g: string, v: string, rank: int, p: Policy)
    requires p.latestRelease in {Some(v), Some(g + "-" + v)} && IsFloat(g) && IsSemver(v)
    requires IsFloat(f) && IsSemver(w) && ParseSemver(w) == ParseSemver(v) && t.name in {w, f + "-" + w}
    ensures Kept(Decision(t, DecideOne(t, rank, p)))
  {
    hide IsSemver, ParseSemver, ReleaseCore, Classify, IsFloat;
    ReleaseKind(f, w);
    ReleaseCoreOfVariant(f, w);
    ReleaseCoreOfVariant(g, v);
    AtLeastItself(ParseSemver(v));
  }

  /** A leading `v` makes no difference. */
  lemma LeadingV(v: string)
    requires IsSemver(v) && (v == "" || v[0] != 'v')
    ensures IsSemver("v" + v) && ParseSemver("v" + v) == ParseSemver(v)
  {
    hide IsVersion, Numbers, Split;
    assert ("v" + v)[1..] == v;
    assert WithoutV("v" + v) == v == WithoutV(v);
  }
}
