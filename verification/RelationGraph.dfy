/** The relation graph of a channel: whoever feeds it, and where its traffic goes, breadth first to
    a bounded depth over connections that may form cycles. */
module RelationGraph {
  import opened Wrappers
  import opened Text

  datatype Channel = Channel(id: string, name: string)

  datatype Source = Trigger | Bridge

  datatype Connection = Connection(
    subscription: string,
    source: Source,
    from: Option<Channel>,
    to: Option<Channel>,
    fromRef: Option<string>,
    toRef: Option<string>)

  function FromIdent(e: Connection): Option<string> {
    if e.from.Some? then Some(e.from.value.id) else e.fromRef
  }

  function ToIdent(e: Connection): Option<string> {
    if e.to.Some? then Some(e.to.value.id) else e.toRef
  }

  function FromName(e: Connection): string {
    if e.from.Some? then e.from.value.name else e.fromRef.GetOr("unknown")
  }

  function ToName(e: Connection): string {
    if e.to.Some? then e.to.value.name else e.toRef.GetOr("unknown")
  }

  const UNKNOWN := "~unknown"

  function Slot(ident: Option<string>): string {
    ident.GetOr(UNKNOWN)
  }

  /** An end without identity, or one that spells the stand-in for it. */
  predicate Nameless(ident: Option<string>) {
    ident in {None, Some(UNKNOWN)}
  }

  /** Two ends that ought to be told apart and are not. */
  predicate Confused(a: Option<string>, b: Option<string>) {
    a != b && Nameless(a) && Nameless(b)
  }

  lemma SlotsMeet(a: Option<string>, b: Option<string>)
    ensures Slot(a) == Slot(b) <==> a == b || Confused(a, b)
  {
  }

  function Label(e: Connection): string {
    if e.source == Bridge then "bridged · " + e.subscription else "via " + e.subscription
  }

  // ---------------------------------------------------------------------------
  // What should be drawn
  // ---------------------------------------------------------------------------

  predicate EntersRoot(e: Connection, root: string) {
    ToIdent(e) == Some(root)
  }

  predicate LeavesOneOf(e: Connection, channels: set<string>) {
    FromIdent(e).Some? && FromIdent(e).value in channels
  }

  function Leaving(edges: seq<Connection>, channels: set<string>): set<Connection> {
    set e | e in edges && LeavesOneOf(e, channels)
  }

  /** The known channels one connection away. */
  function Targets(edges: seq<Connection>, channels: set<string>): set<string> {
    set e | e in edges && LeavesOneOf(e, channels) && e.to.Some? :: e.to.value.id
  }

  /** The channels that `root` reaches over at most `n` resolved connections. */
  function Reached(edges: seq<Connection>, root: string, n: nat): set<string> {
    if n == 0 then {root}
    else
      var before := Reached(edges, root, n - 1);
      before + Targets(edges, before)
  }

  predicate ShouldDraw(e: Connection, edges: seq<Connection>, root: string, downDepth: int) {
    EntersRoot(e, root) || (downDepth >= 1 && LeavesOneOf(e, Reached(edges, root, downDepth - 1)))
  }

  function Drawable(edges: seq<Connection>, root: string, downDepth: int): set<Connection> {
    set e | e in edges && ShouldDraw(e, edges, root, downDepth)
  }

  // ---------------------------------------------------------------------------
  // Reachability
  // ---------------------------------------------------------------------------

  /** A walk from `root` to `x` over connections of `edges`. */
  ghost predicate Walk(edges: seq<Connection>, root: string, w: seq<Connection>, x: string) {
    if w == [] then x == root
    else
      var last := w[|w| - 1];
      && last in edges && last.to.Some? && last.to.value.id == x && FromIdent(last).Some?
      && Walk(edges, root, w[..|w| - 1], FromIdent(last).value)
  }

  lemma {:induction false} WalkIsReached(edges: seq<Connection>, root: string, w: seq<Connection>, x: string, n: nat)
    requires Walk(edges, root, w, x) && |w| <= n
    ensures x in Reached(edges, root, n)
    decreases n
  {
    if n > 0 {
      if w == [] {
        WalkIsReached(edges, root, w, x, n - 1);
      } else {
        WalkIsReached(edges, root, w[..|w| - 1], FromIdent(w[|w| - 1]).value, n - 1);
      }
    }
  }

  lemma {:induction false} ReachedByWalk(edges: seq<Connection>, root: string, n: nat, x: string) returns (w: seq<Connection>)
    requires x in Reached(edges, root, n)
    ensures Walk(edges, root, w, x) && |w| <= n
  {
    if n == 0 {
      w := [];
    } else if x in Reached(edges, root, n - 1) {
      w := ReachedByWalk(edges, root, n - 1, x);
    } else {
      var e :| e in edges && LeavesOneOf(e, Reached(edges, root, n - 1)) && e.to.Some? && e.to.value.id == x;
      var before := ReachedByWalk(edges, root, n - 1, FromIdent(e).value);
      w := before + [e];
      assert w[..|w| - 1] == before;
    }
  }

  /** `Reached` is the set of ends of short walks. */
  lemma ReachedIffWalk(edges: seq<Connection>, root: string, n: nat, x: string)
    ensures x in Reached(edges, root, n) <==> exists w :: Walk(edges, root, w, x) && |w| <= n
  {
    if x in Reached(edges, root, n) {
      var w := ReachedByWalk(edges, root, n, x);
    }
    forall w | Walk(edges, root, w, x) && |w| <= n ensures x in Reached(edges, root, n) {
      WalkIsReached(edges, root, w, x, n);
    }
  }

  function Ends(edges: seq<Connection>): (ends: set<string>)
    ensures |ends| <= |edges|
  {
    if edges == [] then {}
    else
      var n := |edges| - 1;
      Ends(edges[..n]) + (if edges[n].to.Some? then {edges[n].to.value.id} else {})
  }

  lemma {:induction false} EndsComplete(edges: seq<Connection>, e: Connection)
    requires e in edges && e.to.Some?
    ensures e.to.value.id in Ends(edges)
  {
    var n := |edges| - 1;
    assert edges == edges[..n] + [edges[n]];
    if e != edges[n] { EndsComplete(edges[..n], e); }
  }

  lemma {:induction false} ReachedWithinEnds(edges: seq<Connection>, root: string, n: nat)
    ensures Reached(edges, root, n) <= Ends(edges) + {root}
    ensures root in Reached(edges, root, n)
  {
    if n > 0 {
      ReachedWithinEnds(edges, root, n - 1);
      forall e | e in edges && e.to.Some? ensures e.to.value.id in Ends(edges) { EndsComplete(edges, e); }
    }
  }

  /** Every round that still finds something finds at least one channel more. */
  lemma {:induction false} ReachedGrows(edges: seq<Connection>, root: string, n: nat)
    requires n >= 1 ==> Reached(edges, root, n) != Reached(edges, root, n - 1)
    ensures |Reached(edges, root, n)| >= n + 1
  {
    hide Targets;
    if n >= 1 {
      ReachedGrows(edges, root, n - 1);
      Bigger(Reached(edges, root, n - 1), Reached(edges, root, n));
    }
  }

  lemma Bigger(a: set<string>, b: set<string>)
    requires a <= b && a != b
    ensures |a| < |b|
  {
    assert b == a + (b - a);
    assert b - a != {};
  }

  /** So the search can grow for at most as many rounds as there are connections. */
  lemma RoundsBounded(edges: seq<Connection>, root: string, n: nat)
    requires n >= 1 ==> Reached(edges, root, n) != Reached(edges, root, n - 1)
    ensures n <= |edges|
  {
    ReachedGrows(edges, root, n);
    ReachedWithinEnds(edges, root, n);
    SubsetSize(Reached(edges, root, n), Ends(edges) + {root});
  }

  lemma {:induction false} Settled(edges: seq<Connection>, root: string, k: nat, n: nat)
    requires 1 <= k <= n && Reached(edges, root, k) == Reached(edges, root, k - 1)
    ensures Reached(edges, root, n) == Reached(edges, root, k - 1)
  {
    hide Targets;
    if k < n { Settled(edges, root, k, n - 1); }
  }

  /** A depth beyond the number of connections draws everything downstream, and more depth adds
      nothing. */
  lemma DeepEnough(edges: seq<Connection>, root: string, downDepth: int, e: Connection)
    requires downDepth > |edges| && e in edges
    ensures e in Drawable(edges, root, downDepth) <==>
            EntersRoot(e, root)
            || (FromIdent(e).Some? && exists w :: Walk(edges, root, w, FromIdent(e).value))
  {
    hide Reached, Targets, Walk;
    var n := downDepth - 1;
    if FromIdent(e).Some? {
      var x := FromIdent(e).value;
      ReachedIffWalk(edges, root, n, x);
      forall w | Walk(edges, root, w, x) ensures x in Reached(edges, root, n) {
        WalkIsReached(edges, root, w, x, |w| + n);
        AllReached(edges, root, n, |w| + n);
      }
    }
  }

  lemma AllReached(edges: seq<Connection>, root: string, n: nat, m: nat)
    requires |edges| <= n <= m
    ensures Reached(edges, root, m) == Reached(edges, root, n)
  {
    var k := |edges| + 1;
    if Reached(edges, root, k) != Reached(edges, root, k - 1) {
      RoundsBounded(edges, root, k);
    } else {
      if m >= k { Settled(edges, root, k, m); }
      if n >= k { Settled(edges, root, k, n); }
    }
  }

  // ---------------------------------------------------------------------------
  // The drawing
  // ---------------------------------------------------------------------------

  datatype Node = Node(text: string, unresolved: bool)

  datatype Line = Line(fromKey: nat, toKey: nat, text: string)

  function KeyText(k: nat): string {
    "A" + Decimal(k)
  }

  /** What `seenEdges` holds of a line. */
  function EdgeSlot(l: Line): string {
    KeyText(l.fromKey) + ">" + (KeyText(l.toKey) + ">" + l.text)
  }

  lemma HeadOf(k: nat, rest: string)
    ensures IndexOfChar(KeyText(k) + ">" + rest, '>') == Some(|KeyText(k)|)
  {
    var s, t := KeyText(k) + ">" + rest, KeyText(k);
    assert s[..|t|] == t;
    assert forall c :: c in Decimal(k) ==> IsDigit(c);
    IndexOfCharUnique(s, '>', |t|);
  }

  lemma KeyTextInjective(k: nat, m: nat, a: string, b: string)
    requires KeyText(k) + ">" + a == KeyText(m) + ">" + b
    ensures k == m && a == b
  {
    HeadOf(k, a);
    HeadOf(m, b);
    var s, n := KeyText(k) + ">" + a, |KeyText(k)|;
    assert KeyText(k) == s[..n] == KeyText(m) && a == s[n + 1..] == b;
    assert Decimal(k) == KeyText(k)[1..] == KeyText(m)[1..] == Decimal(m);
    DecimalRoundTrip(k);
    DecimalRoundTrip(m);
  }

  /** The text under which an edge is remembered names its ends and its label, so only true
      repetitions are dropped. */
  lemma EdgeSlotInjective(l: Line, m: Line)
    requires EdgeSlot(l) == EdgeSlot(m)
    ensures l == m
  {
    KeyTextInjective(l.fromKey, m.fromKey, KeyText(l.toKey) + ">" + l.text, KeyText(m.toKey) + ">" + m.text);
    KeyTextInjective(l.toKey, m.toKey, l.text, m.text);
  }

  /** An entry of the text summary; `edge` is empty when the line was already there. */
  datatype Endpoint = Endpoint(id: Option<string>, name: string, edge: string)

  function Entering(edges: seq<Connection>, root: string): seq<Connection> {
    if edges == [] then []
    else
      var n := |edges| - 1;
      var before := Entering(edges[..n], root);
      if EntersRoot(edges[n], root) then before + [edges[n]] else before
  }

  function LeavingInOrder(edges: seq<Connection>, x: string): seq<Connection> {
    if edges == [] then []
    else
      var n := |edges| - 1;
      var before := LeavingInOrder(edges[..n], x);
      if FromIdent(edges[n]) == Some(x) then before + [edges[n]] else before
  }

  lemma OrderSnoc(edges: seq<Connection>, e: Connection, x: string)
    ensures Entering(edges + [e], x) == if EntersRoot(e, x) then Entering(edges, x) + [e] else Entering(edges, x)
    ensures LeavingInOrder(edges + [e], x) ==
            if FromIdent(e) == Some(x) then LeavingInOrder(edges, x) + [e] else LeavingInOrder(edges, x)
  {
    assert (edges + [e])[..|edges|] == edges;
  }

  /** Two connections that are drawn as one line. */
  predicate SameLine(d: Connection, e: Connection) {
    Slot(FromIdent(d)) == Slot(FromIdent(e)) && Slot(ToIdent(d)) == Slot(ToIdent(e)) && Label(d) == Label(e)
  }

  ghost predicate Repeats(drawn: set<Connection>, e: Connection) {
    exists d :: d in drawn && SameLine(d, e)
  }

  function Those(conns: seq<Connection>): set<Connection> {
    set e | e in conns
  }

  /** The summary lists the far ends of these connections, in order, each with its label unless the
      line was drawn before: for one of `prior` or for an earlier connection of the list. */
  ghost predicate Summarises(es: seq<Endpoint>, conns: seq<Connection>, incoming: bool, prior: set<Connection>) {
    && |es| == |conns|
    && forall i :: 0 <= i < |es| ==>
         var far := if incoming then conns[i].from else conns[i].to;
         && es[i].id == (if far.Some? then Some(far.value.id) else None)
         && es[i].name == (if incoming then FromName(conns[i]) else ToName(conns[i]))
         && es[i].edge == (if Repeats(prior + Those(conns[..i]), conns[i]) then "" else Label(conns[i]))
  }

  lemma SummaryStarts(incoming: bool, prior: set<Connection>)
    ensures Summarises([], [], incoming, prior)
  {
  }

  lemma SummaryGrows(es: seq<Endpoint>, conns: seq<Connection>, incoming: bool, prior: set<Connection>,
                     e: Connection, text: Option<string>)
    requires Summarises(es, conns, incoming, prior)
    requires text == if Repeats(prior + Those(conns), e) then None else Some(Label(e))
    ensures var far := if incoming then e.from else e.to;
            Summarises(es + [Endpoint(if far.Some? then Some(far.value.id) else None,
                                      if incoming then FromName(e) else ToName(e), text.GetOr(""))],
                       conns + [e], incoming, prior)
  {
    hide Repeats, Label, FromName, ToName;
    forall i | 0 <= i <= |conns| ensures (conns + [e])[..i] == conns[..i] {
    }
    assert conns[..|conns|] == conns;
  }

  lemma {:induction false} InOrder(edges: seq<Connection>, x: string)
    ensures forall d :: d in Entering(edges, x) <==> d in edges && EntersRoot(d, x)
    ensures forall d :: d in LeavingInOrder(edges, x) <==> d in edges && FromIdent(d) == Some(x)
    ensures Those(Entering(edges, x)) == set e | e in edges && EntersRoot(e, x)
    ensures Those(LeavingInOrder(edges, x)) == Leaving(edges, {x})
  {
    if edges != [] {
      var n := |edges| - 1;
      InOrder(edges[..n], x);
      assert edges == edges[..n] + [edges[n]];
    }
  }

  lemma NothingInOrder(x: string)
    ensures Entering([], x) == [] && LeavingInOrder([], x) == []
  {
  }

  lemma ThoseInOrder(edges: seq<Connection>, x: string)
    ensures Those(Entering(edges, x)) == set e | e in edges && EntersRoot(e, x)
    ensures Those(LeavingInOrder(edges, x)) == Leaving(edges, {x})
  {
    InOrder(edges, x);
  }

  /** A channel waiting to be expanded, with its node key. */
  datatype Hop = Hop(id: string, key: nat)

  function Ids(hops: seq<Hop>): set<string> {
    set h | h in hops :: h.id
  }

  function HopIds(hops: seq<Hop>): (ids: seq<string>)
    ensures |ids| == |hops| && forall i :: 0 <= i < |hops| ==> ids[i] == hops[i].id
  {
    seq(|hops|, i requires 0 <= i < |hops| => hops[i].id)
  }

  ghost predicate Distinct(hops: seq<Hop>) {
    forall i, j :: 0 <= i < j < |hops| ==> hops[i].id != hops[j].id
  }

  lemma IdsSnoc(hops: seq<Hop>, h: Hop)
    ensures Ids(hops + [h]) == Ids(hops) + {h.id}
  {
    forall x | x in Ids(hops) + {h.id} ensures x in Ids(hops + [h]) {
      if x in Ids(hops) {
        var g :| g in hops && g.id == x;
        assert g in hops + [h];
      } else {
        assert h in hops + [h];
      }
    }
  }

  lemma DistinctSnoc(hops: seq<Hop>, h: Hop)
    requires Distinct(hops) && h.id !in Ids(hops)
    ensures Distinct(hops + [h]) && Ids(hops + [h]) == Ids(hops) + {h.id}
  {
    IdsSnoc(hops, h);
    forall i | 0 <= i < |hops| ensures hops[i].id != h.id { assert hops[i] in hops; }
  }

  lemma LeavingSnoc(edges: seq<Connection>, e: Connection, xs: set<string>)
    ensures Leaving(edges + [e], xs) == Leaving(edges, xs) + (if LeavesOneOf(e, xs) then {e} else {})
    ensures Targets(edges + [e], xs) ==
            Targets(edges, xs) + (if LeavesOneOf(e, xs) && e.to.Some? then {e.to.value.id} else {})
  {
    assert forall d :: d in edges + [e] <==> d in edges || d == e;
  }

  lemma NothingLeaves(edges: seq<Connection>, xs: set<string>)
    requires edges == [] || xs == {}
    ensures Leaving(edges, xs) == {} && Targets(edges, xs) == {}
  {
  }

  lemma LeavingUnion(edges: seq<Connection>, xs: set<string>, ys: set<string>)
    ensures Leaving(edges, xs + ys) == Leaving(edges, xs) + Leaving(edges, ys)
    ensures Targets(edges, xs + ys) == Targets(edges, xs) + Targets(edges, ys)
  {
  }

  /** Between levels: everything within `depth` is visited, the frontier is what the last level
      found, and everything before it has been expanded once. */
  ghost predicate SearchInv(edges: seq<Connection>, root: string, depth: nat, visited: set<string>,
                            frontier: set<string>, expanded: seq<string>) {
    && visited == Reached(edges, root, depth)
    && frontier == (if depth == 0 then {root} else visited - Reached(edges, root, depth - 1))
    && (forall x :: x in expanded <==> depth >= 1 && x in Reached(edges, root, depth - 1))
    && NoRepeats(expanded)
  }

  lemma SearchStarts(edges: seq<Connection>, root: string, frontier: seq<Hop>)
    requires |frontier| == 1 && frontier[0].id == root
    ensures SearchInv(edges, root, 0, {root}, Ids(frontier), []) && Distinct(frontier)
    ensures Drawable(edges, root, 0) == set e | e in edges && EntersRoot(e, root)
  {
    assert frontier == [] + [frontier[0]];
    IdsSnoc([], frontier[0]);
    assert Ids([]) == {};
    DrawableSplit(edges, root, 0);
  }

  lemma HopIdsAreIds(hops: seq<Hop>, x: string)
    ensures x in HopIds(hops) <==> x in Ids(hops)
  {
    var ids := HopIds(hops);
    if x in ids {
      var i :| 0 <= i < |ids| && ids[i] == x;
      assert hops[i] in hops;
    }
    if x in Ids(hops) {
      var h :| h in hops && h.id == x;
      var i :| 0 <= i < |hops| && hops[i] == h;
      assert ids[i] == x;
    }
  }

  lemma NoRepeatsConcat(a: seq<string>, b: seq<string>)
    requires NoRepeats(a) && NoRepeats(b) && forall x :: x in a ==> x !in b
    ensures NoRepeats(a + b)
  {
    forall i, j | 0 <= i < j < |a + b| ensures (a + b)[i] != (a + b)[j] {
      if i < |a| <= j { assert a[i] in a && b[j - |a|] in b; }
    }
  }

  lemma SearchStep(edges: seq<Connection>, root: string, depth: nat, visited: set<string>,
                   frontier: seq<Hop>, expanded: seq<string>)
    requires SearchInv(edges, root, depth, visited, Ids(frontier), expanded) && Distinct(frontier) && frontier != []
    ensures var visited' := visited + Targets(edges, Ids(frontier));
            SearchInv(edges, root, depth + 1, visited', visited' - visited, expanded + HopIds(frontier))
    ensures Drawable(edges, root, depth + 1) == Drawable(edges, root, depth) + Leaving(edges, Ids(frontier))
    ensures depth <= |edges|
  {
    var ids := HopIds(frontier);
    if depth >= 1 {
      var before := Reached(edges, root, depth - 1);
      LeavingUnion(edges, before, Ids(frontier));
      assert before + Ids(frontier) == visited;
      assert Targets(edges, before) <= visited;
      assert frontier[0].id in Ids(frontier) by { assert frontier[0] in frontier; }
      RoundsBounded(edges, root, depth);
    }
    forall x ensures x in ids <==> x in Ids(frontier) { HopIdsAreIds(frontier, x); }
    NoRepeatsConcat(expanded, ids);
    DrawableSplit(edges, root, depth);
    DrawableSplit(edges, root, depth + 1);
  }

  lemma DrawableSplit(edges: seq<Connection>, root: string, downDepth: int)
    ensures Drawable(edges, root, downDepth) ==
            (set e | e in edges && EntersRoot(e, root))
            + (if downDepth >= 1 then Leaving(edges, Reached(edges, root, downDepth - 1)) else {})
  {
  }

  /** An empty frontier means that no further depth reaches more. */
  lemma NothingLeft(edges: seq<Connection>, root: string, depth: nat, downDepth: nat, visited: set<string>,
                    expanded: seq<string>)
    requires SearchInv(edges, root, depth, visited, {}, expanded) && depth < downDepth
    ensures depth >= 1 && Reached(edges, root, downDepth - 1) == Reached(edges, root, depth - 1)
  {
    hide Targets;
    assert root in {root};
    assert depth >= 1;
    var was := Reached(edges, root, depth - 1);
    forall x | x in visited ensures x in was {
      assert x !in visited - was;
    }
    assert Reached(edges, root, depth) == was;
    Settled(edges, root, depth, downDepth - 1);
  }

  /** When the loop ends, at its depth or because nothing is left to expand. */
  lemma SearchDone(edges: seq<Connection>, root: string, depth: nat, downDepth: int, visited: set<string>,
                   frontier: seq<Hop>, expanded: seq<string>)
    requires SearchInv(edges, root, depth, visited, Ids(frontier), expanded)
    requires if downDepth < 0 then depth == 0 else depth <= downDepth && (depth < downDepth ==> frontier == [])
    ensures Drawable(edges, root, downDepth) == Drawable(edges, root, depth)
    ensures downDepth >= 1 ==> depth >= 1
    ensures NoRepeats(expanded)
    ensures forall x :: x in expanded <==> downDepth >= 1 && x in Reached(edges, root, downDepth - 1)
  {
    hide Reached, Targets, Drawable;
    if depth < downDepth {
      assert Ids(frontier) == {};
      NothingLeft(edges, root, depth, downDepth, visited, expanded);
    }
    DrawableSplit(edges, root, depth);
    DrawableSplit(edges, root, downDepth);
  }

  predicate NoRepeats<T(==)>(s: seq<T>) {
    forall i, j :: 0 <= i < j < |s| ==> s[i] != s[j]
  }

  ghost predicate EndOf(s: string, e: Connection) {
    s == Slot(FromIdent(e)) || s == Slot(ToIdent(e))
  }

  ghost predicate Placed(keys: map<string, nat>, e: Connection) {
    Slot(FromIdent(e)) in keys && Slot(ToIdent(e)) in keys
  }

  ghost function LineOf(keys: map<string, nat>, e: Connection): Line
    requires Placed(keys, e)
  {
    Line(keys[Slot(FromIdent(e))], keys[Slot(ToIdent(e))], Label(e))
  }

  ghost predicate DrawnAs(keys: map<string, nat>, e: Connection, l: Line) {
    Placed(keys, e) && LineOf(keys, e) == l
  }

  ghost predicate Backed(keys: map<string, nat>, drawn: set<Connection>, l: Line) {
    exists e :: e in drawn && DrawnAs(keys, e, l)
  }

  ghost predicate Touched(drawn: set<Connection>, s: string) {
    exists e :: e in drawn && EndOf(s, e)
  }

  /** The lines are those of the connections drawn, each once; the nodes are the root and their ends. */
  ghost predicate Drawing(root: string, keys: map<string, nat>, lines: seq<Line>, drawn: set<Connection>) {
    && (forall e {:trigger e in drawn} :: e in drawn ==> Placed(keys, e) && LineOf(keys, e) in lines)
    && (forall l {:trigger Backed(keys, drawn, l)} :: l in lines ==> Backed(keys, drawn, l))
    && NoRepeats(lines)
    && (forall s {:trigger Touched(drawn, s)} :: s in keys ==> s == root || Touched(drawn, s))
  }

  ghost predicate Extends(keys: map<string, nat>, keys': map<string, nat>) {
    forall s :: s in keys ==> s in keys' && keys'[s] == keys[s]
  }

  function WithLine(lines: seq<Line>, l: Line): seq<Line> {
    if l in lines then lines else lines + [l]
  }

  lemma DrawingGrows(root: string, keys: map<string, nat>, lines: seq<Line>, drawn: set<Connection>,
                     keys': map<string, nat>, e: Connection)
    requires Drawing(root, keys, lines, drawn)
    requires Extends(keys, keys') && Placed(keys', e)
    requires forall s :: s in keys' ==> s in keys || EndOf(s, e)
    ensures Drawing(root, keys', WithLine(lines, LineOf(keys', e)), drawn + {e})
  {
    var lines' := WithLine(lines, LineOf(keys', e));
    forall l | l in lines' ensures Backed(keys', drawn + {e}, l) {
      if l in lines {
        assert Backed(keys, drawn, l);
        var d :| d in drawn && DrawnAs(keys, d, l);
        assert DrawnAs(keys', d, l);
      } else {
        assert DrawnAs(keys', e, l);
      }
    }
    forall d | d in drawn + {e} ensures Placed(keys', d) && LineOf(keys', d) in lines' {
      if d in drawn { assert LineOf(keys, d) in lines; }
    }
    forall s | s in keys' && s != root ensures Touched(drawn + {e}, s) {
      if s in keys {
        assert Touched(drawn, s);
        var d :| d in drawn && EndOf(s, d);
      } else {
        assert EndOf(s, e);
      }
    }
  }

  // ---------------------------------------------------------------------------
  // The order in which ends are placed
  // ---------------------------------------------------------------------------

  /** What one end of a connection asks for: a node of its name, a ghost if its channel is not known. */
  datatype End = End(slot: string, node: Node)

  function FromEnd(e: Connection): End {
    End(Slot(FromIdent(e)), Node(FromName(e), e.from.None?))
  }

  function ToEnd(e: Connection): End {
    End(Slot(ToIdent(e)), Node(ToName(e), e.to.None?))
  }

  function FromEnds(conns: seq<Connection>): seq<End> {
    seq(|conns|, i requires 0 <= i < |conns| => FromEnd(conns[i]))
  }

  function ToEnds(conns: seq<Connection>): seq<End> {
    seq(|conns|, i requires 0 <= i < |conns| => ToEnd(conns[i]))
  }

  lemma EndsSnoc(conns: seq<Connection>, e: Connection)
    ensures FromEnds(conns + [e]) == FromEnds(conns) + [FromEnd(e)]
    ensures ToEnds(conns + [e]) == ToEnds(conns) + [ToEnd(e)]
  {
    hide FromEnd, ToEnd;
  }

  lemma EndsAppend(a: seq<Connection>, b: seq<Connection>)
    ensures ToEnds(a + b) == ToEnds(a) + ToEnds(b)
  {
    hide ToEnd;
  }

  /** The connections out of these channels, channel by channel. */
  function LeavingAll(edges: seq<Connection>, ids: seq<string>): seq<Connection> {
    if ids == [] then []
    else LeavingAll(edges, ids[..|ids| - 1]) + LeavingInOrder(edges, ids[|ids| - 1])
  }

  lemma LeavingAllSnoc(edges: seq<Connection>, ids: seq<string>, id: string)
    ensures LeavingAll(edges, ids + [id]) == LeavingAll(edges, ids) + LeavingInOrder(edges, id)
  {
    hide LeavingInOrder;
    assert (ids + [id])[..|ids|] == ids;
  }

  lemma {:induction false} LeavingAllAppend(edges: seq<Connection>, a: seq<string>, b: seq<string>)
    ensures LeavingAll(edges, a + b) == LeavingAll(edges, a) + LeavingAll(edges, b)
  {
    hide LeavingInOrder;
    if b == [] {
      assert a + b == a;
    } else {
      var n := |b| - 1;
      assert a + b == (a + b[..n]) + [b[n]] && b == b[..n] + [b[n]];
      LeavingAllAppend(edges, a, b[..n]);
      LeavingAllSnoc(edges, a + b[..n], b[n]);
      LeavingAllSnoc(edges, b[..n], b[n]);
    }
  }

  /** The known channels that these connections lead to, in order. */
  function Known(conns: seq<Connection>): seq<string> {
    if conns == [] then []
    else
      var e := conns[|conns| - 1];
      Known(conns[..|conns| - 1]) + if e.to.Some? then [e.to.value.id] else []
  }

  lemma KnownSnoc(conns: seq<Connection>, e: Connection)
    ensures Known(conns + [e]) == Known(conns) + if e.to.Some? then [e.to.value.id] else []
  {
    assert (conns + [e])[..|conns|] == conns;
  }

  lemma {:induction false} KnownAppend(a: seq<Connection>, b: seq<Connection>)
    ensures Known(a + b) == Known(a) + Known(b)
  {
    if b == [] {
      assert a + b == a;
    } else {
      var n := |b| - 1;
      assert a + b == (a + b[..n]) + [b[n]] && b == b[..n] + [b[n]];
      KnownAppend(a, b[..n]);
      KnownSnoc(a + b[..n], b[n]);
      KnownSnoc(b[..n], b[n]);
    }
  }

  function SetOf(xs: seq<string>): set<string> {
    set x | x in xs
  }

  /** Those not seen before, each at its first place. */
  function NewIn(seen: set<string>, xs: seq<string>): seq<string> {
    if xs == [] then []
    else
      var before, x := xs[..|xs| - 1], xs[|xs| - 1];
      NewIn(seen, before) + if x in seen || x in before then [] else [x]
  }

  lemma NewInSnoc(seen: set<string>, xs: seq<string>, x: string)
    ensures NewIn(seen, xs + [x]) == NewIn(seen, xs) + if x in seen || x in xs then [] else [x]
  {
    assert (xs + [x])[..|xs|] == xs;
  }

  lemma {:induction false} NewInAppend(seen: set<string>, a: seq<string>, b: seq<string>)
    ensures NewIn(seen, a + b) == NewIn(seen, a) + NewIn(seen + SetOf(a), b)
  {
    if b == [] {
      assert a + b == a;
    } else {
      var n := |b| - 1;
      assert a + b == (a + b[..n]) + [b[n]] && b == b[..n] + [b[n]];
      NewInAppend(seen, a, b[..n]);
      NewInSnoc(seen, a + b[..n], b[n]);
      NewInSnoc(seen + SetOf(a), b[..n], b[n]);
    }
  }

  /** The channels whose connections are followed, in order: level by level, each level the known
      channels that the one before newly led to. */
  function Search(edges: seq<Connection>, frontier: seq<string>, visited: set<string>, depth: int): seq<string>
    decreases if depth < 0 then 0 else depth
  {
    if depth <= 0 || frontier == [] then []
    else
      var found := Known(LeavingAll(edges, frontier));
      frontier + Search(edges, NewIn(visited, found), visited + SetOf(found), depth - 1)
  }

  lemma {:induction false} KnownTargets(edges: seq<Connection>, x: string)
    ensures SetOf(Known(LeavingInOrder(edges, x))) == Targets(edges, {x})
  {
    if edges != [] {
      var n := |edges| - 1;
      var before, e := edges[..n], edges[n];
      assert edges == before + [e];
      KnownTargets(before, x);
      LeavingSnoc(before, e, {x});
      OrderSnoc(before, e, x);
      KnownSnoc(LeavingInOrder(before, x), e);
    } else {
      NothingLeaves(edges, {x});
    }
  }

  /** The channels added to the next level are those that these connections newly lead to. */
  ghost predicate Discovers(next: seq<Hop>, next': seq<Hop>, visited: set<string>, conns: seq<Connection>) {
    HopIds(next') == HopIds(next) + NewIn(visited, Known(conns))
  }

  lemma DiscoversNothing(next: seq<Hop>, visited: set<string>)
    ensures Discovers(next, next, visited, [])
  {
  }

  lemma DiscoversMore(next: seq<Hop>, was: seq<Hop>, now: seq<Hop>, visited: set<string>, conns: seq<Connection>, e: Connection)
    requires Discovers(next, was, visited, conns)
    requires HopIds(now) == HopIds(was) +
               if e.to.Some? && e.to.value.id !in visited + SetOf(Known(conns)) then [e.to.value.id] else []
    ensures Discovers(next, now, visited, conns + [e])
  {
    hide HopIds, NewIn, Known;
    KnownSnoc(conns, e);
    if e.to.Some? {
      var x := e.to.value.id;
      NewInSnoc(visited, Known(conns), x);
      assert x in SetOf(Known(conns)) <==> x in Known(conns);
      assert HopIds(next) + NewIn(visited, Known(conns)) + [x] == HopIds(next) + (NewIn(visited, Known(conns)) + [x]);
      assert NewIn(visited, Known(conns)) + [] == NewIn(visited, Known(conns)) && HopIds(was) + [] == HopIds(was);
    } else {
      assert Known(conns) + [] == Known(conns) && HopIds(was) + [] == HopIds(was);
    }
  }

  lemma DiscoversOn(was: seq<Hop>, now: seq<Hop>, visited: set<string>, seen: set<string>, conns: seq<Connection>,
                    more: seq<Connection>)
    requires Discovers([], was, visited, conns) && seen == visited + SetOf(Known(conns))
    requires Discovers(was, now, seen, more)
    ensures Discovers([], now, visited, conns + more)
    ensures seen + SetOf(Known(more)) == visited + SetOf(Known(conns + more))
  {
    hide HopIds, NewIn, Known;
    KnownAppend(conns, more);
    NewInAppend(visited, Known(conns), Known(more));
  }

  /** One more connection of a node. */
  lemma NodeStep(edges: seq<Connection>, e: Connection, x: string, next: seq<Hop>, was: seq<Hop>, now: seq<Hop>,
                 visited: set<string>, seen: set<string>)
    requires FromIdent(e) == Some(x) && seen == visited + Targets(edges, {x})
    requires Discovers(next, was, visited, LeavingInOrder(edges, x))
    requires HopIds(now) == HopIds(was) + if e.to.Some? && e.to.value.id !in seen then [e.to.value.id] else []
    ensures Discovers(next, now, visited, LeavingInOrder(edges + [e], x))
    ensures ToEnds(LeavingInOrder(edges + [e], x)) == ToEnds(LeavingInOrder(edges, x)) + [ToEnd(e)]
  {
    hide Discovers, HopIds, Targets, LeavingInOrder, ToEnds, ToEnd, Known;
    OrderSnoc(edges, e, x);
    KnownTargets(edges, x);
    EndsSnoc(LeavingInOrder(edges, x), e);
    DiscoversMore(next, was, now, visited, LeavingInOrder(edges, x), e);
  }

  lemma HopIdsStart()
    ensures HopIds([]) == []
  {
  }

  lemma HopIdsSnoc(hops: seq<Hop>, h: Hop)
    ensures HopIds(hops + [h]) == HopIds(hops) + [h.id]
  {
  }

  lemma NoEnds()
    ensures FromEnds([]) == [] && ToEnds([]) == []
  {
  }

  lemma NobodyIn()
    ensures SetOf([]) == {}
  {
  }

  lemma NobodyLeaves(edges: seq<Connection>)
    ensures LeavingAll(edges, []) == [] && Known([]) == []
  {
  }

  /** One level of the search, with the hops that carry it. */
  lemma SearchOn(edges: seq<Connection>, frontier: seq<Hop>, visited: set<string>, depth: int, next: seq<Hop>,
                 visited': set<string>)
    requires depth > 0 && frontier != []
    requires Discovers([], next, visited, LeavingAll(edges, HopIds(frontier)))
    requires visited' == visited + SetOf(Known(LeavingAll(edges, HopIds(frontier))))
    ensures Search(edges, HopIds(frontier), visited, depth) ==
            HopIds(frontier) + Search(edges, HopIds(next), visited', depth - 1)
  {
    hide Known, LeavingAll, NewIn;
    HopIdsStart();
    assert [] + NewIn(visited, Known(LeavingAll(edges, HopIds(frontier)))) ==
           NewIn(visited, Known(LeavingAll(edges, HopIds(frontier))));
  }

  lemma SearchEnds(edges: seq<Connection>, frontier: seq<Hop>, visited: set<string>, depth: int)
    requires depth <= 0 || frontier == []
    ensures Search(edges, HopIds(frontier), visited, depth) == []
  {
  }

  /** One more hop of a level: the ends placed, the channels found and the ones seen. */
  lemma LevelStep(edges: seq<Connection>, hops: seq<Hop>, h: Hop, was: seq<Hop>, now: seq<Hop>, visited: set<string>,
                  seen: set<string>)
    requires Discovers([], was, visited, LeavingAll(edges, HopIds(hops)))
    requires seen == visited + SetOf(Known(LeavingAll(edges, HopIds(hops))))
    requires Discovers(was, now, seen, LeavingInOrder(edges, h.id))
    ensures Discovers([], now, visited, LeavingAll(edges, HopIds(hops + [h])))
    ensures seen + Targets(edges, {h.id}) == visited + SetOf(Known(LeavingAll(edges, HopIds(hops + [h]))))
    ensures ToEnds(LeavingAll(edges, HopIds(hops + [h]))) ==
            ToEnds(LeavingAll(edges, HopIds(hops))) + ToEnds(LeavingInOrder(edges, h.id))
  {
    hide Discovers, HopIds, LeavingAll, LeavingInOrder, Known, ToEnds, Targets, SetOf;
    HopIdsSnoc(hops, h);
    LeavingAllSnoc(edges, HopIds(hops), h.id);
    EndsAppend(LeavingAll(edges, HopIds(hops)), LeavingInOrder(edges, h.id));
    DiscoversOn(was, now, visited, seen, LeavingAll(edges, HopIds(hops)), LeavingInOrder(edges, h.id));
    KnownTargets(edges, h.id);
  }

  /** A node is the one that the first end placed in its slot asked for. */
  ghost predicate FirstOf(placed: seq<End>, slot: string, node: Node) {
    exists i :: 0 <= i < |placed| && placed[i] == End(slot, node) && forall j :: 0 <= j < i ==> placed[j].slot != slot
  }

  /** The nodes are those of the ends placed, one for each slot, and the root's is the first. */
  ghost predicate NodesPlaced(root: Channel, placed: seq<End>, keys: map<string, nat>, slots: seq<string>, nodes: seq<Node>) {
    && |slots| == |nodes|
    && placed != [] && placed[0] == End(root.id, Node(root.name, false))
    && (forall k :: 0 <= k < |slots| ==> FirstOf(placed, slots[k], nodes[k]))
    && (forall i :: 0 <= i < |placed| ==> placed[i].slot in keys)
  }

  lemma FirstStays(placed: seq<End>, e: End, slot: string, node: Node)
    requires FirstOf(placed, slot, node)
    ensures FirstOf(placed + [e], slot, node)
  {
    var i :| 0 <= i < |placed| && placed[i] == End(slot, node) && forall j :: 0 <= j < i ==> placed[j].slot != slot;
    assert (placed + [e])[i] == End(slot, node);
    assert forall j :: 0 <= j < i ==> (placed + [e])[j] == placed[j];
  }

  lemma FirstIsNew(placed: seq<End>, e: End)
    requires forall i :: 0 <= i < |placed| ==> placed[i].slot != e.slot
    ensures FirstOf(placed + [e], e.slot, e.node)
  {
    assert (placed + [e])[|placed|] == End(e.slot, e.node);
    assert forall j :: 0 <= j < |placed| ==> (placed + [e])[j] == placed[j];
  }

  /** An end in a slot that has its node. */
  lemma PlacedAgain(root: Channel, placed: seq<End>, keys: map<string, nat>, slots: seq<string>, nodes: seq<Node>, e: End)
    requires NodesPlaced(root, placed, keys, slots, nodes) && e.slot in keys
    ensures NodesPlaced(root, placed + [e], keys, slots, nodes)
  {
    hide FirstOf;
    forall k | 0 <= k < |slots| ensures FirstOf(placed + [e], slots[k], nodes[k]) {
      FirstStays(placed, e, slots[k], nodes[k]);
    }
    assert (placed + [e])[0] == placed[0];
    forall i | 0 <= i < |placed + [e]| ensures (placed + [e])[i].slot in keys {
      assert i < |placed| ==> (placed + [e])[i] == placed[i];
    }
  }

  lemma PlacedNew(root: Channel, placed: seq<End>, keys: map<string, nat>, slots: seq<string>, nodes: seq<Node>, e: End)
    requires NodesPlaced(root, placed, keys, slots, nodes) && e.slot !in keys
    ensures NodesPlaced(root, placed + [e], keys[e.slot := |nodes|], slots + [e.slot], nodes + [e.node])
  {
    hide FirstOf;
    var slots', nodes' := slots + [e.slot], nodes + [e.node];
    FirstIsNew(placed, e);
    forall k | 0 <= k < |slots'| ensures FirstOf(placed + [e], slots'[k], nodes'[k]) {
      if k < |slots| {
        FirstStays(placed, e, slots[k], nodes[k]);
      }
    }
    assert (placed + [e])[0] == placed[0];
    forall i | 0 <= i < |placed + [e]| ensures (placed + [e])[i].slot in keys[e.slot := |nodes|] {
      assert i < |placed| ==> (placed + [e])[i] == placed[i];
    }
  }

  ghost predicate Injective(keys: map<string, nat>) {
    forall s, t :: s in keys && t in keys && keys[s] == keys[t] ==> s == t
  }

  /** The line of a connection is there exactly when it repeats one that was drawn. */
  lemma LineRepeats(root: string, keys: map<string, nat>, lines: seq<Line>, drawn: set<Connection>,
                    keys': map<string, nat>, e: Connection)
    requires Drawing(root, keys, lines, drawn)
    requires Extends(keys, keys') && Placed(keys', e) && Injective(keys')
    ensures LineOf(keys', e) in lines <==> Repeats(drawn, e)
  {
    hide Label, Slot, FromIdent, ToIdent;
    var l := LineOf(keys', e);
    if l in lines {
      assert Backed(keys, drawn, l);
      var d :| d in drawn && DrawnAs(keys, d, l);
      assert SameLine(d, e);
    }
    if Repeats(drawn, e) {
      var d :| d in drawn && SameLine(d, e);
      assert LineOf(keys, d) in lines;
    }
  }

  class GraphBuilder {
    const root: Channel
    var keys: map<string, nat>
    var nodes: seq<Node>
    var nodeChannels: map<nat, string>
    var lines: seq<Line>
    var seenEdges: set<string>

    /** For each node key, the slot it stands for. */
    ghost var slots: seq<string>
    /** The connections added so far. */
    ghost var drawn: set<Connection>
    /** The ends placed so far, in order. */
    ghost var placed: seq<End>

    /** Keys and slots are one to one; key 0 is the root. */
    ghost predicate KeysValid()
      reads this`keys, this`nodes, this`slots
    {
      && |slots| == |nodes| > 0 && slots[0] == root.id
      && (forall k :: 0 <= k < |slots| ==> slots[k] in keys && keys[slots[k]] == k)
      && (forall s :: s in keys ==> keys[s] < |slots| && slots[keys[s]] == s)
    }

    /** A node can be clicked exactly when it is a known channel with an id, and then leads there. */
    ghost predicate LinksValid()
      reads this`keys, this`nodes, this`slots, this`nodeChannels
      requires KeysValid()
    {
      && (forall k :: k in nodeChannels ==> k < |nodes| && nodeChannels[k] == slots[k] && !nodes[k].unresolved)
      && (forall k :: 0 <= k < |nodes| && !nodes[k].unresolved && slots[k] != "" ==> k in nodeChannels)
    }

    ghost predicate LinesValid()
      reads this`keys, this`lines, this`seenEdges, this`drawn
    {
      && Drawing(root.id, keys, lines, drawn)
      && seenEdges == (set l | l in lines :: EdgeSlot(l))
    }

    ghost predicate EndsValid()
      reads this`keys, this`nodes, this`slots, this`placed
    {
      NodesPlaced(root, placed, keys, slots, nodes)
    }

    ghost predicate Valid()
      reads this
    {
      KeysValid() && LinksValid() && LinesValid() && EndsValid()
    }

    constructor (root: Channel)
      ensures Valid() && this.root == root && drawn == {}
      ensures placed == [End(root.id, Node(root.name, false))]
    {
      this.root := root;
      keys := map[root.id := 0];
      nodes := [Node(root.name, false)];
      nodeChannels := if root.id != "" then map[0 := root.id] else map[];
      lines := [];
      seenEdges := {};
      slots := [root.id];
      drawn := {};
      placed := [End(root.id, Node(root.name, false))];
      new;
      assert placed[0] == End(slots[0], nodes[0]);
    }

    lemma KeysInjective()
      requires KeysValid()
      ensures Injective(keys)
    {
    }

    /** Two placed ends share a node exactly when they are the same end, or one has no identity and
        the other is literally called like the stand-in. */
    lemma NodesShared(a: Option<string>, b: Option<string>)
      requires KeysValid() && Slot(a) in keys && Slot(b) in keys
      ensures keys[Slot(a)] == keys[Slot(b)] <==> a == b || Confused(a, b)
    {
      SlotsMeet(a, b);
      KeysInjective();
    }

    method AddNode(ident: Option<string>, text: string, unresolved: bool, chanId: Option<string>) returns (key: nat)
      requires KeysValid() && LinksValid() && EndsValid()
      requires !unresolved ==> ident.Some? && chanId == ident
      modifies this`keys, this`nodes, this`nodeChannels, this`slots, this`placed
      ensures KeysValid() && LinksValid() && EndsValid()
      ensures Extends(old(keys), keys) && keys.Keys == old(keys).Keys + {Slot(ident)}
      ensures keys[Slot(ident)] == key
      ensures nodes == if Slot(ident) in old(keys) then old(nodes) else old(nodes) + [Node(text, unresolved)]
      ensures placed == old(placed) + [End(Slot(ident), Node(text, unresolved))]
    {
      hide NodesPlaced, KeysValid, Injective;
      var slot := Slot(ident);
      ghost var end := End(slot, Node(text, unresolved));
      if slot in keys {
        PlacedAgain(root, placed, keys, slots, nodes, end);
        placed := placed + [end];
        return keys[slot];
      }
      PlacedNew(root, placed, keys, slots, nodes, end);
      key := NewNode(slot, Node(text, unresolved));
      placed := placed + [end];
      if !unresolved && chanId.Some? && chanId.value != "" {
        nodeChannels := nodeChannels[key := chanId.value];
      }
    }

    method NewNode(slot: string, node: Node) returns (key: nat)
      requires KeysValid() && slot !in keys
      modifies this`keys, this`nodes, this`slots
      ensures KeysValid()
      ensures key == |old(nodes)| == |old(slots)| && keys == old(keys)[slot := key]
      ensures nodes == old(nodes) + [node] && slots == old(slots) + [slot]
    {
      key := |nodes|;
      keys := keys[slot := key];
      nodes := nodes + [node];
      slots := slots + [slot];
    }

    method AddEdge(fromKey: nat, toKey: nat, e: Connection) returns (text: Option<string>)
      requires seenEdges == (set l | l in lines :: EdgeSlot(l))
      modifies this`lines, this`seenEdges
      ensures seenEdges == (set l | l in lines :: EdgeSlot(l))
      ensures var l := Line(fromKey, toKey, Label(e));
              && lines == WithLine(old(lines), l)
              && text == if l in old(lines) then None else Some(Label(e))
    {
      var l := Line(fromKey, toKey, Label(e));
      var slot := EdgeSlot(l);
      if slot in seenEdges {
        var m :| m in lines && EdgeSlot(m) == slot;
        EdgeSlotInjective(l, m);
        return None;
      }
      seenEdges := seenEdges + {slot};
      lines := lines + [l];
      text := Some(Label(e));
    }

    /** The line of a connection whose ends are placed, its last end perhaps just now. */
    method DrawLine(fromKey: nat, toKey: nat, e: Connection, ghost keys0: map<string, nat>) returns (text: Option<string>)
      requires DrawnAs(keys, e, Line(fromKey, toKey, Label(e)))
      requires Drawing(root.id, keys0, lines, drawn) && seenEdges == (set l | l in lines :: EdgeSlot(l))
      requires Extends(keys0, keys) && forall s :: s in keys ==> s in keys0 || EndOf(s, e)
      requires Injective(keys)
      modifies this`lines, this`seenEdges, this`drawn
      ensures LinesValid() && drawn == old(drawn) + {e}
      ensures text == if Repeats(old(drawn), e) then None else Some(Label(e))
    {
      LineRepeats(root.id, keys0, lines, drawn, keys, e);
      DrawingGrows(root.id, keys0, lines, drawn, keys, e);
      text := AddEdge(fromKey, toKey, e);
      drawn := drawn + {e};
    }

    /** A connection that feeds the root. */
    method DrawFeeder(e: Connection) returns (text: Option<string>)
      requires Valid() && EntersRoot(e, root.id)
      modifies this
      ensures Valid() && drawn == old(drawn) + {e}
      ensures Extends(old(keys), keys) && text == if Repeats(old(drawn), e) then None else Some(Label(e))
      ensures placed == old(placed) + [FromEnd(e)]
    {
      hide NodesPlaced, Drawing, Injective, LinksValid, Repeats, Label;
      assert keys[root.id] == 0 by { assert slots[0] == root.id; }
      var key := AddNode(FromIdent(e), FromName(e), e.from.None?, if e.from.Some? then Some(e.from.value.id) else None);
      KeysInjective();
      text := DrawLine(key, 0, e, old(keys));
    }

    /** A connection that leaves the node with key `nodeKey`. */
    method DrawFed(nodeId: string, nodeKey: nat, e: Connection) returns (key: nat, text: Option<string>)
      requires Valid() && FromIdent(e) == Some(nodeId) && nodeId in keys && keys[nodeId] == nodeKey
      modifies this
      ensures Valid() && drawn == old(drawn) + {e}
      ensures Extends(old(keys), keys) && text == if Repeats(old(drawn), e) then None else Some(Label(e))
      ensures Slot(ToIdent(e)) in keys && keys[Slot(ToIdent(e))] == key
      ensures placed == old(placed) + [ToEnd(e)]
    {
      hide NodesPlaced, Drawing, Injective, LinksValid, Repeats, Label;
      key := AddNode(ToIdent(e), ToName(e), e.to.None?, if e.to.Some? then Some(e.to.value.id) else None);
      KeysInjective();
      text := DrawLine(nodeKey, key, e, old(keys));
    }

    // -------------------------------------------------------------------------
    // The search
    // -------------------------------------------------------------------------

    ghost predicate HopsValid(hops: seq<Hop>)
      reads this`keys
    {
      forall i :: 0 <= i < |hops| ==> hops[i].id in keys && keys[hops[i].id] == hops[i].key
    }

    /** Whoever feeds the root, without exploring further. */
    method DrawFeeders(edges: seq<Connection>) returns (fedBy: seq<Endpoint>)
      requires Valid() && drawn == {}
      modifies this
      ensures Valid() && drawn == set e | e in edges && EntersRoot(e, root.id)
      ensures Summarises(fedBy, Entering(edges, root.id), true, {})
      ensures placed == old(placed) + FromEnds(Entering(edges, root.id))
    {
      hide KeysValid, LinksValid, LinesValid, EndsValid, Summarises, Repeats, FromEnd, FromEnds;
      assert FromEnds([]) == [] by { NoEnds(); }
      SummaryStarts(true, {});
      fedBy := [];
      for i := 0 to |edges|
        invariant Valid() && drawn == set e | e in edges[..i] && EntersRoot(e, root.id)
        invariant Summarises(fedBy, Entering(edges[..i], root.id), true, {})
        invariant placed == old(placed) + FromEnds(Entering(edges[..i], root.id))
      {
        var e := edges[i];
        assert edges[..i + 1] == edges[..i] + [e];
        OrderSnoc(edges[..i], e, root.id);
        if ToIdent(e) == Some(root.id) {
          ThoseInOrder(edges[..i], root.id);
          EndsSnoc(Entering(edges[..i], root.id), e);
          assert drawn == {} + Those(Entering(edges[..i], root.id));
          var text := DrawFeeder(e);
          SummaryGrows(fedBy, Entering(edges[..i], root.id), true, {}, e, text);
          fedBy := fedBy + [Endpoint(if e.from.Some? then Some(e.from.value.id) else None, FromName(e), text.GetOr(""))];
        }
      }
      assert edges[..|edges|] == edges;
    }

    /** One connection out of a node. */
    method Follow(node: Hop, e: Connection, visited: set<string>, next: seq<Hop>)
      returns (visited': set<string>, next': seq<Hop>, text: Option<string>)
      requires Valid() && HopsValid([node]) && HopsValid(next)
      requires FromIdent(e) == Some(node.id) && Ids(next) <= visited && Distinct(next)
      modifies this
      ensures Valid() && HopsValid(next') && Extends(old(keys), keys)
      ensures drawn == old(drawn) + {e} && text == if Repeats(old(drawn), e) then None else Some(Label(e))
      ensures visited' == visited + (if e.to.Some? then {e.to.value.id} else {})
      ensures Distinct(next') && Ids(next') == Ids(next) + (visited' - visited)
      ensures placed == old(placed) + [ToEnd(e)]
      ensures HopIds(next') == HopIds(next) + if e.to.Some? && e.to.value.id !in visited then [e.to.value.id] else []
    {
      hide KeysValid, LinksValid, LinesValid, EndsValid, ToEnd;
      assert [node][0] == node;
      var key;
      key, text := DrawFed(node.id, node.key, e);
      visited', next' := visited, next;
      if e.to.Some? && e.to.value.id !in visited {
        DistinctSnoc(next, Hop(e.to.value.id, key));
        visited' := visited + {e.to.value.id};
        next' := next + [Hop(e.to.value.id, key)];
      }
    }

    /** All connections out of one node; `next` gets the channels not visited before. */
    method ExpandNode(node: Hop, edges: seq<Connection>, visited: set<string>, next: seq<Hop>)
      returns (visited': set<string>, next': seq<Hop>, feeds: seq<Endpoint>)
      requires Valid() && HopsValid([node]) && HopsValid(next)
      requires Ids(next) <= visited && Distinct(next)
      modifies this
      ensures Valid() && HopsValid(next') && Extends(old(keys), keys)
      ensures drawn == old(drawn) + Leaving(edges, {node.id})
      ensures visited' == visited + Targets(edges, {node.id})
      ensures Distinct(next') && Ids(next') == Ids(next) + (visited' - visited)
      ensures Summarises(feeds, LeavingInOrder(edges, node.id), false, old(drawn))
      ensures placed == old(placed) + ToEnds(LeavingInOrder(edges, node.id))
      ensures Discovers(next, next', visited, LeavingInOrder(edges, node.id))
    {
      hide KeysValid, LinksValid, LinesValid, EndsValid, Summarises, Repeats, Leaving, Targets, Distinct, ToEnd, ToEnds,
        Discovers, HopIds, LeavingInOrder, Those, Ids;
      NoEnds();
      DiscoversNothing(next, visited);
      SummaryStarts(false, drawn);
      NothingLeaves(edges[..0], {node.id});
      NothingInOrder(node.id);
      assert edges[..0] == [];
      visited', next', feeds := visited, next, [];
      for i := 0 to |edges|
        invariant Valid() && HopsValid([node]) && HopsValid(next') && Extends(old(keys), keys)
        invariant drawn == old(drawn) + Leaving(edges[..i], {node.id})
        invariant visited' == visited + Targets(edges[..i], {node.id})
        invariant Distinct(next') && Ids(next') == Ids(next) + (visited' - visited)
        invariant Summarises(feeds, LeavingInOrder(edges[..i], node.id), false, old(drawn))
        invariant placed == old(placed) + ToEnds(LeavingInOrder(edges[..i], node.id))
        invariant Discovers(next, next', visited, LeavingInOrder(edges[..i], node.id))
      {
        var e := edges[i];
        assert edges[..i + 1] == edges[..i] + [e];
        LeavingSnoc(edges[..i], e, {node.id});
        OrderSnoc(edges[..i], e, node.id);
        if FromIdent(e) == Some(node.id) {
          var text;
          ThoseInOrder(edges[..i], node.id);
          ghost var was, seen := next', visited';
          visited', next', text := Follow(node, e, visited', next');
          NodeStep(edges[..i], e, node.id, next, was, next', visited, seen);
          SummaryGrows(feeds, LeavingInOrder(edges[..i], node.id), false, old(drawn), e, text);
          feeds := feeds + [Endpoint(if e.to.Some? then Some(e.to.value.id) else None, ToName(e), text.GetOr(""))];
        }
      }
      assert edges[..|edges|] == edges;
    }

    /** One level of the search. */
    method ExpandLevel(frontier: seq<Hop>, edges: seq<Connection>, visited: set<string>)
      returns (visited': set<string>, next: seq<Hop>, feeds: seq<Endpoint>)
      requires Valid() && HopsValid(frontier)
      modifies this
      ensures Valid() && HopsValid(next)
      ensures drawn == old(drawn) + Leaving(edges, Ids(frontier))
      ensures visited' == visited + Targets(edges, Ids(frontier))
      ensures Distinct(next) && Ids(next) == visited' - visited
      ensures |frontier| == 1 ==> Summarises(feeds, LeavingInOrder(edges, frontier[0].id), false, old(drawn))
      ensures placed == old(placed) + ToEnds(LeavingAll(edges, HopIds(frontier)))
      ensures Discovers([], next, visited, LeavingAll(edges, HopIds(frontier)))
      ensures visited' == visited + SetOf(Known(LeavingAll(edges, HopIds(frontier))))
    {
      hide KeysValid, LinksValid, LinesValid, EndsValid, Summarises, Leaving, Targets, ToEnd, ToEnds, Discovers, HopIds,
        LeavingInOrder, LeavingAll, Known, SetOf, NewIn, FromEnds;
      assert visited == visited + SetOf([]) by { NobodyIn(); }
      NoEnds();
      NobodyLeaves(edges);
      DiscoversNothing([], visited);
      HopIdsStart();
      assert Ids(frontier[..0]) == {};
      NothingLeaves(edges, {});
      visited', next, feeds := visited, [], [];
      for i := 0 to |frontier|
        invariant Valid() && HopsValid(frontier) && HopsValid(next)
        invariant drawn == old(drawn) + Leaving(edges, Ids(frontier[..i]))
        invariant visited' == visited + Targets(edges, Ids(frontier[..i]))
        invariant Distinct(next) && Ids(next) == visited' - visited
        invariant placed == old(placed) + ToEnds(LeavingAll(edges, HopIds(frontier[..i])))
        invariant Discovers([], next, visited, LeavingAll(edges, HopIds(frontier[..i])))
        invariant visited' == visited + SetOf(Known(LeavingAll(edges, HopIds(frontier[..i]))))
        invariant i == 0 ==> feeds == []
        invariant i == 1 ==> Summarises(feeds, LeavingInOrder(edges, frontier[0].id), false, old(drawn))
      {
        IdsSnoc(frontier[..i], frontier[i]);
        assert frontier[..i + 1] == frontier[..i] + [frontier[i]];
        LeavingUnion(edges, Ids(frontier[..i]), {frontier[i].id});
        var more;
        assert i == 0 ==> drawn == old(drawn);
        ghost var was, seen := next, visited';
        visited', next, more := ExpandNode(frontier[i], edges, visited', next);
        LevelStep(edges, frontier[..i], frontier[i], was, next, visited, seen);
        feeds := feeds + more;
        assert i == 0 ==> feeds == more;
      }
      assert frontier[..|frontier|] == frontier;
    }

    /** The graph is called empty exactly when nothing was drawn. */
    method IsEmpty() returns (empty: bool)
      requires Valid()
      ensures empty <==> drawn == {}
    {
      empty := |nodes| == 1 && lines == [];
      assert lines != [] ==> Backed(keys, drawn, lines[0]);
      assert |nodes| > 1 ==> keys[slots[0]] == 0 && keys[slots[1]] == 1;
      assert |nodes| > 1 ==> Touched(drawn, slots[1]);
      assert forall e :: e in drawn ==> LineOf(keys, e) in lines;
    }

    /** The whole graph. `expanded` lists the channels whose connections were followed. */
    method Build(edges: seq<Connection>, downDepth: int)
      returns (fedBy: seq<Endpoint>, feeds: seq<Endpoint>, ghost expanded: seq<string>, ghost rounds: nat)
      requires Valid() && drawn == {}
      modifies this
      ensures Valid() && drawn == Drawable(edges, root.id, downDepth)
      ensures Summarises(fedBy, Entering(edges, root.id), true, {})
      ensures Summarises(feeds, if downDepth >= 1 then LeavingInOrder(edges, root.id) else [], false,
                         Drawable(edges, root.id, 0))
      ensures NoRepeats(expanded)
      ensures forall x :: x in expanded <==> downDepth >= 1 && x in Reached(edges, root.id, downDepth - 1)
      ensures rounds <= |edges| + 1
      ensures expanded == Search(edges, [root.id], {root.id}, downDepth)
      ensures placed == old(placed) + FromEnds(Entering(edges, root.id)) + ToEnds(LeavingAll(edges, expanded))
    {
      hide LinksValid, LinesValid, EndsValid, ToEnds, FromEnds, LeavingAll, Discovers, HopIds, Search, Entering,
        LeavingInOrder, Summarises, SearchInv, Drawable, Leaving, Targets, Distinct;
      SummaryStarts(false, Drawable(edges, root.id, 0));
      fedBy := DrawFeeders(edges);
      feeds := [];
      var visited := {root.id};
      var frontier := [Hop(root.id, 0)];
      assert slots[0] == root.id;
      expanded, rounds := [], 0;
      var depth := 0;
      SearchStarts(edges, root.id, frontier);
      NoEnds();
      NobodyLeaves(edges);
      HopIdsStart();
      HopIdsSnoc([], frontier[0]);
      assert frontier == [] + [frontier[0]] && [root.id] == [] + [root.id];
      ghost var feeders := placed;
      while depth < downDepth && |frontier| > 0
        invariant if downDepth < 0 then depth == 0 else 0 <= depth <= downDepth
        invariant rounds == depth <= |edges| + 1
        invariant Valid() && HopsValid(frontier) && Distinct(frontier)
        invariant SearchInv(edges, root.id, depth, visited, Ids(frontier), expanded)
        invariant drawn == Drawable(edges, root.id, depth)
        invariant Summarises(feeds, if depth >= 1 then LeavingInOrder(edges, root.id) else [], false,
                             Drawable(edges, root.id, 0))
        invariant depth == 0 ==> frontier == [Hop(root.id, 0)]
        invariant expanded + Search(edges, HopIds(frontier), visited, downDepth - depth) ==
                  Search(edges, [root.id], {root.id}, downDepth)
        invariant placed == feeders + ToEnds(LeavingAll(edges, expanded))
        decreases downDepth - depth
      {
        SearchStep(edges, root.id, depth, visited, frontier, expanded);
        ghost var hops, seen := frontier, visited;
        LeavingAllAppend(edges, expanded, HopIds(frontier));
        EndsAppend(LeavingAll(edges, expanded), LeavingAll(edges, HopIds(frontier)));
        expanded := expanded + HopIds(frontier);
        var level;
        visited, frontier, level := ExpandLevel(frontier, edges, visited);
        SearchOn(edges, hops, seen, downDepth - depth, frontier, visited);
        if depth == 0 {
          feeds := level;
        }
        depth := depth + 1;
        rounds := depth;
      }
      SearchDone(edges, root.id, depth, downDepth, visited, frontier, expanded);
      SearchEnds(edges, frontier, visited, downDepth - depth);
    }
  }

  ghost predicate AnEnd(drawn: set<Connection>, ident: Option<string>) {
    exists e :: e in drawn && (ident == FromIdent(e) || ident == ToIdent(e))
  }

  /** Two different ends of drawn connections that have one node. */
  ghost predicate Merged(g: GraphBuilder, a: Option<string>, b: Option<string>)
    reads g
  {
    && a != b && AnEnd(g.drawn, a) && AnEnd(g.drawn, b)
    && Slot(a) in g.keys && Slot(b) in g.keys && g.keys[Slot(a)] == g.keys[Slot(b)]
  }

  lemma EndPlaced(g: GraphBuilder, a: Option<string>)
    requires g.Valid() && AnEnd(g.drawn, a)
    ensures Slot(a) in g.keys
  {
    hide Slot, FromIdent, ToIdent;
    var e :| e in g.drawn && (a == FromIdent(e) || a == ToIdent(e));
    assert Placed(g.keys, e);
  }

  lemma MergedExactlyWhen(g: GraphBuilder, a: Option<string>, b: Option<string>)
    requires g.Valid()
    ensures Merged(g, a, b) <==> AnEnd(g.drawn, a) && AnEnd(g.drawn, b) && Confused(a, b)
  {
    hide AnEnd, Slot, Confused, Drawing;
    if AnEnd(g.drawn, a) && AnEnd(g.drawn, b) {
      EndPlaced(g, a);
      EndPlaced(g, b);
      g.NodesShared(a, b);
      SlotsMeet(a, b);
      ConfusedDiffer(a, b);
    }
  }

  lemma ConfusedDiffer(a: Option<string>, b: Option<string>)
    ensures Confused(a, b) ==> a != b
    ensures Confused(a, b) <==> (a == None && b == Some(UNKNOWN)) || (a == Some(UNKNOWN) && b == None)
  {
  }

  /** Distinct ends get distinct nodes exactly when the drawn connections do not have both an end
      without identity and one that is literally called like the stand-in for it. */
  lemma DistinctNodesExactlyWhen(g: GraphBuilder)
    requires g.Valid()
    ensures (forall a, b :: !Merged(g, a, b)) <==> !(AnEnd(g.drawn, None) && AnEnd(g.drawn, Some(UNKNOWN)))
  {
    hide AnEnd, Merged, Confused;
    forall a, b
      ensures Merged(g, a, b) ==> AnEnd(g.drawn, None) && AnEnd(g.drawn, Some(UNKNOWN))
    {
      MergedExactlyWhen(g, a, b);
      ConfusedDiffer(a, b);
    }
    MergedExactlyWhen(g, None, Some(UNKNOWN));
    ConfusedDiffer(None, Some(UNKNOWN));
  }

  /** Two such connections: a channel called like the stand-in and an unidentified feeder both feed
      the root. Both are drawn at every depth, from different ends that share a slot. */
  lemma UnknownIsConfused(root: Channel, downDepth: int)
    ensures var known := Connection("a", Trigger, Some(Channel(UNKNOWN, "A")), Some(root), None, None);
            var missing := Connection("b", Trigger, None, Some(root), None, None);
            && Drawable([known, missing], root.id, downDepth) == {known, missing}
            && Confused(FromIdent(known), FromIdent(missing))
            && Slot(FromIdent(known)) == Slot(FromIdent(missing))
  {
    hide Reached;
  }
}
