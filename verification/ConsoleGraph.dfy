/** The graphs the console draws: connections made from the hub's subscriptions, and what a built graph
    shows of them. */
module ConsoleGraph {
  import opened Wrappers
  import opened Text
  import opened RelationGraph

  /** A subscription as the hub lists it; its references may be empty. */
  datatype Subscription = Subscription(
    name: string,
    source: Source,
    fromChannel: string,
    toChannel: string,
    fromRef: string,
    toRef: string)

  function ById(channels: seq<Channel>, id: string): (r: Option<Channel>)
    ensures r.Some? ==> r.value.id == id
  {
    if channels == [] then None
    else
      var n := |channels| - 1;
      if channels[n].id == id then Some(channels[n]) else ById(channels[..n], id)
  }

  function SourceText(s: Source): string {
    match s case Trigger => "trigger" case Bridge => "bridge"
  }

  function RefOr(channel: string, prefix: string, ref: string): Option<string> {
    if channel != "" then Some(channel)
    else if ref != "" then Some(prefix + ":" + ref)
    else None
  }

  function Connect(s: Subscription, channels: seq<Channel>): Connection {
    Connection(s.name, s.source, ById(channels, s.fromChannel), ById(channels, s.toChannel),
               RefOr(s.fromChannel, SourceText(s.source), s.fromRef), RefOr(s.toChannel, "agent", s.toRef))
  }

  function BuildConnections(subscriptions: seq<Subscription>, channels: seq<Channel>): (es: seq<Connection>)
    ensures |es| == |subscriptions|
    ensures forall i :: 0 <= i < |es| ==> es[i] == Connect(subscriptions[i], channels)
  {
    seq(|subscriptions|, i requires 0 <= i < |subscriptions| => Connect(subscriptions[i], channels))
  }

  lemma ColonTells(prefix: string, ref: string)
    ensures prefix + ":" + ref != UNKNOWN
  {
    assert (prefix + ":" + ref)[|prefix|] == ':';
    assert ':' !in UNKNOWN;
  }

  /** An end of such a connection is called like the stand-in exactly when the subscription names a
      channel of that id. */
  lemma UnknownEndExactlyWhen(s: Subscription, channels: seq<Channel>)
    ensures FromIdent(Connect(s, channels)) == Some(UNKNOWN) <==> s.fromChannel == UNKNOWN
    ensures ToIdent(Connect(s, channels)) == Some(UNKNOWN) <==> s.toChannel == UNKNOWN
  {
    ColonTells(SourceText(s.source), s.fromRef);
    ColonTells("agent", s.toRef);
  }

  predicate IsHex(c: char) {
    IsDigit(c) || 'a' <= c <= 'f'
  }

  /** The ids the hub generates. */
  predicate IsChannelId(id: string) {
    |id| == 11 && id[..3] == "ch-" && forall i :: 3 <= i < 11 ==> IsHex(id[i])
  }

  /** With the ids the hub generates, connections made from its subscriptions are never confused:
      distinct ends get distinct nodes. */
  lemma ConsoleGraphsAreClear(g: GraphBuilder, subscriptions: seq<Subscription>, channels: seq<Channel>)
    requires g.Valid() && forall e :: e in g.drawn ==> e in BuildConnections(subscriptions, channels)
    requires forall s :: s in subscriptions ==>
               && (s.fromChannel == "" || IsChannelId(s.fromChannel))
               && (s.toChannel == "" || IsChannelId(s.toChannel))
    ensures forall a, b :: !Merged(g, a, b)
  {
    hide Merged, Connect, GraphBuilder.Valid, FromIdent, ToIdent, IsChannelId;
    if AnEnd(g.drawn, Some(UNKNOWN)) {
      var e :| e in g.drawn && (Some(UNKNOWN) == FromIdent(e) || Some(UNKNOWN) == ToIdent(e));
      var i :| 0 <= i < |subscriptions| && Connect(subscriptions[i], channels) == e;
      UnknownEndExactlyWhen(subscriptions[i], channels);
      UnknownIsNoId();
    }
    DistinctNodesExactlyWhen(g);
  }

  lemma UnknownIsNoId()
    ensures UNKNOWN != "" && !IsChannelId(UNKNOWN)
  {
  }

  lemma {:induction false} LeavingAllWithin(edges: seq<Connection>, ids: seq<string>)
    ensures forall e :: e in LeavingAll(edges, ids) ==> e in edges
  {
    if ids != [] {
      LeavingAllWithin(edges, ids[..|ids| - 1]);
      InOrder(edges, ids[|ids| - 1]);
    }
  }

  /** What an end asks for that is made from a subscription: the channel's own name if the list has a
      channel of that id, and otherwise a ghost that shows the reference. */
  ghost predicate ConsoleEnd(end: End, channels: seq<Channel>) {
    && (end.node.unresolved <==> ById(channels, end.slot).None?)
    && (!end.node.unresolved ==> end.node.text == ById(channels, end.slot).value.name)
    && (end.node.unresolved && end.slot != UNKNOWN ==> end.node.text == end.slot)
  }

  ghost predicate GeneratedIds(channels: seq<Channel>) {
    forall c :: c in channels ==> IsChannelId(c.id)
  }

  lemma {:induction false} ByIdIn(channels: seq<Channel>, id: string)
    ensures ById(channels, id).Some? ==> ById(channels, id).value in channels
  {
    if channels != [] { ByIdIn(channels[..|channels| - 1], id); }
  }

  lemma NoChannelCalled(channels: seq<Channel>, id: string)
    requires GeneratedIds(channels) && !IsChannelId(id)
    ensures ById(channels, id).None?
  {
    ByIdIn(channels, id);
  }

  lemma ColonIsNoId(prefix: string, ref: string)
    ensures !IsChannelId(prefix + ":" + ref)
  {
    var s := prefix + ":" + ref;
    assert s[|prefix|] == ':';
    if |s| == 11 && |prefix| < 3 {
      assert s[..3][|prefix|] == ':';
    }
  }

  lemma RefAsks(channels: seq<Channel>, channel: string, prefix: string, ref: string)
    requires GeneratedIds(channels)
    ensures var known, ident := ById(channels, channel), RefOr(channel, prefix, ref);
            var id := if known.Some? then Some(known.value.id) else ident;
            && (known.Some? <==> ById(channels, Slot(id)).Some?)
            && (known.Some? ==> known == ById(channels, Slot(id)))
            && (known.None? && ident.Some? ==> Slot(id) == ident.value)
  {
    hide IsChannelId;
    UnknownIsNoId();
    EmptyIsNoId();
    ColonIsNoId(prefix, ref);
    NoChannelCalled(channels, UNKNOWN);
    NoChannelCalled(channels, "");
    NoChannelCalled(channels, prefix + ":" + ref);
  }

  lemma EmptyIsNoId()
    ensures !IsChannelId("")
  {
  }

  lemma ConsoleEnds(s: Subscription, channels: seq<Channel>)
    requires GeneratedIds(channels)
    ensures ConsoleEnd(FromEnd(Connect(s, channels)), channels)
    ensures ConsoleEnd(ToEnd(Connect(s, channels)), channels)
  {
    hide GeneratedIds;
    RefAsks(channels, s.fromChannel, SourceText(s.source), s.fromRef);
    RefAsks(channels, s.toChannel, "agent", s.toRef);
  }

  lemma PlacedEnds(edges: seq<Connection>, root: string, expanded: seq<string>, end: End)
    requires end in FromEnds(Entering(edges, root)) + ToEnds(LeavingAll(edges, expanded))
    ensures exists e :: e in edges && (end == FromEnd(e) || end == ToEnd(e))
  {
    hide FromEnd, ToEnd;
    InOrder(edges, root);
    LeavingAllWithin(edges, expanded);
    if end in FromEnds(Entering(edges, root)) {
      var i :| 0 <= i < |Entering(edges, root)| && FromEnds(Entering(edges, root))[i] == end;
      assert Entering(edges, root)[i] in edges;
    } else {
      var i :| 0 <= i < |LeavingAll(edges, expanded)| && ToEnds(LeavingAll(edges, expanded))[i] == end;
      assert LeavingAll(edges, expanded)[i] in edges;
    }
  }

  /** In a graph built from the hub's subscriptions a node other than the root's is a ghost if and only
      if the channel list does not have its id; one that is not shows the channel's own name and leads
      to that channel, and a ghost leads nowhere. */
  lemma ConsoleNodes(g: GraphBuilder, subscriptions: seq<Subscription>, channels: seq<Channel>, expanded: seq<string>,
                     slot: string)
    requires g.Valid() && GeneratedIds(channels) && slot in g.keys && slot != g.root.id
    requires var edges := BuildConnections(subscriptions, channels);
             g.placed == [End(g.root.id, Node(g.root.name, false))]
                         + FromEnds(Entering(edges, g.root.id)) + ToEnds(LeavingAll(edges, expanded))
    ensures g.keys[slot] < |g.nodes|
    ensures var key, node, known := g.keys[slot], g.nodes[g.keys[slot]], ById(channels, slot);
            && (node.unresolved <==> known.None?)
            && (known.Some? ==> node.text == known.value.name && key in g.nodeChannels && g.nodeChannels[key] == slot)
            && (known.None? ==> key !in g.nodeChannels)
  {
    hide FromEnds, ToEnds, FromEnd, ToEnd, Entering, LeavingAll, Connect, GraphBuilder.LinesValid, Drawing;
    var edges := BuildConnections(subscriptions, channels);
    var key := g.keys[slot];
    assert FirstOf(g.placed, slot, g.nodes[key]);
    var i :| 0 <= i < |g.placed| && g.placed[i] == End(slot, g.nodes[key]);
    var rest := FromEnds(Entering(edges, g.root.id)) + ToEnds(LeavingAll(edges, expanded));
    assert g.placed == [End(g.root.id, Node(g.root.name, false))] + rest;
    assert g.placed[i] in rest;
    PlacedEnds(edges, g.root.id, expanded, g.placed[i]);
    var e :| e in edges && (g.placed[i] == FromEnd(e) || g.placed[i] == ToEnd(e));
    var k :| 0 <= k < |subscriptions| && Connect(subscriptions[k], channels) == e;
    ConsoleEnds(subscriptions[k], channels);
    NoChannelCalled2(channels, slot);
  }

  lemma NoChannelCalled2(channels: seq<Channel>, slot: string)
    requires GeneratedIds(channels)
    ensures ById(channels, slot).Some? ==> slot != ""
  {
    EmptyIsNoId();
    NoChannelCalled(channels, "");
  }

  /** And the root's node is the root's own. */
  lemma RootNode(g: GraphBuilder)
    requires g.Valid()
    ensures g.nodes[0] == Node(g.root.name, false)
    ensures g.root.id != "" ==> 0 in g.nodeChannels && g.nodeChannels[0] == g.root.id
  {
    hide GraphBuilder.LinesValid, Drawing;
    assert FirstOf(g.placed, g.slots[0], g.nodes[0]);
    var i :| 0 <= i < |g.placed| && g.placed[i] == End(g.slots[0], g.nodes[0]) &&
             forall j :: 0 <= j < i ==> g.placed[j].slot != g.slots[0];
    assert i == 0;
  }

  /** What the line of a built connection says, for a trigger and for a bridge. */
  lemma LabelSays(name: string, channels: seq<Channel>)
    ensures Label(Connect(Subscription(name, Trigger, "", "", "", ""), channels)) == "via " + name
    ensures Label(Connect(Subscription(name, Bridge, "", "", "", ""), channels)) == "bridged · " + name
  {
  }
}
