/** The names tools are offered under, and the servers that calls by those names reach. */
module ToolNames {
  import opened Wrappers
  import opened Text

  const PREFIX := "mcp__"
  const SEPARATOR := "__"

  datatype Target = Target(server: string, tool: string) | NotATool | NoSeparator

  function ToolName(server: string, tool: string): string {
    PREFIX + server + SEPARATOR + tool
  }

  /** The server and the tool a call is meant for. */
  function SplitName(name: string): Target {
    if !(PREFIX <= name) then NotATool
    else
      var rest := name[|PREFIX|..];
      var sep := IndexOf(rest, SEPARATOR);
      if sep.None? then NoSeparator
      else Target(rest[..sep.value], rest[sep.value + |SEPARATOR|..])
  }

  /** A server whose tools can be told from every other server's. */
  ghost predicate Separable(server: string) {
    !Contains(server, SEPARATOR) && (server != "" ==> server[|server| - 1] != '_')
  }

  /** Two underscores in a row. */
  predicate DoubleAt(s: string, i: int) {
    0 <= i && i + 2 <= |s| && s[i] == '_' && s[i + 1] == '_'
  }

  lemma SeparatorsAt(s: string)
    ensures forall i :: OccursAt(s, SEPARATOR, i) <==> DoubleAt(s, i)
  {
    assert SEPARATOR[0] == '_' && SEPARATOR[1] == '_';
    forall i ensures OccursAt(s, SEPARATOR, i) <==> DoubleAt(s, i) {
      if OccursAt(s, SEPARATOR, i) {
        assert s[i + 0] == SEPARATOR[0] && s[i + 1] == SEPARATOR[1];
      }
    }
  }

  lemma DoubleIsShort(s: string, i: int)
    requires DoubleAt(s, i)
    ensures 0 <= i < |s|
  {
  }

  /** The doubles of a full name up to the end of the server are the server's own and the one a
      final underscore makes. */
  lemma DoublesOf(server: string, tool: string)
    ensures var rest, n := server + SEPARATOR + tool, |server|;
      && DoubleAt(rest, n)
      && forall i :: i < n ==>
           (DoubleAt(rest, i) <==> DoubleAt(server, i) || (i == n - 1 >= 0 && server[i] == '_'))
  {
  }

  /** The first separator of a name comes right after the server exactly when the server is
      separable. */
  lemma FirstSeparator(server: string, tool: string)
    ensures IndexOf(server + SEPARATOR + tool, SEPARATOR) == Some(|server|) <==> Separable(server)
  {
    hide OccursAt, DoubleAt;
    var rest, n := server + SEPARATOR + tool, |server|;
    SeparatorsAt(rest);
    SeparatorsAt(server);
    DoublesOf(server, tool);
    var r := IndexOf(rest, SEPARATOR);
    assert r.Some? by { assert OccursAt(rest, SEPARATOR, n); }
    if !Separable(server) && Contains(server, SEPARATOR) {
      var i :| OccursAt(server, SEPARATOR, i);
      DoubleIsShort(server, i);
    }
  }

  /** A tool name splits into its server and tool exactly when the server is separable. */
  lemma SplitsBackExactlyWhen(server: string, tool: string)
    ensures SplitName(ToolName(server, tool)) == Target(server, tool) <==> Separable(server)
  {
    var name := ToolName(server, tool);
    var rest := server + SEPARATOR + tool;
    assert name == PREFIX + rest;
    assert name[|PREFIX|..] == rest;
    FirstSeparator(server, tool);
    var n := |server|;
    assert rest[..n] == server && rest[n + 2..] == tool;
    if SplitName(name) == Target(server, tool) {
      assert |rest[..IndexOf(rest, SEPARATOR).value]| == n;
    }
  }

  /** The rule the console puts on server names. */
  predicate ConsoleName(server: string) {
    server != "" && forall c :: c in server ==> 'a' <= c <= 'z' || '0' <= c <= '9' || c == '-'
  }

  lemma ConsoleNamesAreSeparable(server: string)
    requires ConsoleName(server)
    ensures Separable(server)
  {
    SeparatorsAt(server);
    assert server[|server| - 1] in server;
    assert forall i :: DoubleAt(server, i) ==> server[i] in server;
  }

  /** Distinct tools of separable servers have distinct names; without the rule they may not. */
  lemma NamesDiffer(server: string, tool: string, server': string, tool': string)
    requires Separable(server) && Separable(server')
    requires ToolName(server, tool) == ToolName(server', tool')
    ensures server == server' && tool == tool'
  {
    SplitsBackExactlyWhen(server, tool);
    SplitsBackExactlyWhen(server', tool');
  }

  lemma NamesMayClash()
    ensures ToolName("a", "_b") == ToolName("a_", "b")
    ensures SplitName(ToolName("a_", "b")) == Target("a", "_b")
  {
    var rest := "a___b";
    assert ToolName("a_", "b") == PREFIX + rest == ToolName("a", "_b");
    assert "a" + SEPARATOR + "_b" == rest;
    SeparatorsAt("a");
    SplitsBackExactlyWhen("a", "_b");
  }

  // ---- The catalogue ----

  /** `wantsUser`: the tool's input schema has a `user_id` property. */
  datatype Offer = Offer(tool: string, wantsUser: bool)

  datatype Tool = Tool(name: string, server: string, upstream: string, wantsUser: bool)

  /** `user`: the agent's name is added to the arguments. */
  datatype Routed = Routed(server: string, tool: string, user: bool) | Refused

  function Offered(server: string, offers: seq<Offer>): (tools: seq<Tool>)
    ensures |tools| == |offers|
    ensures forall i :: 0 <= i < |offers| ==>
      tools[i] == Tool(ToolName(server, offers[i].tool), server, offers[i].tool, offers[i].wantsUser)
  {
    if offers == [] then []
    else
      var n := |offers| - 1;
      var o := offers[n];
      Offered(server, offers[..n]) + [Tool(ToolName(server, o.tool), server, o.tool, o.wantsUser)]
  }

  /** The first tool of a name. */
  function Find(tools: seq<Tool>, name: string): (r: Option<Tool>)
    ensures r.Some? ==> r.value in tools && r.value.name == name
    ensures r.None? ==> forall t :: t in tools ==> t.name != name
  {
    if tools == [] then None
    else if tools[0].name == name then Some(tools[0])
    else Find(tools[1..], name)
  }

  function Route(servers: set<string>, tools: seq<Tool>, hasAgent: bool, name: string, userGiven: bool): Routed {
    match SplitName(name)
    case Target(server, toolName) =>
      if server !in servers then Refused
      else
        var tool := Find(tools, name);
        Routed(server, toolName, hasAgent && tool.Some? && tool.value.wantsUser && !userGiven)
    case _ => Refused
  }

  /** Every tool listed belongs to a connected server and carries its full name. */
  ghost predicate Listed(servers: set<string>, tools: seq<Tool>) {
    forall t :: t in tools ==> t.server in servers && t.name == ToolName(t.server, t.upstream)
  }

  class Catalog {
    var servers: set<string>
    var tools: seq<Tool>
    const hasAgent: bool

    constructor (hasAgent: bool)
      ensures servers == {} && tools == [] && this.hasAgent == hasAgent
    {
      this.servers := {};
      this.tools := [];
      this.hasAgent := hasAgent;
    }

    /** A server that answered is added with everything it offers. */
    method ConnectServer(name: string, offers: seq<Offer>)
      requires Listed(servers, tools)
      modifies this
      ensures servers == old(servers) + {name}
      ensures tools == old(tools) + Offered(name, offers)
      ensures Listed(servers, tools)
    {
      servers := servers + {name};
      var i := 0;
      while i < |offers|
        invariant 0 <= i <= |offers|
        invariant servers == old(servers) + {name}
        invariant tools == old(tools) + Offered(name, offers[..i])
      {
        assert offers[..i + 1][..i] == offers[..i];
        tools := tools + [Tool(ToolName(name, offers[i].tool), name, offers[i].tool, offers[i].wantsUser)];
        i := i + 1;
      }
      assert offers[..i] == offers;
    }

    method Call(name: string, userGiven: bool) returns (r: Routed)
      ensures r == Route(servers, tools, hasAgent, name, userGiven)
    {
      if !(PREFIX <= name) {
        return Refused;
      }
      var rest := name[|PREFIX|..];
      var sep := IndexOf(rest, SEPARATOR);
      if sep.None? {
        return Refused;
      }
      var server, toolName := rest[..sep.value], rest[sep.value + |SEPARATOR|..];
      if server !in servers {
        return Refused;
      }
      var tool := Find(tools, name);
      var user := hasAgent && tool.Some? && tool.value.wantsUser && !userGiven;
      return Routed(server, toolName, user);
    }
  }

  /** A listed tool, called by its listed name, reaches the server that offered it under the name
      that server gave it, exactly when that server is separable. */
  lemma ReachedExactlyWhen(servers: set<string>, tools: seq<Tool>, hasAgent: bool, t: Tool, userGiven: bool)
    requires Listed(servers, tools) && t in tools
    ensures var r := Route(servers, tools, hasAgent, t.name, userGiven);
      r.Routed? && r.server == t.server && r.tool == t.upstream <==> Separable(t.server)
  {
    SplitsBackExactlyWhen(t.server, t.upstream);
  }

  /** With separable servers, the agent's name is added only when the server reached lists this very
      tool as wanting it, and always when it lists the tool in no other way. */
  lemma UserAddedWhenWanted(servers: set<string>, tools: seq<Tool>, hasAgent: bool, t: Tool, userGiven: bool)
    requires Listed(servers, tools) && t in tools
    requires forall s :: s in servers ==> Separable(s)
    ensures var r := Route(servers, tools, hasAgent, t.name, userGiven);
      && r.Routed?
      && (r.user ==> hasAgent && !userGiven && Tool(t.name, t.server, t.upstream, true) in tools)
      && (Tool(t.name, t.server, t.upstream, !t.wantsUser) !in tools ==>
            r.user == (hasAgent && !userGiven && t.wantsUser))
  {
    SplitsBackExactlyWhen(t.server, t.upstream);
    var found := Find(tools, t.name).value;
    NamesDiffer(t.server, t.upstream, found.server, found.upstream);
    assert found == Tool(t.name, t.server, t.upstream, found.wantsUser);
  }

  /** How a name is built, and which calls are refused: those without the prefix, without a separator
      after it, or for a server that is not connected. */
  lemma RefusedExactlyWhen(servers: set<string>, tools: seq<Tool>, hasAgent: bool, name: string, userGiven: bool)
    ensures ToolName("files", "read") == "mcp__files__read"
    ensures Route(servers, tools, hasAgent, name, userGiven).Refused? <==>
            || !("mcp__" <= name)
            || !Contains(name[5..], "__")
            || name[5..][..IndexOf(name[5..], "__").value] !in servers
  {
    if "mcp__" <= name && IndexOf(name[5..], "__").Some? {
      assert OccursAt(name[5..], "__", IndexOf(name[5..], "__").value);
    }
  }
}
