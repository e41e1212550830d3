/** Function names of MCP tools: `MCPTool.to_openai_function` of core/mcp/models.py joins the server
    and the tool name with "__", `resolve_tool_call` of core/mcp/registry.py splits a function name
    at the first "__". */
module McpNames {
  import opened Wrappers

  const SEPARATOR := "__"

  /** The name given to a tool: prefixed with its server, if it has one. */
  function FunctionName(server: string, tool: string): string {
    if server != "" then server + SEPARATOR + tool else tool
  }

  predicate SeparatorAt(s: string, i: nat) {
    i + 1 < |s| && s[i] == '_' && s[i + 1] == '_'
  }

  ghost predicate HasSeparator(s: string) {
    exists i :: SeparatorAt(s, i)
  }

  /** The position of the first separator, or the length of the string if there is none. */
  function FirstSeparator(s: string): (i: nat)
    ensures i <= |s|
    ensures i < |s| ==> SeparatorAt(s, i)
    ensures forall j: nat :: SeparatorAt(s, j) ==> i <= j
  {
    if s == "" then 0
    else if SeparatorAt(s, 0) then 0
    else
      assert forall j: nat :: SeparatorAt(s, j) ==> j > 0 && SeparatorAt(s[1..], j - 1);
      FirstSeparator(s[1..]) + 1
  }

  /** `resolve_tool_call`, against the names of the registered servers. */
  function Resolve(servers: set<string>, name: string): Option<(string, string)> {
    var i := FirstSeparator(name);
    if i == |name| then None
    else if name[..i] in servers then Some((name[..i], name[i + 2..]))
    else None
  }

  lemma FirstInFunctionName(server: string, tool: string)
    requires server != ""
    ensures var name := FunctionName(server, tool);
      FirstSeparator(name) == |server| <==> !HasSeparator(server + "_")
    ensures FirstSeparator(FunctionName(server, tool)) <= |server|
  {
    var name := FunctionName(server, tool);
    assert name == server + "_" + "_" + tool;
    assert SeparatorAt(name, |server|);
    forall i: nat ensures SeparatorAt(server + "_", i) <==> i < |server| && SeparatorAt(name, i) {
    }
    if FirstSeparator(name) < |server| {
      assert SeparatorAt(server + "_", FirstSeparator(name));
    }
  }

  /** Resolving the function name of a tool gives the server and the tool back, for a registered
      server with a name and whatever the tool is called, if and only if the server name followed
      by one underscore contains no separator. */
  lemma RoundTripExactly(servers: set<string>, server: string, tool: string)
    requires server in servers && server != ""
    ensures Resolve(servers, FunctionName(server, tool)) == Some((server, tool)) <==> !HasSeparator(server + "_")
  {
    var name := FunctionName(server, tool);
    FirstInFunctionName(server, tool);
    assert name[..|server|] == server && name[|server| + 2..] == tool;
  }

  /** Under that condition no two tools of registered servers share a function name. */
  lemma NoCollision(servers: set<string>, server1: string, tool1: string, server2: string, tool2: string)
    requires server1 in servers && server1 != "" && !HasSeparator(server1 + "_")
    requires server2 in servers && server2 != "" && !HasSeparator(server2 + "_")
    requires FunctionName(server1, tool1) == FunctionName(server2, tool2)
    ensures server1 == server2 && tool1 == tool2
  {
    RoundTripExactly(servers, server1, tool1);
    RoundTripExactly(servers, server2, tool2);
  }

  /** No two tools of registered servers share a function name. */
  ghost predicate NamesDiffer(servers: set<string>) {
    forall s, x, t, y :: s in servers && t in servers && FunctionName(s, x) == FunctionName(t, y) ==> s == t && x == y
  }

  /** One server name followed by the separator begins another followed by one underscore. */
  predicate Shadows(s: string, t: string) {
    s + SEPARATOR <= t + "_"
  }

  /** Two different servers share a function name only if the shorter name shadows the longer. */
  lemma SharedNameShadows(s: string, x: string, t: string, y: string)
    requires s != "" && t != "" && FunctionName(s, x) == FunctionName(t, y) && |s| <= |t|
    ensures if s == t then x == y else Shadows(s, t)
  {
    var name := FunctionName(s, x);
    assert s == name[..|s|] && t == name[..|t|];
    if |s| == |t| {
      assert x == name[|s| + 2..] && y == name[|t| + 2..];
    } else {
      assert s + SEPARATOR == name[..|s| + 2] && t + "_" == name[..|t| + 1];
    }
  }

  lemma ShadowsShareName(s: string, t: string)
    requires s != "" && t != "" && Shadows(s, t)
    ensures exists x, y :: FunctionName(s, x) == FunctionName(t, y)
  {
    var name := FunctionName(t, "");
    assert s + SEPARATOR == name[..|s| + 2];
    assert FunctionName(s, name[|s| + 2..]) == name;
  }

  /** The function names of all tools are different, whatever the tools are called, if and only if no
      server name shadows another. */
  lemma NamesDifferExactly(servers: set<string>)
    requires "" !in servers
    ensures NamesDiffer(servers) <==> forall s, t :: s in servers && t in servers && s != t ==> !Shadows(s, t)
  {
    if forall s, t :: s in servers && t in servers && s != t ==> !Shadows(s, t) {
      forall s, x, t, y | s in servers && t in servers && FunctionName(s, x) == FunctionName(t, y)
        ensures s == t && x == y
      {
        if |s| <= |t| { SharedNameShadows(s, x, t, y); } else { SharedNameShadows(t, y, s, x); }
      }
    } else {
      var s, t :| s in servers && t in servers && s != t && Shadows(s, t);
      ShadowsShareName(s, t);
    }
  }

  /** Two servers that share a function name; one tool is resolved to the other server. */
  lemma CollisionWitness()
    ensures FunctionName("a", "_b") == FunctionName("a_", "b")
    ensures Resolve({"a", "a_"}, FunctionName("a_", "b")) == Some(("a", "_b"))
  {
    assert FunctionName("a", "_b") == "a___b" && FunctionName("a_", "b") == "a___b";
    assert !HasSeparator("a" + "_");
    RoundTripExactly({"a", "a_"}, "a", "_b");
  }

  /** A tool without a server keeps its bare name, which no server claims unless it has a separator after
      the name of a registered one. */
  lemma BareNames(servers: set<string>, tool: string)
    ensures FunctionName("", tool) == tool
    ensures !HasSeparator(tool) ==> Resolve(servers, FunctionName("", tool)) == None
  {
    if FirstSeparator(tool) < |tool| {
      assert SeparatorAt(tool, FirstSeparator(tool));
    }
  }

  /** What is resolved is always a registered server, and the name it was resolved from. */
  lemma ResolveIsSound(servers: set<string>, name: string)
    ensures var r := Resolve(servers, name);
      r.Some? ==> r.value.0 in servers && r.value.0 + SEPARATOR + r.value.1 == name
  {
    var i := FirstSeparator(name);
    if i < |name| {
      assert name == name[..i] + name[i..i + 2] + name[i + 2..];
      assert name[i..i + 2] == SEPARATOR;
    }
  }
}
