/** Agent-gated MCP tools: the action a tool is checked against, its registration, and the gate. */
module McpGate {
  import opened Common

  predicate ActionChar(c: char) {
    'a' <= c <= 'z' || '0' <= c <= '9' || c == '_' || c == '.' || c == ':' || c == '-'
  }

  /** The action grammar on a whole string. */
  predicate WellFormed(s: string) {
    s != "" && 'a' <= s[0] <= 'z' && forall i :: 0 <= i < |s| ==> ActionChar(s[i])
  }

  /** `_ACTION_RE.match(s)`: Python's `$` also matches before a newline that ends the string. */
  predicate Matches(s: string) {
    WellFormed(s) || (s != "" && s[|s| - 1] == '\n' && WellFormed(s[..|s| - 1]))
  }

  function ActionText(service: string, tool: string): string {
    "mcp:" + service + "." + tool
  }

  /** `_agent_action`; `None` where it raises `ValueError`. */
  function AgentAction(service: string, tool: string): Option<string> {
    if Matches(ActionText(service, tool)) then Some(ActionText(service, tool)) else None
  }

  /** `otherService` is `service`, a dot and more; and `tool` is that more, a dot and `otherTool`. */
  predicate Straddles(service: string, tool: string, otherService: string, otherTool: string) {
    && |otherService| > |service|
    && otherService[..|service|] == service && otherService[|service|] == '.'
    && tool == otherService[|service| + 1..] + "." + otherTool
  }

  lemma StraddlesSameText(service: string, tool: string, otherService: string, otherTool: string)
    requires Straddles(service, tool, otherService, otherTool)
    ensures ActionText(service, tool) == ActionText(otherService, otherTool)
  {
    var x := otherService[|service| + 1..];
    assert otherService == service + "." + x;
    assert service + "." + (x + "." + otherTool) == service + "." + x + "." + otherTool;
  }

  lemma SameTextStraddles(service: string, tool: string, otherService: string, otherTool: string)
    requires |service| < |otherService| && ActionText(service, tool) == ActionText(otherService, otherTool)
    ensures Straddles(service, tool, otherService, otherTool)
  {
    var a, b := ActionText(service, tool), ActionText(otherService, otherTool);
    assert a[4..] == service + "." + tool && b[4..] == otherService + "." + otherTool;
    var p, q := service + "." + tool, otherService + "." + otherTool;
    assert p == q;
    assert otherService == q[..|otherService|];
    assert otherService[..|service|] == p[..|service|] == service;
    assert otherService[|service|] == p[|service|] == '.';
    assert tool == p[|service| + 1..];
    assert q[|service| + 1..] == otherService[|service| + 1..] + "." + otherTool;
  }

  lemma SameLength(service: string, tool: string, otherService: string, otherTool: string)
    requires |service| == |otherService| && ActionText(service, tool) == ActionText(otherService, otherTool)
    ensures service == otherService && tool == otherTool
  {
    var a, b := ActionText(service, tool), ActionText(otherService, otherTool);
    assert service == a[4..4 + |service|] && tool == a[5 + |service|..];
    assert otherService == b[4..4 + |service|] && otherTool == b[5 + |service|..];
  }

  /** Two tools share an action exactly when they are the same or a dot in a service name is read both ways. */
  lemma ActionCollision(service: string, tool: string, otherService: string, otherTool: string)
    ensures ActionText(service, tool) == ActionText(otherService, otherTool) <==>
      || (service == otherService && tool == otherTool)
      || Straddles(service, tool, otherService, otherTool)
      || Straddles(otherService, otherTool, service, tool)
  {
    if Straddles(service, tool, otherService, otherTool) {
      StraddlesSameText(service, tool, otherService, otherTool);
    } else if Straddles(otherService, otherTool, service, tool) {
      StraddlesSameText(otherService, otherTool, service, tool);
    } else if ActionText(service, tool) == ActionText(otherService, otherTool) {
      if |service| < |otherService| {
        SameTextStraddles(service, tool, otherService, otherTool);
      } else if |otherService| < |service| {
        SameTextStraddles(otherService, otherTool, service, tool);
      } else {
        SameLength(service, tool, otherService, otherTool);
      }
    }
  }

  /** Service names without dots keep the grants of different tools apart. */
  lemma ActionInjective(service: string, tool: string, otherService: string, otherTool: string)
    requires '.' !in service && '.' !in otherService
    requires ActionText(service, tool) == ActionText(otherService, otherTool)
    ensures service == otherService && tool == otherTool
  {
    ActionCollision(service, tool, otherService, otherTool);
  }

  /** The grammar of service names at registration: `[a-z][a-z0-9-]*[a-z0-9]`, 2 to 255 characters. */
  predicate RegisteredName(service: string) {
    && 2 <= |service| <= 255
    && 'a' <= service[0] <= 'z'
    && (forall i :: 0 <= i < |service| ==> RegisteredChar(service[i]))
    && service[|service| - 1] != '-'
  }

  predicate RegisteredChar(c: char) {
    'a' <= c <= 'z' || '0' <= c <= '9' || c == '-'
  }

  const ACTION_CHARS: set<char> := {
    'a', 'b', 'c', 'd', 'e', 'f', 'g', 'h', 'i', 'j', 'k', 'l', 'm', 'n', 'o', 'p', 'q', 'r', 's', 't',
    'u', 'v', 'w', 'x', 'y', 'z', '0', '1', '2', '3', '4', '5', '6', '7', '8', '9', '_', '.', ':', '-'}

  /** Tool names of the action grammar's characters, perhaps none, perhaps with a newline after them. */
  predicate ToolNameFits(tool: string) {
    || (forall i :: 0 <= i < |tool| ==> tool[i] in ACTION_CHARS)
    || (tool != "" && tool[|tool| - 1] == '\n' && forall i :: 0 <= i < |tool| - 1 ==> tool[i] in ACTION_CHARS)
  }

  lemma ActionCharIsListed(c: char)
    ensures ActionChar(c) <==> c in ACTION_CHARS
  {
  }

  lemma FitsWellFormed(service: string, tool: string)
    requires RegisteredName(service)
    ensures WellFormed(ActionText(service, tool)) <==> forall i :: 0 <= i < |tool| ==> ActionChar(tool[i])
  {
    var a := ActionText(service, tool);
    var k := |service| + 5;
    assert a[..4] == "mcp:" && a[4..k - 1] == service && a[k - 1] == '.' && a[k..] == tool;
    assert forall i :: 0 <= i < |service| ==> a[4 + i] == service[i] && RegisteredChar(service[i]);
    assert forall i :: 0 <= i < |tool| ==> a[k + i] == tool[i];
    if forall i :: 0 <= i < |tool| ==> ActionChar(tool[i]) {
      forall i | 0 <= i < |a| ensures ActionChar(a[i]) {
        if 4 <= i < k - 1 {
          assert a[i] == service[i - 4];
        } else if i >= k {
          assert a[i] == tool[i - k];
        } else if i < 4 {
          assert a[i] == "mcp:"[i];
        }
      }
    }
  }

  /** The action of a registered service's tool, by a condition on the tool's name alone. */
  lemma RegisteredAction(service: string, tool: string)
    requires RegisteredName(service)
    ensures AgentAction(service, tool) == if ToolNameFits(tool) then Some("mcp:" + service + "." + tool) else None
  {
    hide WellFormed, ActionChar, RegisteredName;
    forall c ensures ActionChar(c) <==> c in ACTION_CHARS {
      ActionCharIsListed(c);
    }
    FitsWellFormed(service, tool);
    var a := ActionText(service, tool);
    if tool != "" {
      FitsWellFormed(service, tool[..|tool| - 1]);
      assert a[|a| - 1] == tool[|tool| - 1];
      assert a[..|a| - 1] == ActionText(service, tool[..|tool| - 1]);
    } else {
      assert a[|a| - 1] == '.';
    }
  }

  /**
   For registered services, whether a tool has an action depends on the tool's name alone, and the action
   names service and tool: no two tools of any two services share a grant.
   */
  lemma RegisteredActions(service: string, tool: string, otherService: string, otherTool: string)
    requires RegisteredName(service) && RegisteredName(otherService)
    ensures AgentAction(service, tool) == if ToolNameFits(tool) then Some("mcp:" + service + "." + tool) else None
    ensures ToolNameFits(tool) ==>
      (AgentAction(service, tool) == AgentAction(otherService, otherTool) <==> service == otherService && tool == otherTool)
  {
    hide WellFormed, ToolNameFits;
    RegisteredAction(service, tool);
    RegisteredAction(otherService, otherTool);
    assert forall i :: 0 <= i < |service| ==> RegisteredChar(service[i]);
    assert forall i :: 0 <= i < |otherService| ==> RegisteredChar(otherService[i]);
    ActionCollision(service, tool, otherService, otherTool);
  }

  /** The only ill-formed action that gets through is a well-formed one with a newline at the end of the tool name. */
  lemma AcceptedButIllFormed(service: string, tool: string)
    ensures AgentAction(service, tool).Some? && !WellFormed(ActionText(service, tool)) <==>
      tool != "" && tool[|tool| - 1] == '\n' && WellFormed(ActionText(service, tool[..|tool| - 1]))
  {
    var a := ActionText(service, tool);
    if tool == "" {
      assert a[|a| - 1] == '.';
    } else {
      assert a[|a| - 1] == tool[|tool| - 1];
      assert a[..|a| - 1] == ActionText(service, tool[..|tool| - 1]);
    }
  }

  // ---- Registration ----

  datatype Tool = Tool(name: string, gated: bool, description: Option<string>)
  datatype Entry = Entry(action: string, description: Option<string>)

  /** `IllFormed`: `ValueError`, nothing sent. `Sent([])`: no gated tools, nothing sent either. */
  datatype Sync = IllFormed | Sent(entries: seq<Entry>)

  /** The gated tools, in order. */
  function Gated(tools: seq<Tool>): seq<Tool> {
    if tools == [] then []
    else Gated(tools[..|tools| - 1]) + if tools[|tools| - 1].gated then [tools[|tools| - 1]] else []
  }

  method SyncTools(service: string, tools: seq<Tool>) returns (r: Sync)
    ensures r.IllFormed? <==> exists t :: t in tools && t.gated && AgentAction(service, t.name).None?
    ensures r.Sent? ==>
      && |r.entries| == |Gated(tools)|
      && forall i :: 0 <= i < |r.entries| ==>
           && r.entries[i].action == ActionText(service, Gated(tools)[i].name)
           && r.entries[i].description ==
                if Truthy(Gated(tools)[i].description) then Gated(tools)[i].description else None
  {
    var entries: seq<Entry> := [];
    var i := 0;
    while i < |tools|
      invariant 0 <= i <= |tools|
      invariant forall j :: 0 <= j < i && tools[j].gated ==> AgentAction(service, tools[j].name).Some?
      invariant |entries| == |Gated(tools[..i])|
      invariant forall j :: 0 <= j < |entries| ==>
        && entries[j].action == ActionText(service, Gated(tools[..i])[j].name)
        && entries[j].description ==
             if Truthy(Gated(tools[..i])[j].description) then Gated(tools[..i])[j].description else None
    {
      var t := tools[i];
      assert tools[..i + 1][..i] == tools[..i];
      if t.gated {
        var action := AgentAction(service, t.name);
        if action.None? {
          return IllFormed;
        }
        entries := entries + [Entry(action.value, if Truthy(t.description) then t.description else None)];
      }
      i := i + 1;
    }
    assert tools[..i] == tools;
    return Sent(entries);
  }

  lemma {:induction false} GatedContents(tools: seq<Tool>)
    ensures forall t :: t in Gated(tools) <==> t in tools && t.gated
  {
    if tools != [] {
      GatedContents(tools[..|tools| - 1]);
      assert tools == tools[..|tools| - 1] + [tools[|tools| - 1]];
    }
  }

  /** The gated tools of two lists are those of the first and then those of the second. */
  lemma {:induction false} GatedInOrder(a: seq<Tool>, b: seq<Tool>)
    ensures Gated(a + b) == Gated(a) + Gated(b)
  {
    if b != [] {
      GatedInOrder(a, b[..|b| - 1]);
      assert (a + b)[..|a + b| - 1] == a + b[..|b| - 1];
    } else {
      assert a + b == a;
    }
  }

  lemma GatedOne(t: Tool)
    ensures Gated([t]) == if t.gated then [t] else []
  {
    assert [t][..0] == [];
  }

  // ---- The gate ----

  /** A tool call: whether a Duar user is authenticated, whether the session is stateful, and the tool found. */
  datatype ToolCall = ToolCall(name: string, authenticated: bool, stateful: bool, found: Option<Tool>)

  /** What came of it: whether the tool ran, and the action Duar was asked about. */
  datatype Verdict = Verdict(runs: bool, asked: Option<string>)

  /** `on_call_tool`; `grant` is Duar's answer, `None` when asking raises. */
  function OnCallTool(service: string, call: ToolCall, grant: string -> Option<bool>): Verdict {
    if !call.authenticated || call.stateful then Verdict(false, None)
    else
      match call.found
      case None => Verdict(false, None)
      case Some(tool) =>
        if !tool.gated then Verdict(true, None)
        else
          match AgentAction(service, call.name)
          case None => Verdict(false, None)
          case Some(action) => Verdict(grant(action) == Some(true), Some(action))
  }

  /** Without an authenticated user, in a stateful session, or for no known tool, nothing runs and nothing is asked. */
  lemma GateFailsClosed(service: string, call: ToolCall, grant: string -> Option<bool>)
    ensures var v := OnCallTool(service, call, grant);
      && (v.runs ==> call.authenticated && !call.stateful && call.found.Some?)
      && (v.asked.Some? ==> call.authenticated && !call.stateful && call.found.Some? && call.found.value.gated)
      && (v.asked.Some? ==> v.asked == AgentAction(service, call.name) && (v.runs <==> grant(v.asked.value) == Some(true)))
      && (v.runs && call.found.value.gated ==> v.asked.Some?)
  {
  }

  /**
   Gate and registration agree. Once the tools are registered, a gated tool runs exactly when its caller
   is authenticated, the session stateless, and Duar grants an action that registration sent.
   */
  lemma GateMatchesRegistration(
      service: string, tools: seq<Tool>, entries: seq<Entry>, call: ToolCall, grant: string -> Option<bool>)
    requires |entries| == |Gated(tools)|
    requires forall i :: 0 <= i < |entries| ==> entries[i].action == ActionText(service, Gated(tools)[i].name)
    requires forall t :: t in tools && t.gated ==> AgentAction(service, t.name).Some?
    requires call.found.Some? && call.found.value in tools && call.found.value.name == call.name
    ensures var v := OnCallTool(service, call, grant);
      && (call.found.value.gated && call.authenticated && !call.stateful ==>
            exists i :: 0 <= i < |entries| && v.asked == Some(entries[i].action) && entries[i].action == ActionText(service, call.name))
      && (v.runs <==>
            && call.authenticated && !call.stateful
            && (call.found.value.gated ==> v.asked.Some? && grant(v.asked.value) == Some(true)))
      && (!call.found.value.gated ==> v.asked.None?)
  {
    GatedContents(tools);
    if call.found.value.gated {
      var i :| 0 <= i < |Gated(tools)| && Gated(tools)[i] == call.found.value;
      assert entries[i].action == ActionText(service, call.name);
    }
  }

  // ---- Mounting ----

  /** A `Duar` object: the service it is for, and the scope its role client registers and checks under. */
  datatype Instance = Instance(service: string, scope: string)

  datatype Layer = Gate(duar: Instance) | Other(n: nat)

  /** The middleware list after `mount_mcp`: a gate goes first unless one is there, whichever instance it has. */
  function Mount(layers: seq<Layer>, duar: Instance): seq<Layer> {
    if exists i :: 0 <= i < |layers| && layers[i].Gate? then layers else [Gate(duar)] + layers
  }

  function MountAll(layers: seq<Layer>, duars: seq<Instance>): seq<Layer> {
    if duars == [] then layers else Mount(MountAll(layers, duars[..|duars| - 1]), duars[|duars| - 1])
  }

  predicate HasGate(layers: seq<Layer>) {
    exists i :: 0 <= i < |layers| && layers[i].Gate?
  }

  /** However often a server is mounted, it has one gate, the first mount's, outermost, unless it had one before. */
  lemma {:induction false} OneGate(layers: seq<Layer>, duars: seq<Instance>)
    ensures MountAll(layers, duars) ==
      if duars == [] || HasGate(layers) then layers else [Gate(duars[0])] + layers
  {
    if |duars| > 0 {
      OneGate(layers, duars[..|duars| - 1]);
      if !HasGate(layers) && |duars| > 1 {
        assert ([Gate(duars[0])] + layers)[0].Gate?;
      }
    }
  }

  /** What `duar` registers at startup: the actions of the gated tools, under its scope. */
  ghost predicate Registers(duar: Instance, tools: seq<Tool>, scope: string, action: string) {
    && duar.scope == scope
    && exists i :: 0 <= i < |Gated(tools)| && AgentAction(duar.service, Gated(tools)[i].name) == Some(action)
  }

  /**
   A server mounted with several instances is gated for the first. What that gate asks for a gated tool is
   what a later mount registered exactly when the later instance is for the same service and scope.
   */
  lemma SurvivingGateAgrees(layers: seq<Layer>, duars: seq<Instance>, n: nat, tools: seq<Tool>, tool: Tool)
    requires n < |duars| && !HasGate(layers)
    requires RegisteredName(duars[0].service) && RegisteredName(duars[n].service)
    requires tool in tools && tool.gated && ToolNameFits(tool.name)
    ensures var top := MountAll(layers, duars)[0];
      && top.Gate? && AgentAction(top.duar.service, tool.name).Some?
      && (Registers(duars[n], tools, top.duar.scope, AgentAction(top.duar.service, tool.name).value) <==>
            duars[n] == top.duar)
  {
    OneGate(layers, duars);
    GatedContents(tools);
    var gate, later := duars[0], duars[n];
    RegisteredActions(gate.service, tool.name, gate.service, tool.name);
    var i :| 0 <= i < |Gated(tools)| && Gated(tools)[i] == tool;
    assert later == gate ==> AgentAction(later.service, Gated(tools)[i].name) == AgentAction(gate.service, tool.name);
    forall j | 0 <= j < |Gated(tools)| && AgentAction(later.service, Gated(tools)[j].name) == AgentAction(gate.service, tool.name)
      ensures later.service == gate.service
    {
      RegisteredActions(gate.service, tool.name, later.service, Gated(tools)[j].name);
    }
  }
}
