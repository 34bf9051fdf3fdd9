/**
 The MCP tool manager: two maps between tools and servers, kept over a tool
 registry that only ever grows.
 */
module McpTools {
  import opened Wrappers

  /** McpTool::name: the server name in front. */
  function Name(server: string, tool: string): string {
    server + "__" + tool
  }

  datatype ToolDef = ToolDef(name: string, description: string)

  /** A tool in the registry: the definition of one server's tool, or a tool of the program's own. */
  datatype Tool = McpTool(server: string, definition: ToolDef) | OwnTool(description: string)

  function NamesOf(listing: seq<ToolDef>): (names: seq<string>)
    ensures |names| == |listing|
  {
    seq(|listing|, i requires 0 <= i < |listing| => listing[i].name)
  }

  /** The server's first tool in the listing that has the prefixed name n. */
  ghost predicate FirstListed(tool: Tool, server: string, listing: seq<ToolDef>, n: string) {
    exists i :: 0 <= i < |listing| && tool == McpTool(server, listing[i]) && n == Name(server, listing[i].name) &&
                forall j :: 0 <= j < i ==> n != Name(server, listing[j].name)
  }

  /** Every tool the registry had is still there, and every new one is the first listed under its name. */
  ghost predicate Added(tools: map<string, Tool>, before: map<string, Tool>, server: string, listing: seq<ToolDef>) {
    (forall n :: n in before ==> n in tools && tools[n] == before[n]) &&
    forall n :: n in tools && n !in before ==> FirstListed(tools[n], server, listing, n)
  }

  /** A tool goes into the registry unless its name is taken. */
  function Offered(tools: map<string, Tool>, server: string, d: ToolDef): map<string, Tool> {
    var n := Name(server, d.name);
    if n in tools then tools else tools[n := McpTool(server, d)]
  }

  /** The registry after the tools of a listing, one after the other. */
  function OfferedAll(before: map<string, Tool>, server: string, listing: seq<ToolDef>): map<string, Tool> {
    if listing == [] then before
    else Offered(OfferedAll(before, server, listing[..|listing| - 1]), server, listing[|listing| - 1])
  }

  lemma OfferedSnoc(before: map<string, Tool>, server: string, listing: seq<ToolDef>, i: nat)
    requires i < |listing|
    ensures OfferedAll(before, server, listing[..i + 1]) ==
            Offered(OfferedAll(before, server, listing[..i]), server, listing[i])
  {
    assert listing[..i + 1][..i] == listing[..i];
  }

  /** A free name is taken by the next listed tool; a taken one stays as it is. */
  lemma AddNext(tools: map<string, Tool>, before: map<string, Tool>, server: string, front: seq<ToolDef>, d: ToolDef)
    requires Added(tools, before, server, front)
    requires forall j :: 0 <= j < |front| ==> Name(server, front[j].name) in tools
    ensures Added(Offered(tools, server, d), before, server, front + [d])
  {
    var tools' := Offered(tools, server, d);
    var all := front + [d];
    forall n | n in tools' && n !in before ensures FirstListed(tools'[n], server, all, n) {
      if n in tools {
        var i :| 0 <= i < |front| && tools[n] == McpTool(server, front[i]) && n == Name(server, front[i].name) &&
                 forall j :: 0 <= j < i ==> n != Name(server, front[j].name);
        assert all[i] == front[i] && tools'[n] == tools[n];
        assert forall j :: 0 <= j < i ==> all[j] == front[j];
      } else {
        assert all[|front|] == d;
        assert forall j :: 0 <= j < |front| ==> all[j] == front[j];
      }
    }
  }

  lemma {:induction false} OfferedAdds(before: map<string, Tool>, server: string, listing: seq<ToolDef>)
    ensures Added(OfferedAll(before, server, listing), before, server, listing)
    ensures forall j :: 0 <= j < |listing| ==> Name(server, listing[j].name) in OfferedAll(before, server, listing)
    decreases |listing|
  {
    if listing != [] {
      var front, d := listing[..|listing| - 1], listing[|listing| - 1];
      OfferedAdds(before, server, front);
      AddNext(OfferedAll(before, server, front), before, server, front, d);
      assert listing == front + [d];
    }
  }

  datatype Index = Index(
    toolToServer: map<string, string>, serverToTools: map<string, seq<string>>, registered: set<string>)

  // ---------- the operations on values ----------

  function Elements(ts: seq<string>): set<string> {
    set t | t in ts
  }

  function Tracked(ix: Index, server: string): seq<string> {
    if server in ix.serverToTools then ix.serverToTools[server] else []
  }

  function Remove(ix: Index, server: string): Index {
    ix.(toolToServer := ix.toolToServer - Elements(Tracked(ix, server)),
        serverToTools := ix.serverToTools - {server})
  }

  /** The prefixed names that are not registered yet, each once, in listing order. */
  function Fresh(server: string, listing: seq<string>, registered: set<string>): seq<string>
    decreases |listing|
  {
    if listing == [] then []
    else
      var n := Name(server, listing[0]);
      if n in registered then Fresh(server, listing[1..], registered)
      else [n] + Fresh(server, listing[1..], registered + {n})
  }

  function Owned(ts: set<string>, server: string): map<string, string> {
    map t | t in ts :: server
  }

  function Sync(ix: Index, server: string, listing: seq<string>, connected: bool): Index {
    var gone := Remove(ix, server);
    if listing == [] || !connected then gone
    else
      var added := Fresh(server, listing, gone.registered);
      Assign(gone, server, added)
  }

  /** The server gets the added tools. */
  function Assign(ix: Index, server: string, added: seq<string>): Index {
    Index(ix.toolToServer + Owned(Elements(added), server),
          ix.serverToTools[server := added],
          ix.registered + Elements(added))
  }

  lemma FreshStep(server: string, listing: seq<string>, i: nat, registered: set<string>)
    requires i < |listing|
    ensures Fresh(server, listing[i..], registered) ==
            if Name(server, listing[i]) in registered then Fresh(server, listing[i + 1..], registered)
            else [Name(server, listing[i])] + Fresh(server, listing[i + 1..], registered + {Name(server, listing[i])})
  {
    assert listing[i..][1..] == listing[i + 1..];
  }

  lemma OwnOneMore(m: map<string, string>, ts: seq<string>, t: string, server: string)
    ensures Elements(ts + [t]) == Elements(ts) + {t}
    ensures (m + Owned(Elements(ts), server))[t := server] == m + Owned(Elements(ts + [t]), server)
  {
    assert Elements(ts + [t]) == Elements(ts) + {t};
  }

  // ---------- the classes ----------

  class ToolRegistry {
    var tools: map<string, Tool>

    constructor (initial: map<string, Tool>)
      ensures tools == initial
    {
      tools := initial;
    }

    method RegisterTool(name: string, tool: Tool)
      modifies this
      ensures tools == old(tools)[name := tool]
    {
      tools := tools[name := tool];
    }
  }

  class McpToolManager {
    const registry: ToolRegistry
    var toolToServer: map<string, string>
    var serverToTools: map<string, seq<string>>

    ghost function Value(): Index
      reads this, registry
    {
      Index(toolToServer, serverToTools, registry.tools.Keys)
    }

    ghost predicate Valid()
      reads this, registry
    {
      Agrees(Value())
    }

    constructor (registry: ToolRegistry)
      ensures Valid() && this.registry == registry && Value() == Index(map[], map[], registry.tools.Keys)
    {
      this.registry := registry;
      toolToServer, serverToTools := map[], map[];
    }

    method RemoveServerTools(server: string)
      requires Valid()
      modifies this
      ensures Valid() && Value() == Remove(old(Value()), server)
    {
      RemoveAgrees(Value(), server);
      EraseTools(server);
    }

    /** The two erasures, name by name. */
    method EraseTools(server: string)
      modifies this
      ensures Value() == Remove(old(Value()), server)
    {
      if server !in serverToTools {
        assert toolToServer - {} == toolToServer;
        assert serverToTools - {server} == serverToTools;
        return;
      }
      var names := serverToTools[server];
      ghost var before := toolToServer;
      for i := 0 to |names|
        invariant toolToServer == before - Elements(names[..i]) && serverToTools == old(serverToTools)
      {
        assert Elements(names[..i + 1]) == Elements(names[..i]) + {names[i]};
        toolToServer := toolToServer - {names[i]};
      }
      assert names[..|names|] == names;
      serverToTools := serverToTools - {server};
    }

    /** The server's listing, and whether it has a client, are what the MCP manager answers. */
    method SyncServerTools(server: string, listing: seq<ToolDef>, connected: bool)
      requires Valid()
      modifies this, registry
      ensures Valid() && Value() == Sync(old(Value()), server, NamesOf(listing), connected)
      ensures Added(registry.tools, old(registry.tools), server, listing)
    {
      SyncAgrees(Value(), server, NamesOf(listing), connected);
      RemoveServerTools(server);
      if |listing| == 0 { return; }
      if !connected { return; }
      var registeredNames := RegisterListing(server, listing);
      serverToTools := serverToTools[server := registeredNames];
    }

    /** Every listed tool whose name is free is registered and assigned to the server. */
    method RegisterListing(server: string, listing: seq<ToolDef>) returns (registeredNames: seq<string>)
      modifies this`toolToServer, registry
      ensures registeredNames == Fresh(server, NamesOf(listing), old(registry.tools).Keys)
      ensures toolToServer == old(toolToServer) + Owned(Elements(registeredNames), server)
      ensures registry.tools.Keys == old(registry.tools).Keys + Elements(registeredNames)
      ensures Added(registry.tools, old(registry.tools), server, listing)
    {
      registeredNames := [];
      ghost var names := NamesOf(listing);
      assert names[0..] == names;
      ghost var base, keys := toolToServer, registry.tools.Keys;
      for i := 0 to |listing|
        invariant toolToServer == base + Owned(Elements(registeredNames), server)
        invariant registry.tools.Keys == keys + Elements(registeredNames)
        invariant registeredNames + Fresh(server, names[i..], registry.tools.Keys) == Fresh(server, names, keys)
        invariant registry.tools == OfferedAll(old(registry.tools), server, listing[..i])
      {
        ghost var r := registry.tools.Keys;
        FreshStep(server, names, i, r);
        OfferedSnoc(old(registry.tools), server, listing, i);
        var toolName := Name(server, listing[i].name);
        if toolName in registry.tools { continue; }
        OwnOneMore(base, registeredNames, toolName, server);
        Regroup(registeredNames, [toolName], Fresh(server, names[i + 1..], r + {toolName}));
        registry.RegisterTool(toolName, McpTool(server, listing[i]));
        assert registry.tools.Keys == r + {toolName};
        toolToServer := toolToServer[toolName := server];
        registeredNames := registeredNames + [toolName];
      }
      assert listing[..|listing|] == listing;
      OfferedAdds(old(registry.tools), server, listing);
    }

    /** tool_count reads one map; the number is the sum over the lists of the other. */
    method ToolCount() returns (n: nat)
      requires Valid()
      ensures n == Total(serverToTools)
    {
      ToolCountIsTotal(Value());
      n := |toolToServer|;
    }

    /** tool_server finds the one server whose list has the tool, and none for every other name. */
    method ToolServer(tool: string) returns (server: Option<string>)
      requires Valid()
      ensures forall s :: server == Some(s) <==> tool in Tracked(Value(), s)
    {
      assert forall s :: (tool in toolToServer && toolToServer[tool] == s) <==> tool in Tracked(Value(), s);
      server := if tool in toolToServer then Some(toolToServer[tool]) else None;
    }
  }

  // ---------- the two maps agree ----------

  ghost predicate NoDuplicates(ts: seq<string>) {
    forall i, j :: 0 <= i < j < |ts| ==> ts[i] != ts[j]
  }

  /**
   A tool belongs to a server in one map exactly when the server lists it, once, in the
   other; every tool is registered.
   */
  ghost predicate Agrees(ix: Index) {
    (forall t, s :: (t in ix.toolToServer && ix.toolToServer[t] == s) <==> t in Tracked(ix, s)) &&
    (forall s :: s in ix.serverToTools ==> NoDuplicates(ix.serverToTools[s])) &&
    ix.toolToServer.Keys <= ix.registered
  }

  /** What Fresh takes: the listed names that were not registered, without repetition. */
  lemma {:induction false} FreshNames(server: string, listing: seq<string>, registered: set<string>)
    ensures NoDuplicates(Fresh(server, listing, registered))
    ensures forall t :: t in Fresh(server, listing, registered) <==>
                        t !in registered && exists k :: 0 <= k < |listing| && t == Name(server, listing[k])
    decreases |listing|
  {
    if listing != [] {
      var n := Name(server, listing[0]);
      var r := if n in registered then registered else registered + {n};
      FreshNames(server, listing[1..], r);
      var more := Fresh(server, listing[1..], r);
      forall t ensures t in Fresh(server, listing, registered) <==>
                       t !in registered && exists k :: 0 <= k < |listing| && t == Name(server, listing[k])
      {
        if k :| 0 <= k < |listing| && t == Name(server, listing[k]) {
          if k > 0 { assert listing[1..][k - 1] == listing[k]; }
        }
        if t in more {
          var k :| 0 <= k < |listing[1..]| && t == Name(server, listing[1..][k]);
          assert listing[k + 1] == listing[1..][k];
        }
      }
    }
  }

  lemma RemoveAgrees(ix: Index, server: string)
    requires Agrees(ix)
    ensures Agrees(Remove(ix, server))
    ensures Tracked(Remove(ix, server), server) == [] && server !in Remove(ix, server).serverToTools
    ensures Remove(ix, server).registered == ix.registered
    ensures forall s :: s != server ==> Tracked(Remove(ix, server), s) == Tracked(ix, s)
  {
    var ix' := Remove(ix, server);
    forall t, s ensures (t in ix'.toolToServer && ix'.toolToServer[t] == s) <==> t in Tracked(ix', s) {
      assert t in Tracked(ix, s) <==> (t in ix.toolToServer && ix.toolToServer[t] == s);
      assert t in Tracked(ix, server) <==> (t in ix.toolToServer && ix.toolToServer[t] == server);
    }
  }

  lemma TrackedBehindAssign(ix: Index, server: string, added: seq<string>, s: string)
    ensures Tracked(Assign(ix, server, added), s) == if s == server then added else Tracked(ix, s)
  {}

  lemma OwnedBehindAssign(ix: Index, server: string, added: seq<string>, t: string, s: string)
    ensures var m := Assign(ix, server, added).toolToServer;
            (t in m && m[t] == s) <==>
            if t in added then s == server else t in ix.toolToServer && ix.toolToServer[t] == s
  {}

  /** New names under a server that has none yet. */
  lemma AssignAgrees(ix: Index, server: string, added: seq<string>)
    requires Agrees(ix) && Tracked(ix, server) == [] && NoDuplicates(added)
    requires forall t :: t in added ==> t !in ix.registered
    ensures Agrees(Assign(ix, server, added))
  {
    var ix' := Assign(ix, server, added);
    forall t, s ensures (t in ix'.toolToServer && ix'.toolToServer[t] == s) <==> t in Tracked(ix', s) {
      TrackedBehindAssign(ix, server, added, s);
      OwnedBehindAssign(ix, server, added, t, s);
      assert t in Tracked(ix, s) <==> (t in ix.toolToServer && ix.toolToServer[t] == s);
      assert t in ix.toolToServer ==> t in ix.registered;
    }
  }

  lemma SyncAgrees(ix: Index, server: string, listing: seq<string>, connected: bool)
    requires Agrees(ix)
    ensures Agrees(Sync(ix, server, listing, connected))
    ensures forall s :: s != server ==> Tracked(Sync(ix, server, listing, connected), s) == Tracked(ix, s)
  {
    RemoveAgrees(ix, server);
    var gone := Remove(ix, server);
    if listing != [] && connected {
      var added := Fresh(server, listing, gone.registered);
      FreshNames(server, listing, gone.registered);
      AssignAgrees(gone, server, added);
      forall s | s != server ensures Tracked(Assign(gone, server, added), s) == Tracked(ix, s) {
        TrackedBehindAssign(gone, server, added, s);
      }
    }
  }

  // ---------- any sequence of operations ----------

  /** RegisterOp is any other part of the program registering a tool of its own. */
  datatype Op =
    | SyncOp(server: string, listing: seq<string>, connected: bool)
    | RemoveOp(server: string)
    | RegisterOp(name: string)

  function Apply(ix: Index, op: Op): Index {
    match op
    case SyncOp(server, listing, connected) => Sync(ix, server, listing, connected)
    case RemoveOp(server) => Remove(ix, server)
    case RegisterOp(name) => ix.(registered := ix.registered + {name})
  }

  function ApplyAll(ix: Index, ops: seq<Op>): Index
    decreases |ops|
  {
    if ops == [] then ix else ApplyAll(Apply(ix, ops[0]), ops[1..])
  }

  lemma RegistrationAgrees(ix: Index, name: string)
    requires Agrees(ix)
    ensures Agrees(ix.(registered := ix.registered + {name}))
  {
    var ix' := ix.(registered := ix.registered + {name});
    forall t, s ensures (t in ix'.toolToServer && ix'.toolToServer[t] == s) <==> t in Tracked(ix', s) {
      assert Tracked(ix', s) == Tracked(ix, s);
      assert t in Tracked(ix, s) <==> (t in ix.toolToServer && ix.toolToServer[t] == s);
    }
  }

  lemma OperationAgrees(ix: Index, op: Op)
    requires Agrees(ix)
    ensures Agrees(Apply(ix, op)) && ix.registered <= Apply(ix, op).registered
  {
    match op
    case SyncOp(server, listing, connected) => SyncAgrees(ix, server, listing, connected);
    case RemoveOp(server) => RemoveAgrees(ix, server);
    case RegisterOp(name) => RegistrationAgrees(ix, name);
  }

  /** After any syncs and removals, whatever the servers list, the two maps agree and the registry has only grown. */
  lemma {:induction false} IndexAlwaysAgrees(ix: Index, ops: seq<Op>)
    requires Agrees(ix)
    ensures Agrees(ApplyAll(ix, ops)) && ix.registered <= ApplyAll(ix, ops).registered
    decreases |ops|
  {
    if ops != [] {
      OperationAgrees(ix, ops[0]);
      IndexAlwaysAgrees(Apply(ix, ops[0]), ops[1..]);
    }
  }

  /** So they agree in the whole life of a manager over any registry. */
  lemma NewManagerAlwaysAgrees(registered: set<string>, ops: seq<Op>)
    ensures Agrees(ApplyAll(Index(map[], map[], registered), ops))
  {
    IndexAlwaysAgrees(Index(map[], map[], registered), ops);
  }

  /** Lists of different servers have no tool in common. */
  lemma ListsAreDisjoint(ix: Index, s1: string, s2: string, t: string)
    requires Agrees(ix) && t in Tracked(ix, s1) && t in Tracked(ix, s2)
    ensures s1 == s2
  {
    assert ix.toolToServer[t] == s1;
  }

  // ---------- counting ----------

  ghost function Total(m: map<string, seq<string>>): nat
    decreases |m|
  {
    if m == map[] then 0
    else
      var s :| s in m;
      |m[s]| + Total(m - {s})
  }

  lemma {:induction false} ElementsCount(ts: seq<string>)
    requires NoDuplicates(ts)
    ensures |Elements(ts)| == |ts|
    decreases |ts|
  {
    if ts != [] {
      var rest := ts[1..];
      assert NoDuplicates(rest);
      ElementsCount(rest);
      assert Elements(ts) == {ts[0]} + Elements(rest);
      assert ts[0] !in Elements(rest);
    }
  }

  lemma KeysWithout(m: map<string, string>, xs: set<string>)
    requires xs <= m.Keys
    ensures |m - xs| == |m| - |xs|
  {
    assert (m - xs).Keys == m.Keys - xs;
    assert m.Keys == (m.Keys - xs) + xs;
    assert |m| == |m.Keys| && |m - xs| == |(m - xs).Keys|;
  }

  lemma RemoveCounts(ix: Index, s: string)
    requires Agrees(ix) && s in ix.serverToTools
    ensures |Remove(ix, s).toolToServer| == |ix.toolToServer| - |ix.serverToTools[s]|
  {
    var ts := ix.serverToTools[s];
    assert ts == Tracked(ix, s);
    ElementsCount(ts);
    assert Elements(ts) <= ix.toolToServer.Keys;
    KeysWithout(ix.toolToServer, Elements(ts));
  }

  lemma NoServersNoTools(ix: Index)
    requires Agrees(ix) && ix.serverToTools == map[]
    ensures ix.toolToServer == map[]
  {
    forall t ensures t !in ix.toolToServer {
      assert t in ix.toolToServer ==> t in Tracked(ix, ix.toolToServer[t]);
    }
  }

  /** tool_count is the sum of the lengths of the servers' lists. */
  lemma {:induction false} ToolCountIsTotal(ix: Index)
    requires Agrees(ix)
    ensures |ix.toolToServer| == Total(ix.serverToTools)
    decreases |ix.serverToTools|
  {
    var m := ix.serverToTools;
    if m == map[] {
      NoServersNoTools(ix);
    } else {
      var s :| s in m && Total(m) == |m[s]| + Total(m - {s});
      RemoveAgrees(ix, s);
      RemoveCounts(ix, s);
      ToolCountIsTotal(Remove(ix, s));
    }
  }

  // ---------- what the growing registry does to a second sync ----------

  /**
   After a sync the server's tools, and what is new in the registry, are exactly the listed names
   that were not registered before it; without a client there are none.
   */
  lemma SyncTracks(ix: Index, server: string, listing: seq<string>, connected: bool, t: string)
    requires Agrees(ix)
    ensures var ix' := Sync(ix, server, listing, connected);
            (server in ix'.serverToTools <==> connected && listing != []) &&
            (t in Tracked(ix', server) <==>
               connected && t !in ix.registered && exists k :: 0 <= k < |listing| && t == Name(server, listing[k])) &&
            (t in ix'.registered <==> t in ix.registered || t in Tracked(ix', server))
  {
    FreshNames(server, listing, ix.registered);
  }

  /** No tool survives the next sync of its own server, still listed or not. */
  lemma ResyncDropsEveryTool(ix: Index, server: string, listing: seq<string>, connected: bool, t: string)
    requires Agrees(ix) && t in Tracked(ix, server)
    ensures t !in Sync(ix, server, listing, connected).toolToServer
  {
    assert t in ix.toolToServer && t in ix.registered;
    FreshNames(server, listing, ix.registered);
    assert t in Elements(Tracked(ix, server));
  }

  // ---------- are the prefixed names unique? ----------

  /** Tools of two servers can get the same name exactly when one server's prefix starts the other's. */
  lemma NamesCollideIff(s1: string, s2: string)
    ensures (exists t1, t2 :: Name(s1, t1) == Name(s2, t2)) <==> (s1 + "__" <= s2 + "__" || s2 + "__" <= s1 + "__")
  {
    var p1, p2 := s1 + "__", s2 + "__";
    if t1, t2 :| Name(s1, t1) == Name(s2, t2) {
      var n := Name(s1, t1);
      assert n[..|p1|] == p1 && n[..|p2|] == p2;
    }
    if p1 <= p2 {
      assert Name(s1, p2[|p1|..]) == Name(s2, "");
    }
    if p2 <= p1 {
      assert Name(s2, p1[|p2|..]) == Name(s1, "");
    }
  }
}
