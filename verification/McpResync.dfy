/**
 Replacing the published tools of an MCP server (cmd/sta/mcps.go) in the tool registry
 (internal/tools/tools.go): a refresh publishes a complete new generation or leaves the old
 one.  Names, servers and the parts of a tool are only compared, so they are numbers here.
 */
module McpResync {
  type Name = nat
  type Server = nat

  const WORD: nat := 0x1_0000_0000_0000_0000
  type Word = n: nat | n < 0x1_0000_0000_0000_0000

  // ---------- The registry ----------

  datatype Owner = NoOwner | BuiltinOwner | Mcp(server: Server) | OtherOwner(id: nat)
  datatype Plugin = NoPlugin | BuiltinPlugin | McpPlugin | OtherPlugin(id: nat)
  datatype Provenance = Unset | Builtin | FromPlugin | External | OtherProvenance(id: nat)

  datatype Info = Info(owner: Owner, plugin: Plugin, generation: Word, provenance: Provenance)

  /** `compiles` is what compiling the tool's schemas yields, each time it is tried. */
  datatype Tool = Tool(name: Name, definition: nat, compiles: bool)

  datatype Entry = Entry(tool: Tool, info: Info)

  datatype Reg = Reg(entries: map<Name, Entry>, next: Word, allowed: seq<Name>)

  function Normalized(info: Info): Info {
    if info.provenance != Unset then info
    else if info.plugin == BuiltinPlugin then info.(provenance := Builtin)
    else if info.plugin != NoPlugin then info.(provenance := FromPlugin)
    else if info.owner != NoOwner then info.(provenance := External)
    else info.(owner := BuiltinOwner, plugin := BuiltinPlugin, provenance := Builtin)
  }

  /**
   What a registration says about its origin: what the caller said; or else that of the
   plugin, or of the owner; and the built-in one where the caller said nothing.
   */
  lemma NormalizedOrigin(info: Info)
    ensures var n := Normalized(info);
      && n.provenance != Unset && n.generation == info.generation && Normalized(n) == n
      && (info.provenance != Unset ==> n == info)
      && (info.plugin != NoPlugin || info.owner != NoOwner ==> n.owner == info.owner && n.plugin == info.plugin)
      && (info.provenance == Unset ==>
            && (n.provenance == Builtin <==> n.plugin == BuiltinPlugin)
            && (n.provenance == FromPlugin <==> info.plugin != NoPlugin && info.plugin != BuiltinPlugin)
            && (n.provenance == External <==> info.plugin == NoPlugin && info.owner != NoOwner)
            && (n.owner == NoOwner ==> info.plugin != NoPlugin))
  {}

  function Successor(n: Word): Word { (n + 1) % WORD }

  predicate CanRegister(reg: Reg, tool: Tool) {
    tool.compiles && tool.name !in reg.entries
  }

  function Registered(reg: Reg, tool: Tool, info: Info): Reg {
    var generation := if info.generation == 0 then Successor(reg.next) else info.generation;
    reg.(entries := reg.entries[tool.name := Entry(tool, Normalized(info.(generation := generation)))],
         next := if info.generation == 0 || info.generation > reg.next then generation else reg.next)
  }

  predicate SameHolder(entry: Entry, info: Info) {
    entry.info.plugin == info.plugin && entry.info.owner == info.owner
  }

  predicate CanReplace(reg: Reg, tool: Tool, info: Info) {
    tool.compiles && tool.name in reg.entries && SameHolder(reg.entries[tool.name], info)
    && info.generation > reg.entries[tool.name].info.generation
  }

  function Replaced(reg: Reg, tool: Tool, info: Info): Reg {
    reg.(entries := reg.entries[tool.name := Entry(tool, Normalized(info))],
         next := if info.generation > reg.next then info.generation else reg.next)
  }

  function Restored(reg: Reg, entry: Entry): Reg {
    var name := entry.tool.name;
    if entry.tool.compiles && name in reg.entries && SameHolder(reg.entries[name], entry.info)
    then reg.(entries := reg.entries[name := Entry(entry.tool, Normalized(entry.info))])
    else reg
  }

  function Unregistered(reg: Reg, name: Name): Reg {
    reg.(entries := reg.entries - {name})
  }

  function Allowed(reg: Reg, name: Name): Reg {
    if name in reg.allowed then reg else reg.(allowed := reg.allowed + [name])
  }

  /** What every registration establishes. */
  predicate Proper(name: Name, entry: Entry) {
    entry.tool.name == name && entry.tool.compiles && entry.info == Normalized(entry.info)
  }

  ghost predicate Wellformed(reg: Reg) {
    forall n | n in reg.entries :: Proper(n, reg.entries[n])
  }

  class Registry {
    var entries: map<Name, Entry>
    var next: Word
    var allowed: seq<Name>

    ghost function View(): Reg
      reads this
    {
      Reg(entries, next, allowed)
    }

    constructor (allowed: seq<Name>)
      ensures View() == Reg(map[], 0, allowed)
    {
      entries, next, this.allowed := map[], 0, allowed;
    }

    method RegisterWithInfo(tool: Tool, info: Info) returns (ok: bool)
      modifies this
      ensures ok == old(CanRegister(View(), tool))
      ensures View() == if ok then old(Registered(View(), tool, info)) else old(View())
      ensures ok <==> tool.compiles && tool.name !in old(entries)
      ensures ok ==>
        && tool.name in entries && entries - {tool.name} == old(entries) && entries[tool.name].tool == tool
        && entries[tool.name].info.generation == (if info.generation != 0 then info.generation else (old(next) + 1) % WORD)
    {
      if !tool.compiles { return false; }
      if tool.name in entries { return false; }
      var generation := info.generation;
      if generation == 0 {
        next := if next == 0xFFFF_FFFF_FFFF_FFFF then 0 else next + 1;
        generation := next;
      } else if generation > next {
        next := generation;
      }
      entries := entries[tool.name := Entry(tool, Normalized(info.(generation := generation)))];
      ok := true;
    }

    method ReplaceWithInfo(tool: Tool, info: Info) returns (ok: bool)
      modifies this
      ensures ok == old(CanReplace(View(), tool, info))
      ensures View() == if ok then old(Replaced(View(), tool, info)) else old(View())
      ensures ok <==>
        && tool.compiles && tool.name in old(entries) && info.generation > old(entries)[tool.name].info.generation
        && old(entries)[tool.name].info.plugin == info.plugin && old(entries)[tool.name].info.owner == info.owner
      ensures ok ==>
        && tool.name in entries && entries - {tool.name} == old(entries) - {tool.name}
        && entries[tool.name].tool == tool && entries[tool.name].info.generation == info.generation
    {
      if !tool.compiles || tool.name !in entries { return false; }
      var was := entries[tool.name].info;
      if was.plugin != info.plugin || was.owner != info.owner { return false; }
      if info.generation <= was.generation { return false; }
      if info.generation > next { next := info.generation; }
      entries := entries[tool.name := Entry(tool, Normalized(info))];
      ok := true;
    }

    method RestoreWithInfo(tool: Tool, info: Info)
      modifies this
      ensures View() == old(Restored(View(), Entry(tool, info)))
      ensures if tool.compiles && tool.name in old(entries) && SameHolder(old(entries)[tool.name], info) then
          && tool.name in entries && entries - {tool.name} == old(entries) - {tool.name}
          && entries[tool.name].tool == tool && entries[tool.name].info.generation == info.generation
        else View() == old(View())
    {
      if !tool.compiles || tool.name !in entries { return; }
      var was := entries[tool.name].info;
      if was.plugin != info.plugin || was.owner != info.owner { return; }
      entries := entries[tool.name := Entry(tool, Normalized(info))];
    }

    method Unregister(name: Name)
      modifies this
      ensures View() == old(Unregistered(View(), name))
    {
      entries := entries - {name};
    }

    method Allow(name: Name)
      modifies this
      ensures View() == old(Allowed(View(), name))
      ensures allowed == if name in old(allowed) then old(allowed) else old(allowed) + [name]
    {
      if name !in allowed { allowed := allowed + [name]; }
    }
  }

  // ---------- Publishing a generation ----------

  function NamesOf(tools: seq<Tool>): (names: seq<Name>)
    ensures |names| == |tools|
  {
    seq(|tools|, i requires 0 <= i < |tools| => tools[i].name)
  }

  predicate Distinct(tools: seq<Tool>) {
    forall i, j | 0 <= i < j < |tools| :: tools[i].name != tools[j].name
  }

  function RegistrationOf(server: Server, generation: Word): Info {
    Info(Mcp(server), McpPlugin, generation, Unset)
  }

  /** The registrations behind the published names, and the highest generation among them. */
  function Captured(reg: Reg, names: seq<Name>): map<Name, Entry> {
    if names == [] then map[]
    else
      var before, name := Captured(reg, names[..|names| - 1]), names[|names| - 1];
      if name in reg.entries then before[name := reg.entries[name]] else before
  }

  function MaxGeneration(reg: Reg, names: seq<Name>): Word {
    if names == [] then 0
    else
      var before, name := MaxGeneration(reg, names[..|names| - 1]), names[|names| - 1];
      if name in reg.entries && reg.entries[name].info.generation > before
      then reg.entries[name].info.generation
      else before
  }

  lemma {:induction false} CapturedAt(reg: Reg, names: seq<Name>, n: Name)
    ensures var c := Captured(reg, names);
      if n in names && n in reg.entries
      then n in c && c[n] == reg.entries[n] && reg.entries[n].info.generation <= MaxGeneration(reg, names)
      else n !in c
  {
    if names != [] {
      CapturedAt(reg, names[..|names| - 1], n);
      assert names == names[..|names| - 1] + [names[|names| - 1]];
    }
  }

  datatype Progress = Progress(reg: Reg, registered: seq<Name>, replaced: seq<Name>, ok: bool)

  function Publish(p: Progress, tool: Tool, captured: map<Name, Entry>, info: Info): Progress {
    if !p.ok then p
    else if tool.name in captured then
      if CanReplace(p.reg, tool, info)
      then p.(reg := Replaced(p.reg, tool, info), replaced := p.replaced + [tool.name])
      else p.(ok := false)
    else if CanRegister(p.reg, tool)
    then p.(reg := Registered(p.reg, tool, info), registered := p.registered + [tool.name])
    else p.(ok := false)
  }

  function PublishAll(reg: Reg, tools: seq<Tool>, captured: map<Name, Entry>, info: Info): Progress {
    if tools == [] then Progress(reg, [], [], true)
    else Publish(PublishAll(reg, tools[..|tools| - 1], captured, info), tools[|tools| - 1], captured, info)
  }

  function UnregisterAll(reg: Reg, names: seq<Name>): Reg {
    if names == [] then reg
    else Unregistered(UnregisterAll(reg, names[..|names| - 1]), names[|names| - 1])
  }

  function RestoreAll(reg: Reg, names: seq<Name>, captured: map<Name, Entry>): Reg {
    if names == [] then reg
    else
      var before, name := RestoreAll(reg, names[..|names| - 1], captured), names[|names| - 1];
      if name in captured then Restored(before, captured[name]) else before
  }

  function AllowAll(reg: Reg, names: seq<Name>): Reg {
    if names == [] then reg
    else Allowed(AllowAll(reg, names[..|names| - 1]), names[|names| - 1])
  }

  function Stale(names: seq<Name>, kept: seq<Name>): seq<Name> {
    if names == [] then []
    else Stale(names[..|names| - 1], kept) + if names[|names| - 1] in kept then [] else [names[|names| - 1]]
  }

  predicate SameAt(a: Reg, b: Reg, n: Name) {
    if n in b.entries then n in a.entries && a.entries[n] == b.entries[n] else n !in a.entries
  }

  /** A captured map holds current entries. */
  ghost predicate CapturedFrom(captured: map<Name, Entry>, reg: Reg) {
    forall n | n in captured :: n in reg.entries && captured[n] == reg.entries[n]
  }

  /** What publishing has done to one name so far. */
  predicate NameRight(p: Progress, reg: Reg, captured: map<Name, Entry>, info: Info, n: Name) {
    if n in p.replaced then
      && n !in p.registered && n in captured && n in p.reg.entries
      && Proper(n, p.reg.entries[n]) && SameHolder(p.reg.entries[n], captured[n].info)
      && p.reg.entries[n].info == Normalized(info) && info.generation > captured[n].info.generation
    else if n in p.registered then
      && n !in captured && n !in reg.entries && n in p.reg.entries && Proper(n, p.reg.entries[n])
      && SameHolder(p.reg.entries[n], info) && (info.generation != 0 ==> p.reg.entries[n].info == Normalized(info))
    else SameAt(p.reg, reg, n)
  }

  ghost predicate PublishedRight(p: Progress, reg: Reg, captured: map<Name, Entry>, info: Info) {
    p.reg.allowed == reg.allowed && forall n :: NameRight(p, reg, captured, info, n)
  }

  lemma PublishStep(p: Progress, reg: Reg, tool: Tool, captured: map<Name, Entry>, info: Info)
    requires PublishedRight(p, reg, captured, info) && CapturedFrom(captured, reg) && info.owner.Mcp?
    requires tool.name !in p.registered && tool.name !in p.replaced && info.plugin == McpPlugin
    ensures PublishedRight(Publish(p, tool, captured, info), reg, captured, info)
  {
    var q := Publish(p, tool, captured, info);
    assert NameRight(p, reg, captured, info, tool.name);
    forall n ensures NameRight(q, reg, captured, info, n) {
      assert NameRight(p, reg, captured, info, n);
    }
  }

  predicate Carries(p: Progress, tool: Tool) {
    && (tool.name in p.registered || tool.name in p.replaced)
    && tool.name in p.reg.entries && p.reg.entries[tool.name].tool == tool
  }

  lemma PublishCarries(p: Progress, tool: Tool, captured: map<Name, Entry>, info: Info, other: Tool)
    requires p.ok && Publish(p, tool, captured, info).ok
    requires other == tool || (other.name != tool.name && Carries(p, other))
    ensures Carries(Publish(p, tool, captured, info), other)
  {}

  /** The published names, split into fresh and replaced ones; stops at the first failure. */
  lemma {:induction false} PublishedSoFar(reg: Reg, tools: seq<Tool>, captured: map<Name, Entry>, info: Info)
    requires CapturedFrom(captured, reg) && info.owner.Mcp? && info.plugin == McpPlugin && Distinct(tools)
    ensures var p := PublishAll(reg, tools, captured, info);
      && PublishedRight(p, reg, captured, info)
      && (forall n | n in p.registered || n in p.replaced :: n in NamesOf(tools))
      && (p.ok ==> forall i | 0 <= i < |tools| :: Carries(p, tools[i]))
  {
    if tools != [] {
      var before, last := tools[..|tools| - 1], tools[|tools| - 1];
      assert NamesOf(tools) == NamesOf(before) + [last.name];
      assert Distinct(before);
      PublishedSoFar(reg, before, captured, info);
      var p := PublishAll(reg, before, captured, info);
      forall i | 0 <= i < |before| ensures NamesOf(before)[i] != last.name {
        assert before[i] == tools[i];
      }
      PublishStep(p, reg, last, captured, info);
      if PublishAll(reg, tools, captured, info).ok {
        forall i | 0 <= i < |tools| ensures Carries(PublishAll(reg, tools, captured, info), tools[i]) {
          if i < |before| { assert before[i] == tools[i]; }
          PublishCarries(p, last, captured, info, tools[i]);
        }
      }
    } else {
      assert forall n :: NameRight(PublishAll(reg, tools, captured, info), reg, captured, info, n);
    }
  }

  lemma {:induction false} UnregisteredAt(reg: Reg, names: seq<Name>, n: Name)
    ensures var r := UnregisterAll(reg, names);
      && r.next == reg.next && r.allowed == reg.allowed
      && if n in names then n !in r.entries else SameAt(r, reg, n)
  {
    if names != [] {
      UnregisteredAt(reg, names[..|names| - 1], n);
      assert names == names[..|names| - 1] + [names[|names| - 1]];
    }
  }

  /** Restoring works for entries that still have their holder, whatever generation replaced them. */
  lemma {:induction false} RestoredAt(reg: Reg, names: seq<Name>, captured: map<Name, Entry>, n: Name)
    requires forall m | m in names :: m in captured && Proper(m, captured[m])
    requires forall m | m in names :: m in reg.entries && SameHolder(reg.entries[m], captured[m].info)
    ensures var r := RestoreAll(reg, names, captured);
      && r.next == reg.next && r.allowed == reg.allowed
      && if n in names then n in r.entries && r.entries[n] == captured[n] else SameAt(r, reg, n)
  {
    if names != [] {
      var before, last := names[..|names| - 1], names[|names| - 1];
      assert names == before + [last];
      RestoredAt(reg, before, captured, n);
      RestoredAt(reg, before, captured, last);
    }
  }

  function RolledBack(p: Progress, captured: map<Name, Entry>): Reg {
    RestoreAll(UnregisterAll(p.reg, p.registered), p.replaced, captured)
  }

  /** Rolling back leaves exactly the registrations there were. */
  lemma RollbackRestores(p: Progress, reg: Reg, captured: map<Name, Entry>, info: Info)
    requires PublishedRight(p, reg, captured, info) && CapturedFrom(captured, reg) && Wellformed(reg)
    ensures RolledBack(p, captured) == reg.(next := p.reg.next)
  {
    var mid, r := UnregisterAll(p.reg, p.registered), RolledBack(p, captured);
    forall m | m in p.replaced
      ensures m in captured && Proper(m, captured[m]) && m in mid.entries && SameHolder(mid.entries[m], captured[m].info)
    {
      assert NameRight(p, reg, captured, info, m);
      UnregisteredAt(p.reg, p.registered, m);
    }
    forall n ensures SameAt(r, reg, n) {
      assert NameRight(p, reg, captured, info, n);
      UnregisteredAt(p.reg, p.registered, n);
      RestoredAt(mid, p.replaced, captured, n);
    }
    forall n ensures n in r.entries <==> n in reg.entries { assert SameAt(r, reg, n); }
    forall n | n in reg.entries ensures r.entries[n] == reg.entries[n] { assert SameAt(r, reg, n); }
    assert r.entries == reg.entries;
    UnregisteredAt(p.reg, p.registered, 0);
    RestoredAt(mid, p.replaced, captured, 0);
  }

  // ---------- The published names of each server ----------

  datatype World = World(reg: Reg, names: map<Server, seq<Name>>)

  function Listed(w: World, server: Server): seq<Name> {
    if server in w.names then w.names[server] else []
  }

  function NextGeneration(max: Word): Word {
    if max > 0 then Successor(max) else 0
  }

  /** The world after a refresh, and whether it succeeded; `listed` is whether the server answered. */
  function Resynced(w: World, server: Server, tools: seq<Tool>, listed: bool): (World, bool) {
    if !listed || !Distinct(tools) then (w, false)
    else
      var listedNames := Listed(w, server);
      var captured := Captured(w.reg, listedNames);
      var p := PublishAll(w.reg, tools, captured, RegistrationOf(server, NextGeneration(MaxGeneration(w.reg, listedNames))));
      if !p.ok then (w.(reg := RolledBack(p, captured)), false)
      else
        var names := NamesOf(tools);
        (World(AllowAll(UnregisterAll(p.reg, Stale(listedNames, names)), names), w.names[server := names]), true)
  }

  function Removed(w: World, server: Server): World {
    World(UnregisterAll(w.reg, Listed(w, server)), w.names[server := []])
  }

  function WithTool(w: World, server: Server, tool: Tool): World {
    World(Allowed(Registered(w.reg, tool, RegistrationOf(server, 0)), tool.name),
          w.names[server := Listed(w, server) + [tool.name]])
  }

  datatype Startup = Startup(world: World, published: seq<Name>, ok: bool)

  /** The start-up publication: a name is allowed and listed as soon as it is registered. */
  function Bridging(w: World, server: Server, tools: seq<Tool>): Startup {
    if tools == [] then Startup(w, [], true)
    else
      var b, tool := Bridging(w, server, tools[..|tools| - 1]), tools[|tools| - 1];
      if !b.ok || !CanRegister(b.world.reg, tool) then b.(ok := false)
      else Startup(WithTool(b.world, server, tool), b.published + [tool.name], true)
  }

  function Bridged(w: World, server: Server, tools: seq<Tool>): (World, bool) {
    if !Distinct(tools) then (w, false)
    else
      var b := Bridging(w, server, tools);
      if b.ok then (b.world, true)
      else (World(UnregisterAll(b.world.reg, b.published), b.world.names - {server}), false)
  }

  lemma {:induction false} FailureIsFinal(reg: Reg, tools: seq<Tool>, captured: map<Name, Entry>, info: Info, i: nat)
    requires i <= |tools| && !PublishAll(reg, tools[..i], captured, info).ok
    ensures PublishAll(reg, tools, captured, info) == PublishAll(reg, tools[..i], captured, info)
  {
    if i < |tools| {
      assert tools[..|tools| - 1][..i] == tools[..i];
      FailureIsFinal(reg, tools[..|tools| - 1], captured, info, i);
    } else {
      assert tools[..i] == tools;
    }
  }

  class McpBridge {
    const registry: Registry
    var toolNames: map<Server, seq<Name>>

    ghost function View(): World
      reads this, registry
    {
      World(registry.View(), toolNames)
    }

    constructor (registry: Registry)
      ensures this.registry == registry && toolNames == map[]
    {
      this.registry, toolNames := registry, map[];
    }

    method Collides(tools: seq<Tool>) returns (yes: bool)
      ensures yes <==> !Distinct(tools)
    {
      var seen: set<Name> := {};
      for i := 0 to |tools|
        invariant Distinct(tools[..i]) && seen == set j | 0 <= j < i :: tools[j].name
      {
        if tools[i].name in seen { return true; }
        seen := seen + {tools[i].name};
      }
      assert tools[..|tools|] == tools;
      yes := false;
    }

    method Rollback(registered: seq<Name>, replaced: seq<Name>, captured: map<Name, Entry>)
      modifies registry
      ensures registry.View() == old(RestoreAll(UnregisterAll(registry.View(), registered), replaced, captured))
    {
      ghost var was := registry.View();
      for i := 0 to |registered|
        invariant registry.View() == UnregisterAll(was, registered[..i])
      {
        assert registered[..i + 1][..i] == registered[..i];
        registry.Unregister(registered[i]);
      }
      assert registered[..|registered|] == registered;
      ghost var mid := registry.View();
      for i := 0 to |replaced|
        invariant registry.View() == RestoreAll(mid, replaced[..i], captured)
      {
        assert replaced[..i + 1][..i] == replaced[..i];
        if replaced[i] in captured {
          registry.RestoreWithInfo(captured[replaced[i]].tool, captured[replaced[i]].info);
        }
      }
      assert replaced[..|replaced|] == replaced;
    }

    /** Reads the registrations behind the published names. */
    method Capture(names: seq<Name>) returns (captured: map<Name, Entry>, max: Word)
      ensures captured == Captured(registry.View(), names) && max == MaxGeneration(registry.View(), names)
    {
      captured, max := map[], 0;
      for i := 0 to |names|
        invariant captured == Captured(registry.View(), names[..i]) && max == MaxGeneration(registry.View(), names[..i])
      {
        assert names[..i + 1][..i] == names[..i];
        var name := names[i];
        if name in registry.entries {
          captured := captured[name := registry.entries[name]];
          if registry.entries[name].info.generation > max { max := registry.entries[name].info.generation; }
        }
      }
      assert names[..|names|] == names;
    }

    method PublishOne(tool: Tool, captured: map<Name, Entry>, info: Info, registered: seq<Name>, replaced: seq<Name>)
        returns (fine: bool, nowRegistered: seq<Name>, nowReplaced: seq<Name>)
      modifies registry
      ensures Progress(registry.View(), nowRegistered, nowReplaced, fine) ==
        old(Publish(Progress(registry.View(), registered, replaced, true), tool, captured, info))
    {
      nowRegistered, nowReplaced := registered, replaced;
      if tool.name in captured {
        fine := registry.ReplaceWithInfo(tool, info);
        if fine { nowReplaced := replaced + [tool.name]; }
      } else {
        fine := registry.RegisterWithInfo(tool, info);
        if fine { nowRegistered := registered + [tool.name]; }
      }
    }

    /** Publishes the tools one by one, up to the first failure. */
    method PublishEach(tools: seq<Tool>, captured: map<Name, Entry>, info: Info)
        returns (ok: bool, registered: seq<Name>, replaced: seq<Name>)
      modifies registry
      ensures Progress(registry.View(), registered, replaced, ok) == old(PublishAll(registry.View(), tools, captured, info))
    {
      ghost var was := registry.View();
      ok, registered, replaced := true, [], [];
      for i := 0 to |tools|
        invariant ok && Progress(registry.View(), registered, replaced, ok) == PublishAll(was, tools[..i], captured, info)
      {
        assert tools[..i + 1][..i] == tools[..i];
        ok, registered, replaced := PublishOne(tools[i], captured, info, registered, replaced);
        if !ok {
          FailureIsFinal(was, tools, captured, info, i + 1);
          return;
        }
      }
      assert tools[..|tools|] == tools;
    }

    method Resync(server: Server, tools: seq<Tool>, listed: bool) returns (ok: bool)
      modifies this, registry
      ensures (View(), ok) == old(Resynced(View(), server, tools, listed))
    {
      if !listed { return false; }
      var collision := Collides(tools);
      if collision { return false; }
      var oldNames := if server in toolNames then toolNames[server] else [];
      var captured, max := Capture(oldNames);
      var info := RegistrationOf(server, 0);
      if max > 0 && Successor(max) > 0 { info := info.(generation := Successor(max)); }
      assert info == RegistrationOf(server, NextGeneration(max));
      var registered, replaced;
      ok, registered, replaced := PublishEach(tools, captured, info);
      if !ok {
        Rollback(registered, replaced, captured);
        return;
      }
      var newNames := NamesOf(tools);
      Withdraw(oldNames, newNames);
      AllowEach(newNames);
      toolNames := toolNames[server := newNames];
    }

    /** Withdraws the old names that are no longer published. */
    method Withdraw(names: seq<Name>, kept: seq<Name>)
      modifies registry
      ensures registry.View() == old(UnregisterAll(registry.View(), Stale(names, kept)))
    {
      ghost var was := registry.View();
      for i := 0 to |names|
        invariant registry.View() == UnregisterAll(was, Stale(names[..i], kept))
      {
        assert names[..i + 1][..i] == names[..i];
        if names[i] !in kept {
          registry.Unregister(names[i]);
          assert (Stale(names[..i], kept) + [names[i]])[..|Stale(names[..i], kept)|] == Stale(names[..i], kept);
        } else {
          assert Stale(names[..i], kept) + [] == Stale(names[..i], kept);
        }
      }
      assert names[..|names|] == names;
    }

    method AllowEach(names: seq<Name>)
      modifies registry
      ensures registry.View() == old(AllowAll(registry.View(), names))
    {
      ghost var was := registry.View();
      for i := 0 to |names|
        invariant registry.View() == AllowAll(was, names[..i])
      {
        assert names[..i + 1][..i] == names[..i];
        registry.Allow(names[i]);
      }
      assert names[..|names|] == names;
    }

    method RemoveTools(server: Server)
      modifies this, registry
      ensures View() == old(Removed(View(), server))
    {
      ghost var was := registry.View();
      var names := if server in toolNames then toolNames[server] else [];
      for i := 0 to |names|
        invariant toolNames == old(toolNames) && registry.View() == UnregisterAll(was, names[..i])
      {
        assert names[..i + 1][..i] == names[..i];
        registry.Unregister(names[i]);
      }
      assert names[..|names|] == names;
      toolNames := toolNames[server := []];
    }

    /** Registers, allows and lists one tool. */
    method BridgeOne(server: Server, tool: Tool) returns (fine: bool)
      modifies this, registry
      ensures fine == old(CanRegister(registry.View(), tool))
      ensures View() == if fine then old(WithTool(View(), server, tool)) else old(View())
    {
      fine := registry.RegisterWithInfo(tool, RegistrationOf(server, 0));
      if fine {
        registry.Allow(tool.name);
        toolNames := toolNames[server := (if server in toolNames then toolNames[server] else []) + [tool.name]];
      }
    }

    /** The start-up publication of a server's first generation. */
    method Bridge(server: Server, tools: seq<Tool>) returns (ok: bool)
      modifies this, registry
      ensures (View(), ok) == old(Bridged(View(), server, tools))
    {
      var collision := Collides(tools);
      if collision { return false; }
      ghost var was := View();
      var published := [];
      for i := 0 to |tools|
        invariant Startup(View(), published, true) == Bridging(was, server, tools[..i])
      {
        assert tools[..i + 1][..i] == tools[..i];
        ok := BridgeOne(server, tools[i]);
        if !ok {
          BridgeFailureIsFinal(was, server, tools, i + 1);
          Rollback(published, [], map[]);
          toolNames := toolNames - {server};
          return;
        }
        published := published + [tools[i].name];
      }
      assert tools[..|tools|] == tools;
      ok := true;
    }
  }

  lemma {:induction false} BridgeFailureIsFinal(w: World, server: Server, tools: seq<Tool>, i: nat)
    requires i <= |tools| && !Bridging(w, server, tools[..i]).ok
    ensures Bridging(w, server, tools) == Bridging(w, server, tools[..i])
  {
    if i < |tools| {
      assert tools[..|tools| - 1][..i] == tools[..i];
      BridgeFailureIsFinal(w, server, tools[..|tools| - 1], i);
    } else {
      assert tools[..i] == tools;
    }
  }

  // ---------- A refresh is all or nothing ----------

  lemma CapturedIsCurrent(reg: Reg, names: seq<Name>)
    ensures CapturedFrom(Captured(reg, names), reg)
  {
    forall n | n in Captured(reg, names) ensures n in reg.entries && Captured(reg, names)[n] == reg.entries[n] {
      CapturedAt(reg, names, n);
    }
  }

  /** On any error every registration, the published names and the whitelist are as before. */
  lemma FailedResyncChangesNothing(w: World, server: Server, tools: seq<Tool>, listed: bool)
    requires Wellformed(w.reg) && !Resynced(w, server, tools, listed).1
    ensures var after := Resynced(w, server, tools, listed).0; after == w.(reg := w.reg.(next := after.reg.next))
  {
    if listed && Distinct(tools) {
      var names := Listed(w, server);
      var captured, info := Captured(w.reg, names), RegistrationOf(server, NextGeneration(MaxGeneration(w.reg, names)));
      CapturedIsCurrent(w.reg, names);
      PublishedSoFar(w.reg, tools, captured, info);
      RollbackRestores(PublishAll(w.reg, tools, captured, info), w.reg, captured, info);
    }
  }

  /** Whether the registry takes this tool of the new generation. */
  predicate Publishable(w: World, server: Server, tool: Tool) {
    tool.compiles &&
    if tool.name in Listed(w, server) && tool.name in w.reg.entries then
      var max := MaxGeneration(w.reg, Listed(w, server));
      SameHolder(w.reg.entries[tool.name], RegistrationOf(server, 0)) && 0 < max < WORD - 1
    else tool.name !in w.reg.entries
  }

  predicate AllPublishable(w: World, server: Server, tools: seq<Tool>) {
    forall i | 0 <= i < |tools| :: Publishable(w, server, tools[i])
  }

  lemma AllPublishableSplits(w: World, server: Server, tools: seq<Tool>)
    requires tools != []
    ensures var before, last := tools[..|tools| - 1], tools[|tools| - 1];
      AllPublishable(w, server, tools) <==> AllPublishable(w, server, before) && Publishable(w, server, last)
  {
    assert forall i | 0 <= i < |tools| - 1 :: tools[..|tools| - 1][i] == tools[i];
  }

  lemma LastNameIsNew(tools: seq<Tool>)
    requires tools != [] && Distinct(tools)
    ensures Distinct(tools[..|tools| - 1]) && tools[|tools| - 1].name !in NamesOf(tools[..|tools| - 1])
  {
    var before := tools[..|tools| - 1];
    forall i | 0 <= i < |before| ensures NamesOf(before)[i] != tools[|tools| - 1].name {
      assert before[i] == tools[i];
    }
  }

  /** A tool is taken where nothing was published under its name yet. */
  lemma PublishSucceeds(w: World, server: Server, p: Progress, tool: Tool)
    requires p.ok && SameAt(p.reg, w.reg, tool.name)
    ensures var names := Listed(w, server);
      Publish(p, tool, Captured(w.reg, names), RegistrationOf(server, NextGeneration(MaxGeneration(w.reg, names)))).ok
      <==> Publishable(w, server, tool)
  {
    CapturedAt(w.reg, Listed(w, server), tool.name);
  }

  lemma {:induction false} PublishAllSucceeds(w: World, server: Server, tools: seq<Tool>)
    requires Distinct(tools)
    ensures var names := Listed(w, server);
      PublishAll(w.reg, tools, Captured(w.reg, names), RegistrationOf(server, NextGeneration(MaxGeneration(w.reg, names)))).ok
      <==> AllPublishable(w, server, tools)
  {
    if tools != [] {
      var names, before, last := Listed(w, server), tools[..|tools| - 1], tools[|tools| - 1];
      var captured, info := Captured(w.reg, names), RegistrationOf(server, NextGeneration(MaxGeneration(w.reg, names)));
      LastNameIsNew(tools);
      AllPublishableSplits(w, server, tools);
      PublishAllSucceeds(w, server, before);
      CapturedIsCurrent(w.reg, names);
      UnpublishedName(w.reg, before, captured, info, last.name);
      var p := PublishAll(w.reg, before, captured, info);
      if p.ok { PublishSucceeds(w, server, p, last); }
    }
  }

  /** When a refresh succeeds: the server answers without a collision, and the registry takes every tool. */
  lemma ResyncSucceedsExactlyWhen(w: World, server: Server, tools: seq<Tool>, listed: bool)
    ensures Resynced(w, server, tools, listed).1 <==> listed && Distinct(tools) && AllPublishable(w, server, tools)
  {
    if listed && Distinct(tools) { PublishAllSucceeds(w, server, tools); }
  }

  lemma {:induction false} AllowedAt(reg: Reg, names: seq<Name>, n: Name)
    ensures var r := AllowAll(reg, names);
      r.entries == reg.entries && r.next == reg.next && (n in r.allowed <==> n in reg.allowed || n in names)
  {
    if names != [] {
      AllowedAt(reg, names[..|names| - 1], n);
      assert names == names[..|names| - 1] + [names[|names| - 1]];
    }
  }

  lemma {:induction false} StaleAt(names: seq<Name>, kept: seq<Name>, n: Name)
    ensures n in Stale(names, kept) <==> n in names && n !in kept
  {
    if names != [] {
      StaleAt(names[..|names| - 1], kept, n);
      assert names == names[..|names| - 1] + [names[|names| - 1]];
    }
  }

  /** What a successful refresh leaves at one name. */
  predicate RefreshedAt(w: World, server: Server, tools: seq<Tool>, after: World, n: Name) {
    var names := Listed(w, server);
    && (n in after.reg.allowed <==> n in w.reg.allowed || n in NamesOf(tools))
    && (n in NamesOf(tools) ==>
          && n in after.reg.entries && Proper(n, after.reg.entries[n]) && after.reg.entries[n].tool in tools
          && SameHolder(after.reg.entries[n], RegistrationOf(server, 0))
          && (n in names && n in w.reg.entries ==>
                after.reg.entries[n].info.generation > MaxGeneration(w.reg, names)))
    && (n in names && n !in NamesOf(tools) ==> n !in after.reg.entries)
    && (n !in names && n !in NamesOf(tools) ==> SameAt(after.reg, w.reg, n))
  }

  /** What publishing alone leaves at an advertised name. */
  lemma PublishedName(reg: Reg, tools: seq<Tool>, captured: map<Name, Entry>, info: Info, n: Name)
    requires CapturedFrom(captured, reg) && info.owner.Mcp? && info.plugin == McpPlugin && Distinct(tools)
    requires PublishAll(reg, tools, captured, info).ok && n in NamesOf(tools)
    ensures var entries := PublishAll(reg, tools, captured, info).reg.entries;
      && n in entries && Proper(n, entries[n]) && entries[n].tool in tools && SameHolder(entries[n], info)
      && (n in captured || info.generation != 0 ==> entries[n].info == Normalized(info))
  {
    PublishedSoFar(reg, tools, captured, info);
    var p := PublishAll(reg, tools, captured, info);
    var i :| 0 <= i < |tools| && NamesOf(tools)[i] == n;
    assert Carries(p, tools[i]) && NameRight(p, reg, captured, info, n);
  }

  /** And at any other. */
  lemma UnpublishedName(reg: Reg, tools: seq<Tool>, captured: map<Name, Entry>, info: Info, n: Name)
    requires CapturedFrom(captured, reg) && info.owner.Mcp? && info.plugin == McpPlugin && Distinct(tools)
    requires n !in NamesOf(tools)
    ensures SameAt(PublishAll(reg, tools, captured, info).reg, reg, n)
  {
    PublishedSoFar(reg, tools, captured, info);
    assert NameRight(PublishAll(reg, tools, captured, info), reg, captured, info, n);
  }

  /** Publishing leaves the whitelist alone. */
  lemma PublishedAllows(reg: Reg, tools: seq<Tool>, captured: map<Name, Entry>, info: Info)
    requires CapturedFrom(captured, reg) && info.owner.Mcp? && info.plugin == McpPlugin && Distinct(tools)
    ensures PublishAll(reg, tools, captured, info).reg.allowed == reg.allowed
  {
    PublishedSoFar(reg, tools, captured, info);
  }

  /** Withdrawing the stale names and allowing the new ones leaves the advertised entries alone. */
  lemma FinishedAt(reg: Reg, before: seq<Name>, names: seq<Name>, n: Name)
    ensures var r := AllowAll(UnregisterAll(reg, Stale(before, names)), names);
      && (n in r.allowed <==> n in reg.allowed || n in names)
      && if n in before && n !in names then n !in r.entries else SameAt(r, reg, n)
  {
    StaleAt(before, names, n);
    UnregisteredAt(reg, Stale(before, names), n);
    AllowedAt(UnregisterAll(reg, Stale(before, names)), names, n);
  }

  /**
   A successful refresh publishes exactly the advertised names, each with its new tool;
   replaced registrations advance past every old generation; stale names are gone, and names
   that are neither old nor new are untouched.
   */
  lemma SuccessfulResync(w: World, server: Server, tools: seq<Tool>, n: Name)
    requires Resynced(w, server, tools, true).1
    ensures RefreshedAt(w, server, tools, Resynced(w, server, tools, true).0, n)
    ensures Resynced(w, server, tools, true).0.names == w.names[server := NamesOf(tools)]
  {
    var names := Listed(w, server);
    var captured, info := Captured(w.reg, names), RegistrationOf(server, NextGeneration(MaxGeneration(w.reg, names)));
    CapturedIsCurrent(w.reg, names);
    PublishedAllows(w.reg, tools, captured, info);
    FinishedAt(PublishAll(w.reg, tools, captured, info).reg, names, NamesOf(tools), n);
    if n in NamesOf(tools) {
      PublishedName(w.reg, tools, captured, info, n);
      CapturedAt(w.reg, names, n);
      if n in captured { ReplacedAdvances(w, server, tools, n); }
    } else {
      UnpublishedName(w.reg, tools, captured, info, n);
    }
  }

  lemma ReplacedAdvances(w: World, server: Server, tools: seq<Tool>, n: Name)
    requires Resynced(w, server, tools, true).1 && n in NamesOf(tools) && n in Listed(w, server) && n in w.reg.entries
    ensures NextGeneration(MaxGeneration(w.reg, Listed(w, server))) > MaxGeneration(w.reg, Listed(w, server))
  {
    PublishAllSucceeds(w, server, tools);
    var i :| 0 <= i < |tools| && NamesOf(tools)[i] == n;
    assert Publishable(w, server, tools[i]);
  }

  /** What a successful refresh leaves at a name it publishes, told from the publication alone. */
  lemma RefreshedEntry(w: World, server: Server, tools: seq<Tool>, n: Name)
    requires Resynced(w, server, tools, true).1 && n in NamesOf(tools)
    ensures var names := Listed(w, server);
      var p := PublishAll(w.reg, tools, Captured(w.reg, names), RegistrationOf(server, NextGeneration(MaxGeneration(w.reg, names))));
      Distinct(tools) && p.ok && SameAt(Resynced(w, server, tools, true).0.reg, p.reg, n)
  {
    var names := Listed(w, server);
    var p := PublishAll(w.reg, tools, Captured(w.reg, names), RegistrationOf(server, NextGeneration(MaxGeneration(w.reg, names))));
    FinishedAt(p.reg, names, NamesOf(tools), n);
  }

  /** What a refresh publishes is one generation, if the server had published anything before. */
  lemma RefreshIsCoherent(w: World, server: Server, tools: seq<Tool>, n: Name)
    requires Resynced(w, server, tools, true).1 && n in NamesOf(tools)
    requires 0 < MaxGeneration(w.reg, Listed(w, server)) < WORD - 1
    ensures var after := Resynced(w, server, tools, true).0;
      n in after.reg.entries && after.reg.entries[n].info.generation == MaxGeneration(w.reg, Listed(w, server)) + 1
  {
    var names := Listed(w, server);
    CapturedIsCurrent(w.reg, names);
    RefreshedEntry(w, server, tools, n);
    PublishedName(w.reg, tools, Captured(w.reg, names), RegistrationOf(server, NextGeneration(MaxGeneration(w.reg, names))), n);
  }

  // ---------- Start-up publication ----------

  predicate StartedAt(w: World, server: Server, b: Startup, n: Name) {
    && (n in b.world.reg.allowed <==> n in w.reg.allowed || n in b.published)
    && if n in b.published then
         && n !in w.reg.entries && n in b.world.reg.entries && Proper(n, b.world.reg.entries[n])
         && SameHolder(b.world.reg.entries[n], RegistrationOf(server, 0))
       else SameAt(b.world.reg, w.reg, n)
  }

  lemma StartStep(w: World, server: Server, b: Startup, tool: Tool, n: Name)
    requires StartedAt(w, server, b, n) && StartedAt(w, server, b, tool.name) && CanRegister(b.world.reg, tool)
    ensures StartedAt(w, server, Startup(WithTool(b.world, server, tool), b.published + [tool.name], true), n)
  {}

  lemma {:induction false} StartedSoFar(w: World, server: Server, tools: seq<Tool>, n: Name)
    ensures StartedAt(w, server, Bridging(w, server, tools), n)
  {
    if tools != [] {
      var b, tool := Bridging(w, server, tools[..|tools| - 1]), tools[|tools| - 1];
      StartedSoFar(w, server, tools[..|tools| - 1], n);
      if b.ok && CanRegister(b.world.reg, tool) {
        StartedSoFar(w, server, tools[..|tools| - 1], tool.name);
        StartStep(w, server, b, tool, n);
      }
    }
  }

  lemma {:induction false} StartedLists(w: World, server: Server, tools: seq<Tool>)
    ensures var b := Bridging(w, server, tools);
      Listed(b.world, server) == Listed(w, server) + b.published && b.world.names - {server} == w.names - {server}
  {
    if tools != [] { StartedLists(w, server, tools[..|tools| - 1]); }
  }

  /** The position of the first tool that the registry would refuse; the length if it would refuse none. */
  function FirstRefused(reg: Reg, tools: seq<Tool>): (k: nat)
    ensures k <= |tools|
  {
    if tools == [] then 0
    else
      var k := FirstRefused(reg, tools[..|tools| - 1]);
      if k == |tools| - 1 && CanRegister(reg, tools[|tools| - 1]) then |tools| else k
  }

  lemma {:induction false} FirstRefusedIsFirst(reg: Reg, tools: seq<Tool>)
    ensures var k := FirstRefused(reg, tools);
      (forall i | 0 <= i < k :: CanRegister(reg, tools[i])) && (k < |tools| ==> !CanRegister(reg, tools[k]))
  {
    if tools != [] {
      FirstRefusedIsFirst(reg, tools[..|tools| - 1]);
      assert forall i | 0 <= i < |tools| - 1 :: tools[..|tools| - 1][i] == tools[i];
    }
  }

  /** Start-up publication gets through the tools in front of the first one that the registry refuses. */
  lemma {:induction false} StartedUpTo(w: World, server: Server, tools: seq<Tool>)
    requires Distinct(tools)
    ensures var b, k := Bridging(w, server, tools), FirstRefused(w.reg, tools);
      b.published == NamesOf(tools[..k]) && (b.ok <==> k == |tools|)
  {
    if tools != [] {
      var before, last := tools[..|tools| - 1], tools[|tools| - 1];
      LastNameIsNew(tools);
      StartedUpTo(w, server, before);
      StartedSoFar(w, server, before, last.name);
      var k := FirstRefused(w.reg, before);
      assert before[..k] == tools[..k];
      if k == |before| {
        assert before[..k] == before && tools[..|tools|] == tools;
        assert NamesOf(tools) == NamesOf(before) + [last.name];
      }
    }
  }

  /** Whether the registry would take every tool at start-up. */
  predicate Startable(reg: Reg, tools: seq<Tool>) {
    Distinct(tools) && forall i | 0 <= i < |tools| :: CanRegister(reg, tools[i])
  }

  /** When a start-up publication succeeds: no two names collide, and every tool compiles and is free. */
  lemma StartSucceedsExactlyWhen(w: World, server: Server, tools: seq<Tool>)
    ensures Bridged(w, server, tools).1 <==> Startable(w.reg, tools)
  {
    if Distinct(tools) {
      StartedUpTo(w, server, tools);
      FirstRefusedIsFirst(w.reg, tools);
    }
  }

  /** The names, and the whitelist as a set, are as before. */
  ghost predicate ListsUnchanged(after: World, w: World) {
    (forall s :: Listed(after, s) == Listed(w, s)) && (forall n :: n in after.reg.allowed <==> n in w.reg.allowed)
  }

  /**
   A start-up publication that fails part-way withdraws what it registered, but drops the
   server's whole list and keeps the names it got through on the whitelist: it is all or
   nothing exactly if the server had no names yet and all those names were allowed already.
   */
  lemma FailedStartup(w: World, server: Server, tools: seq<Tool>)
    requires Distinct(tools) && !Startable(w.reg, tools)
    ensures var after, got := Bridged(w, server, tools).0, NamesOf(tools[..FirstRefused(w.reg, tools)]);
      && after.reg.entries == w.reg.entries
      && Listed(after, server) == [] && after.names - {server} == w.names - {server}
      && (forall n :: n in after.reg.allowed <==> n in w.reg.allowed || n in got)
      && (ListsUnchanged(after, w) <==> Listed(w, server) == [] && forall n | n in got :: n in w.reg.allowed)
  {
    StartSucceedsExactlyWhen(w, server, tools);
    StartedUpTo(w, server, tools);
    var b, after := Bridging(w, server, tools), Bridged(w, server, tools).0;
    forall n ensures SameAt(after.reg, w.reg, n) && (n in after.reg.allowed <==> n in w.reg.allowed || n in b.published) {
      StartedSoFar(w, server, tools, n);
      UnregisteredAt(b.world.reg, b.published, n);
    }
    SameEntries(after.reg, w.reg);
    StartedLists(w, server, tools);
    OtherLists(w, after, server);
  }

  lemma SameEntries(a: Reg, b: Reg)
    requires forall n :: SameAt(a, b, n)
    ensures a.entries == b.entries
  {
    forall n ensures n in a.entries <==> n in b.entries { assert SameAt(a, b, n); }
    forall n | n in b.entries ensures a.entries[n] == b.entries[n] { assert SameAt(a, b, n); }
  }

  // ---------- Every run ----------

  datatype Step =
    | Refresh(server: Server, tools: seq<Tool>, listed: bool)
    | Remove(server: Server)                 // the reconnect supervisor gives up
    | Start(server: Server, tools: seq<Tool>)
    | Other(tool: Tool, info: Info)          // somebody else registers a tool of his own
    | Withdraw(name: Name)                   // and withdraws one

  function Do(w: World, step: Step): World {
    match step
    case Refresh(server, tools, listed) => Resynced(w, server, tools, listed).0
    case Remove(server) => Removed(w, server)
    case Start(server, tools) => Bridged(w, server, tools).0
    case Other(tool, info) =>
      if CanRegister(w.reg, tool) && !info.owner.Mcp? then w.(reg := Registered(w.reg, tool, info)) else w
    case Withdraw(name) =>
      if name in w.reg.entries && !w.reg.entries[name].info.owner.Mcp? then w.(reg := Unregistered(w.reg, name)) else w
  }

  function Run(allowed: seq<Name>, steps: seq<Step>): World {
    if steps == [] then World(Reg(map[], 0, allowed), map[])
    else Do(Run(allowed, steps[..|steps| - 1]), steps[|steps| - 1])
  }

  // ---------- Generations ----------

  /** No registration is ahead of the registry's counter. */
  ghost predicate Behind(reg: Reg) {
    forall n | n in reg.entries :: reg.entries[n].info.generation <= reg.next
  }

  /** The counter has this far to go before it wraps around. */
  predicate Room(reg: Reg, count: nat) {
    reg.next + count < WORD
  }

  /** A registration without a generation of its own gets one that exceeds every other. */
  lemma RegisteredIsFresh(reg: Reg, tool: Tool, info: Info)
    requires Behind(reg) && Room(reg, 1) && info.generation == 0
    ensures var r := Registered(reg, tool, info);
      && tool.name in r.entries && r.entries[tool.name].tool == tool
      && (forall n | n in reg.entries :: reg.entries[n].info.generation < r.entries[tool.name].info.generation)
      && r.next == reg.next + 1 && Behind(r)
  {}

  lemma PublishStaysBehind(p: Progress, tool: Tool, captured: map<Name, Entry>, info: Info)
    requires Behind(p.reg) && Room(p.reg, 1)
    ensures var q := Publish(p, tool, captured, info);
      Behind(q.reg) && p.reg.next <= q.reg.next && (q.reg.next <= p.reg.next + 1 || q.reg.next == info.generation)
  {}

  lemma {:induction false} PublishAllStaysBehind(reg: Reg, tools: seq<Tool>, captured: map<Name, Entry>, info: Info)
    requires Behind(reg) && Room(reg, |tools| + 1) && info.generation <= reg.next + 1
    ensures var p := PublishAll(reg, tools, captured, info);
      Behind(p.reg) && reg.next <= p.reg.next <= reg.next + |tools| + 1
  {
    if tools != [] {
      PublishAllStaysBehind(reg, tools[..|tools| - 1], captured, info);
      PublishStaysBehind(PublishAll(reg, tools[..|tools| - 1], captured, info), tools[|tools| - 1], captured, info);
    }
  }

  lemma {:induction false} UnregisterStaysBehind(reg: Reg, names: seq<Name>)
    requires Behind(reg)
    ensures Behind(UnregisterAll(reg, names)) && UnregisterAll(reg, names).next == reg.next
  {
    if names != [] { UnregisterStaysBehind(reg, names[..|names| - 1]); }
  }

  lemma {:induction false} AllowStaysBehind(reg: Reg, names: seq<Name>)
    requires Behind(reg)
    ensures Behind(AllowAll(reg, names))
  {
    if names != [] { AllowStaysBehind(reg, names[..|names| - 1]); }
  }

  lemma {:induction false} RestoreStaysBehind(reg: Reg, names: seq<Name>, captured: map<Name, Entry>)
    requires Behind(reg) && forall n | n in captured :: captured[n].info.generation <= reg.next
    ensures Behind(RestoreAll(reg, names, captured)) && RestoreAll(reg, names, captured).next == reg.next
  {
    if names != [] { RestoreStaysBehind(reg, names[..|names| - 1], captured); }
  }

  lemma {:induction false} MaxIsBehind(reg: Reg, names: seq<Name>)
    requires Behind(reg)
    ensures MaxGeneration(reg, names) <= reg.next
  {
    if names != [] { MaxIsBehind(reg, names[..|names| - 1]); }
  }

  lemma RefreshStaysBehind(w: World, server: Server, tools: seq<Tool>, listed: bool)
    requires Behind(w.reg) && Room(w.reg, |tools| + 1)
    ensures Behind(Resynced(w, server, tools, listed).0.reg)
  {
    if listed && Distinct(tools) {
      var names := Listed(w, server);
      var captured, info := Captured(w.reg, names), RegistrationOf(server, NextGeneration(MaxGeneration(w.reg, names)));
      MaxIsBehind(w.reg, names);
      CapturedIsCurrent(w.reg, names);
      PublishAllStaysBehind(w.reg, tools, captured, info);
      var p := PublishAll(w.reg, tools, captured, info);
      UnregisterStaysBehind(p.reg, p.registered);
      RestoreStaysBehind(UnregisterAll(p.reg, p.registered), p.replaced, captured);
      UnregisterStaysBehind(p.reg, Stale(names, NamesOf(tools)));
      AllowStaysBehind(UnregisterAll(p.reg, Stale(names, NamesOf(tools))), NamesOf(tools));
    }
  }

  /** A start-up publication gives each tool a generation past every earlier one. */
  lemma {:induction false} StartStaysBehind(w: World, server: Server, tools: seq<Tool>)
    requires Behind(w.reg) && Room(w.reg, |tools| + 1)
    ensures Behind(Bridging(w, server, tools).world.reg)
    ensures w.reg.next <= Bridging(w, server, tools).world.reg.next <= w.reg.next + |tools|
    ensures var b := Bridging(w, server, tools);
      forall n | n in b.published :: n in b.world.reg.entries && b.world.reg.entries[n].info.generation > w.reg.next
  {
    if tools != [] {
      StartStaysBehind(w, server, tools[..|tools| - 1]);
      var b, tool := Bridging(w, server, tools[..|tools| - 1]), tools[|tools| - 1];
      RegisteredIsFresh(b.world.reg, tool, RegistrationOf(server, 0));
    }
  }

  /** No step of the run comes to the end of the counter. */
  predicate Roomy(allowed: seq<Name>, steps: seq<Step>) {
    steps == [] ||
    (var before, step := steps[..|steps| - 1], steps[|steps| - 1];
     Roomy(allowed, before) &&
     Room(Run(allowed, before).reg, if step.Refresh? || step.Start? then |step.tools| + 1 else 1))
  }

  /** In such a run the counter is never behind a registration, so that fresh generations are new. */
  lemma {:induction false} RunStaysBehind(allowed: seq<Name>, steps: seq<Step>)
    requires Roomy(allowed, steps)
    ensures Behind(Run(allowed, steps).reg)
  {
    if steps != [] {
      var before, step := steps[..|steps| - 1], steps[|steps| - 1];
      RunStaysBehind(allowed, before);
      var w := Run(allowed, before);
      match step
      case Refresh(server, tools, listed) => RefreshStaysBehind(w, server, tools, listed);
      case Remove(server) => UnregisterStaysBehind(w.reg, Listed(w, server));
      case Start(server, tools) =>
        StartStaysBehind(w, server, tools);
        UnregisterStaysBehind(Bridging(w, server, tools).world.reg, Bridging(w, server, tools).published);
      case Other(_, _) =>
      case Withdraw(_) =>
    }
  }

  // ---------- Names and registrations ----------

  /** The name is published for a server exactly if it is registered to that server. */
  ghost predicate Matches(w: World, n: Name) {
    && (n in w.reg.entries ==> Proper(n, w.reg.entries[n]))
    && forall s :: n in Listed(w, s) <==> n in w.reg.entries && w.reg.entries[n].info.owner == Mcp(s)
  }

  lemma RefreshMatches(w: World, server: Server, tools: seq<Tool>, listed: bool, n: Name)
    requires forall m :: Matches(w, m)
    ensures Matches(Resynced(w, server, tools, listed).0, n)
  {
    assert Matches(w, n);
    if Resynced(w, server, tools, listed).1 {
      SuccessfulResync(w, server, tools, n);
      ResyncSucceedsExactlyWhen(w, server, tools, listed);
      var after := Resynced(w, server, tools, listed).0;
      assert forall s | s != server :: Listed(after, s) == Listed(w, s);
      if n in NamesOf(tools) {
        var i :| 0 <= i < |tools| && NamesOf(tools)[i] == n;
        assert Publishable(w, server, tools[i]);
      }
    } else {
      forall m | m in w.reg.entries ensures Proper(m, w.reg.entries[m]) { assert Matches(w, m); }
      FailedResyncChangesNothing(w, server, tools, listed);
    }
  }

  lemma RemoveMatches(w: World, server: Server, n: Name)
    requires Matches(w, n)
    ensures Matches(Removed(w, server), n)
  {
    UnregisteredAt(w.reg, Listed(w, server), n);
    assert forall s | s != server :: Listed(Removed(w, server), s) == Listed(w, s);
  }

  /** Whether a start-up publication must not be tried: the registry refuses a tool, and the server has names already. */
  predicate ForgetsNames(w: World, server: Server, tools: seq<Tool>) {
    Distinct(tools) && !Startable(w.reg, tools) && Listed(w, server) != []
  }

  /** Start-up publication keeps the match exactly if it does not fail over names the server already has. */
  lemma StartMatches(w: World, server: Server, tools: seq<Tool>)
    requires forall m :: Matches(w, m)
    ensures (forall n :: Matches(Bridged(w, server, tools).0, n)) <==> !ForgetsNames(w, server, tools)
  {
    var after := Bridged(w, server, tools).0;
    StartSucceedsExactlyWhen(w, server, tools);
    if Distinct(tools) && !Startable(w.reg, tools) {
      FailedStartup(w, server, tools);
      OtherLists(w, after, server);
      if Listed(w, server) != [] {
        var n := Listed(w, server)[0];
        assert Matches(w, n) && n in Listed(w, server);
        assert !Matches(after, n);
      } else {
        forall n ensures Matches(after, n) { assert Matches(w, n); }
      }
    } else if Distinct(tools) {
      forall n ensures Matches(after, n) {
        assert Matches(w, n);
        StartedSoFar(w, server, tools, n);
        StartedLists(w, server, tools);
        OtherLists(w, after, server);
      }
    }
  }

  /** A run in which that happens: the same tool is published at start-up twice, and stays callable without being listed. */
  lemma SecondStartForgets(allowed: seq<Name>)
    ensures var tool := Tool(1, 0, true);
      var w := Run(allowed, [Start(0, [tool]), Start(0, [tool])]);
      1 in w.reg.entries && w.reg.entries[1].info.owner == Mcp(0) && Listed(w, 0) == []
  {
    var tool := Tool(1, 0, true);
    var start := Start(0, [tool]);
    assert [start][..0] == [] && [start, start][..1] == [start] && [tool][..0] == [];
    var w := Run(allowed, [start]);
    StartSucceedsExactlyWhen(Run(allowed, []), 0, [tool]);
    StartedSoFar(Run(allowed, []), 0, [tool], 1);
    assert Bridging(Run(allowed, []), 0, [tool]).published == [1];
    StartSucceedsExactlyWhen(w, 0, [tool]);
    FailedStartup(w, 0, [tool]);
  }

  lemma OtherLists(w: World, after: World, server: Server)
    requires after.names - {server} == w.names - {server}
    ensures forall s | s != server :: Listed(after, s) == Listed(w, s)
  {
    forall s | s != server ensures Listed(after, s) == Listed(w, s) {
      assert s in after.names <==> s in after.names - {server};
      assert s in w.names <==> s in w.names - {server};
      if s in w.names { assert (after.names - {server})[s] == (w.names - {server})[s]; }
    }
  }

  /** No start-up publication of the run is refused a tool over names its server already has. */
  predicate StartsAreClean(allowed: seq<Name>, steps: seq<Step>) {
    steps == [] ||
    (var before, step := steps[..|steps| - 1], steps[|steps| - 1];
     StartsAreClean(allowed, before) &&
     (step.Start? ==> !ForgetsNames(Run(allowed, before), step.server, step.tools)))
  }

  /**
   In every such run, the tools registered to a server are exactly its published names: no
   tool of a withdrawn generation stays callable, and no published name is missing.
   */
  lemma {:induction false} PublishedMatchesRegistry(allowed: seq<Name>, steps: seq<Step>)
    requires StartsAreClean(allowed, steps)
    ensures forall n :: Matches(Run(allowed, steps), n)
  {
    if steps != [] {
      var before, step := steps[..|steps| - 1], steps[|steps| - 1];
      PublishedMatchesRegistry(allowed, before);
      var w := Run(allowed, before);
      if step.Start? {
        StartMatches(w, step.server, step.tools);
      } else {
        forall n ensures Matches(Do(w, step), n) {
          assert Matches(w, n);
          match step
          case Refresh(server, tools, listed) => RefreshMatches(w, server, tools, listed, n);
          case Remove(server) => RemoveMatches(w, server, n);
          case Start(_, _) =>
          case Other(_, _) =>
          case Withdraw(_) =>
        }
      }
    }
  }
}
