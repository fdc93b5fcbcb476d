/**
 The tool registry: manifests with their tools, and an index from tool name to position.  Manifests are added
 on load; tools are added later as MCP servers are discovered.
 */
module Manifests {
  import opened Base

  datatype Tool = Tool(name: string, description: string, scope: Option<string>)

  datatype Provider = Provider(name: string, handler: string, internal: bool, description: string)

  datatype Manifest = Manifest(provider: Provider, tools: seq<Tool>)

  datatype McpTool = McpTool(name: string, description: Option<string>)

  type Index = map<string, (nat, nat)>

  datatype Registry = Registry(manifests: seq<Manifest>, index: Index)

  type Listing = seq<(Provider, Tool)>

  const FILE_MANAGER := "file_manager"
  const DOWNLOAD := Tool("file_manager:download", "Download bytes from a URL. Writes to --out <path> or returns base64 inline.",
                         Some("tool:file_manager:download"))
  const UPLOAD := Tool("file_manager:upload", "Upload a local file to a manifest-declared destination, return a public URL.",
                       Some("tool:file_manager:upload"))
  const FILE_TOOLS := [DOWNLOAD, UPLOAD]
  const FILE_PROVIDER := Provider(FILE_MANAGER, FILE_MANAGER, false, "Generic binary download/upload for agents")

  // ----- what is listed and what was registered -----

  function ToolsOf(m: Manifest, n: nat): Listing
    requires n <= |m.tools|
  {
    if n == 0 then [] else ToolsOf(m, n - 1) + [(m.provider, m.tools[n - 1])]
  }

  function ListTools(manifests: seq<Manifest>): Listing {
    if manifests == [] then []
    else
      var last := manifests[|manifests| - 1];
      ListTools(manifests[..|manifests| - 1]) + ToolsOf(last, |last.tools|)
  }

  /** The last tool of that name in a log of registrations. */
  function LatestNamed(log: Listing, name: string): Option<(Provider, Tool)> {
    if log == [] then None
    else if log[|log| - 1].1.name == name then Some(log[|log| - 1])
    else LatestNamed(log[..|log| - 1], name)
  }

  predicate InBounds(manifests: seq<Manifest>, at: (nat, nat)) {
    at.0 < |manifests| && at.1 < |manifests[at.0].tools|
  }

  function ToolAt(manifests: seq<Manifest>, at: (nat, nat)): (Provider, Tool)
    requires InBounds(manifests, at)
  {
    (manifests[at.0].provider, manifests[at.0].tools[at.1])
  }

  /** The index points at the last registered tool of each name. */
  ghost predicate Indexed(reg: Registry, log: Listing) {
    && (forall name :: name in reg.index <==> LatestNamed(log, name).Some?)
    && (forall name | name in reg.index ::
          InBounds(reg.manifests, reg.index[name]) && Some(ToolAt(reg.manifests, reg.index[name])) == LatestNamed(log, name))
    && (forall at: (nat, nat) | InBounds(reg.manifests, at) :: ToolAt(reg.manifests, at).1.name in reg.index)
  }

  lemma {:induction false} LatestHasName(log: Listing, name: string)
    requires LatestNamed(log, name).Some?
    ensures LatestNamed(log, name).value.1.name == name && LatestNamed(log, name).value in log
  {
    if log[|log| - 1].1.name != name {
      LatestHasName(log[..|log| - 1], name);
    }
  }

  // ----- one registration -----

  /** Appends a tool to a manifest and lets the index point at it. */
  function Push(reg: Registry, mi: nat, tool: Tool): Registry
    requires mi < |reg.manifests|
  {
    var m := reg.manifests[mi];
    Registry(reg.manifests[mi := m.(tools := m.tools + [tool])], reg.index[tool.name := (mi, |m.tools|)])
  }

  lemma PushMoves(reg: Registry, mi: nat, tool: Tool, at: (nat, nat))
    requires mi < |reg.manifests|
    ensures InBounds(reg.manifests, at) ==>
              InBounds(Push(reg, mi, tool).manifests, at)
              && ToolAt(Push(reg, mi, tool).manifests, at) == ToolAt(reg.manifests, at)
    ensures InBounds(Push(reg, mi, tool).manifests, at) ==>
              InBounds(reg.manifests, at) || (at == (mi, |reg.manifests[mi].tools|) && ToolAt(Push(reg, mi, tool).manifests, at).1 == tool)
  {
  }

  lemma LatestAfter(log: Listing, entry: (Provider, Tool), name: string)
    ensures LatestNamed(log + [entry], name) == if entry.1.name == name then Some(entry) else LatestNamed(log, name)
  {
    assert (log + [entry])[..|log|] == log;
  }

  lemma PushKeepsIndexed(reg: Registry, log: Listing, mi: nat, tool: Tool)
    requires Indexed(reg, log) && mi < |reg.manifests|
    ensures Indexed(Push(reg, mi, tool), log + [(reg.manifests[mi].provider, tool)])
  {
    var after, entry := Push(reg, mi, tool), (reg.manifests[mi].provider, tool);
    forall name
      ensures name in after.index <==> LatestNamed(log + [entry], name).Some?
      ensures name in after.index ==>
                InBounds(after.manifests, after.index[name])
                && Some(ToolAt(after.manifests, after.index[name])) == LatestNamed(log + [entry], name)
    {
      LatestAfter(log, entry, name);
      if name in reg.index {
        PushMoves(reg, mi, tool, reg.index[name]);
      }
    }
    forall at: (nat, nat) | InBounds(after.manifests, at)
      ensures ToolAt(after.manifests, at).1.name in after.index
    {
      PushMoves(reg, mi, tool, at);
    }
  }

  function PushAll(reg: Registry, mi: nat, tools: seq<Tool>): (r: Registry)
    requires mi < |reg.manifests|
    ensures |r.manifests| == |reg.manifests|
  {
    if tools == [] then reg else Push(PushAll(reg, mi, tools[..|tools| - 1]), mi, tools[|tools| - 1])
  }

  lemma {:induction false} PushAllKeepsIndexed(reg: Registry, log: Listing, mi: nat, tools: seq<Tool>)
    requires Indexed(reg, log) && mi < |reg.manifests|
    ensures PushAll(reg, mi, tools).manifests[mi].provider == reg.manifests[mi].provider
    ensures Indexed(PushAll(reg, mi, tools), log + ToolsOf(Manifest(reg.manifests[mi].provider, tools), |tools|))
  {
    var p := reg.manifests[mi].provider;
    if tools == [] {
      assert log + [] == log;
    } else {
      var n := |tools| - 1;
      PushAllKeepsIndexed(reg, log, mi, tools[..n]);
      var front := ToolsOf(Manifest(p, tools[..n]), n);
      PushKeepsIndexed(PushAll(reg, mi, tools[..n]), log + front, mi, tools[n]);
      ToolsOfPrefix(p, tools, n);
      assert log + front + [(p, tools[n])] == log + (front + [(p, tools[n])]);
    }
  }

  lemma {:induction false} ToolsOfPrefix(p: Provider, tools: seq<Tool>, n: nat)
    requires n <= |tools|
    ensures ToolsOf(Manifest(p, tools[..n]), n) == ToolsOf(Manifest(p, tools), n)
    decreases n
  {
    if n > 0 {
      ToolsOfPrefix(p, tools, n - 1);
      ToolsOfPrefix(p, tools[..n], n - 1);
      assert tools[..n][..n - 1] == tools[..n - 1];
    }
  }

  // ----- adding a whole manifest: the index is filled before the manifest is pushed -----

  function IndexTools(index: Index, mi: nat, tools: seq<Tool>): Index {
    if tools == [] then index
    else IndexTools(index, mi, tools[..|tools| - 1])[tools[|tools| - 1].name := (mi, |tools| - 1)]
  }

  function Add(reg: Registry, m: Manifest): Registry {
    Registry(reg.manifests + [m], IndexTools(reg.index, |reg.manifests|, m.tools))
  }

  /** The registry with slot `mi` holding these tools. */
  function Filled(reg: Registry, mi: nat, tools: seq<Tool>): Registry
    requires mi < |reg.manifests|
  {
    Registry(reg.manifests[mi := reg.manifests[mi].(tools := tools)], IndexTools(reg.index, mi, tools))
  }

  lemma ReplaceTwice<T>(s: seq<T>, i: nat, x: T, y: T)
    requires i < |s|
    ensures s[i := x][i := y] == s[i := y]
  {
  }

  lemma FillOneMore(reg: Registry, mi: nat, tools: seq<Tool>, tool: Tool)
    requires mi < |reg.manifests|
    ensures Push(Filled(reg, mi, tools), mi, tool) == Filled(reg, mi, tools + [tool])
  {
    var m := reg.manifests[mi];
    ReplaceTwice(reg.manifests, mi, m.(tools := tools), m.(tools := tools + [tool]));
    IndexOneMore(reg.index, mi, tools, tool);
  }

  lemma IndexOneMore(index: Index, mi: nat, tools: seq<Tool>, tool: Tool)
    ensures IndexTools(index, mi, tools + [tool]) == IndexTools(index, mi, tools)[tool.name := (mi, |tools|)]
  {
    assert (tools + [tool])[..|tools|] == tools;
  }

  lemma FillNothing(reg: Registry, mi: nat)
    requires mi < |reg.manifests| && reg.manifests[mi].tools == []
    ensures Filled(reg, mi, []) == reg
  {
    assert reg.manifests[mi := reg.manifests[mi].(tools := [])] == reg.manifests;
  }

  lemma LastTool(tools: seq<Tool>)
    requires tools != []
    ensures tools == tools[..|tools| - 1] + [tools[|tools| - 1]]
  {
  }

  /** Filling slot `mi`, which has no tools yet, gives the same registry as pushing the tools one by one. */
  lemma {:induction false} FillIsPushAll(reg: Registry, mi: nat, tools: seq<Tool>)
    requires mi < |reg.manifests| && reg.manifests[mi].tools == []
    ensures PushAll(reg, mi, tools) == Filled(reg, mi, tools)
  {
    if tools == [] {
      FillNothing(reg, mi);
    } else {
      var front, tool := tools[..|tools| - 1], tools[|tools| - 1];
      FillIsPushAll(reg, mi, front);
      FillOneMore(reg, mi, front, tool);
      LastTool(tools);
    }
  }

  lemma EmptyManifestKeepsIndexed(reg: Registry, log: Listing, p: Provider)
    requires Indexed(reg, log)
    ensures Indexed(Registry(reg.manifests + [Manifest(p, [])], reg.index), log)
  {
    var after := reg.manifests + [Manifest(p, [])];
    forall at: (nat, nat)
      ensures InBounds(after, at) <==> InBounds(reg.manifests, at)
      ensures InBounds(after, at) ==> ToolAt(after, at) == ToolAt(reg.manifests, at)
    {
    }
  }

  lemma AddKeepsIndexed(reg: Registry, log: Listing, m: Manifest)
    requires Indexed(reg, log)
    ensures Indexed(Add(reg, m), log + ToolsOf(m, |m.tools|))
  {
    EmptyManifestKeepsIndexed(reg, log, m.provider);
    var slot := Registry(reg.manifests + [Manifest(m.provider, [])], reg.index);
    PushAllKeepsIndexed(slot, log, |reg.manifests|, m.tools);
    FillIsPushAll(slot, |reg.manifests|, m.tools);
    assert slot.manifests[|reg.manifests| := m] == reg.manifests + [m];
  }

  // ----- loading -----

  function WithScope(tool: Tool, internal: bool): Tool {
    if tool.scope.None? && !internal then tool.(scope := Some("tool:" + tool.name)) else tool
  }

  function WithScopes(tools: seq<Tool>, internal: bool): seq<Tool> {
    if tools == [] then [] else WithScopes(tools[..|tools| - 1], internal) + [WithScope(tools[|tools| - 1], internal)]
  }

  /** A CLI provider without tools gets one of its own name; tools of public providers get a scope. */
  function Prepared(m: Manifest): Manifest {
    var tools :=
      if m.provider.handler == "cli" && m.tools == []
      then [Tool(m.provider.name, m.provider.description, Some("tool:" + m.provider.name))]
      else m.tools;
    Manifest(m.provider, WithScopes(tools, m.provider.internal))
  }

  predicate HasProvider(manifests: seq<Manifest>, name: string) {
    exists i | 0 <= i < |manifests| :: manifests[i].provider.name == name
  }

  function Loaded(files: seq<Manifest>): Registry {
    if files == [] then Registry([], map[]) else Add(Loaded(files[..|files| - 1]), Prepared(files[|files| - 1]))
  }

  /** A cached provider yields to one of the same name that is already there. */
  function AddCached(reg: Registry, cached: seq<Manifest>): Registry {
    if cached == [] then reg
    else
      var before, m := AddCached(reg, cached[..|cached| - 1]), cached[|cached| - 1];
      if HasProvider(before.manifests, m.provider.name) then before else Add(before, m)
  }

  /** Position of the first file-manager manifest, or the number of manifests. */
  function FileManagerAt(manifests: seq<Manifest>): (i: nat)
    ensures i <= |manifests|
    ensures i < |manifests| ==> manifests[i].provider.handler == "file_manager"
    ensures forall j | 0 <= j < i :: manifests[j].provider.handler != "file_manager"
  {
    if manifests == [] || manifests[0].provider.handler == FILE_MANAGER then 0 else 1 + FileManagerAt(manifests[1..])
  }

  /** Declared with tools: left alone.  Declared without: gets the built-in tools.  Not declared: added. */
  function WithFileManager(reg: Registry): Registry {
    var mi := FileManagerAt(reg.manifests);
    if mi == |reg.manifests| then Add(reg, Manifest(FILE_PROVIDER, FILE_TOOLS))
    else if reg.manifests[mi].tools == [] then PushAll(reg, mi, FILE_TOOLS)
    else reg
  }

  function LoadedRegistry(files: seq<Manifest>, cached: seq<Manifest>): Registry {
    WithFileManager(AddCached(Loaded(files), cached))
  }

  lemma {:induction false} LoadedIsIndexed(files: seq<Manifest>)
    ensures Indexed(Loaded(files), ListTools(Loaded(files).manifests))
  {
    if files != [] {
      var before, m := Loaded(files[..|files| - 1]), Prepared(files[|files| - 1]);
      LoadedIsIndexed(files[..|files| - 1]);
      AddKeepsIndexed(before, ListTools(before.manifests), m);
      ListAdded(before.manifests, m);
    }
  }

  lemma ListAdded(manifests: seq<Manifest>, m: Manifest)
    ensures ListTools(manifests + [m]) == ListTools(manifests) + ToolsOf(m, |m.tools|)
  {
    assert (manifests + [m])[..|manifests|] == manifests;
  }

  lemma {:induction false} CachedIsIndexed(reg: Registry, cached: seq<Manifest>)
    requires Indexed(reg, ListTools(reg.manifests))
    ensures Indexed(AddCached(reg, cached), ListTools(AddCached(reg, cached).manifests))
  {
    if cached != [] {
      var before, m := AddCached(reg, cached[..|cached| - 1]), cached[|cached| - 1];
      CachedIsIndexed(reg, cached[..|cached| - 1]);
      AddKeepsIndexed(before, ListTools(before.manifests), m);
      ListAdded(before.manifests, m);
    }
  }

  /** What has been registered when the file manager is in place: everything listed, in order, then its tools if
      they were only now attached. */
  function FileManagerLog(reg: Registry): Listing {
    var mi := FileManagerAt(reg.manifests);
    if mi == |reg.manifests| then ListTools(reg.manifests) + ToolsOf(Manifest(FILE_PROVIDER, FILE_TOOLS), 2)
    else if reg.manifests[mi].tools == [] then
      ListTools(reg.manifests) + ToolsOf(Manifest(reg.manifests[mi].provider, FILE_TOOLS), 2)
    else ListTools(reg.manifests)
  }

  lemma FileManagerIsIndexed(reg: Registry)
    requires Indexed(reg, ListTools(reg.manifests))
    ensures Indexed(WithFileManager(reg), FileManagerLog(reg))
  {
    var mi := FileManagerAt(reg.manifests);
    if mi == |reg.manifests| {
      AddKeepsIndexed(reg, ListTools(reg.manifests), Manifest(FILE_PROVIDER, FILE_TOOLS));
    } else if reg.manifests[mi].tools == [] {
      PushAllKeepsIndexed(reg, ListTools(reg.manifests), mi, FILE_TOOLS);
    }
  }

  /** The manifests of the files, in order. */
  lemma {:induction false} LoadedInOrder(files: seq<Manifest>, i: nat)
    requires i < |files|
    ensures |Loaded(files).manifests| == |files| && Loaded(files).manifests[i] == Prepared(files[i])
    decreases |files|
  {
    var n := |files| - 1;
    if n > 0 {
      LoadedInOrder(files[..n], if i < n then i else 0);
    }
  }

  /** Behind what was loaded from files come cached providers, each with a name of its own, and none is missing. */
  ghost predicate Yields(before: seq<Manifest>, after: seq<Manifest>, cached: seq<Manifest>) {
    && before <= after
    && (forall i, j | 0 <= i < j < |after| && |before| <= j :: after[i].provider.name != after[j].provider.name)
    && (forall j | |before| <= j < |after| :: after[j] in cached)
    && (forall m | m in cached :: HasProvider(after, m.provider.name))
  }

  lemma YieldsSkip(before: seq<Manifest>, after: seq<Manifest>, cached: seq<Manifest>, m: Manifest)
    requires Yields(before, after, cached) && HasProvider(after, m.provider.name)
    ensures Yields(before, after, cached + [m])
  {
  }

  lemma ProviderStays(manifests: seq<Manifest>, m: Manifest, name: string)
    requires HasProvider(manifests, name)
    ensures HasProvider(manifests + [m], name)
  {
    var i :| 0 <= i < |manifests| && manifests[i].provider.name == name;
    assert (manifests + [m])[i] == manifests[i];
  }

  lemma YieldsAdd(before: seq<Manifest>, after: seq<Manifest>, cached: seq<Manifest>, m: Manifest)
    requires Yields(before, after, cached) && !HasProvider(after, m.provider.name)
    ensures Yields(before, after + [m], cached + [m])
  {
    var all := after + [m];
    assert all[|after|] == m;
    forall c | c in cached + [m] ensures HasProvider(all, c.provider.name) {
      if c in cached {
        ProviderStays(after, m, c.provider.name);
      }
    }
  }

  lemma {:induction false} CachedYields(reg: Registry, cached: seq<Manifest>)
    ensures Yields(reg.manifests, AddCached(reg, cached).manifests, cached)
  {
    if cached != [] {
      var front, m := cached[..|cached| - 1], cached[|cached| - 1];
      var before := AddCached(reg, front).manifests;
      CachedYields(reg, front);
      assert cached == front + [m];
      if HasProvider(before, m.provider.name) {
        YieldsSkip(reg.manifests, before, front, m);
      } else {
        YieldsAdd(reg.manifests, before, front, m);
      }
    }
  }

  /** Whatever was loaded, there is a file manager with tools; if it was not declared with tools of its own, it has the
      two built-in ones. */
  lemma FileManagerIsInstalled(reg: Registry)
    ensures var mi, after := FileManagerAt(reg.manifests), WithFileManager(reg).manifests;
            && mi < |after| && after[mi].provider.handler == "file_manager" && after[mi].tools != []
            && (forall i | 0 <= i < |reg.manifests| && i != mi :: after[i] == reg.manifests[i])
            && (mi < |reg.manifests| ==> after[mi].provider == reg.manifests[mi].provider)
            && (mi == |reg.manifests| ==> after[mi].provider.name == "file_manager" && !after[mi].provider.internal)
            && (mi == |reg.manifests| || reg.manifests[mi].tools == [] ==>
                  |after[mi].tools| == 2
                  && after[mi].tools[0].name == "file_manager:download" && after[mi].tools[0].scope == Some("tool:file_manager:download")
                  && after[mi].tools[1].name == "file_manager:upload" && after[mi].tools[1].scope == Some("tool:file_manager:upload"))
            && (mi < |reg.manifests| && reg.manifests[mi].tools != [] ==> WithFileManager(reg) == reg)
  {
    var mi := FileManagerAt(reg.manifests);
    if mi < |reg.manifests| && reg.manifests[mi].tools == [] {
      FillIsPushAll(reg, mi, FILE_TOOLS);
    }
  }

  // ----- discovered tools -----

  function McpToolOf(provider: string, t: McpTool): Tool {
    var name := provider + ":" + t.name;
    Tool(name, if t.description.Some? then t.description.value else "", Some("tool:" + name))
  }

  function McpTools(provider: string, tools: seq<McpTool>): seq<Tool> {
    if tools == [] then [] else McpTools(provider, tools[..|tools| - 1]) + [McpToolOf(provider, tools[|tools| - 1])]
  }

  function ProviderAt(manifests: seq<Manifest>, name: string): (i: nat)
    ensures i <= |manifests|
    ensures i < |manifests| ==> manifests[i].provider.name == name
    ensures forall j | 0 <= j < i :: manifests[j].provider.name != name
  {
    if manifests == [] || manifests[0].provider.name == name then 0
    else
      var i := ProviderAt(manifests[1..], name);
      1 + i
  }

  function Registered(reg: Registry, provider: string, tools: seq<McpTool>): Registry {
    var mi := ProviderAt(reg.manifests, provider);
    if mi == |reg.manifests| then reg else PushAll(reg, mi, McpTools(provider, tools))
  }

  function RegisteredLog(reg: Registry, log: Listing, provider: string, tools: seq<McpTool>): Listing {
    var mi := ProviderAt(reg.manifests, provider);
    if mi == |reg.manifests| then log
    else
      var found := McpTools(provider, tools);
      log + ToolsOf(Manifest(reg.manifests[mi].provider, found), |found|)
  }

  lemma RegisteredIsIndexed(reg: Registry, log: Listing, provider: string, tools: seq<McpTool>)
    requires Indexed(reg, log)
    ensures Indexed(Registered(reg, provider, tools), RegisteredLog(reg, log, provider, tools))
  {
    var mi := ProviderAt(reg.manifests, provider);
    if mi < |reg.manifests| {
      PushAllKeepsIndexed(reg, log, mi, McpTools(provider, tools));
    }
  }

  // ----- what callers see -----

  function NamesOf(log: Listing): set<string> {
    set i | 0 <= i < |log| :: log[i].1.name
  }

  lemma {:induction false} EntryOfTools(m: Manifest, n: nat, name: string)
    requires n <= |m.tools|
    ensures name in NamesOf(ToolsOf(m, n)) <==> exists t | 0 <= t < n :: m.tools[t].name == name
  {
    if n > 0 {
      EntryOfTools(m, n - 1, name);
      var last := [(m.provider, m.tools[n - 1])];
      NamesOfConcat(ToolsOf(m, n - 1), last, name);
      assert last[0].1.name in NamesOf(last);
    }
  }

  lemma NamesOfConcat(a: Listing, b: Listing, name: string)
    ensures name in NamesOf(a + b) <==> name in NamesOf(a) || name in NamesOf(b)
  {
    if name in NamesOf(a) {
      var i :| 0 <= i < |a| && a[i].1.name == name;
      assert (a + b)[i] == a[i];
    }
    if name in NamesOf(b) {
      var i :| 0 <= i < |b| && b[i].1.name == name;
      assert (a + b)[|a| + i] == b[i];
    }
  }

  predicate Listed(manifests: seq<Manifest>, name: string) {
    exists mi, ti | 0 <= mi < |manifests| && 0 <= ti < |manifests[mi].tools| :: manifests[mi].tools[ti].name == name
  }

  lemma {:induction false} EntryOfList(manifests: seq<Manifest>, name: string)
    ensures name in NamesOf(ListTools(manifests)) <==> Listed(manifests, name)
  {
    if manifests != [] {
      var front, last := manifests[..|manifests| - 1], manifests[|manifests| - 1];
      EntryOfList(front, name);
      EntryOfTools(last, |last.tools|, name);
      NamesOfConcat(ListTools(front), ToolsOf(last, |last.tools|), name);
      assert manifests == front + [last];
    }
  }

  /** The indexed names are the listed names, so the size of the index counts the distinct ones. */
  lemma IndexCountsNames(reg: Registry, log: Listing)
    requires Indexed(reg, log)
    ensures reg.index.Keys == NamesOf(ListTools(reg.manifests))
    ensures |reg.index| == |NamesOf(ListTools(reg.manifests))|
  {
    forall name
      ensures name in reg.index <==> name in NamesOf(ListTools(reg.manifests))
    {
      EntryOfList(reg.manifests, name);
      IndexedIsListed(reg, log, name);
    }
  }

  lemma IndexedIsListed(reg: Registry, log: Listing, name: string)
    requires Indexed(reg, log)
    ensures name in reg.index <==> Listed(reg.manifests, name)
  {
    if name in reg.index {
      LatestHasName(log, name);
      assert ToolAt(reg.manifests, reg.index[name]).1.name == name;
    }
    if Listed(reg.manifests, name) {
      var mi, ti :| 0 <= mi < |reg.manifests| && 0 <= ti < |reg.manifests[mi].tools| && reg.manifests[mi].tools[ti].name == name;
      assert InBounds(reg.manifests, (mi, ti));
    }
  }

  /** The text of a qualified name before the first separator. */
  function PrefixOf(name: string): string {
    if name == "" || name[0] == ':' then "" else [name[0]] + PrefixOf(name[1..])
  }

  function FindMcpProvider(manifests: seq<Manifest>, prefix: string): Option<Provider> {
    if manifests == [] then None
    else if manifests[0].provider.handler == "mcp" && manifests[0].provider.name == prefix then Some(manifests[0].provider)
    else FindMcpProvider(manifests[1..], prefix)
  }

  lemma {:induction false} PrefixOfQualified(p: string, name: string)
    ensures PrefixOf(p + ":" + name) == p <==> ':' !in p
    ensures ':' !in PrefixOf(p + ":" + name)
  {
    var q := p + ":" + name;
    if p != "" && p[0] != ':' {
      assert q[1..] == p[1..] + ":" + name;
      PrefixOfQualified(p[1..], name);
      assert p == [p[0]] + p[1..];
    }
  }

  lemma {:induction false} FoundMcpProvider(manifests: seq<Manifest>, prefix: string)
    ensures var r := FindMcpProvider(manifests, prefix);
            r.Some? ==> r.value.name == prefix && r.value.handler == "mcp"
    ensures var mi := ProviderAt(manifests, prefix);
            mi < |manifests| && manifests[mi].provider.handler == "mcp" ==>
              FindMcpProvider(manifests, prefix) == Some(manifests[mi].provider)
  {
    if manifests != [] {
      FoundMcpProvider(manifests[1..], prefix);
    }
  }

  lemma {:induction false} SameProviders(reg: Registry, mi: nat, tools: seq<Tool>, i: nat)
    requires mi < |reg.manifests| && i < |reg.manifests|
    ensures PushAll(reg, mi, tools).manifests[i].provider == reg.manifests[i].provider
  {
    if tools != [] {
      SameProviders(reg, mi, tools[..|tools| - 1], i);
    }
  }

  lemma {:induction false} FindAfter(a: seq<Manifest>, b: seq<Manifest>, prefix: string)
    requires |a| == |b| && forall i | 0 <= i < |a| :: a[i].provider == b[i].provider
    ensures FindMcpProvider(a, prefix) == FindMcpProvider(b, prefix)
  {
    if a != [] {
      FindAfter(a[1..], b[1..], prefix);
    }
  }

  /** Routing by the prefix of a registered name finds the provider the tool was registered for exactly if that
      provider speaks MCP and its name has no separator in it. */
  lemma RegisteredToolFindsItsProvider(reg: Registry, provider: string, tools: seq<McpTool>, t: McpTool)
    requires ProviderAt(reg.manifests, provider) < |reg.manifests|
    ensures var p := reg.manifests[ProviderAt(reg.manifests, provider)].provider;
            FindMcpProvider(Registered(reg, provider, tools).manifests, PrefixOf(McpToolOf(provider, t).name)) == Some(p)
            <==> p.handler == "mcp" && ':' !in provider
  {
    var mi := ProviderAt(reg.manifests, provider);
    var after := Registered(reg, provider, tools).manifests;
    var prefix := PrefixOf(McpToolOf(provider, t).name);
    forall i | 0 <= i < |reg.manifests|
      ensures after[i].provider == reg.manifests[i].provider
    {
      SameProviders(reg, mi, McpTools(provider, tools), i);
    }
    FindAfter(after, reg.manifests, prefix);
    PrefixOfQualified(provider, t.name);
    FoundMcpProvider(reg.manifests, prefix);
  }

  lemma {:induction false} McpToolAt(provider: string, tools: seq<McpTool>, k: nat)
    requires k < |tools|
    ensures |McpTools(provider, tools)| == |tools| && McpTools(provider, tools)[k] == McpToolOf(provider, tools[k])
    decreases |tools|
  {
    var n := |tools| - 1;
    if n > 0 {
      McpToolAt(provider, tools[..n], if k < n then k else 0);
    }
  }

  lemma {:induction false} LatestOfTools(log: Listing, p: Provider, tools: seq<Tool>, n: nat, k: nat)
    requires k < n <= |tools| && forall j | k < j < n :: tools[j].name != tools[k].name
    ensures LatestNamed(log + ToolsOf(Manifest(p, tools), n), tools[k].name) == Some((p, tools[k]))
    decreases n
  {
    var front := ToolsOf(Manifest(p, tools), n - 1);
    LatestAfter(log + front, (p, tools[n - 1]), tools[k].name);
    assert log + (front + [(p, tools[n - 1])]) == log + front + [(p, tools[n - 1])];
    if k < n - 1 {
      LatestOfTools(log, p, tools, n - 1, k);
    }
  }

  lemma SameMcpName(provider: string, a: McpTool, b: McpTool)
    ensures McpToolOf(provider, a).name == McpToolOf(provider, b).name <==> a.name == b.name
  {
    var n := |provider + ":"|;
    assert McpToolOf(provider, a).name[n..] == a.name && McpToolOf(provider, b).name[n..] == b.name;
  }

  /** A discovered tool is found under its qualified name, with the provider it was registered for; of several
      with one name in a batch, the last. */
  lemma RegisteredToolIsFound(reg: Registry, log: Listing, provider: string, tools: seq<McpTool>, k: nat)
    requires ProviderAt(reg.manifests, provider) < |reg.manifests|
    requires k < |tools| && forall j | k < j < |tools| :: tools[j].name != tools[k].name
    ensures var p := reg.manifests[ProviderAt(reg.manifests, provider)].provider;
            var name := provider + ":" + tools[k].name;
            LatestNamed(RegisteredLog(reg, log, provider, tools), name)
            == Some((p, Tool(name, if tools[k].description.Some? then tools[k].description.value else "", Some("tool:" + name))))
  {
    var found := McpTools(provider, tools);
    McpToolAt(provider, tools, k);
    forall j | k < j < |found|
      ensures found[j].name != found[k].name
    {
      McpToolAt(provider, tools, j);
      SameMcpName(provider, tools[j], tools[k]);
    }
    LatestOfTools(log, reg.manifests[ProviderAt(reg.manifests, provider)].provider, found, |found|, k);
  }

  // ----- every public tool has a scope -----

  predicate ScopedTools(m: Manifest) {
    m.provider.internal || forall t | t in m.tools :: t.scope.Some?
  }

  predicate Scoped(manifests: seq<Manifest>) {
    forall m | m in manifests :: ScopedTools(m)
  }

  lemma {:induction false} WithScopesScoped(tools: seq<Tool>)
    ensures forall t | t in WithScopes(tools, false) :: t.scope.Some?
  {
    if tools != [] {
      WithScopesScoped(tools[..|tools| - 1]);
    }
  }

  lemma PreparedIsScoped(m: Manifest)
    ensures ScopedTools(Prepared(m))
  {
    var tools :=
      if m.provider.handler == "cli" && m.tools == []
      then [Tool(m.provider.name, m.provider.description, Some("tool:" + m.provider.name))]
      else m.tools;
    WithScopesScoped(tools);
  }

  lemma {:induction false} LoadedIsScoped(files: seq<Manifest>)
    ensures Scoped(Loaded(files).manifests)
  {
    if files != [] {
      LoadedIsScoped(files[..|files| - 1]);
      PreparedIsScoped(files[|files| - 1]);
    }
  }

  lemma {:induction false} CachedIsScoped(reg: Registry, cached: seq<Manifest>)
    requires Scoped(reg.manifests) && Scoped(cached)
    ensures Scoped(AddCached(reg, cached).manifests)
  {
    if cached != [] {
      CachedIsScoped(reg, cached[..|cached| - 1]);
    }
  }

  lemma {:induction false} PushAllScoped(reg: Registry, mi: nat, tools: seq<Tool>)
    requires mi < |reg.manifests| && Scoped(reg.manifests) && forall t | t in tools :: t.scope.Some?
    ensures Scoped(PushAll(reg, mi, tools).manifests)
  {
    if tools != [] {
      PushAllScoped(reg, mi, tools[..|tools| - 1]);
      var before, after := PushAll(reg, mi, tools[..|tools| - 1]).manifests, PushAll(reg, mi, tools).manifests;
      forall i | 0 <= i < |after|
        ensures ScopedTools(after[i])
      {
        assert ScopedTools(before[i]);
      }
    }
  }

  lemma {:induction false} McpToolsScoped(provider: string, tools: seq<McpTool>)
    ensures forall t | t in McpTools(provider, tools) :: t.scope.Some?
  {
    if tools != [] {
      McpToolsScoped(provider, tools[..|tools| - 1]);
    }
  }

  /** No tool of a public provider escapes scope filtering, provided the cached ones were stored with a scope. */
  lemma LoadedRegistryIsScoped(files: seq<Manifest>, cached: seq<Manifest>)
    requires Scoped(cached)
    ensures Scoped(LoadedRegistry(files, cached).manifests)
  {
    LoadedIsScoped(files);
    CachedIsScoped(Loaded(files), cached);
    var reg := AddCached(Loaded(files), cached);
    if FileManagerAt(reg.manifests) < |reg.manifests| {
      PushAllScoped(reg, FileManagerAt(reg.manifests), FILE_TOOLS);
    }
  }

  lemma RegisteredStaysScoped(reg: Registry, provider: string, tools: seq<McpTool>)
    requires Scoped(reg.manifests)
    ensures Scoped(Registered(reg, provider, tools).manifests)
  {
    if ProviderAt(reg.manifests, provider) < |reg.manifests| {
      McpToolsScoped(provider, tools);
      PushAllScoped(reg, ProviderAt(reg.manifests, provider), McpTools(provider, tools));
    }
  }

  // ----- the registry itself -----

  lemma {:induction false} WithScopesAt(tools: seq<Tool>, internal: bool, i: nat)
    requires i < |tools|
    ensures |WithScopes(tools, internal)| == |tools| && WithScopes(tools, internal)[i] == WithScope(tools[i], internal)
    decreases |tools|
  {
    var n := |tools| - 1;
    if n > 0 {
      WithScopesAt(tools[..n], internal, if i < n then i else 0);
    }
  }

  /** What preparing does to each tool, and the tool that a CLI provider without tools gets. */
  lemma PreparedTool(m: Manifest, i: nat)
    ensures Prepared(m).provider == m.provider
    ensures i < |m.tools| ==>
              |Prepared(m).tools| == |m.tools| && Prepared(m).tools[i].name == m.tools[i].name
              && Prepared(m).tools[i].description == m.tools[i].description
              && Prepared(m).tools[i].scope ==
                   if m.tools[i].scope.None? && !m.provider.internal then Some("tool:" + m.tools[i].name) else m.tools[i].scope
    ensures m.tools == [] && m.provider.handler != "cli" ==> Prepared(m).tools == []
    ensures m.tools == [] && m.provider.handler == "cli" ==>
              Prepared(m).tools == [Tool(m.provider.name, m.provider.description, Some("tool:" + m.provider.name))]
  {
    if i < |m.tools| {
      WithScopesAt(m.tools, m.provider.internal, i);
    } else if m.tools == [] && m.provider.handler == "cli" {
      var tools := [Tool(m.provider.name, m.provider.description, Some("tool:" + m.provider.name))];
      assert WithScopes(tools[..0], m.provider.internal) == [];
    }
  }

  method Prepare(m: Manifest) returns (r: Manifest)
    ensures r == Prepared(m)
  {
    var tools := m.tools;
    if m.provider.handler == "cli" && tools == [] {
      tools := [Tool(m.provider.name, m.provider.description, Some("tool:" + m.provider.name))];
    }
    var given := tools;
    var scoped: seq<Tool> := [];
    for i := 0 to |given|
      invariant scoped == WithScopes(given[..i], m.provider.internal)
    {
      assert given[..i + 1][..i] == given[..i];
      if given[i].scope.None? && !m.provider.internal {
        scoped := scoped + [given[i].(scope := Some("tool:" + given[i].name))];
      } else {
        scoped := scoped + [given[i]];
      }
    }
    assert given[..|given|] == given;
    r := Manifest(m.provider, scoped);
  }

  method IndexAll(index: Index, mi: nat, tools: seq<Tool>) returns (r: Index)
    ensures r == IndexTools(index, mi, tools)
  {
    r := index;
    for ti := 0 to |tools|
      invariant r == IndexTools(index, mi, tools[..ti])
    {
      assert tools[..ti + 1][..ti] == tools[..ti];
      r := r[tools[ti].name := (mi, ti)];
    }
    assert tools[..|tools|] == tools;
  }

  method LoadFiles(files: seq<Manifest>) returns (manifests: seq<Manifest>, index: Index)
    ensures Registry(manifests, index) == Loaded(files)
  {
    manifests, index := [], map[];
    for i := 0 to |files|
      invariant Registry(manifests, index) == Loaded(files[..i])
    {
      assert files[..i + 1][..i] == files[..i];
      var m := Prepare(files[i]);
      index := IndexAll(index, |manifests|, m.tools);
      manifests := manifests + [m];
    }
    assert files[..|files|] == files;
  }

  method LoadCached(before: Registry, cached: seq<Manifest>) returns (manifests: seq<Manifest>, index: Index)
    ensures Registry(manifests, index) == AddCached(before, cached)
  {
    manifests, index := before.manifests, before.index;
    for i := 0 to |cached|
      invariant Registry(manifests, index) == AddCached(before, cached[..i])
    {
      assert cached[..i + 1][..i] == cached[..i];
      if !HasProvider(manifests, cached[i].provider.name) {
        index := IndexAll(index, |manifests|, cached[i].tools);
        manifests := manifests + [cached[i]];
      }
    }
    assert cached[..|cached|] == cached;
  }

  class ManifestRegistry {
    var manifests: seq<Manifest>
    var toolIndex: Index
    /** Every tool in the order of its registration. */
    ghost var log: Listing

    ghost predicate Valid()
      reads this
    {
      Indexed(Registry(manifests, toolIndex), log)
    }

    constructor Load(files: seq<Manifest>, cached: seq<Manifest>)
      ensures Valid()
      ensures Registry(manifests, toolIndex) == LoadedRegistry(files, cached)
      ensures log == FileManagerLog(AddCached(Loaded(files), cached))
    {
      var loaded, index := LoadFiles(files);
      loaded, index := LoadCached(Registry(loaded, index), cached);
      LoadedIsIndexed(files);
      CachedIsIndexed(Loaded(files), cached);
      manifests, toolIndex, log := loaded, index, ListTools(loaded);
      new;
      RegisterFileManagerProvider();
    }

    method RegisterFileManagerProvider()
      requires Valid() && log == ListTools(manifests)
      modifies this
      ensures Valid()
      ensures Registry(manifests, toolIndex) == WithFileManager(Registry(old(manifests), old(toolIndex)))
      ensures log == FileManagerLog(Registry(old(manifests), old(toolIndex)))
    {
      FileManagerIsIndexed(Registry(manifests, toolIndex));
      var mi := FileManagerAt(manifests);
      if mi < |manifests| {
        if manifests[mi].tools == [] {
          FillIsPushAll(Registry(manifests, toolIndex), mi, FILE_TOOLS);
          log := FileManagerLog(Registry(manifests, toolIndex));
          toolIndex := IndexAll(toolIndex, mi, FILE_TOOLS);
          manifests := manifests[mi := manifests[mi].(tools := FILE_TOOLS)];
        }
        return;
      }
      log := FileManagerLog(Registry(manifests, toolIndex));
      toolIndex := IndexAll(toolIndex, |manifests|, FILE_TOOLS);
      manifests := manifests + [Manifest(FILE_PROVIDER, FILE_TOOLS)];
    }

    method RegisterMcpTools(providerName: string, mcpTools: seq<McpTool>)
      requires Valid()
      modifies this
      ensures Valid()
      ensures Registry(manifests, toolIndex) == Registered(Registry(old(manifests), old(toolIndex)), providerName, mcpTools)
      ensures log == RegisteredLog(Registry(old(manifests), old(toolIndex)), old(log), providerName, mcpTools)
    {
      ghost var before := Registry(manifests, toolIndex);
      RegisteredIsIndexed(before, log, providerName, mcpTools);
      log := RegisteredLog(before, log, providerName, mcpTools);
      var mi := ProviderAt(manifests, providerName);
      if mi == |manifests| {
        return;
      }
      for i := 0 to |mcpTools|
        invariant mi < |manifests|
        invariant Registry(manifests, toolIndex) == PushAll(before, mi, McpTools(providerName, mcpTools[..i]))
        invariant log == RegisteredLog(before, old(log), providerName, mcpTools)
      {
        assert mcpTools[..i + 1][..i] == mcpTools[..i];
        var tool := McpToolOf(providerName, mcpTools[i]);
        var ti := |manifests[mi].tools|;
        manifests := manifests[mi := manifests[mi].(tools := manifests[mi].tools + [tool])];
        toolIndex := toolIndex[tool.name := (mi, ti)];
      }
      assert mcpTools[..|mcpTools|] == mcpTools;
    }

    /** The last registered tool of that name. */
    method GetTool(name: string) returns (r: Option<(Provider, Tool)>)
      requires Valid()
      ensures r == LatestNamed(log, name)
    {
      if name in toolIndex {
        var (mi, ti) := toolIndex[name];
        return Some((manifests[mi].provider, manifests[mi].tools[ti]));
      }
      return None;
    }

    method ToolCount() returns (n: nat)
      requires Valid()
      ensures n == |NamesOf(ListTools(manifests))|
    {
      IndexCountsNames(Registry(manifests, toolIndex), log);
      n := |toolIndex|;
    }
  }
}
