/**
 The three hook layers as their users see them (`agent/hook-core/src/registry.rs`, `agent/hook-core/src/dispatcher.rs`):
 which definitions are registered, in what order they are asked, and when exactly a tool is refused; all said about the
 layers themselves.
 */
module HookLayers {
  import opened Wrappers
  import opened HookRegistry
  import opened HookDispatcher

  predicate Named(layer: seq<HookDefinition>, name: string) {
    exists n :: 0 <= n < |layer| && layer[n].name == name
  }

  /** Definition `n` is the first of its name in the layer. */
  predicate FirstOf(layer: seq<HookDefinition>, n: int) {
    0 <= n < |layer| && forall j | 0 <= j < n :: layer[j].name != layer[n].name
  }

  predicate FirstIn(layer: seq<HookDefinition>, def: HookDefinition) {
    exists n | 0 <= n < |layer| :: FirstOf(layer, n) && layer[n] == def
  }

  /** No definition claims a higher scope than its layer's. */
  predicate Loaded(project: seq<HookDefinition>, plugin: seq<HookDefinition>) {
    && (forall n | 0 <= n < |project| :: !project[n].scope.User?)
    && (forall n | 0 <= n < |plugin| :: plugin[n].scope.Plugin?)
  }

  /** The user's first definition of a name, or the project's where the user has none, or else the first plugin's. */
  predicate Chosen(
    user: seq<HookDefinition>, project: seq<HookDefinition>, plugin: seq<HookDefinition>, def: HookDefinition)
  {
    if Named(user, def.name) then FirstIn(user, def)
    else if Named(project, def.name) then FirstIn(project, def)
    else FirstIn(plugin, def)
  }

  // ----- declarations -----

  /** What is declared at place `k`: plugins first, then the project, then the user. */
  lemma DeclaredAt(user: seq<HookDefinition>, project: seq<HookDefinition>, plugin: seq<HookDefinition>, k: nat)
    requires Loaded(project, plugin) && k < |plugin| + |project| + |user|
    ensures var ds, a, b := Declarations(user, project, plugin), |plugin|, |plugin| + |project|;
            && |ds| == b + |user|
            && ds[k] == if k < a then Declared(plugin[k], 0)
                        else if k < b then Declared(project[k - a], 1)
                        else Declared(user[k - b], 2)
  {
  }

  /** The winner of place `w`, by its layer. */
  predicate WinsIn(
    user: seq<HookDefinition>, project: seq<HookDefinition>, plugin: seq<HookDefinition>, w: nat)
    requires w < |plugin| + |project| + |user|
  {
    var a, b := |plugin|, |plugin| + |project|;
    if w < a then FirstOf(plugin, w) && !Named(project, plugin[w].name) && !Named(user, plugin[w].name)
    else if w < b then FirstOf(project, w - a) && !Named(user, project[w - a].name)
    else FirstOf(user, w - b)
  }

  lemma WinnersByLayer(user: seq<HookDefinition>, project: seq<HookDefinition>, plugin: seq<HookDefinition>, w: nat)
    requires Loaded(project, plugin) && w < |plugin| + |project| + |user|
    ensures |Declarations(user, project, plugin)| == |plugin| + |project| + |user|
    ensures Wins(Declarations(user, project, plugin), w) <==> WinsIn(user, project, plugin, w)
  {
    DeclaredAt(user, project, plugin, w);
    if Wins(Declarations(user, project, plugin), w) {
      WinnerIsFirst(user, project, plugin, w);
    }
    if WinsIn(user, project, plugin, w) {
      FirstWins(user, project, plugin, w);
    }
  }

  lemma WinnerIsFirst(user: seq<HookDefinition>, project: seq<HookDefinition>, plugin: seq<HookDefinition>, w: nat)
    requires Loaded(project, plugin) && w < |plugin| + |project| + |user|
    requires |Declarations(user, project, plugin)| == |plugin| + |project| + |user|
             && Wins(Declarations(user, project, plugin), w)
    ensures WinsIn(user, project, plugin, w)
  {
    var ds, a, b := Declarations(user, project, plugin), |plugin|, |plugin| + |project|;
    DeclaredAt(user, project, plugin, w);
    var name := ds[w].def.name;
    forall j | 0 <= j < |plugin| && plugin[j].name == name ensures w < a ==> w <= j {
      DeclaredAt(user, project, plugin, j);
      assert ds[j].def.name == name;
    }
    forall j | 0 <= j < |project| && project[j].name == name ensures a <= w && (w < b ==> w <= a + j) {
      DeclaredAt(user, project, plugin, a + j);
      assert ds[a + j].def.name == name;
    }
    forall j | 0 <= j < |user| && user[j].name == name ensures b <= w <= b + j {
      DeclaredAt(user, project, plugin, b + j);
      assert ds[b + j].def.name == name;
    }
  }

  lemma FirstWins(user: seq<HookDefinition>, project: seq<HookDefinition>, plugin: seq<HookDefinition>, w: nat)
    requires Loaded(project, plugin) && w < |plugin| + |project| + |user|
    requires |Declarations(user, project, plugin)| == |plugin| + |project| + |user|
             && WinsIn(user, project, plugin, w)
    ensures Wins(Declarations(user, project, plugin), w)
  {
    var ds, a, b := Declarations(user, project, plugin), |plugin|, |plugin| + |project|;
    DeclaredAt(user, project, plugin, w);
    forall j | 0 <= j < |ds| && ds[j].def.name == ds[w].def.name
      ensures ds[j].rank < ds[w].rank || (ds[j].rank == ds[w].rank && w <= j)
    {
      DeclaredAt(user, project, plugin, j);
      if a <= j < b {
        assert project[j - a].name == ds[w].def.name;
      } else if b <= j {
        assert user[j - b].name == ds[w].def.name;
      }
    }
  }

  // ----- which definitions are registered -----

  lemma UserPlace(
    user: seq<HookDefinition>, project: seq<HookDefinition>, plugin: seq<HookDefinition>, n: nat) returns (w: nat)
    requires FirstOf(user, n)
    ensures w == |plugin| + |project| + n < |plugin| + |project| + |user| && WinsIn(user, project, plugin, w)
  {
    w := |plugin| + |project| + n;
  }

  lemma ProjectPlace(
    user: seq<HookDefinition>, project: seq<HookDefinition>, plugin: seq<HookDefinition>, n: nat) returns (w: nat)
    requires FirstOf(project, n) && !Named(user, project[n].name)
    ensures w == |plugin| + n < |plugin| + |project| && WinsIn(user, project, plugin, w)
  {
    w := |plugin| + n;
  }

  lemma PlaceIn(layer: seq<HookDefinition>, def: HookDefinition) returns (n: nat)
    requires FirstIn(layer, def)
    ensures FirstOf(layer, n) && layer[n] == def
  {
    n :| 0 <= n < |layer| && FirstOf(layer, n) && layer[n] == def;
  }

  lemma ChosenWins(
    user: seq<HookDefinition>, project: seq<HookDefinition>, plugin: seq<HookDefinition>, def: HookDefinition)
    returns (w: nat)
    requires Loaded(project, plugin) && Chosen(user, project, plugin, def)
    ensures w < |Declarations(user, project, plugin)|
    ensures Wins(Declarations(user, project, plugin), w) && Declarations(user, project, plugin)[w].def == def
  {
    if Named(user, def.name) {
      var n := PlaceIn(user, def);
      w := UserPlace(user, project, plugin, n);
    } else if Named(project, def.name) {
      var n := PlaceIn(project, def);
      w := ProjectPlace(user, project, plugin, n);
    } else {
      w := PlaceIn(plugin, def);
    }
    WinsInWins(user, project, plugin, w);
  }

  lemma WinsInWins(user: seq<HookDefinition>, project: seq<HookDefinition>, plugin: seq<HookDefinition>, w: nat)
    requires Loaded(project, plugin) && w < |plugin| + |project| + |user| && WinsIn(user, project, plugin, w)
    ensures var ds, a, b := Declarations(user, project, plugin), |plugin|, |plugin| + |project|;
            && w < |ds| && Wins(ds, w)
            && ds[w].def == if w < a then plugin[w] else if w < b then project[w - a] else user[w - b]
  {
    DeclaredAt(user, project, plugin, w);
    WinnersByLayer(user, project, plugin, w);
  }

  lemma WinnerIsChosen(user: seq<HookDefinition>, project: seq<HookDefinition>, plugin: seq<HookDefinition>, w: nat)
    requires Loaded(project, plugin)
    requires w < |Declarations(user, project, plugin)| && Wins(Declarations(user, project, plugin), w)
    ensures Chosen(user, project, plugin, Declarations(user, project, plugin)[w].def)
    ensures var m := Declarations(user, project, plugin)[w];
            && (m.rank == 2 <==> Named(user, m.def.name))
            && (m.rank == 1 <==> Named(project, m.def.name) && !Named(user, m.def.name))
  {
    var a, b := |plugin|, |plugin| + |project|;
    assert |Declarations(user, project, plugin)| == b + |user|;
    DeclaredAt(user, project, plugin, w);
    WinnersByLayer(user, project, plugin, w);
    var def := Declarations(user, project, plugin)[w].def;
    if w < a {
      assert FirstOf(plugin, w) && plugin[w] == def;
    } else if w < b {
      assert FirstOf(project, w - a) && project[w - a] == def;
    } else {
      assert FirstOf(user, w - b) && user[w - b] == def;
    }
  }

  /**
   A definition is registered exactly if it is the user's first of its name, or the project's first and the user has
   none of that name, or the first plugin's and neither has; and no name is registered twice.
   */
  lemma RegisteredExactly(
    r: Registry, user: seq<HookDefinition>, project: seq<HookDefinition>, plugin: seq<HookDefinition>,
    def: HookDefinition)
    requires Registers(r, Declarations(user, project, plugin)) && Loaded(project, plugin)
    ensures def in r.defs <==> Chosen(user, project, plugin, def)
    ensures forall i, j | 0 <= i < j < |r.defs| :: r.defs[i].name != r.defs[j].name
  {
    var ds := Declarations(user, project, plugin);
    var ms: seq<Declared> :| IsMerge(ds, ms) && r.defs == Definitions(ms);
    DistinctDefinitions(ms);
    if def in r.defs {
      MergedIsChosen(user, project, plugin, ms, def);
    }
    if Chosen(user, project, plugin, def) {
      ChosenIsMerged(user, project, plugin, ms, def);
    }
  }

  lemma MergedIsChosen(
    user: seq<HookDefinition>, project: seq<HookDefinition>, plugin: seq<HookDefinition>, ms: seq<Declared>,
    def: HookDefinition)
    requires IsMerge(Declarations(user, project, plugin), ms) && Loaded(project, plugin) && def in Definitions(ms)
    ensures Chosen(user, project, plugin, def)
  {
    var j :| 0 <= j < |ms| && Definitions(ms)[j] == def;
    var w := PlaceOf(Declarations(user, project, plugin), ms, j);
    WinnerIsChosen(user, project, plugin, w);
  }

  lemma ChosenIsMerged(
    user: seq<HookDefinition>, project: seq<HookDefinition>, plugin: seq<HookDefinition>, ms: seq<Declared>,
    def: HookDefinition)
    requires IsMerge(Declarations(user, project, plugin), ms)
    requires Loaded(project, plugin) && Chosen(user, project, plugin, def)
    ensures def in Definitions(ms)
  {
    var ds := Declarations(user, project, plugin);
    var w := ChosenWins(user, project, plugin, def);
    assert IsWinner(ds, ds[w]);
    WinnerIsMerged(ds, ms, ds[w]);
    var j :| 0 <= j < |ms| && ms[j] == ds[w];
    assert Definitions(ms)[j] == def;
  }

  /**
   What the condition on scopes is for: a plugin's first definition of a name that claims the user's scope is registered
   whatever the user and the project declare.
   */
  lemma ClaimedScopeWins(
    r: Registry, user: seq<HookDefinition>, project: seq<HookDefinition>, plugin: seq<HookDefinition>, n: nat)
    requires Registers(r, Declarations(user, project, plugin)) && FirstOf(plugin, n) && plugin[n].scope.User?
    ensures plugin[n] in r.defs
  {
    var ds := Declarations(user, project, plugin);
    var ms: seq<Declared> :| IsMerge(ds, ms) && r.defs == Definitions(ms);
    assert ds[n] == Declared(plugin[n], 2);
    assert forall j | 0 <= j < n :: ds[j].def == plugin[j];
    assert Wins(ds, n);
    assert IsWinner(ds, ds[n]);
    WinnerIsMerged(ds, ms, ds[n]);
    var j :| 0 <= j < |ms| && ms[j] == ds[n];
    assert r.defs[j] == plugin[n];
  }

  /** A definition is asked about an event exactly if it is registered and names the event. */
  lemma SubscribedExactly(
    r: Registry, user: seq<HookDefinition>, project: seq<HookDefinition>, plugin: seq<HookDefinition>,
    kind: HookEventKind, def: HookDefinition)
    requires Registers(r, Declarations(user, project, plugin)) && Loaded(project, plugin)
    ensures def in r.Subscribers(kind) <==> Chosen(user, project, plugin, def) && kind in def.events
  {
    RegisteredExactly(r, user, project, plugin, def);
    BucketCounts(r.defs, kind, def);
    NamedEvents(def.events, kind);
    assert def in r.Subscribers(kind) <==> multiset(r.Subscribers(kind))[def] > 0;
  }

  /**
   Whoever is asked about an event: definitions of names that the user has come first, then those of names that the
   project has, and last the plugins'.
   */
  lemma LayersAreAskedInOrder(
    r: Registry, user: seq<HookDefinition>, project: seq<HookDefinition>, plugin: seq<HookDefinition>,
    kind: HookEventKind, i: nat, j: nat)
    requires Registers(r, Declarations(user, project, plugin)) && Loaded(project, plugin)
    requires i <= j < |r.Subscribers(kind)|
    ensures var first, second := r.Subscribers(kind)[i].name, r.Subscribers(kind)[j].name;
            && (Named(user, second) ==> Named(user, first))
            && (Named(project, second) ==> Named(user, first) || Named(project, first))
  {
    var ds := Declarations(user, project, plugin);
    var x, y := BucketFollowsOrder(r.defs, kind, i, j);
    var ms: seq<Declared> :| IsMerge(ds, ms) && r.defs == Definitions(ms);
    RankIsLayer(user, project, plugin, ms, x);
    RankIsLayer(user, project, plugin, ms, y);
    EarlierRanksHigher(ds, ms, x, y);
  }

  lemma RankIsLayer(
    user: seq<HookDefinition>, project: seq<HookDefinition>, plugin: seq<HookDefinition>, ms: seq<Declared>, x: nat)
    requires IsMerge(Declarations(user, project, plugin), ms) && Loaded(project, plugin) && x < |ms|
    ensures ms[x].rank == 2 <==> Named(user, ms[x].def.name)
    ensures ms[x].rank == 1 <==> Named(project, ms[x].def.name) && !Named(user, ms[x].def.name)
  {
    var w := PlaceOf(Declarations(user, project, plugin), ms, x);
    WinnerIsChosen(user, project, plugin, w);
  }

  lemma EarlierRanksHigher(ds: seq<Declared>, ms: seq<Declared>, x: nat, y: nat)
    requires IsMerge(ds, ms) && x <= y < |ms|
    ensures ms[x].rank >= ms[y].rank
  {
    assert x < y ==> Before(ds, ms[x], ms[y]);
  }

  lemma PlaceOf(ds: seq<Declared>, ms: seq<Declared>, x: nat) returns (w: nat)
    requires IsMerge(ds, ms) && x < |ms|
    ensures w < |ds| && ds[w] == ms[x] && Wins(ds, w)
  {
    assert IsWinner(ds, ms[x]);
    w :| 0 <= w < |ds| && ds[w] == ms[x] && Wins(ds, w);
  }

  // ----- when a tool is refused -----

  /** The hook is asked about this tool call: subagents and other tools only if it says so. */
  predicate Asked(def: HookDefinition, depth: nat, tool: string, isMatch: (string, string) -> bool) {
    && ToolPre in def.events
    && (depth == 0 || def.includeSubagents)
    && match def.matchTool
       case None => true
       case Some(pattern) => isMatch(pattern, tool)
  }

  /** Its answer stops the tool: it said so, or it ended without an answer, not well, and blocks on failure. */
  predicate Stops(def: HookDefinition, result: Executed) {
    match result.outcome
    case Some(outcome) => outcome.blocks
    case None => result.raw != Code(0) && def.onFailure.Block?
  }

  /** The reason that is passed on. */
  function Reason(result: Executed): string {
    match result.outcome
    case Some(outcome) => (match outcome.reason case Some(reason) => reason case None => "blocked by hook")
    case None => "hook failed (" + result.description + ") with on_failure=block"
  }

  ghost predicate Objects(
    user: seq<HookDefinition>, project: seq<HookDefinition>, plugin: seq<HookDefinition>, depth: nat, tool: string,
    isMatch: (string, string) -> bool, run: HookDefinition -> Executed, def: HookDefinition)
  {
    Chosen(user, project, plugin, def) && Asked(def, depth, tool, isMatch) && Stops(def, run(def))
  }

  /**
   The gate from the layers to the verdict: a tool is refused exactly if some chosen definition is asked about the call
   and stops it, and then in the name and with the reason of one that does.
   */
  lemma GateRefusesExactly(
    r: Registry, user: seq<HookDefinition>, project: seq<HookDefinition>, plugin: seq<HookDefinition>, depth: nat,
    tool: string, isMatch: (string, string) -> bool, run: HookDefinition -> Executed, verdict: ToolGateVerdict)
    requires Registers(r, Declarations(user, project, plugin)) && Loaded(project, plugin)
    requires var defs := Filter(r.Subscribers(ToolPre), depth, Some(tool), isMatch);
             IsVerdict(defs, Answers(defs, run), verdict)
    ensures verdict.Block? <==> exists def :: Objects(user, project, plugin, depth, tool, isMatch, run, def)
    ensures verdict.Block? ==>
              exists def :: Objects(user, project, plugin, depth, tool, isMatch, run, def)
                && verdict == ToolGateVerdict.Block(def.name, Reason(run(def)))
  {
    if verdict.Block? {
      var def := RefusalIsBacked(r, user, project, plugin, depth, tool, isMatch, run, verdict);
    }
    if def :| Objects(user, project, plugin, depth, tool, isMatch, run, def) {
      ObjectionRefuses(r, user, project, plugin, depth, tool, isMatch, run, verdict, def);
    }
  }

  lemma RefusalIsBacked(
    r: Registry, user: seq<HookDefinition>, project: seq<HookDefinition>, plugin: seq<HookDefinition>, depth: nat,
    tool: string, isMatch: (string, string) -> bool, run: HookDefinition -> Executed, verdict: ToolGateVerdict)
    returns (def: HookDefinition)
    requires Registers(r, Declarations(user, project, plugin)) && Loaded(project, plugin)
    requires var defs := Filter(r.Subscribers(ToolPre), depth, Some(tool), isMatch);
             IsVerdict(defs, Answers(defs, run), verdict) && verdict.Block?
    ensures Objects(user, project, plugin, depth, tool, isMatch, run, def)
    ensures verdict == ToolGateVerdict.Block(def.name, Reason(run(def)))
  {
    var defs := Filter(r.Subscribers(ToolPre), depth, Some(tool), isMatch);
    var n :| FirstBlocker(defs, Answers(defs, run), n) && verdict.hook == defs[n].name
             && verdict.reason == ReasonOf(Answers(defs, run)[n]);
    var k, _ := FilterKeepsOrder(r.Subscribers(ToolPre), depth, Some(tool), isMatch, n, n);
    def := defs[n];
    SubscribedExactly(r, user, project, plugin, ToolPre, def);
  }

  lemma ObjectionRefuses(
    r: Registry, user: seq<HookDefinition>, project: seq<HookDefinition>, plugin: seq<HookDefinition>, depth: nat,
    tool: string, isMatch: (string, string) -> bool, run: HookDefinition -> Executed, verdict: ToolGateVerdict,
    def: HookDefinition)
    requires Registers(r, Declarations(user, project, plugin)) && Loaded(project, plugin)
    requires var defs := Filter(r.Subscribers(ToolPre), depth, Some(tool), isMatch);
             IsVerdict(defs, Answers(defs, run), verdict)
    requires Objects(user, project, plugin, depth, tool, isMatch, run, def)
    ensures verdict.Block?
  {
    var defs := Filter(r.Subscribers(ToolPre), depth, Some(tool), isMatch);
    SubscribedExactly(r, user, project, plugin, ToolPre, def);
    FilterKeepsAllMatching(r.Subscribers(ToolPre), depth, Some(tool), isMatch, def);
    assert def in multiset(defs);
    var n :| 0 <= n < |defs| && defs[n] == def;
    assert Blocks(defs[n], Answers(defs, run)[n]);
  }
}
