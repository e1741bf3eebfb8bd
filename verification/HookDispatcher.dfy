/** Dispatching hooks (`agent/hook-core/src/dispatcher.rs`); what a hook answers and what a pattern matches is given. */
module HookDispatcher {
  import opened Wrappers
  import opened HookRegistry
  import opened HookDrain

  datatype RawExit = Code(code: int) | Timeout | SpawnError(error: string) {
    predicate IsFailure() {
      this != Code(0)
    }
  }

  /** The answer of one hook; `description` is the text for its exit. */
  datatype Executed = Executed(raw: RawExit, description: string, outcome: Option<HookOutcome>)

  datatype ToolGateVerdict = Allow | Block(hook: string, reason: string)

  /** Depth and tool filter; `isMatch(pattern, tool)` is the pattern's verdict. */
  predicate Matches(def: HookDefinition, depth: nat, tool: Option<string>, isMatch: (string, string) -> bool) {
    && (depth > 0 ==> def.includeSubagents)
    && (def.matchTool.Some? ==> tool.Some? && isMatch(def.matchTool.value, tool.value))
  }

  function Filter(defs: seq<HookDefinition>, depth: nat, tool: Option<string>, isMatch: (string, string) -> bool)
    : seq<HookDefinition>
  {
    if defs == [] then []
    else
      var n := |defs| - 1;
      Filter(defs[..n], depth, tool, isMatch) + if Matches(defs[n], depth, tool, isMatch) then [defs[n]] else []
  }

  /** The filter keeps exactly the matching positions, in order. */
  lemma {:induction false} FilterKeepsOrder(
    defs: seq<HookDefinition>, depth: nat, tool: Option<string>, isMatch: (string, string) -> bool, i: nat, j: nat)
    returns (n: nat, m: nat)
    requires i <= j < |Filter(defs, depth, tool, isMatch)|
    ensures n <= m < |defs| && (i < j ==> n < m)
    ensures Filter(defs, depth, tool, isMatch)[i] == defs[n] && Filter(defs, depth, tool, isMatch)[j] == defs[m]
    ensures Matches(defs[n], depth, tool, isMatch) && Matches(defs[m], depth, tool, isMatch)
  {
    var last := |defs| - 1;
    var rest := Filter(defs[..last], depth, tool, isMatch);
    if j < |rest| {
      n, m := FilterKeepsOrder(defs[..last], depth, tool, isMatch, i, j);
    } else if i < |rest| {
      n, m := FilterKeepsOrder(defs[..last], depth, tool, isMatch, i, i);
      m := last;
    } else {
      n, m := last, last;
    }
  }

  lemma {:induction false} FilterKeepsAllMatching(
    defs: seq<HookDefinition>, depth: nat, tool: Option<string>, isMatch: (string, string) -> bool, def: HookDefinition)
    ensures multiset(Filter(defs, depth, tool, isMatch))[def] ==
            if Matches(def, depth, tool, isMatch) then multiset(defs)[def] else 0
  {
    if defs != [] {
      var n := |defs| - 1;
      FilterKeepsAllMatching(defs[..n], depth, tool, isMatch, def);
      assert defs == defs[..n] + [defs[n]];
    }
  }

  /** The hook's answer stops the tool: it said so, or it failed without an answer and asked for that. */
  predicate Blocks(def: HookDefinition, result: Executed) {
    if result.outcome.Some? then result.outcome.value.blocks
    else result.raw.IsFailure() && def.onFailure == OnFailure.Block
  }

  function ReasonOf(result: Executed): string {
    if result.outcome.Some? then result.outcome.value.reason.UnwrapOr("blocked by hook")
    else "hook failed (" + result.description + ") with on_failure=block"
  }

  /** The item an asynchronous answer leaves in the queue, if the thread has one. */
  ghost predicate IsRecord(def: HookDefinition, result: Executed, item: Option<DrainItem>) {
    match result.outcome
    case Some(outcome) =>
      && (item.Some? <==> outcome.additionalContext.Some? || outcome.userMessage.Some?)
      && (item.Some? ==>
            && item.value.hook == def.name && !item.value.kind.Failed?
            && (item.value.kind.Context? <==> outcome.additionalContext.Some?)
            && var text := if item.value.kind.Context? then outcome.additionalContext.value
                           else outcome.userMessage.value;
               IsTruncated(text, CONTEXT_TRUNC_BYTES, item.value.kind.text))
    case None =>
      && (item.Some? <==> result.raw.IsFailure() && def.onFailure != Ignore)
      && (item.Some? ==>
            && item.value.hook == def.name && item.value.kind.Failed?
            && IsTruncated(result.description, CONTEXT_TRUNC_BYTES, item.value.kind.text))
  }

  /** The queues by thread key. */
  type Drains = map<string, Queue>

  /** A queue that is first needed here comes from `Default`: its capacity is 0, not `QUEUE_CAP`. */
  function PushedDrain(drains: Drains, key: string, item: DrainItem): Drains {
    drains[key := Pushed(if key in drains then drains[key] else Queue([], 0), item)]
  }

  function TakenDrain(drains: Drains, key: string): Drains {
    if key in drains then drains[key := Queue([], drains[key].cap)] else drains
  }

  function PendingItems(drains: Drains, key: string): seq<DrainItem> {
    if key in drains then drains[key].items else []
  }

  class HookDispatcher {
    var registry: Registry
    var drains: map<string, DrainQueue>

    ghost predicate Valid()
      reads this
    {
      forall k, l | k in drains && l in drains && k != l :: drains[k] != drains[l]
    }

    ghost function View(): Drains
      reads this, drains.Values
    {
      map k | k in drains :: drains[k].View()
    }

    constructor (registry: Registry)
      ensures Valid() && this.registry == registry && drains == map[]
    {
      this.registry, drains := registry, map[];
    }

    method Rebuild(user: seq<HookDefinition>, project: seq<HookDefinition>, plugin: seq<HookDefinition>)
      modifies this`registry
      ensures Registers(registry, Declarations(user, project, plugin))
    {
      registry := FromLayers(user, project, plugin);
    }

    method MatchedSubscribers(
      kind: HookEventKind, depth: nat, tool: Option<string>, isMatch: (string, string) -> bool)
      returns (defs: seq<HookDefinition>)
      ensures defs == Filter(registry.Subscribers(kind), depth, tool, isMatch)
    {
      var all := registry.Subscribers(kind);
      defs := [];
      for n := 0 to |all|
        invariant defs == Filter(all[..n], depth, tool, isMatch)
      {
        assert all[..n + 1][..n] == all[..n];
        if Matches(all[n], depth, tool, isMatch) {
          defs := defs + [all[n]];
        }
      }
      assert all[..|all|] == all;
    }

    /** The verdict over the answers of the matched hooks: the first that blocks, in their order. */
    method Judge(defs: seq<HookDefinition>, results: seq<Executed>) returns (verdict: ToolGateVerdict)
      requires |results| == |defs|
      ensures IsVerdict(defs, results, verdict)
    {
      for n := 0 to |defs|
        invariant forall i | 0 <= i < n :: !Blocks(defs[i], results[i])
      {
        if results[n].outcome.Some? {
          if results[n].outcome.value.blocks {
            return ToolGateVerdict.Block(defs[n].name, results[n].outcome.value.reason.UnwrapOr("blocked by hook"));
          }
        } else if results[n].raw.IsFailure() && defs[n].onFailure == OnFailure.Block {
          return ToolGateVerdict.Block(defs[n].name, "hook failed (" + results[n].description
              + ") with on_failure=block");
        }
      }
      return Allow;
    }

    /** `run` is the executor: one answer for every hook, whatever order they end in. */
    method GateTool(
      depth: nat, tool: string, isMatch: (string, string) -> bool, run: HookDefinition -> Executed)
      returns (verdict: ToolGateVerdict)
      ensures var defs := Filter(registry.Subscribers(ToolPre), depth, Some(tool), isMatch);
              IsVerdict(defs, Answers(defs, run), verdict)
    {
      var defs := MatchedSubscribers(ToolPre, depth, Some(tool), isMatch);
      if defs == [] {
        return Allow;
      }
      verdict := Judge(defs, Answers(defs, run));
    }

    method PushDrain(key: string, item: DrainItem)
      requires Valid()
      modifies this`drains, drains.Values
      ensures Valid() && View() == PushedDrain(old(View()), key, item)
      ensures forall q | q in drains.Values :: q in old(drains.Values) || fresh(q)
    {
      if key !in drains {
        var queue := new DrainQueue(0);
        drains := drains[key := queue];
      }
      drains[key].Push(item);
    }

    method TakeDrain(key: string) returns (text: Option<string>)
      requires Valid()
      modifies drains.Values
      ensures Valid() && View() == TakenDrain(old(View()), key)
      ensures text.None? <==> PendingItems(old(View()), key) == []
      ensures text.Some? ==>
                var items := PendingItems(old(View()), key);
                exists from :: KeepsFrom(items, from) && text == Some(Rendered(items, from))
    {
      if key !in drains {
        return None;
      }
      var items := drains[key].TakeAll();
      text := Render(items);
    }

    method RecordAsyncResult(def: HookDefinition, result: Executed, key: Option<string>)
      returns (ghost item: Option<DrainItem>)
      requires Valid()
      modifies this`drains, drains.Values
      ensures Valid() && IsRecord(def, result, item)
      ensures View() == if item.Some? && key.Some? then PushedDrain(old(View()), key.value, item.value) else old(View())
    {
      if result.outcome.Some? {
        var made := FromOutcome(def.name, result.outcome.value);
        item := made;
        if made.Some? && key.Some? {
          PushDrain(key.value, made.value);
        }
        return;
      }
      item := None;
      if result.raw.IsFailure() && def.onFailure != Ignore {
        var made := FromFailure(def.name, result.description);
        item := Some(made);
        if key.Some? {
          PushDrain(key.value, made);
        }
      }
    }
  }

  function Answers(defs: seq<HookDefinition>, run: HookDefinition -> Executed): seq<Executed> {
    seq(|defs|, n requires 0 <= n < |defs| => run(defs[n]))
  }

  /** `Block` names the first hook that blocks and gives its reason; `Allow` means that none does. */
  ghost predicate IsVerdict(defs: seq<HookDefinition>, results: seq<Executed>, verdict: ToolGateVerdict)
    requires |results| == |defs|
  {
    match verdict
    case Allow => forall n | 0 <= n < |defs| :: !Blocks(defs[n], results[n])
    case Block(hook, reason) =>
      exists n :: FirstBlocker(defs, results, n) && hook == defs[n].name && reason == ReasonOf(results[n])
  }

  predicate FirstBlocker(defs: seq<HookDefinition>, results: seq<Executed>, n: int)
    requires |results| == |defs|
  {
    0 <= n < |defs| && Blocks(defs[n], results[n]) && forall i | 0 <= i < n :: !Blocks(defs[i], results[i])
  }

  /**
   The gate and the merge together: the hook named in a refusal is a winner of the merge that names the event, and of
   all winners that block it has the highest rank.
   */
  lemma RefusalComesFromTheTop(
    r: Registry, ds: seq<Declared>, depth: nat, tool: string, isMatch: (string, string) -> bool,
    run: HookDefinition -> Executed, verdict: ToolGateVerdict, m: Declared)
    requires Registers(r, ds)
    requires var defs := Filter(r.Subscribers(ToolPre), depth, Some(tool), isMatch);
             IsVerdict(defs, Answers(defs, run), verdict)
    requires IsWinner(ds, m) && ToolPre in m.def.events && Matches(m.def, depth, Some(tool), isMatch)
    requires Blocks(m.def, run(m.def))
    ensures verdict.Block?
    ensures exists b :: IsWinner(ds, b) && b.def.name == verdict.hook && b.rank >= m.rank && Blocks(b.def, run(b.def))
                        && verdict.reason == ReasonOf(run(b.def))
  {
    var all := r.Subscribers(ToolPre);
    var defs := Filter(all, depth, Some(tool), isMatch);
    var j := WinnerIsMatched(r, ds, depth, tool, isMatch, m);
    assert Blocks(defs[j], Answers(defs, run)[j]);
    assert verdict.Block?;
    var i :| FirstBlocker(defs, Answers(defs, run), i) && verdict.hook == defs[i].name
             && verdict.reason == ReasonOf(Answers(defs, run)[i]);
    assert i <= j;
    var n, k := FilterKeepsOrder(all, depth, Some(tool), isMatch, i, j);
    var b := EarlierOutranks(r, ds, ToolPre, n, k, m);
    assert b.def == defs[i];
  }

  lemma WinnerIsMatched(
    r: Registry, ds: seq<Declared>, depth: nat, tool: string, isMatch: (string, string) -> bool, m: Declared)
    returns (j: nat)
    requires Registers(r, ds)
    requires IsWinner(ds, m) && ToolPre in m.def.events && Matches(m.def, depth, Some(tool), isMatch)
    ensures var defs := Filter(r.Subscribers(ToolPre), depth, Some(tool), isMatch); j < |defs| && defs[j] == m.def
  {
    WinnersAreSubscribed(r, ds, ToolPre, m);
    NamedEvents(m.def.events, ToolPre);
    FilterKeepsAllMatching(r.Subscribers(ToolPre), depth, Some(tool), isMatch, m.def);
    var defs := Filter(r.Subscribers(ToolPre), depth, Some(tool), isMatch);
    assert m.def in multiset(defs);
    j :| 0 <= j < |defs| && defs[j] == m.def;
  }

  /** A winner stands at one place in the merge only. */
  lemma WinnerStandsAt(ds: seq<Declared>, ms: seq<Declared>, y: nat, m: Declared)
    requires OneWinnerEach(ds, ms) && IsWinner(ds, m) && y < |ms| && ms[y].def == m.def
    ensures ms[y] == m
  {
    WinnerIsMerged(ds, ms, m);
    var z :| 0 <= z < |ms| && ms[z] == m;
    assert ms[z].def.name == ms[y].def.name;
  }

  /** In a bucket, what stands earlier has at least the rank of what stands later. */
  lemma EarlierOutranks(
    r: Registry, ds: seq<Declared>, kind: HookEventKind, n: nat, k: nat, m: Declared) returns (b: Declared)
    requires Registers(r, ds) && n <= k < |r.Subscribers(kind)| && r.Subscribers(kind)[k] == m.def && IsWinner(ds, m)
    ensures IsWinner(ds, b) && b.def == r.Subscribers(kind)[n] && b.rank >= m.rank
  {
    var x, y := BucketFollowsOrder(r.defs, kind, n, k);
    var ms: seq<Declared> :| IsMerge(ds, ms) && r.defs == Definitions(ms);
    WinnerStandsAt(ds, ms, y, m);
    b := EarlierInMerge(ds, ms, x, y);
  }

  lemma EarlierInMerge(ds: seq<Declared>, ms: seq<Declared>, x: nat, y: nat) returns (b: Declared)
    requires IsMerge(ds, ms) && x <= y < |ms|
    ensures b == ms[x] && IsWinner(ds, b) && b.rank >= ms[y].rank
  {
    b := ms[x];
    assert IsWinner(ds, ms[x]);
    assert x < y ==> Before(ds, ms[x], ms[y]);
  }

  /**
   A hook that fails without an answer is reported unless its failures are to be ignored; asking to block counts as a
   warning here. When there is an answer the policy does not matter, and an answer without text leaves nothing.
   */
  lemma FailuresAreReportedExactly(def: HookDefinition, result: Executed, item: Option<DrainItem>)
    requires IsRecord(def, result, item)
    ensures result.outcome.None? ==>
              && (item.Some? <==> result.raw != Code(0) && (def.onFailure.Warn? || def.onFailure.Block?))
              && (item.Some? ==> item.value.kind.Failed? && item.value.hook == def.name)
    ensures result.outcome.Some? ==>
              && forall policy :: IsRecord(def.(onFailure := policy), result, item)
    ensures result.outcome.Some? ==>
              var outcome := result.outcome.value;
              outcome.additionalContext.None? && outcome.userMessage.None? ==> item.None?
  {
  }

  // ----- queues over whole histories -----

  datatype DrainStep = Push(key: string, item: DrainItem) | Take(key: string)

  function Stepped(drains: Drains, step: DrainStep): Drains {
    match step
    case Push(key, item) => PushedDrain(drains, key, item)
    case Take(key) => TakenDrain(drains, key)
  }

  function AfterSteps(steps: seq<DrainStep>): Drains {
    if steps == [] then map[] else Stepped(AfterSteps(steps[..|steps| - 1]), steps[|steps| - 1])
  }

  /** What waits for `key` after one more step, when nothing is evicted. */
  function Awaited(waiting: seq<DrainItem>, step: DrainStep, key: string): seq<DrainItem> {
    if step.key != key then waiting else if step.Take? then [] else waiting + [step.item]
  }

  /** What was pushed for `key` since it was last taken. */
  function Waiting(steps: seq<DrainStep>, key: string): seq<DrainItem> {
    if steps == [] then [] else Awaited(Waiting(steps[..|steps| - 1], key), steps[|steps| - 1], key)
  }

  /** The queue of `key`, if there is one, has capacity 0 and holds the newest of what waits. */
  predicate HoldsNewest(drains: Drains, key: string, waiting: seq<DrainItem>) {
    && PendingItems(drains, key) == Newest(waiting, 1)
    && (key in drains ==> drains[key].cap == 0)
  }

  lemma StepKeepsNewest(drains: Drains, key: string, waiting: seq<DrainItem>, step: DrainStep)
    requires HoldsNewest(drains, key, waiting)
    ensures HoldsNewest(Stepped(drains, step), key, Awaited(waiting, step, key))
  {
    if step.key == key && step.Push? {
      PushKeepsNewest(drains, key, waiting, step.item);
    }
  }

  lemma PushKeepsNewest(drains: Drains, key: string, waiting: seq<DrainItem>, item: DrainItem)
    requires HoldsNewest(drains, key, waiting)
    ensures HoldsNewest(PushedDrain(drains, key, item), key, waiting + [item])
  {
    assert Newest(waiting + [item], 1) == [item];
  }

  /** A dispatcher keeps one item per thread, the newest: the queue's capacity of 32 is never in force. */
  lemma {:induction false} OnlyTheNewestWaits(steps: seq<DrainStep>, key: string)
    ensures HoldsNewest(AfterSteps(steps), key, Waiting(steps, key))
  {
    if steps != [] {
      var n := |steps| - 1;
      OnlyTheNewestWaits(steps[..n], key);
      StepKeepsNewest(AfterSteps(steps[..n]), key, Waiting(steps[..n], key), steps[n]);
    }
  }

  /** Nothing is lost between two turns exactly when at most one item arrives. */
  lemma NothingLostExactly(steps: seq<DrainStep>, key: string)
    ensures PendingItems(AfterSteps(steps), key) == Waiting(steps, key) <==> |Waiting(steps, key)| <= 1
  {
    OnlyTheNewestWaits(steps, key);
  }
}
