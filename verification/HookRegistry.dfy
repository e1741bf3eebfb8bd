/** Merging the hook layers and indexing them by event (`agent/hook-core/src/registry.rs`). */
module HookRegistry {
  import opened Wrappers

  datatype HookEventKind =
    SessionStart | TurnStart | TurnEnd | ToolPre | ToolPost | CompactBefore | CompactAfter | ThreadIdle

  datatype OnFailure = Warn | Ignore | Block

  datatype HookScope = User | Project | Plugin(id: string)

  /** `matchTool` is the tool pattern; `action` stands for everything the executor needs. */
  datatype HookDefinition = HookDefinition(
    name: string,
    events: seq<HookEventKind>,
    matchTool: Option<string>,
    action: string,
    onFailure: OnFailure,
    includeSubagents: bool,
    scope: HookScope)

  /** Layer rank: plugin 0, project 1, user 2. */
  type Rank = r: nat | r < 3

  function RankOf(scope: HookScope): Rank {
    match scope
    case User => 2
    case Project => 1
    case Plugin(_) => 0
  }

  /** A definition with the higher of its own rank and that of the layer it came in. */
  datatype Declared = Declared(def: HookDefinition, rank: Rank)

  function Declare(def: HookDefinition, layer: Rank): Declared {
    Declared(def, if RankOf(def.scope) < layer then layer else RankOf(def.scope))
  }

  function DeclareAll(layer: seq<HookDefinition>, rank: Rank): seq<Declared> {
    seq(|layer|, n requires 0 <= n < |layer| => Declare(layer[n], rank))
  }

  /** All declarations in the order in which they are merged. */
  function Declarations(
    user: seq<HookDefinition>, project: seq<HookDefinition>, plugin: seq<HookDefinition>): seq<Declared> {
    DeclareAll(plugin, 0) + DeclareAll(project, 1) + DeclareAll(user, 2)
  }

  // ----- what the merge should give -----

  /** `w` is the earliest of the highest-ranked declarations of its name. */
  predicate Wins(ds: seq<Declared>, w: nat)
    requires w < |ds|
  {
    forall j | 0 <= j < |ds| && ds[j].def.name == ds[w].def.name ::
      ds[j].rank < ds[w].rank || (ds[j].rank == ds[w].rank && w <= j)
  }

  /** `f` is the first declaration of its name. */
  predicate IsFirst(ds: seq<Declared>, f: nat)
    requires f < |ds|
  {
    forall j | 0 <= j < f :: ds[j].def.name != ds[f].def.name
  }

  function FirstSeen(ds: seq<Declared>, name: string): nat {
    if ds == [] || ds[0].def.name == name then 0 else 1 + FirstSeen(ds[1..], name)
  }

  lemma {:induction false} FirstSeenIsFirst(ds: seq<Declared>, name: string, j: nat)
    requires j < |ds| && ds[j].def.name == name
    ensures FirstSeen(ds, name) <= j && ds[FirstSeen(ds, name)].def.name == name
    ensures IsFirst(ds, FirstSeen(ds, name))
  {
    if ds[0].def.name != name {
      var rest := ds[1..];
      FirstSeenIsFirst(rest, name, j - 1);
      var f := FirstSeen(rest, name);
      assert ds[1 + f] == rest[f];
      forall i | 0 <= i < 1 + f ensures ds[i].def.name != ds[1 + f].def.name {
        if i > 0 {
          assert ds[i] == rest[i - 1];
        }
      }
    }
  }

  /** Higher rank first; equal ranks in the order in which their names were first seen. */
  predicate Before(ds: seq<Declared>, a: Declared, b: Declared) {
    a.rank > b.rank || (a.rank == b.rank && FirstSeen(ds, a.def.name) < FirstSeen(ds, b.def.name))
  }

  ghost predicate IsWinner(ds: seq<Declared>, m: Declared) {
    exists w :: 0 <= w < |ds| && ds[w] == m && Wins(ds, w)
  }

  predicate Names(ms: seq<Declared>, name: string) {
    exists j :: 0 <= j < |ms| && ms[j].def.name == name
  }

  /** One winner for every name, and nothing else. */
  ghost predicate OneWinnerEach(ds: seq<Declared>, ms: seq<Declared>) {
    && (forall j | 0 <= j < |ms| :: IsWinner(ds, ms[j]))
    && (forall i | 0 <= i < |ds| :: Names(ms, ds[i].def.name))
    && (forall i, j | 0 <= i < j < |ms| :: ms[i].def.name != ms[j].def.name)
  }

  ghost predicate Ordered(ds: seq<Declared>, ms: seq<Declared>) {
    forall i, j | 0 <= i < j < |ms| :: Before(ds, ms[i], ms[j])
  }

  /** The merge of the declarations `ds`. */
  ghost predicate IsMerge(ds: seq<Declared>, ms: seq<Declared>) {
    OneWinnerEach(ds, ms) && Ordered(ds, ms)
  }

  lemma SameNameSameWinner(ds: seq<Declared>, v: nat, w: nat)
    requires v < |ds| && w < |ds| && Wins(ds, v) && Wins(ds, w) && ds[v].def.name == ds[w].def.name
    ensures v == w
  {
  }

  lemma WinnerIsMerged(ds: seq<Declared>, ms: seq<Declared>, m: Declared)
    requires OneWinnerEach(ds, ms) && IsWinner(ds, m)
    ensures m in ms
  {
    var w :| 0 <= w < |ds| && ds[w] == m && Wins(ds, w);
    assert Names(ms, ds[w].def.name);
    var i :| 0 <= i < |ms| && ms[i].def.name == ds[w].def.name;
    assert IsWinner(ds, ms[i]);
    var v :| 0 <= v < |ds| && ds[v] == ms[i] && Wins(ds, v);
    SameNameSameWinner(ds, v, w);
  }

  /** Two strictly ordered sequences with the same members are the same. */
  lemma {:induction false} SortedSame(ds: seq<Declared>, ms: seq<Declared>, ns: seq<Declared>)
    requires Ordered(ds, ms) && Ordered(ds, ns)
    requires (forall m | m in ms :: m in ns) && (forall n | n in ns :: n in ms)
    ensures ms == ns
  {
    assert ns != [] ==> ns[0] in ms;
    if ms != [] {
      assert ms[0] in ns && ns != [] && ns[0] in ms;
      assert ms[0] == ns[0];
      forall m | m in ms[1..] ensures m in ns[1..] {
        var j :| 0 <= j < |ms[1..]| && ms[1..][j] == m;
        assert Before(ds, ms[0], ms[j + 1]) && ms[j + 1] == m && m in ms;
        assert m in ns && m != ns[0];
      }
      forall n | n in ns[1..] ensures n in ms[1..] {
        var j :| 0 <= j < |ns[1..]| && ns[1..][j] == n;
        assert Before(ds, ns[0], ns[j + 1]) && ns[j + 1] == n && n in ns;
        assert n in ms && n != ms[0];
      }
      SortedSame(ds, ms[1..], ns[1..]);
    }
  }

  /** The description leaves no choice. */
  lemma MergeIsUnique(ds: seq<Declared>, ms: seq<Declared>, ns: seq<Declared>)
    requires IsMerge(ds, ms) && IsMerge(ds, ns)
    ensures ms == ns
  {
    forall m | m in ms ensures m in ns {
      var j :| 0 <= j < |ms| && ms[j] == m;
      assert IsWinner(ds, ms[j]);
      WinnerIsMerged(ds, ns, m);
    }
    forall n | n in ns ensures n in ms {
      var j :| 0 <= j < |ns| && ns[j] == n;
      assert IsWinner(ds, ns[j]);
      WinnerIsMerged(ds, ms, n);
    }
    SortedSame(ds, ms, ns);
  }

  // ----- the merge as it is done -----

  /** `defs` with `ranks`, and `name_pos`, once the declarations `ds` are merged. */
  ghost predicate Merging(ds: seq<Declared>, ms: seq<Declared>, namePos: map<string, nat>) {
    OneWinnerEach(ds, ms) && Located(ms, namePos) && Ascending(ds, ms)
  }

  predicate Located(ms: seq<Declared>, namePos: map<string, nat>) {
    && (forall j | 0 <= j < |ms| :: ms[j].def.name in namePos && namePos[ms[j].def.name] == j)
    && (forall name | name in namePos :: namePos[name] < |ms| && ms[namePos[name]].def.name == name)
  }

  ghost predicate Ascending(ds: seq<Declared>, ms: seq<Declared>) {
    forall i, j | 0 <= i < j < |ms| :: FirstSeen(ds, ms[i].def.name) < FirstSeen(ds, ms[j].def.name)
  }

  lemma {:induction false} FirstSeenStays(ds: seq<Declared>, d: Declared, name: string)
    ensures FirstSeen(ds, name) <= |ds|
    ensures Names(ds, name) ==> FirstSeen(ds, name) < |ds| && FirstSeen(ds + [d], name) == FirstSeen(ds, name)
    ensures !Names(ds, name) && d.def.name == name ==> FirstSeen(ds + [d], name) == |ds|
  {
    if ds != [] && ds[0].def.name != name {
      assert (ds + [d])[1..] == ds[1..] + [d];
      FirstSeenStays(ds[1..], d, name);
      assert Names(ds, name) ==> Names(ds[1..], name) by {
        if Names(ds, name) {
          var j :| 0 <= j < |ds| && ds[j].def.name == name;
          assert ds[1..][j - 1].def.name == name;
        }
      }
      assert Names(ds[1..], name) ==> Names(ds, name) by {
        if Names(ds[1..], name) {
          var j :| 0 <= j < |ds[1..]| && ds[1..][j].def.name == name;
          assert ds[j + 1].def.name == name;
        }
      }
    }
  }

  /** A further declaration leaves the winners of other names, and one that does not outrank the winner of its own. */
  lemma WinnerStays(ds: seq<Declared>, d: Declared, m: Declared)
    requires IsWinner(ds, m) && (m.def.name == d.def.name ==> d.rank <= m.rank)
    ensures IsWinner(ds + [d], m)
  {
    var w :| 0 <= w < |ds| && ds[w] == m && Wins(ds, w);
    assert (ds + [d])[w] == m && Wins(ds + [d], w);
  }

  /** It wins when its name is new or it outranks the winner. */
  lemma NewcomerWins(ds: seq<Declared>, d: Declared, m: Declared)
    requires Names(ds, d.def.name) ==> IsWinner(ds, m) && m.def.name == d.def.name && m.rank < d.rank
    ensures IsWinner(ds + [d], d)
  {
    assert (ds + [d])[|ds|] == d;
    if Names(ds, d.def.name) {
      var w :| 0 <= w < |ds| && ds[w] == m && Wins(ds, w);
      assert Wins(ds + [d], |ds|);
    } else {
      assert forall j | 0 <= j < |ds| :: ds[j].def.name != d.def.name;
      assert Wins(ds + [d], |ds|);
    }
  }

  lemma PositionsStay(ds: seq<Declared>, ms: seq<Declared>, d: Declared)
    requires OneWinnerEach(ds, ms)
    requires Ascending(ds, ms)
    ensures forall j | 0 <= j < |ms| :: FirstSeen(ds + [d], ms[j].def.name) == FirstSeen(ds, ms[j].def.name) < |ds|
  {
    forall j | 0 <= j < |ms|
      ensures FirstSeen(ds + [d], ms[j].def.name) == FirstSeen(ds, ms[j].def.name) < |ds|
    {
      assert IsWinner(ds, ms[j]);
      assert Names(ds, ms[j].def.name);
      FirstSeenStays(ds, d, ms[j].def.name);
    }
  }

  lemma SameNames(ds: seq<Declared>, ms: seq<Declared>, name: string)
    requires OneWinnerEach(ds, ms)
    ensures Names(ds, name) <==> Names(ms, name)
  {
    if Names(ds, name) {
      var i :| 0 <= i < |ds| && ds[i].def.name == name;
      assert Names(ms, ds[i].def.name);
    }
    if Names(ms, name) {
      var j :| 0 <= j < |ms| && ms[j].def.name == name;
      assert IsWinner(ds, ms[j]);
    }
  }

  lemma NewWinner(ds: seq<Declared>, ms: seq<Declared>, d: Declared)
    requires OneWinnerEach(ds, ms) && !Names(ms, d.def.name)
    ensures OneWinnerEach(ds + [d], ms + [d])
  {
    SameNames(ds, ms, d.def.name);
    NewcomerWins(ds, d, d);
    forall j | 0 <= j < |ms + [d]| ensures IsWinner(ds + [d], (ms + [d])[j]) {
      if j < |ms| {
        assert IsWinner(ds, ms[j]) && Names(ms, ms[j].def.name);
        WinnerStays(ds, d, ms[j]);
      }
    }
    forall i | 0 <= i < |ds + [d]| ensures Names(ms + [d], (ds + [d])[i].def.name) {
      NamesGrow(ds, ms, d, i);
    }
  }

  lemma NamesGrow(ds: seq<Declared>, ms: seq<Declared>, d: Declared, i: nat)
    requires i <= |ds| && forall k | 0 <= k < |ds| :: Names(ms, ds[k].def.name)
    ensures Names(ms + [d], (ds + [d])[i].def.name)
  {
    if i < |ds| {
      assert Names(ms, ds[i].def.name);
      var j :| 0 <= j < |ms| && ms[j].def.name == ds[i].def.name;
      assert (ms + [d])[j] == ms[j];
    } else {
      assert (ms + [d])[|ms|] == d;
    }
  }

  lemma NewName(ds: seq<Declared>, ms: seq<Declared>, namePos: map<string, nat>, d: Declared)
    requires Merging(ds, ms, namePos) && d.def.name !in namePos
    ensures Merging(ds + [d], ms + [d], namePos[d.def.name := |ms|])
  {
    NewNameIsLocated(ms, namePos, d);
    NewWinner(ds, ms, d);
    NewNameAscends(ds, ms, d);
  }

  lemma NewNameIsLocated(ms: seq<Declared>, namePos: map<string, nat>, d: Declared)
    requires Located(ms, namePos) && d.def.name !in namePos
    ensures !Names(ms, d.def.name) && Located(ms + [d], namePos[d.def.name := |ms|])
  {
  }

  lemma NewNameAscends(ds: seq<Declared>, ms: seq<Declared>, d: Declared)
    requires OneWinnerEach(ds, ms) && Ascending(ds, ms) && !Names(ms, d.def.name)
    ensures Ascending(ds + [d], ms + [d])
  {
    SameNames(ds, ms, d.def.name);
    PositionsStay(ds, ms, d);
    FirstSeenStays(ds, d, d.def.name);
  }

  /** Put in the place of the winner it outranks, a declaration leaves one winner for every name. */
  lemma ReplacedWinner(ds: seq<Declared>, ms: seq<Declared>, pos: nat, d: Declared)
    requires OneWinnerEach(ds, ms) && pos < |ms| && ms[pos].def.name == d.def.name && ms[pos].rank < d.rank
    ensures OneWinnerEach(ds + [d], ms[pos := d])
  {
    assert IsWinner(ds, ms[pos]);
    NewcomerWins(ds, d, ms[pos]);
    var ms' := ms[pos := d];
    forall j | 0 <= j < |ms'| ensures IsWinner(ds + [d], ms'[j]) {
      assert IsWinner(ds, ms[j]);
      if j != pos {
        WinnerStays(ds, d, ms[j]);
      }
    }
    forall i | 0 <= i < |ds + [d]| ensures Names(ms[pos := d], (ds + [d])[i].def.name) {
      NamesKept(ds, ms, pos, d, i);
    }
  }

  lemma KeptWinner(ds: seq<Declared>, ms: seq<Declared>, pos: nat, d: Declared)
    requires OneWinnerEach(ds, ms) && pos < |ms| && ms[pos].def.name == d.def.name && d.rank <= ms[pos].rank
    ensures OneWinnerEach(ds + [d], ms)
  {
    forall j | 0 <= j < |ms| ensures IsWinner(ds + [d], ms[j]) {
      assert IsWinner(ds, ms[j]);
      WinnerStays(ds, d, ms[j]);
    }
    forall i | 0 <= i < |ds + [d]| ensures Names(ms, (ds + [d])[i].def.name) {
      NamesKept(ds, ms, pos, ms[pos], i);
    }
  }

  lemma NamesKept(ds: seq<Declared>, ms: seq<Declared>, pos: nat, d: Declared, i: nat)
    requires pos < |ms| && ms[pos].def.name == d.def.name
    requires i <= |ds| && forall k | 0 <= k < |ds| :: Names(ms, ds[k].def.name)
    ensures var name := if i < |ds| then ds[i].def.name else d.def.name; Names(ms[pos := d], name)
  {
    if i < |ds| {
      assert Names(ms, ds[i].def.name);
      var j :| 0 <= j < |ms| && ms[j].def.name == ds[i].def.name;
      assert ms[pos := d][j].def.name == ds[i].def.name;
    } else {
      assert ms[pos := d][pos].def.name == d.def.name;
    }
  }

  lemma StillInPlace(ds: seq<Declared>, ms: seq<Declared>, ms': seq<Declared>, namePos: map<string, nat>, d: Declared)
    requires OneWinnerEach(ds, ms) && Ascending(ds, ms)
    requires |ms'| == |ms| && forall j | 0 <= j < |ms| :: ms'[j].def.name == ms[j].def.name
    requires Located(ms, namePos)
    ensures Ascending(ds + [d], ms') && Located(ms', namePos)
  {
    PositionsStay(ds, ms, d);
  }

  lemma KnownName(ds: seq<Declared>, ms: seq<Declared>, namePos: map<string, nat>, d: Declared)
    requires Merging(ds, ms, namePos) && d.def.name in namePos
    ensures var pos := namePos[d.def.name];
            Merging(ds + [d], if ms[pos].rank < d.rank then ms[pos := d] else ms, namePos)
  {
    var pos := namePos[d.def.name];
    if ms[pos].rank < d.rank {
      ReplacedWinner(ds, ms, pos, d);
      StillInPlace(ds, ms, ms[pos := d], namePos, d);
    } else {
      KeptWinner(ds, ms, pos, d);
      StillInPlace(ds, ms, ms, namePos, d);
    }
  }

  /** The declarations of rank `r`, in order. */
  function Ranked(ms: seq<Declared>, r: Rank): seq<Declared> {
    if ms == [] then []
    else
      var rest := Ranked(ms[..|ms| - 1], r);
      if ms[|ms| - 1].rank == r then rest + [ms[|ms| - 1]] else rest
  }

  /** The stable sort by descending rank. */
  function Sorted(ms: seq<Declared>): seq<Declared> {
    Ranked(ms, 2) + Ranked(ms, 1) + Ranked(ms, 0)
  }

  lemma {:induction false} RankedIsSubsequence(ds: seq<Declared>, ms: seq<Declared>, r: Rank)
    requires Ascending(ds, ms)
    ensures forall m :: m in Ranked(ms, r) <==> m in ms && m.rank == r
    ensures Ascending(ds, Ranked(ms, r))
  {
    if ms != [] {
      var n := |ms| - 1;
      RankedIsSubsequence(ds, ms[..n], r);
      var rest := Ranked(ms[..n], r);
      assert ms == ms[..n] + [ms[n]];
      forall m | m in rest ensures FirstSeen(ds, m.def.name) < FirstSeen(ds, ms[n].def.name) {
        assert m in ms[..n];
      }
      forall i | 0 <= i < |rest| ensures FirstSeen(ds, rest[i].def.name) < FirstSeen(ds, ms[n].def.name) {
        assert rest[i] in rest;
      }
    }
  }

  lemma SortedIsOrdered(ds: seq<Declared>, ms: seq<Declared>)
    requires Ascending(ds, ms)
    ensures Ordered(ds, Sorted(ms)) && forall m :: m in Sorted(ms) <==> m in ms
  {
    RankedIsSubsequence(ds, ms, 0);
    RankedIsSubsequence(ds, ms, 1);
    RankedIsSubsequence(ds, ms, 2);
    var a, b, c := Ranked(ms, 2), Ranked(ms, 1), Ranked(ms, 0);
    var s := a + b + c;
    forall i, j | 0 <= i < j < |s| ensures Before(ds, s[i], s[j]) {
      RankAt(a, b, c, i);
      RankAt(a, b, c, j);
    }
  }

  /** Where an element of three runs comes from. */
  lemma RankAt(a: seq<Declared>, b: seq<Declared>, c: seq<Declared>, i: nat)
    requires (forall m | m in a :: m.rank == 2) && (forall m | m in b :: m.rank == 1)
             && forall m | m in c :: m.rank == 0
    requires i < |a + b + c|
    ensures var m := (a + b + c)[i];
            if i < |a| then m == a[i] && m.rank == 2
            else if i < |a| + |b| then m == b[i - |a|] && m.rank == 1
            else m == c[i - |a| - |b|] && m.rank == 0
  {
  }

  lemma SameMembersSameWinners(ds: seq<Declared>, ms: seq<Declared>, ns: seq<Declared>)
    requires OneWinnerEach(ds, ms) && forall m :: m in ns <==> m in ms
    ensures forall j | 0 <= j < |ns| :: IsWinner(ds, ns[j])
    ensures forall i | 0 <= i < |ds| :: Names(ns, ds[i].def.name)
  {
    forall j | 0 <= j < |ns| ensures IsWinner(ds, ns[j]) {
      assert ns[j] in ms;
      var a :| 0 <= a < |ms| && ms[a] == ns[j];
    }
    forall i | 0 <= i < |ds| ensures Names(ns, ds[i].def.name) {
      assert Names(ms, ds[i].def.name);
      var j :| 0 <= j < |ms| && ms[j].def.name == ds[i].def.name;
      assert ms[j] in ns;
    }
  }

  lemma OrderedNamesDiffer(ds: seq<Declared>, ms: seq<Declared>, ns: seq<Declared>)
    requires Ordered(ds, ns) && forall m | m in ns :: m in ms
    requires forall i, j | 0 <= i < j < |ms| :: ms[i].def.name != ms[j].def.name
    ensures forall i, j | 0 <= i < j < |ns| :: ns[i].def.name != ns[j].def.name
  {
    forall i, j | 0 <= i < j < |ns| ensures ns[i].def.name != ns[j].def.name {
      assert Before(ds, ns[i], ns[j]) && ns[i] in ms && ns[j] in ms;
      var a :| 0 <= a < |ms| && ms[a] == ns[i];
      var b :| 0 <= b < |ms| && ms[b] == ns[j];
      assert a == b || ms[a].def.name != ms[b].def.name;
    }
  }

  lemma SortedIsMerge(ds: seq<Declared>, ms: seq<Declared>, namePos: map<string, nat>)
    requires Merging(ds, ms, namePos)
    ensures IsMerge(ds, Sorted(ms))
  {
    SortedIsOrdered(ds, ms);
    SameMembersSameWinners(ds, ms, Sorted(ms));
    OrderedNamesDiffer(ds, ms, Sorted(ms));
  }

  // ----- buckets -----

  function Multiplicity(events: seq<HookEventKind>, kind: HookEventKind): nat {
    if events == [] then 0
    else Multiplicity(events[..|events| - 1], kind) + if events[|events| - 1] == kind then 1 else 0
  }

  function Copies(def: HookDefinition, n: nat): seq<HookDefinition> {
    if n == 0 then [] else Copies(def, n - 1) + [def]
  }

  /** The subscribers of `kind`: every definition as often as it names the event. */
  function Bucket(defs: seq<HookDefinition>, kind: HookEventKind): seq<HookDefinition> {
    if defs == [] then []
    else
      var def := defs[|defs| - 1];
      Bucket(defs[..|defs| - 1], kind) + Copies(def, Multiplicity(def.events, kind))
  }

  lemma {:induction false} CopiesAre(def: HookDefinition, n: nat)
    ensures |Copies(def, n)| == n && forall i | 0 <= i < n :: Copies(def, n)[i] == def
    ensures multiset(Copies(def, n))[def] == n
    ensures forall other | other != def :: multiset(Copies(def, n))[other] == 0
  {
    if n > 0 {
      CopiesAre(def, n - 1);
    }
  }

  lemma {:induction false} NamedEvents(events: seq<HookEventKind>, kind: HookEventKind)
    ensures Multiplicity(events, kind) > 0 <==> kind in events
  {
    if events != [] {
      NamedEvents(events[..|events| - 1], kind);
      assert events == events[..|events| - 1] + [events[|events| - 1]];
    }
  }

  /** A bucket is in the order of the definitions. */
  lemma {:induction false} BucketFollowsOrder(defs: seq<HookDefinition>, kind: HookEventKind, i: nat, j: nat)
    returns (n: nat, m: nat)
    requires i <= j < |Bucket(defs, kind)|
    ensures n <= m < |defs| && Bucket(defs, kind)[i] == defs[n] && Bucket(defs, kind)[j] == defs[m]
    ensures kind in defs[n].events && kind in defs[m].events
  {
    var last := |defs| - 1;
    var rest := Bucket(defs[..last], kind);
    CopiesAre(defs[last], Multiplicity(defs[last].events, kind));
    NamedEvents(defs[last].events, kind);
    if j < |rest| {
      n, m := BucketFollowsOrder(defs[..last], kind, i, j);
    } else if i < |rest| {
      n, m := BucketFollowsOrder(defs[..last], kind, i, i);
      m := last;
    } else {
      n, m := last, last;
    }
  }

  /** Each definition is in a bucket as often as it names the event. */
  lemma {:induction false} BucketCounts(defs: seq<HookDefinition>, kind: HookEventKind, def: HookDefinition)
    requires forall i, j | 0 <= i < j < |defs| :: defs[i].name != defs[j].name
    ensures multiset(Bucket(defs, kind))[def] == if def in defs then Multiplicity(def.events, kind) else 0
  {
    if defs != [] {
      var n := |defs| - 1;
      BucketCounts(defs[..n], kind, def);
      CopiesAre(defs[n], Multiplicity(defs[n].events, kind));
      assert defs == defs[..n] + [defs[n]];
      if def == defs[n] {
        assert def !in defs[..n];
      }
    }
  }

  // ----- the registry -----

  datatype Registry = Registry(defs: seq<HookDefinition>, index: map<HookEventKind, seq<HookDefinition>>) {
    function Subscribers(kind: HookEventKind): seq<HookDefinition> {
      Lookup(index, kind)
    }
  }

  function Lookup(index: map<HookEventKind, seq<HookDefinition>>, kind: HookEventKind): seq<HookDefinition> {
    if kind in index then index[kind] else []
  }

  function Definitions(ms: seq<Declared>): seq<HookDefinition> {
    seq(|ms|, n requires 0 <= n < |ms| => ms[n].def)
  }

  /** `r` holds the merge of the declarations `ds`, indexed. */
  ghost predicate Registers(r: Registry, ds: seq<Declared>) {
    && (exists ms :: IsMerge(ds, ms) && r.defs == Definitions(ms))
    && forall kind :: r.Subscribers(kind) == Bucket(r.defs, kind)
  }

  method MergeLayer(
    ghost ds: seq<Declared>, ms: seq<Declared>, namePos: map<string, nat>, layer: seq<HookDefinition>, rank: Rank)
    returns (ms': seq<Declared>, namePos': map<string, nat>)
    requires Merging(ds, ms, namePos)
    ensures Merging(ds + DeclareAll(layer, rank), ms', namePos')
  {
    ms', namePos' := ms, namePos;
    assert ds + DeclareAll(layer, rank)[..0] == ds;
    for n := 0 to |layer|
      invariant Merging(ds + DeclareAll(layer, rank)[..n], ms', namePos')
    {
      var d := Declare(layer[n], rank);
      ghost var done := ds + DeclareAll(layer, rank)[..n];
      assert ds + DeclareAll(layer, rank)[..n + 1] == done + [d];
      if d.def.name in namePos' {
        KnownName(done, ms', namePos', d);
        var pos := namePos'[d.def.name];
        if ms'[pos].rank < d.rank {
          ms' := ms'[pos := d];
        }
      } else {
        NewName(done, ms', namePos', d);
        namePos' := namePos'[d.def.name := |ms'|];
        ms' := ms' + [d];
      }
    }
    assert DeclareAll(layer, rank)[..|layer|] == DeclareAll(layer, rank);
  }

  /** `after` is `before` with `def` once more for every mention of an event in `events`. */
  ghost predicate Indexed(
    before: map<HookEventKind, seq<HookDefinition>>, after: map<HookEventKind, seq<HookDefinition>>,
    def: HookDefinition, events: seq<HookEventKind>)
  {
    forall kind :: Lookup(after, kind) == Lookup(before, kind) + Copies(def, Multiplicity(events, kind))
  }

  lemma OneMention(def: HookDefinition, events: seq<HookEventKind>, named: HookEventKind, kind: HookEventKind)
    ensures Copies(def, Multiplicity(events + [named], kind)) ==
            Copies(def, Multiplicity(events, kind)) + if kind == named then [def] else []
  {
    assert (events + [named])[..|events|] == events;
  }

  lemma LaterAppended(a: seq<HookDefinition>, b: seq<HookDefinition>, def: HookDefinition)
    ensures (a + b) + [def] == a + (b + [def]) && b + [] == b
  {
  }

  lemma IndexedOneMore(
    before: map<HookEventKind, seq<HookDefinition>>, after: map<HookEventKind, seq<HookDefinition>>,
    def: HookDefinition, events: seq<HookEventKind>, named: HookEventKind)
    requires Indexed(before, after, def, events)
    ensures Indexed(before, after[named := Lookup(after, named) + [def]], def, events + [named])
  {
    var after' := after[named := Lookup(after, named) + [def]];
    forall kind
      ensures Lookup(after', kind) == Lookup(before, kind) + Copies(def, Multiplicity(events + [named], kind))
    {
      OneMention(def, events, named, kind);
      assert Lookup(after, kind) == Lookup(before, kind) + Copies(def, Multiplicity(events, kind));
      LaterAppended(Lookup(before, kind), Copies(def, Multiplicity(events, kind)), def);
    }
  }

  method IndexOne(index: map<HookEventKind, seq<HookDefinition>>, def: HookDefinition)
    returns (index': map<HookEventKind, seq<HookDefinition>>)
    ensures Indexed(index, index', def, def.events)
  {
    index' := index;
    for m := 0 to |def.events|
      invariant Indexed(index, index', def, def.events[..m])
    {
      var kind := def.events[m];
      IndexedOneMore(index, index', def, def.events[..m], kind);
      assert def.events[..m] + [kind] == def.events[..m + 1];
      index' := index'[kind := Lookup(index', kind) + [def]];
    }
    assert def.events[..|def.events|] == def.events;
  }

  method BuildIndex(defs: seq<HookDefinition>) returns (index: map<HookEventKind, seq<HookDefinition>>)
    ensures forall kind :: Lookup(index, kind) == Bucket(defs, kind)
  {
    index := map[];
    for n := 0 to |defs|
      invariant forall kind :: Lookup(index, kind) == Bucket(defs[..n], kind)
    {
      assert defs[..n + 1][..n] == defs[..n];
      index := IndexOne(index, defs[n]);
    }
    assert defs[..|defs|] == defs;
  }

  method FromLayers(user: seq<HookDefinition>, project: seq<HookDefinition>, plugin: seq<HookDefinition>)
    returns (r: Registry)
    ensures Registers(r, Declarations(user, project, plugin))
  {
    var ms, namePos := [], map[];
    ms, namePos := MergeLayer([], ms, namePos, plugin, 0);
    assert [] + DeclareAll(plugin, 0) == DeclareAll(plugin, 0);
    ms, namePos := MergeLayer(DeclareAll(plugin, 0), ms, namePos, project, 1);
    ms, namePos := MergeLayer(DeclareAll(plugin, 0) + DeclareAll(project, 1), ms, namePos, user, 2);
    SortedIsMerge(Declarations(user, project, plugin), ms, namePos);
    var defs := Definitions(Sorted(ms));
    var index := BuildIndex(defs);
    r := Registry(defs, index);
  }

  /** Only winners are ever consulted: a definition that another layer overrides is in no bucket. */
  lemma SubscribersAreWinners(r: Registry, ds: seq<Declared>, kind: HookEventKind, def: HookDefinition)
    requires Registers(r, ds) && def in r.Subscribers(kind)
    ensures kind in def.events && exists rank: Rank :: IsWinner(ds, Declared(def, rank))
  {
    var i :| 0 <= i < |r.Subscribers(kind)| && r.Subscribers(kind)[i] == def;
    var n, _ := BucketFollowsOrder(r.defs, kind, i, i);
    var ms: seq<Declared> :| IsMerge(ds, ms) && r.defs == Definitions(ms);
    assert IsWinner(ds, ms[n]) && ms[n] == Declared(def, ms[n].rank);
  }

  /** Every declared event of every winner is served, as often as it was declared. */
  lemma WinnersAreSubscribed(r: Registry, ds: seq<Declared>, kind: HookEventKind, m: Declared)
    requires Registers(r, ds) && IsWinner(ds, m)
    ensures multiset(r.Subscribers(kind))[m.def] == Multiplicity(m.def.events, kind)
  {
    var ms: seq<Declared> :| IsMerge(ds, ms) && r.defs == Definitions(ms);
    WinnerIsMerged(ds, ms, m);
    var j :| 0 <= j < |ms| && ms[j] == m;
    DistinctDefinitions(ms);
    assert r.defs[j] == m.def;
    BucketCounts(r.defs, kind, m.def);
  }

  lemma DistinctDefinitions(ms: seq<Declared>)
    requires forall i, j | 0 <= i < j < |ms| :: ms[i].def.name != ms[j].def.name
    ensures var defs := Definitions(ms); forall i, j | 0 <= i < j < |defs| :: defs[i].name != defs[j].name
  {
  }
}
