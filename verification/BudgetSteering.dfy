/**
 Budget steering: the closing turn that is injected when a goal's budget is reached
 (`take_budget_steering_if_flipped`). A turn-end hook charges the row, reads it when the charge has hit the budget, and
 later claims the one slot that remembers the goal reported last; other tasks may change the row at any time.
 */
module BudgetSteering {
  import opened Wrappers
  import opened GoalTypes
  import opened GoalRow
  import opened GoalAccounting

  /** A hook whose charge of `goalId` came back as `outcome`, before and after its read of the row. */
  datatype Hook =
    | Flipped(goalId: GoalId, outcome: AccountingOutcome)
    | HasRead(goalId: GoalId, outcome: AccountingOutcome, row: Option<Goal>, held: bool)

  /**
   Steering was produced for `steered` because `flipped` had hit its budget; `held` if that was still in the row when
   read.
   */
  datatype Emission = Emission(steered: GoalId, flipped: GoalId, held: bool)

  /** `seen` and `emitted` are history: the ids the row has had, and the steering produced so far. */
  datatype State = State(
    cell: Cell,
    reported: Option<GoalId>,
    hooks: map<nat, Hook>,
    seen: set<GoalId>,
    emitted: seq<Emission>)

  datatype Step =
    | Store(op: StoreOp)
    | Charge(hook: nat, goalId: GoalId, mode: AccountingMode, tokens: int, seconds: int)
    | ReadRow(hook: nat)
    | Claim(hook: nat)

  function IdOf(row: Option<Goal>): set<GoalId> {
    if row.Some? then {row.value.goalId} else {}
  }

  function Initial(cell: Cell): State {
    State(cell, None, map[], IdOf(cell.row), [])
  }

  predicate Enabled(s: State, step: Step) {
    match step
    case Store(op) => InsertedId(op).Some? ==> InsertedId(op).value !in s.seen
    case Charge(hook, _, _, _, _) => hook !in s.hooks
    case ReadRow(hook) => hook in s.hooks && s.hooks[hook].Flipped?
    case Claim(hook) => hook in s.hooks && s.hooks[hook].HasRead?
  }

  /** Turn-end hooks of one thread run one after the other. */
  predicate Serialized(s: State, step: Step) {
    step.Charge? ==> s.hooks == map[]
  }

  predicate HitsBudget(outcome: AccountingOutcome) {
    outcome.Updated? && outcome.status.BudgetLimited?
  }

  function Next(s: State, step: Step): State
    requires Enabled(s, step)
  {
    match step
    case Store(op) =>
      var cell := Apply(s.cell, op).cell;
      s.(cell := cell, seen := s.seen + IdOf(cell.row))
    case Charge(hook, goalId, mode, tokens, seconds) =>
      var r := Apply(s.cell, Account(goalId, mode, tokens, seconds));
      s.(cell := r.cell,
         hooks := if HitsBudget(r.reply.outcome) then s.hooks[hook := Flipped(goalId, r.reply.outcome)] else s.hooks)
    case ReadRow(hook) =>
      var h := s.hooks[hook];
      s.(hooks := s.hooks[hook := HasRead(h.goalId, h.outcome, s.cell.row, s.cell.Holds(h.goalId))])
    case Claim(hook) =>
      var h := s.hooks[hook];
      var (steered, reported) := Steer(s.reported, h.outcome, h.row);
      s.(reported := reported,
         hooks := s.hooks - {hook},
         emitted := if steered.Some? then s.emitted + [Emission(steered.value.goalId, h.goalId, h.held)] else s.emitted)
  }

  function After(s: State, steps: seq<Step>): State {
    if steps == [] then s
    else
      var before := After(s, steps[..|steps| - 1]);
      var step := steps[|steps| - 1];
      if Enabled(before, step) then Next(before, step) else before
  }

  /** A step that is not enabled does not happen; the others keep the hooks apart. */
  predicate AllSerialized(s: State, steps: seq<Step>) {
    forall n | 0 <= n < |steps| :: Serialized(After(s, steps[..n]), steps[n])
  }

  // ----- which goal is named -----

  /** The row had this id once and has it no more; with fresh ids it never will again. */
  predicate Gone(s: State, id: GoalId) {
    id in s.seen && !s.cell.Holds(id)
  }

  /** A hook and its row agree on the goal exactly if the goal was held, and a goal that was not held is gone. */
  predicate NamesInv(s: State) {
    && IdOf(s.cell.row) <= s.seen
    && (forall h | h in s.hooks :: s.hooks[h].goalId in s.seen && HitsBudget(s.hooks[h].outcome))
    && (forall h | h in s.hooks && s.hooks[h].HasRead? ::
          var k := s.hooks[h];
          && (k.row.Some? ==> k.row.value.goalId in s.seen)
          && (k.held <==> k.row.Some? && k.row.value.goalId == k.goalId)
          && (!k.held ==> Gone(s, k.goalId)))
    && (forall n | 0 <= n < |s.emitted| ::
          var e := s.emitted[n];
          && e.steered in s.seen && (e.held <==> e.steered == e.flipped) && (!e.held ==> Gone(s, e.flipped)))
  }

  lemma GoneStaysGone(cell: Cell, op: StoreOp, id: GoalId)
    requires !cell.Holds(id) && InsertedId(op) != Some(id)
    ensures !Apply(cell, op).cell.Holds(id)
  {
  }

  lemma StoreKeepsNames(s: State, op: StoreOp)
    requires NamesInv(s) && Enabled(s, Store(op))
    ensures NamesInv(Next(s, Store(op)))
    ensures forall id | Gone(s, id) :: Gone(Next(s, Store(op)), id)
  {
    var t := Next(s, Store(op));
    forall id | Gone(s, id) ensures Gone(t, id) {
      GoneStaysGone(s.cell, op, id);
    }
  }

  lemma HookKeepsNames(s: State, step: Step)
    requires !step.Store? && NamesInv(s) && Enabled(s, step)
    ensures NamesInv(Next(s, step))
  {
  }

  lemma {:induction false} RunsKeepNames(s: State, steps: seq<Step>)
    requires NamesInv(s)
    ensures NamesInv(After(s, steps))
  {
    if steps != [] {
      var n := |steps| - 1;
      var before := After(s, steps[..n]);
      RunsKeepNames(s, steps[..n]);
      if Enabled(before, steps[n]) {
        if steps[n].Store? {
          StoreKeepsNames(before, steps[n].op);
        } else {
          HookKeepsNames(before, steps[n]);
        }
      }
    }
  }

  /**
   In every run with fresh ids, serialized or not, steering names the goal whose budget was reached if and only if that
   goal was still in the row when the hook read it; otherwise that goal has left the row for ever.
   */
  lemma SteeringNamesTheFlippedGoalExactly(cell: Cell, steps: seq<Step>, n: nat)
    requires n < |After(Initial(cell), steps).emitted|
    ensures var s := After(Initial(cell), steps);
            var e := s.emitted[n];
            (e.steered == e.flipped <==> e.held) && (!e.held ==> Gone(s, e.flipped))
  {
    RunsKeepNames(Initial(cell), steps);
  }

  // ----- how often -----

  predicate NoRepeats(es: seq<Emission>) {
    forall i, j | 0 <= i < j < |es| :: es[i].steered != es[j].steered
  }

  predicate Steered(s: State, id: GoalId) {
    exists n :: 0 <= n < |s.emitted| && s.emitted[n].steered == id
  }

  predicate OnceInv(s: State) {
    && IdOf(s.cell.row) <= s.seen
    && (forall a, b | a in s.hooks && b in s.hooks :: a == b)
    && (forall n | 0 <= n < |s.emitted| ::
          var id := s.emitted[n].steered; id in s.seen && (s.reported == Some(id) || Gone(s, id)))
    && (forall h | h in s.hooks && s.hooks[h].HasRead? && s.hooks[h].row.Some? ::
          var g := s.hooks[h].row.value.goalId;
          && g in s.seen
          && (Steered(s, g) ==> s.reported == Some(g))
          && (forall n | 0 <= n < |s.emitted| :: s.emitted[n].steered == g || Gone(s, s.emitted[n].steered)))
    && NoRepeats(s.emitted)
  }

  lemma StoreKeepsOnce(s: State, op: StoreOp)
    requires OnceInv(s) && Enabled(s, Store(op))
    ensures OnceInv(Next(s, Store(op)))
  {
    var t := Next(s, Store(op));
    forall id | Gone(s, id) ensures Gone(t, id) {
      GoneStaysGone(s.cell, op, id);
    }
    assert forall id :: Steered(t, id) ==> Steered(s, id);
  }

  lemma ReadKeepsOnce(s: State, hook: nat)
    requires OnceInv(s) && Enabled(s, ReadRow(hook))
    ensures OnceInv(Next(s, ReadRow(hook)))
  {
    assert forall id :: Steered(Next(s, ReadRow(hook)), id) ==> Steered(s, id);
  }

  lemma ChargeKeepsOnce(s: State, step: Step)
    requires step.Charge? && OnceInv(s) && Enabled(s, step) && Serialized(s, step)
    ensures OnceInv(Next(s, step))
  {
    assert forall id :: Steered(Next(s, step), id) ==> Steered(s, id);
  }

  lemma ClaimKeepsOnce(s: State, hook: nat)
    requires OnceInv(s) && Enabled(s, Claim(hook))
    ensures OnceInv(Next(s, Claim(hook)))
  {
  }

  lemma {:induction false} RunsKeepOnce(s: State, steps: seq<Step>)
    requires OnceInv(s) && AllSerialized(s, steps)
    ensures OnceInv(After(s, steps))
  {
    if steps != [] {
      var n := |steps| - 1;
      var before := After(s, steps[..n]);
      assert forall m | 0 <= m < n :: steps[..n][..m] == steps[..m];
      RunsKeepOnce(s, steps[..n]);
      assert Serialized(before, steps[n]);
      if Enabled(before, steps[n]) {
        match steps[n] {
          case Store(op) => StoreKeepsOnce(before, op);
          case Charge(_, _, _, _, _) => ChargeKeepsOnce(before, steps[n]);
          case ReadRow(hook) => ReadKeepsOnce(before, hook);
          case Claim(hook) => ClaimKeepsOnce(before, hook);
        }
      }
    }
  }

  /**
   With fresh goal ids and serialized hooks, steering is produced at most once per goal id in any run, however often
   the goal is resumed and its budget reached again, and whatever replaces it in between.
   */
  lemma SteeredAtMostOnce(cell: Cell, steps: seq<Step>)
    requires AllSerialized(Initial(cell), steps)
    ensures NoRepeats(After(Initial(cell), steps).emitted)
  {
    RunsKeepOnce(Initial(cell), steps);
  }

  // ----- what can go wrong -----

  lemma {:induction false} Then(s: State, step: Step, rest: seq<Step>)
    requires Enabled(s, step)
    ensures After(s, [step] + rest) == After(Next(s, step), rest)
  {
    var all := [step] + rest;
    if rest == [] {
      assert all[..0] == [] && After(s, all[..0]) == s && all[0] == step;
    } else {
      var n := |rest| - 1;
      Then(s, step, rest[..n]);
      assert all[..n + 1] == [step] + rest[..n] && all[n + 1] == rest[n];
    }
  }

  /** A hook charges one token to `g`, which hits its budget, reads the row at once, and claims. */
  function WholeHook(hook: nat, g: GoalId): seq<Step> {
    [Charge(hook, g, ActiveOnly, 1, 0)] + ([ReadRow(hook)] + ([Claim(hook)] + []))
  }

  /** The row after a charge that used up the budget. */
  function Spent(g: Goal): Goal {
    g.(tokensUsed := g.tokensUsed + 1, status := BudgetLimited, statusReason := Some("budget_limited"))
  }

  predicate NearBudget(g: Goal) {
    g.status.Active? && g.tokenBudget.Some? && g.tokensUsed + 1 >= g.tokenBudget.value
  }

  function Hit(g: Goal): AccountingOutcome {
    Updated(g.tokensUsed + 1, BudgetLimited)
  }

  lemma ChargeHits(s: State, hook: nat, g: Goal)
    requires hook !in s.hooks && s.cell.row == Some(g) && NearBudget(g)
    ensures var step := Charge(hook, g.goalId, ActiveOnly, 1, 0);
            && Enabled(s, step)
            && Next(s, step)
               == s.(cell := s.cell.(row := Some(Spent(g))), hooks := s.hooks[hook := Flipped(g.goalId, Hit(g))])
  {
  }

  /** A goal near its budget is replaced by `b`, which is near its own, between the first hook's read and its claim. */
  function Overlap(a: Goal, b: Goal, replace: StoreOp): seq<Step> {
    [Charge(1, a.goalId, ActiveOnly, 1, 0)] + ([ReadRow(1)] + ([Store(replace)]
      + ([Charge(2, b.goalId, ActiveOnly, 1, 0)] + ([ReadRow(2)] + ([Claim(2)] + ([Claim(1)]
      + ([Store(Resume(b.goalId))] + WholeHook(3, b.goalId))))))))
  }

  /** `replace` puts `b` into the row, near its budget. */
  predicate Replaces(cell: Cell, replace: StoreOp, b: Goal) {
    replace.Replace? && Apply(cell, replace) == Applied(Cell(Some(b), false), Row(b)) && NearBudget(b)
  }

  /** Any valid `set` with a budget of one token does. */
  lemma SetWithSmallBudgetReplaces(cell: Cell, req: CreateRequest, id: GoalId, cap: int)
    requires RequestProblem(req, cap).None? && req.tokenBudget == Some(1)
    ensures Replaces(cell, Replace(req, id, cap), NewGoal(req, id))
  {
  }

  lemma ResumedHook(s: State, b: Goal, es: seq<Emission>, reported: GoalId)
    requires s.cell == Cell(Some(Spent(b)), false) && s.hooks == map[] && NearBudget(b) && s.emitted == es
    requires s.reported == Some(reported) && reported != b.goalId
    ensures After(s, [Store(Resume(b.goalId))] + WholeHook(3, b.goalId)).emitted
         == es + [Emission(b.goalId, b.goalId, true)]
  {
    var again := Spent(b).(status := Active, statusReason := None);
    var s1 := Next(s, Store(Resume(b.goalId)));
    assert s1.cell == Cell(Some(again), false) && s1.hooks == map[];
    Then(s, Store(Resume(b.goalId)), WholeHook(3, b.goalId));
    HookSteers(s1, 3, again);
  }

  /** Run without interruption, the hook steers its goal unless that was the last one reported. */
  lemma HookSteers(s: State, hook: nat, g: Goal)
    requires hook !in s.hooks && s.cell.row == Some(g) && NearBudget(g)
    ensures var t := After(s, WholeHook(hook, g.goalId));
            && t.emitted == s.emitted
                            + (if s.reported == Some(g.goalId) then [] else [Emission(g.goalId, g.goalId, true)])
            && t.reported == Some(g.goalId) && t.cell.row == Some(Spent(g))
  {
    ChargeHits(s, hook, g);
    var s1 := Next(s, Charge(hook, g.goalId, ActiveOnly, 1, 0));
    var s2 := Next(s1, ReadRow(hook));
    var s3 := Next(s2, Claim(hook));
    assert After(s3, []) == s3;
    Then(s2, Claim(hook), []);
    Then(s1, ReadRow(hook), [Claim(hook)] + []);
    Then(s, Charge(hook, g.goalId, ActiveOnly, 1, 0), [ReadRow(hook)] + ([Claim(hook)] + []));
  }

  /**
   Serialization is needed: two hooks that overlap a `set` leave the slot on the old goal, and after a resume the new
   one is steered a second time.
   */
  lemma OverlappingHooksSteerTwice(a: Goal, req: CreateRequest, id: GoalId, cap: int)
    requires NearBudget(a) && a.goalId != id && RequestProblem(req, cap).None? && req.tokenBudget == Some(1)
    ensures After(Initial(Cell(Some(a), false)), Overlap(a, NewGoal(req, id), Replace(req, id, cap))).emitted
         == [Emission(id, id, true), Emission(a.goalId, a.goalId, true), Emission(id, id, true)]
  {
    SetWithSmallBudgetReplaces(Cell(Some(Spent(a)), false), req, id, cap);
    OverlapSteersTwice(a, NewGoal(req, id), Replace(req, id, cap));
  }

  lemma OverlapSteersTwice(a: Goal, b: Goal, replace: StoreOp)
    requires NearBudget(a) && a.goalId != b.goalId && Replaces(Cell(Some(Spent(a)), false), replace, b)
    ensures After(Initial(Cell(Some(a), false)), Overlap(a, b, replace)).emitted
         == [Emission(b.goalId, b.goalId, true), Emission(a.goalId, a.goalId, true), Emission(b.goalId, b.goalId, true)]
  {
    var tail := [Store(Resume(b.goalId))] + WholeHook(3, b.goalId);
    var s := Initial(Cell(Some(a), false));
    ChargeHits(s, 1, a);
    var s1 := Next(s, Charge(1, a.goalId, ActiveOnly, 1, 0));
    var s2 := Next(s1, ReadRow(1));
    assert s2.hooks == map[1 := HasRead(a.goalId, Hit(a), Some(Spent(a)), true)];
    assert InsertedId(replace) == Some(b.goalId);
    var s3 := Next(s2, Store(replace));
    Then(s2, Store(replace), [Charge(2, b.goalId, ActiveOnly, 1, 0)]
        + ([ReadRow(2)] + ([Claim(2)] + ([Claim(1)] + tail))));
    Then(s1, ReadRow(1), [Store(replace)]
      + ([Charge(2, b.goalId, ActiveOnly, 1, 0)] + ([ReadRow(2)] + ([Claim(2)] + ([Claim(1)] + tail)))));
    Then(s, Charge(1, a.goalId, ActiveOnly, 1, 0), [ReadRow(1)] + ([Store(replace)]
      + ([Charge(2, b.goalId, ActiveOnly, 1, 0)] + ([ReadRow(2)] + ([Claim(2)] + ([Claim(1)] + tail))))));
    var s4 := SecondHookGoesFirst(s3, a, b);
    ResumedHook(s4, b, s4.emitted, a.goalId);
    assert After(s3, [Charge(2, b.goalId, ActiveOnly, 1, 0)] + ([ReadRow(2)] + ([Claim(2)] + ([Claim(1)] + tail))))
        == After(s4, tail);
  }

  /** The states from the replacement on: the second hook charges, reads and claims, then the first one claims. */
  lemma SecondHookGoesFirst(s: State, a: Goal, b: Goal) returns (t: State)
    requires s.cell == Cell(Some(b), false) && NearBudget(b) && a.goalId != b.goalId && s.reported == None
             && s.emitted == []
    requires s.hooks == map[1 := HasRead(a.goalId, Hit(a), Some(Spent(a)), true)]
    ensures t.cell == Cell(Some(Spent(b)), false) && t.hooks == map[] && t.reported == Some(a.goalId)
    ensures t.emitted == [Emission(b.goalId, b.goalId, true), Emission(a.goalId, a.goalId, true)]
    ensures forall tail ::
              After(s, [Charge(2, b.goalId, ActiveOnly, 1, 0)] + ([ReadRow(2)] + ([Claim(2)] + ([Claim(1)] + tail))))
              == After(t, tail)
  {
    ChargeHits(s, 2, b);
    var s1 := Next(s, Charge(2, b.goalId, ActiveOnly, 1, 0));
    var s2 := Next(s1, ReadRow(2));
    assert s2.hooks[2] == HasRead(b.goalId, Hit(b), Some(Spent(b)), true);
    var s3 := Next(s2, Claim(2));
    assert s3.hooks == map[1 := HasRead(a.goalId, Hit(a), Some(Spent(a)), true)];
    t := Next(s3, Claim(1));
    forall tail
      ensures After(s, [Charge(2, b.goalId, ActiveOnly, 1, 0)] + ([ReadRow(2)] + ([Claim(2)] + ([Claim(1)] + tail))))
           == After(t, tail)
    {
      Then(s3, Claim(1), tail);
      Then(s2, Claim(2), [Claim(1)] + tail);
      Then(s1, ReadRow(2), [Claim(2)] + ([Claim(1)] + tail));
      Then(s, Charge(2, b.goalId, ActiveOnly, 1, 0), [ReadRow(2)] + ([Claim(2)] + ([Claim(1)] + tail)));
    }
  }

  /** The goal is replaced between its charge and the hook's read. */
  function LateRead(a: Goal, replace: StoreOp, rest: seq<Step>): seq<Step> {
    [Charge(1, a.goalId, ActiveOnly, 1, 0)] + ([Store(replace)] + ([ReadRow(1)] + ([Claim(1)] + rest)))
  }

  /**
   Even with serialized hooks the wrong goal can be named: a goal that is set in between is steered for its
   predecessor's budget, and when it reaches its own, nothing is produced any more.
   */
  lemma ReplacedGoalTakesTheSteering(a: Goal, req: CreateRequest, id: GoalId, cap: int)
    requires NearBudget(a) && a.goalId != id && RequestProblem(req, cap).None? && req.tokenBudget == Some(1)
    ensures After(Initial(Cell(Some(a), false)), LateRead(a, Replace(req, id, cap), WholeHook(2, id))).emitted
         == [Emission(id, a.goalId, false)]
  {
    SetWithSmallBudgetReplaces(Cell(Some(Spent(a)), false), req, id, cap);
    LateReadNamesTheReplacement(a, NewGoal(req, id), Replace(req, id, cap));
  }

  lemma LateReadNamesTheReplacement(a: Goal, b: Goal, replace: StoreOp)
    requires NearBudget(a) && a.goalId != b.goalId && Replaces(Cell(Some(Spent(a)), false), replace, b)
    ensures After(Initial(Cell(Some(a), false)), LateRead(a, replace, WholeHook(2, b.goalId))).emitted
         == [Emission(b.goalId, a.goalId, false)]
  {
    var s := Initial(Cell(Some(a), false));
    var tail := WholeHook(2, b.goalId);
    ChargeHits(s, 1, a);
    var s1 := Next(s, Charge(1, a.goalId, ActiveOnly, 1, 0));
    assert InsertedId(replace) == Some(b.goalId);
    var s2 := Next(s1, Store(replace));
    var s3 := Next(s2, ReadRow(1));
    var s4 := Next(s3, Claim(1));
    assert s4.emitted == [Emission(b.goalId, a.goalId, false)] && s4.reported == Some(b.goalId);
    HookSteers(s4, 2, b);
    Then(s3, Claim(1), tail);
    Then(s2, ReadRow(1), [Claim(1)] + tail);
    Then(s1, Store(replace), [ReadRow(1)] + ([Claim(1)] + tail));
    Then(s, Charge(1, a.goalId, ActiveOnly, 1, 0), [Store(replace)] + ([ReadRow(1)] + ([Claim(1)] + tail)));
  }
}
