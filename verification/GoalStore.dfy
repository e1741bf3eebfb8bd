/**
 The store of goals and continuation deferrals (`agent/goal/src/store.rs`).

 Every method changes what belongs to one thread exactly as `GoalRow.Apply` says, and nothing that
 belongs to any other thread.
 */
module GoalStore {
  import opened Wrappers
  import opened Text
  import opened GoalTypes
  import opened GoalRow

  class GoalStore {
    /** `thread_goals`, keyed by thread. */
    var rows: map<ThreadId, Goal>
    /** `thread_goal_continuation_deferrals`. */
    var deferrals: set<ThreadId>

    constructor ()
      ensures Valid() && forall t :: CellOf(t) == EmptyCell
    {
      rows, deferrals := map[], {};
    }

    /** The foreign key: a deferral needs a goal row. */
    ghost predicate Valid()
      reads this
    {
      deferrals <= rows.Keys
    }

    function CellOf(thread: ThreadId): (c: Cell)
      reads this
      ensures Valid() ==> c.Valid()
    {
      Cell(if thread in rows then Some(rows[thread]) else None, thread in deferrals)
    }

    /** Only `thread` may have changed since the call began. */
    twostate predicate OthersUnchanged(thread: ThreadId)
      reads this
    {
      forall t | t != thread :: CellOf(t) == old(CellOf(t))
    }

    method Create(thread: ThreadId, req: CreateRequest, goalId: GoalId, cap: int) returns (r: Result<Goal, GoalError>)
      requires Valid()
      modifies this
      ensures Valid() && OthersUnchanged(thread)
      ensures CellOf(thread) == Apply(old(CellOf(thread)), StoreOp.Create(req, goalId, cap)).cell
      ensures Answers(r, Apply(old(CellOf(thread)), StoreOp.Create(req, goalId, cap)).reply)
    {
      var problem := RequestProblem(req, cap);
      if problem.Some? {
        return Err(problem.value);
      }
      if thread in rows && rows[thread].status != Complete {
        return Err(ExistingUnfinishedGoal);
      }
      rows := rows[thread := NewGoal(req, goalId)];
      r := Ok(rows[thread]);
    }

    method Replace(thread: ThreadId, req: CreateRequest, goalId: GoalId, cap: int) returns (r: Result<Goal, GoalError>)
      requires Valid()
      modifies this
      ensures Valid() && OthersUnchanged(thread)
      ensures CellOf(thread) == Apply(old(CellOf(thread)), StoreOp.Replace(req, goalId, cap)).cell
      ensures Answers(r, Apply(old(CellOf(thread)), StoreOp.Replace(req, goalId, cap)).reply)
    {
      var problem := RequestProblem(req, cap);
      if problem.Some? {
        return Err(problem.value);
      }
      var _ := Clear(thread);
      rows := rows[thread := NewGoal(req, goalId)];
      r := Ok(rows[thread]);
    }

    method InsertMigrated(thread: ThreadId, row: Goal) returns (r: Result<Goal, GoalError>)
      requires Valid()
      modifies this
      ensures Valid() && OthersUnchanged(thread)
      ensures CellOf(thread) == Apply(old(CellOf(thread)), StoreOp.InsertMigrated(row)).cell
      ensures Answers(r, Apply(old(CellOf(thread)), StoreOp.InsertMigrated(row)).reply)
    {
      var g := Migrated(row);
      if g.objective == "" {
        return Err(EmptyObjective);
      }
      var _ := Clear(thread);
      rows := rows[thread := g];
      r := Ok(g);
    }

    /** Deletes the row; the foreign key deletes the deferral with it. */
    method Clear(thread: ThreadId) returns (existed: bool)
      requires Valid()
      modifies this
      ensures Valid() && OthersUnchanged(thread)
      ensures CellOf(thread) == Apply(old(CellOf(thread)), StoreOp.Clear).cell
      ensures existed == old(CellOf(thread)).row.Some?
    {
      existed := thread in rows;
      rows := rows - {thread};
      deferrals := deferrals - {thread};
    }

    method Read(thread: ThreadId) returns (row: Option<Goal>)
      ensures row == CellOf(thread).row
    {
      row := if thread in rows then Some(rows[thread]) else None;
    }

    method Pause(thread: ThreadId, expected: GoalId) returns (r: Result<Goal, GoalError>)
      requires Valid()
      modifies this
      ensures Valid() && OthersUnchanged(thread)
      ensures CellOf(thread) == Apply(old(CellOf(thread)), StoreOp.Pause(expected)).cell
      ensures Answers(r, Apply(old(CellOf(thread)), StoreOp.Pause(expected)).reply)
    {
      r := TransitionStatus(thread, expected, {Active}, Paused, None);
    }

    method MarkUsageLimited(thread: ThreadId, expected: GoalId, reason: string) returns (r: Result<Goal, GoalError>)
      requires Valid()
      modifies this
      ensures Valid() && OthersUnchanged(thread)
      ensures CellOf(thread) == Apply(old(CellOf(thread)), StoreOp.MarkUsageLimited(expected, reason)).cell
      ensures Answers(r, Apply(old(CellOf(thread)), StoreOp.MarkUsageLimited(expected, reason)).reply)
    {
      r := TransitionStatus(thread, expected, {Active, BudgetLimited}, UsageLimited, Some(reason));
    }

    method MarkBlocked(thread: ThreadId, expected: GoalId, reason: string) returns (r: Result<Goal, GoalError>)
      requires Valid()
      modifies this
      ensures Valid() && OthersUnchanged(thread)
      ensures CellOf(thread) == Apply(old(CellOf(thread)), StoreOp.MarkBlocked(expected, reason)).cell
      ensures Answers(r, Apply(old(CellOf(thread)), StoreOp.MarkBlocked(expected, reason)).reply)
    {
      r := TransitionStatus(thread, expected, {Active}, Blocked, Some(reason));
    }

    method MarkComplete(thread: ThreadId, expected: GoalId) returns (r: Result<Goal, GoalError>)
      requires Valid()
      modifies this
      ensures Valid() && OthersUnchanged(thread)
      ensures CellOf(thread) == Apply(old(CellOf(thread)), StoreOp.MarkComplete(expected)).cell
      ensures Answers(r, Apply(old(CellOf(thread)), StoreOp.MarkComplete(expected)).reply)
    {
      r := TransitionStatus(thread, expected, {Active}, Complete, None);
    }

    method TransitionStatus(
      thread: ThreadId, expected: GoalId, from: set<GoalStatus>, to: GoalStatus, reason: Option<string>)
      returns (r: Result<Goal, GoalError>)
      requires Valid()
      modifies this
      ensures Valid() && OthersUnchanged(thread)
      ensures CellOf(thread) == GoalRow.TransitionStatus(old(CellOf(thread)), expected, from, to, reason).cell
      ensures Answers(r, GoalRow.TransitionStatus(old(CellOf(thread)), expected, from, to, reason).reply)
    {
      if !(thread in rows && rows[thread].goalId == expected && rows[thread].status in from) {
        return Err(NotFoundOrDisallowed);
      }
      rows := rows[thread := rows[thread].(status := to, statusReason := reason)];
      r := Ok(rows[thread]);
    }

    method Resume(thread: ThreadId, expected: GoalId) returns (r: Result<Goal, GoalError>)
      requires Valid()
      modifies this
      ensures Valid() && OthersUnchanged(thread)
      ensures CellOf(thread) == Apply(old(CellOf(thread)), StoreOp.Resume(expected)).cell
      ensures Answers(r, Apply(old(CellOf(thread)), StoreOp.Resume(expected)).reply)
    {
      r := TransitionStatus(thread, expected, {Paused, Blocked, UsageLimited, BudgetLimited}, Active, None);
    }

    method EditObjective(thread: ThreadId, expected: GoalId, objective: string) returns (r: Result<Goal, GoalError>)
      requires Valid()
      modifies this
      ensures Valid() && OthersUnchanged(thread)
      ensures CellOf(thread) == Apply(old(CellOf(thread)), StoreOp.EditObjective(expected, objective)).cell
      ensures Answers(r, Apply(old(CellOf(thread)), StoreOp.EditObjective(expected, objective)).reply)
    {
      var problem := ObjectiveProblem(objective);
      if problem.Some? {
        return Err(problem.value);
      }
      if !(thread in rows && rows[thread].goalId == expected && rows[thread].status !in {BudgetLimited, Complete}) {
        return Err(NotFoundOrDisallowed);
      }
      var g := rows[thread];
      rows := rows[thread := g.(objective := Trim(objective), objectiveRevision := g.objectiveRevision + 1)];
      r := Ok(rows[thread]);
    }

    method UpdateBudget(thread: ThreadId, expected: GoalId, budget: int, cap: int) returns (r: Result<Goal, GoalError>)
      requires Valid()
      modifies this
      ensures Valid() && OthersUnchanged(thread)
      ensures CellOf(thread) == Apply(old(CellOf(thread)), StoreOp.UpdateBudget(expected, budget, cap)).cell
      ensures Answers(r, Apply(old(CellOf(thread)), StoreOp.UpdateBudget(expected, budget, cap)).reply)
    {
      var problem := BudgetProblem(budget, cap);
      if problem.Some? {
        return Err(problem.value);
      }
      if !(thread in rows && rows[thread].goalId == expected && rows[thread].status != Complete) {
        return Err(NotFoundOrDisallowed);
      }
      rows := rows[thread := rows[thread].(tokenBudget := Some(budget))];
      r := Ok(rows[thread]);
    }

    method SetIteration(thread: ThreadId, expected: GoalId, iteration: int) returns (r: Result<Goal, GoalError>)
      requires Valid()
      modifies this
      ensures Valid() && OthersUnchanged(thread)
      ensures CellOf(thread) == Apply(old(CellOf(thread)), StoreOp.SetIteration(expected, iteration)).cell
      ensures Answers(r, Apply(old(CellOf(thread)), StoreOp.SetIteration(expected, iteration)).reply)
    {
      if !(thread in rows && rows[thread].goalId == expected) {
        return Err(NotFoundOrDisallowed);
      }
      rows := rows[thread := rows[thread].(iterationCount := iteration)];
      r := Ok(rows[thread]);
    }

    /** The single accounting statement: add usage, and flip an active row whose budget is reached. */
    method AccountThreadGoalUsage(
      thread: ThreadId, expected: GoalId, mode: AccountingMode, deltaTokens: int, deltaSeconds: int)
      returns (outcome: AccountingOutcome)
      requires Valid()
      modifies this
      ensures Valid() && OthersUnchanged(thread)
      ensures CellOf(thread) == Apply(old(CellOf(thread)), Account(expected, mode, deltaTokens, deltaSeconds)).cell
      ensures Apply(old(CellOf(thread)), Account(expected, mode, deltaTokens, deltaSeconds)).reply == Accounted(outcome)
    {
      if !(thread in rows && rows[thread].goalId == expected && mode.Allows(rows[thread].status)) {
        return Unchanged;
      }
      var g := rows[thread];
      var used := g.tokensUsed + Max(deltaTokens, 0);
      var seconds := g.timeUsedSeconds + Max(deltaSeconds, 0);
      if g.tokenBudget.Some? && used >= g.tokenBudget.value && g.status == Active {
        g := g.(status := BudgetLimited, statusReason := Some("budget_limited"));
      }
      rows := rows[thread := g.(tokensUsed := used, timeUsedSeconds := seconds)];
      outcome := Updated(used, g.status);
    }

    method DeferContinuation(thread: ThreadId) returns (inserted: bool)
      requires Valid()
      modifies this
      ensures Valid() && OthersUnchanged(thread)
      ensures CellOf(thread) == Apply(old(CellOf(thread)), Defer).cell
      ensures Apply(old(CellOf(thread)), Defer).reply == Flag(inserted)
    {
      if thread !in rows {
        return false;
      }
      inserted := thread !in deferrals;
      deferrals := deferrals + {thread};
    }

    method HasContinuationDeferral(thread: ThreadId) returns (has: bool)
      ensures has == CellOf(thread).deferred
    {
      has := thread in deferrals;
    }

    method ClearContinuationDeferral(thread: ThreadId) returns (cleared: bool)
      requires Valid()
      modifies this
      ensures Valid() && OthersUnchanged(thread)
      ensures CellOf(thread) == Apply(old(CellOf(thread)), ClearDeferral).cell
      ensures Apply(old(CellOf(thread)), ClearDeferral).reply == Flag(cleared)
    {
      cleared := thread in deferrals;
      deferrals := deferrals - {thread};
    }

    /** One statement on behalf of another task. */
    method Perform(thread: ThreadId, op: StoreOp)
      requires Valid()
      modifies this
      ensures Valid() && OthersUnchanged(thread)
      ensures CellOf(thread) == Apply(old(CellOf(thread)), op).cell
    {
      match op
      case Create(req, goalId, cap) => var _ := Create(thread, req, goalId, cap);
      case Replace(req, goalId, cap) => var _ := Replace(thread, req, goalId, cap);
      case InsertMigrated(row) => var _ := InsertMigrated(thread, row);
      case Clear => var _ := Clear(thread);
      case Resume(expected) => var _ := Resume(thread, expected);
      case EditObjective(expected, objective) => var _ := EditObjective(thread, expected, objective);
      case UpdateBudget(expected, budget, cap) => var _ := UpdateBudget(thread, expected, budget, cap);
      case SetIteration(expected, iteration) => var _ := SetIteration(thread, expected, iteration);
      case Pause(expected) => var _ := Pause(thread, expected);
      case MarkUsageLimited(expected, reason) => var _ := MarkUsageLimited(thread, expected, reason);
      case MarkBlocked(expected, reason) => var _ := MarkBlocked(thread, expected, reason);
      case MarkComplete(expected) => var _ := MarkComplete(thread, expected);
      case Account(expected, mode, tokens, seconds) =>
        var _ := AccountThreadGoalUsage(thread, expected, mode, tokens, seconds);
      case Defer => var _ := DeferContinuation(thread);
      case ClearDeferral => var _ := ClearContinuationDeferral(thread);
    }

    /** Whatever other tasks do to the thread between two awaits of one task. */
    method Interleave(thread: ThreadId, ops: seq<StoreOp>)
      requires Valid()
      modifies this
      ensures Valid() && OthersUnchanged(thread)
      ensures CellOf(thread) == Run(old(CellOf(thread)), ops)
    {
      var n := 0;
      while n < |ops|
        invariant n <= |ops| && Valid() && OthersUnchanged(thread)
        invariant CellOf(thread) == Run(old(CellOf(thread)), ops[..n])
      {
        Perform(thread, ops[n]);
        assert ops[..n + 1][..n] == ops[..n];
        n := n + 1;
      }
      assert ops[..n] == ops;
    }
  }

  /** The caller sees the returned row, or the reason why there is none. */
  predicate Answers(r: Result<Goal, GoalError>, reply: Reply) {
    match r
    case Ok(g) => reply == Row(g)
    case Err(e) => reply == Refused(e)
  }
}
