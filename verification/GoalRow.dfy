/**
 The goal table seen from one thread: its row and its continuation deferral, and what each atomic
 statement of the store does to them (`agent/goal/src/store.rs`). Every statement names one thread,
 so this is all the state it can touch.
 */
module GoalRow {
  import opened Wrappers
  import opened Text
  import opened GoalTypes

  /** The part of the two tables that belongs to one thread. */
  datatype Cell = Cell(row: Option<Goal>, deferred: bool) {
    /** The foreign key of the deferral table. */
    predicate Valid() {
      deferred ==> row.Some?
    }

    predicate Holds(goalId: GoalId) {
      row.Some? && row.value.goalId == goalId
    }
  }

  const EmptyCell := Cell(None, false)

  /** One atomic statement (or transaction) of the store. */
  datatype StoreOp =
    | Create(req: CreateRequest, goalId: GoalId, cap: int)
    | Replace(req: CreateRequest, goalId: GoalId, cap: int)
    | InsertMigrated(row: Goal)
    | Clear
    | Resume(expected: GoalId)
    | EditObjective(expected: GoalId, objective: string)
    | UpdateBudget(expected: GoalId, budget: int, cap: int)
    | SetIteration(expected: GoalId, iteration: int)
    | Pause(expected: GoalId)
    | MarkUsageLimited(expected: GoalId, reason: string)
    | MarkBlocked(expected: GoalId, reason: string)
    | MarkComplete(expected: GoalId)
    | Account(expected: GoalId, mode: AccountingMode, tokens: int, seconds: int)
    | Defer
    | ClearDeferral

  datatype Reply =
    | Row(goal: Goal)
    | Flag(changed: bool)
    | Accounted(outcome: AccountingOutcome)
    | Refused(error: GoalError)

  datatype Applied = Applied(cell: Cell, reply: Reply)

  function Max(a: int, b: int): int {
    if a < b then b else a
  }

  /** The row after usage was added: the budget test reads the columns as they were before the statement. */
  function Charge(g: Goal, tokens: int, seconds: int): Goal {
    var used := g.tokensUsed + Max(tokens, 0);
    var flips := g.tokenBudget.Some? && used >= g.tokenBudget.value && g.status.Active?;
    g.(tokensUsed := used,
       timeUsedSeconds := g.timeUsedSeconds + Max(seconds, 0),
       statusReason := if flips then Some("budget_limited") else g.statusReason,
       status := if flips then BudgetLimited else g.status)
  }

  /** A migrated row as it is inserted: counters clamped, the rest of the columns at their defaults. */
  function Migrated(row: Goal): Goal {
    row.(objective := Trim(row.objective),
         tokensUsed := Max(row.tokensUsed, 0),
         timeUsedSeconds := Max(row.timeUsedSeconds, 0),
         objectiveRevision := 0,
         iterationCount := 0)
  }

  /** An update that keeps the thread's deferral; it fails when `admitted` does not hold. */
  function Rewrite(cell: Cell, admitted: bool, g: Goal): Applied {
    if admitted then Applied(cell.(row := Some(g)), Row(g)) else Applied(cell, Refused(NotFoundOrDisallowed))
  }

  /** Compare-and-set of the status: the row must carry the expected id and a status in `from`. */
  function TransitionStatus(
    cell: Cell, expected: GoalId, from: set<GoalStatus>, to: GoalStatus, reason: Option<string>): Applied
  {
    if !cell.Holds(expected) then Applied(cell, Refused(NotFoundOrDisallowed))
    else
      var g := cell.row.value;
      Rewrite(cell, g.status in from, g.(status := to, statusReason := reason))
  }

  function Apply(cell: Cell, op: StoreOp): (r: Applied)
    ensures cell.Valid() ==> r.cell.Valid()
  {
    match op
    case Create(req, goalId, cap) =>
      var problem := RequestProblem(req, cap);
      var g := NewGoal(req, goalId);
      if problem.Some? then Applied(cell, Refused(problem.value))
      else if cell.row.None? || cell.row.value.status.Complete? then Applied(cell.(row := Some(g)), Row(g))
      else Applied(cell, Refused(ExistingUnfinishedGoal))
    case Replace(req, goalId, cap) =>
      var problem := RequestProblem(req, cap);
      var g := NewGoal(req, goalId);
      // DELETE then INSERT: the deletion cascades to the deferral
      if problem.Some? then Applied(cell, Refused(problem.value)) else Applied(Cell(Some(g), false), Row(g))
    case InsertMigrated(row) =>
      var g := Migrated(row);
      if g.objective == "" then Applied(cell, Refused(EmptyObjective)) else Applied(Cell(Some(g), false), Row(g))
    case Clear =>
      Applied(EmptyCell, Flag(cell.row.Some?))
    case Resume(expected) =>
      if !cell.Holds(expected) then Applied(cell, Refused(NotFoundOrDisallowed))
      else
        var g := cell.row.value;
        Rewrite(cell, g.status.UserResumable(), g.(status := Active, statusReason := None))
    case EditObjective(expected, objective) =>
      var problem := ObjectiveProblem(objective);
      if problem.Some? then Applied(cell, Refused(problem.value))
      else if !cell.Holds(expected) then Applied(cell, Refused(NotFoundOrDisallowed))
      else
        var g := cell.row.value;
        Rewrite(cell, !g.status.IsTerminal(),
                g.(objective := Trim(objective), objectiveRevision := g.objectiveRevision + 1))
    case UpdateBudget(expected, budget, cap) =>
      var problem := BudgetProblem(budget, cap);
      if problem.Some? then Applied(cell, Refused(problem.value))
      else if !cell.Holds(expected) then Applied(cell, Refused(NotFoundOrDisallowed))
      else
        var g := cell.row.value;
        Rewrite(cell, !g.status.Complete?, g.(tokenBudget := Some(budget)))
    case SetIteration(expected, iteration) =>
      if !cell.Holds(expected) then Applied(cell, Refused(NotFoundOrDisallowed))
      else Rewrite(cell, true, cell.row.value.(iterationCount := iteration))
    case Pause(expected) => TransitionStatus(cell, expected, {Active}, Paused, None)
    case MarkUsageLimited(expected, reason) =>
      TransitionStatus(cell, expected, {Active, BudgetLimited}, UsageLimited, Some(reason))
    case MarkBlocked(expected, reason) => TransitionStatus(cell, expected, {Active}, Blocked, Some(reason))
    case MarkComplete(expected) => TransitionStatus(cell, expected, {Active}, Complete, None)
    case Account(expected, mode, tokens, seconds) =>
      if !cell.Holds(expected) || !mode.Allows(cell.row.value.status) then Applied(cell, Accounted(Unchanged))
      else
        var g := Charge(cell.row.value, tokens, seconds);
        Applied(cell.(row := Some(g)), Accounted(Updated(g.tokensUsed, g.status)))
    case Defer =>
      Applied(cell.(deferred := cell.row.Some?), Flag(cell.row.Some? && !cell.deferred))
    case ClearDeferral =>
      Applied(cell.(deferred := false), Flag(cell.deferred))
  }

  /** The id that a statement would give to a new row. */
  function InsertedId(op: StoreOp): Option<GoalId> {
    match op
    case Create(_, goalId, _) => Some(goalId)
    case Replace(_, goalId, _) => Some(goalId)
    case InsertMigrated(row) => Some(row.goalId)
    case _ => None
  }

  /** The thread's tables after a sequence of statements, whoever issued them. */
  function Run(cell: Cell, ops: seq<StoreOp>): (c: Cell)
    ensures cell.Valid() ==> c.Valid()
  {
    if ops == [] then cell else Apply(Run(cell, ops[..|ops| - 1]), ops[|ops| - 1]).cell
  }
}
