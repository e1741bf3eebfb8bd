/** Goal status, accounting modes, the goal row and request validation (`agent/goal/src/types.rs`). */
module GoalTypes {
  import opened Wrappers
  import opened Text

  type ThreadId = string
  type GoalId = string

  datatype GoalStatus = Active | Paused | Blocked | UsageLimited | BudgetLimited | Complete {
    predicate IsTerminal() {
      BudgetLimited? || Complete?
    }

    predicate UserResumable() {
      Paused? || Blocked? || UsageLimited? || BudgetLimited?
    }
  }

  datatype AccountingMode = ActiveStatusOnly | ActiveOnly | ActiveOrComplete | ActiveOrStopped {
    /** The statuses under which usage may still be added to the row. */
    predicate Allows(status: GoalStatus) {
      match this
      case ActiveStatusOnly => status.Active?
      case ActiveOnly => status.Active? || status.BudgetLimited?
      case ActiveOrComplete => status.Active? || status.BudgetLimited? || status.Complete?
      case ActiveOrStopped => !status.Complete?
    }
  }

  /** One row of the goal table; the thread that owns it is the key it is stored under. */
  datatype Goal = Goal(
    goalId: GoalId,
    objective: string,
    status: GoalStatus,
    tokenBudget: Option<int>,
    tokensUsed: int,
    timeUsedSeconds: int,
    verifyCommand: Option<string>,
    statusReason: Option<string>,
    objectiveRevision: int,
    iterationCount: int)

  datatype CreateRequest = CreateRequest(
    objective: string,
    tokenBudget: Option<int>,
    verifyCommand: Option<string>)

  datatype GoalError =
    | EmptyObjective
    | ObjectiveTooLong
    | BudgetMustBePositive
    | BudgetAboveCap(cap: int)
    | ExistingUnfinishedGoal
    | NotFoundOrDisallowed
    | NoGoal
    | NotResumable(status: GoalStatus)
    | LockTimeout
    | Database

  datatype AccountingOutcome = Updated(tokensUsed: int, status: GoalStatus) | Unchanged

  /** Longest objective, in bytes, that is kept in the row itself. */
  const MAX_OBJECTIVE_LEN := 4000

  /** The objective part of request validation: what is wrong with a text, if anything. */
  function ObjectiveProblem(objective: string): (e: Option<GoalError>) {
    var trimmed := Trim(objective);
    if trimmed == "" then Some(EmptyObjective)
    else if Utf8Length(trimmed) > MAX_OBJECTIVE_LEN then Some(ObjectiveTooLong)
    else None
  }

  /** The budget part; `cap` is the value `max_goal_token_budget` has at the time of the call. */
  function BudgetProblem(budget: int, cap: int): (e: Option<GoalError>) {
    if budget <= 0 then Some(BudgetMustBePositive)
    else if budget > cap then Some(BudgetAboveCap(cap))
    else None
  }

  function RequestProblem(req: CreateRequest, cap: int): (e: Option<GoalError>) {
    match ObjectiveProblem(req.objective)
    case Some(e) => Some(e)
    case None => if req.tokenBudget.Some? then BudgetProblem(req.tokenBudget.value, cap) else None
  }

  /** The row that a valid request creates. */
  function NewGoal(req: CreateRequest, goalId: GoalId): Goal {
    Goal(goalId, Trim(req.objective), Active, req.tokenBudget, 0, 0, req.verifyCommand, None, 0, 0)
  }
}
