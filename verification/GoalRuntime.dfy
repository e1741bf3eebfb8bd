/**
 Turn hooks and idle continuation of one thread (`agent/goal/src/runtime.rs`).

 Every await of a hook is a place where other tasks may issue statements; the hooks take those statements as
 parameters (`TurnEnv`, `IdleEnv`), so what is proved of a hook holds for every interleaving with the store.
 */
module GoalRuntime {
  import opened Wrappers
  import opened GoalTypes
  import opened GoalRow
  import opened TokenDelta
  import opened ObjectiveFile
  import A = GoalAccounting
  import T = ToolAccounting
  import S = GoalStore
  import V = GoalService
  import opened StoreRuns

  /** The goal a turn works on; an exempt turn (planning) has `account == false`. */
  datatype TurnBinding = TurnBinding(goalId: GoalId, account: bool)

  datatype ToolVisibility = Unknown | Visible | Missing

  datatype GoalTurnReason = ActiveGoal | BudgetLimit | ObjectiveUpdated

  /** What the driver is asked to start; the rendered prose around the objective is left out. */
  datatype GoalTurn = GoalTurn(goalId: GoalId, objective: string, iteration: int, reason: GoalTurnReason)

  /** The surroundings of a turn-end hook: what others do at each await, and what fails. */
  datatype TurnEnv = TurnEnv(
    beforeAccount: seq<StoreOp>,
    accounting: A.Environment,
    beforeBlock: seq<StoreOp>,
    blockReadOk: bool,                      // the read before the blocking or limiting statement succeeds
    readToBlock: seq<StoreOp>,
    blockOk: bool,                          // so does that statement
    beforeSteer: seq<StoreOp>,
    steerGap: seq<StoreOp>,
    files: Option<map<string, string>>,     // the objectives directory as the hook finds it
    beforeStart: seq<StoreOp>,
    driverStarts: bool,
    beforeIterate: seq<StoreOp>,
    iterateOk: bool)                        // the numbering statement reaches the database

  /** The surroundings of `continue_if_idle`. */
  datatype IdleEnv = IdleEnv(
    permit: bool,
    beforeRead: seq<StoreOp>,
    beforeStart: seq<StoreOp>,
    driverStarts: bool,
    beforeIterate: seq<StoreOp>,
    iterateOk: bool)                        // the numbering statement reaches the database

  const EXEC_UNAVAILABLE := "execution unavailable after 3 consecutive failed execution turns"

  /** A cell after a step, with the goal the step blocked and the turn it started, one for a goal or a plain one. */
  datatype Exit = Exit(
    cell: Cell,
    inner: A.Inner,
    reported: Option<GoalId>,
    blocked: Option<Goal>,
    turn: Option<GoalTurn>,
    plain: Option<string>,
    result: Result<Option<Goal>, GoalError>)

  datatype Blocking = Blocking(cell: Cell, blocked: Option<Goal>)

  /** The blocking statement; a failure in the database is not reported. */
  function BlockGoal(cell: Cell, goalId: GoalId, reason: string, ok: bool): Blocking {
    var r := V.Execute(cell, MarkBlocked(goalId, reason), ok);
    Blocking(r.cell, if r.reply.Row? then Some(r.reply.goal) else None)
  }

  /** The blocking step of an error exit: the bound goal, or without a binding whatever goal is active. */
  function BlockCall(cell: Cell, bound: Option<TurnBinding>, reason: string, env: TurnEnv): Blocking {
    var now := Run(cell, env.beforeBlock);
    if bound.Some? then BlockGoal(now, bound.value.goalId, reason, env.blockOk)
    else if env.blockReadOk && now.row.Some? && now.row.value.status.Active? then
      BlockGoal(Run(now, env.readToBlock), now.row.value.goalId, reason, env.blockOk)
    else Blocking(now, None)
  }

  /** The iteration count of the goal a turn was started for; a failure in the database is ignored. */
  function CountIteration(cell: Cell, turn: GoalTurn, ok: bool): Cell {
    V.Execute(cell, SetIteration(turn.goalId, turn.iteration), ok).cell
  }

  datatype Injection = Injection(
    cell: Cell, reported: Option<GoalId>, steered: Option<Goal>, turn: Option<GoalTurn>, plain: Option<string>)

  datatype Closing = Closing(cell: Cell, turn: Option<GoalTurn>, plain: Option<string>)

  /** Starting the closing turn with the text `objective`: for the goal that is there by then, or as a plain turn. */
  function CloseCall(cell: Cell, objective: string, env: TurnEnv): Closing {
    var now := Run(cell, env.beforeStart);
    if !env.driverStarts then Closing(now, None, None)
    else if now.row.None? then Closing(now, None, Some(objective))
    else
      var g := now.row.value;
      var turn := GoalTurn(g.goalId, objective, g.iterationCount + 1, BudgetLimit);
      Closing(CountIteration(Run(now, env.beforeIterate), turn, env.iterateOk), Some(turn), None)
  }

  /**
   `inject_budget_steering_if_flipped`: the steered goal has its full objective; when the row is gone by then, the
   closing text starts a plain turn.
   */
  function InjectCall(cell: Cell, reported: Option<GoalId>, outcome: AccountingOutcome, env: TurnEnv): Injection {
    var read := Run(cell, env.beforeSteer);
    var (steered, claimed) := A.Steer(reported, outcome, read.row);
    var after := if outcome.Updated? && outcome.status.BudgetLimited? then Run(read, env.steerGap) else read;
    if steered.None? then Injection(after, claimed, None, None, None)
    else
      var goal := steered.value.(objective := Resolve(steered.value.objective, env.files));
      var c := CloseCall(after, goal.objective, env);
      Injection(c.cell, claimed, Some(goal), c.turn, c.plain)
  }

  predicate Exempt(bound: Option<TurnBinding>) {
    bound.Some? && !bound.value.account
  }

  /** `on_turn_error`. */
  function ErrorExit(
    cell: Cell, inner: A.Inner, reported: Option<GoalId>, bound: Option<TurnBinding>,
    reason: string, totals: Option<TokenTotals>, env: TurnEnv): Exit
  {
    if Exempt(bound) then Exit(cell, inner, reported, None, None, None, Ok(None))
    else
      var a := A.AccountCall(Run(cell, env.beforeAccount), inner, totals, ActiveOrStopped, true, env.accounting);
      if a.result.Err? then Exit(a.cell, a.inner, reported, None, None, None, Err(a.result.error))
      else
        var b := BlockCall(a.cell, bound, reason, env);
        var i := InjectCall(b.cell, reported, a.result.value, env);
        Exit(i.cell, a.inner, i.reported, b.blocked, i.turn, i.plain, Ok(i.steered))
  }

  /** `on_turn_finish`; `unavailable` is the verdict of the tool streak. */
  function FinishExit(
    cell: Cell, inner: A.Inner, reported: Option<GoalId>, bound: Option<TurnBinding>, unavailable: Option<GoalId>,
    totals: Option<TokenTotals>, env: TurnEnv): Exit
  {
    if Exempt(bound) then Exit(cell, inner, reported, None, None, None, Ok(None))
    else
      var a := A.AccountCall(Run(cell, env.beforeAccount), inner, totals, ActiveOnly, true, env.accounting);
      if a.result.Err? then Exit(a.cell, a.inner, reported, None, None, None, Err(a.result.error))
      else
        var b := if unavailable.Some?
                 then BlockGoal(Run(a.cell, env.beforeBlock), unavailable.value, EXEC_UNAVAILABLE, env.blockOk)
                 else Blocking(a.cell, None);
        if b.blocked.Some? then Exit(b.cell, a.inner, reported, b.blocked, None, None, Ok(None))
        else
          var i := InjectCall(b.cell, reported, a.result.value, env);
          Exit(i.cell, a.inner, i.reported, None, i.turn, i.plain, Ok(i.steered))
  }

  /** `on_turn_abort`. */
  function AbortExit(
    cell: Cell, inner: A.Inner, bound: Option<TurnBinding>, totals: Option<TokenTotals>, env: TurnEnv): A.Accounting
  {
    if Exempt(bound) then A.Accounting(cell, inner, Ok(Unchanged))
    else A.AccountCall(Run(cell, env.beforeAccount), inner, totals, ActiveOrStopped, true, env.accounting)
  }

  /** The limiting step of a quota exit: whatever goal is there. */
  function LimitCall(cell: Cell, reason: string, env: TurnEnv): Cell {
    var read := Run(cell, env.beforeBlock);
    if !env.blockReadOk || read.row.None? then read
    else V.Execute(Run(read, env.readToBlock), MarkUsageLimited(read.row.value.goalId, reason), env.blockOk).cell
  }

  /** `on_provider_quota_exhausted_with_usage`; it does not look at the binding. */
  function QuotaExit(
    cell: Cell, inner: A.Inner, reason: string, totals: Option<TokenTotals>, env: TurnEnv): A.Accounting {
    var a := A.AccountCall(Run(cell, env.beforeAccount), inner, totals, ActiveOrStopped, true, env.accounting);
    if a.result.Err? then a else a.(cell := LimitCall(a.cell, reason, env))
  }

  predicate IsActive(row: Option<Goal>) {
    row.Some? && row.value.status.Active?
  }

  /** The binding after the start of a turn that reads `row`. */
  function Rebound(bound: Option<TurnBinding>, row: Option<Goal>, account: bool): Option<TurnBinding> {
    if IsActive(row) then Some(TurnBinding(row.value.goalId, account)) else bound
  }

  /** What `continue_if_idle` renders for an active goal. */
  function Continuation(goal: Goal, files: Option<map<string, string>>, seen: int): GoalTurn {
    GoalTurn(goal.goalId, Resolve(goal.objective, files), goal.iterationCount + 1,
             if goal.objectiveRevision > seen then ObjectiveUpdated else ActiveGoal)
  }

  datatype Continued = Continued(cell: Cell, turn: Option<GoalTurn>, seen: int)

  /** `continue_if_idle`. */
  function IdleCall(
    cell: Cell, files: Option<map<string, string>>, visibility: ToolVisibility, seen: int, env: IdleEnv): Continued
  {
    if visibility.Missing? || !env.permit then Continued(cell, None, seen)
    else if cell.deferred then Continued(cell, None, seen)
    else
      var read := Run(cell, env.beforeRead);
      if read.row.None? || read.row.value.status != Active then Continued(read, None, seen)
      else
        var goal := read.row.value;
        var turn := Continuation(goal, files, seen);
        var ready := Run(read, env.beforeStart);
        if !env.driverStarts then Continued(ready, None, seen)
        else
          Continued(CountIteration(Run(ready, env.beforeIterate), turn, env.iterateOk), Some(turn),
                    if turn.reason.ObjectiveUpdated? then goal.objectiveRevision else seen)
  }

  /** The host's side: turns that it agreed to start. */
  class TurnDriver {
    var started: seq<GoalTurn>
    var plain: seq<string>

    constructor ()
      ensures started == [] && plain == []
    {
      started, plain := [], [];
    }

    method StartGoalTurn(turn: GoalTurn, idle: bool) returns (ok: bool)
      modifies this`started
      ensures ok == idle && started == if idle then old(started) + [turn] else old(started)
    {
      if idle {
        started := started + [turn];
      }
      ok := idle;
    }

    method StartTurnIfIdle(text: string, idle: bool) returns (ok: bool)
      modifies this`plain
      ensures ok == idle && plain == if idle then old(plain) + [text] else old(plain)
    {
      if idle {
        plain := plain + [text];
      }
      ok := idle;
    }
  }

  function Log<T>(started: seq<T>, turn: Option<T>): seq<T> {
    if turn.Some? then started + [turn.value] else started
  }

  class GoalRuntime {
    const thread: ThreadId
    const store: S.GoalStore
    const service: V.GoalService
    const accounting: A.GoalAccounting
    const tools: T.ToolAccounting
    const driver: TurnDriver
    var turnBinding: Option<TurnBinding>
    var lastSeenRevision: int
    var goalToolsVisibility: ToolVisibility

    constructor (store: S.GoalStore, dir: V.GoalsDir?, thread: ThreadId, driver: TurnDriver)
      requires store.Valid()
      ensures Valid() && this.store == store && this.thread == thread && this.driver == driver && service.dir == dir
      ensures turnBinding == None && lastSeenRevision == 0 && goalToolsVisibility == Unknown
      ensures accounting.inner == A.Unarmed && accounting.budgetReported == None && tools.tally == T.NoTally
      ensures fresh(accounting) && fresh(service) && fresh(tools)
    {
      this.store, this.thread, this.driver := store, thread, driver;
      service := new V.GoalService(store, dir);
      accounting := new A.GoalAccounting(store, thread);
      tools := new T.ToolAccounting();
      turnBinding, lastSeenRevision, goalToolsVisibility := None, 0, Unknown;
    }

    ghost predicate Valid()
      reads this, store
    {
      store.Valid() && service.store == store && accounting.store == store && accounting.thread == thread
    }

    method RecordGoalToolsVisibility(visible: bool)
      modifies this`goalToolsVisibility
      ensures goalToolsVisibility == if visible then Visible else Missing
    {
      goalToolsVisibility := if visible then Visible else Missing;
    }

    /** Clears the deferral, starts the clock of an active goal and resets the tool statistics. */
    method OnTurnStart(gap: seq<StoreOp>, now: nat)
      requires Valid()
      modifies store, accounting`inner, tools
      ensures Valid() && store.OthersUnchanged(thread)
      ensures var cleared := Apply(old(store.CellOf(thread)), ClearDeferral).cell;
              store.CellOf(thread) == Run(cleared, gap) && accounting.inner == A.StartedInner(cleared.row, now)
      ensures tools.tally == T.BeginTurn(old(tools.tally))
    {
      var _ := store.ClearContinuationDeferral(thread);
      accounting.StartWallClockIfActive(gap, now);
      tools.StartTurn();
    }

    /** `on_turn_start_for` and `on_turn_start_exempt`: bind the turn to the goal that is active now. */
    method BindTurn(account: bool, gap: seq<StoreOp>, now: nat)
      requires Valid()
      modifies this`turnBinding, this`lastSeenRevision, store, accounting`inner, tools
      ensures Valid() && store.OthersUnchanged(thread)
      ensures store.CellOf(thread) == Run(Apply(old(store.CellOf(thread)), ClearDeferral).cell, gap)
      ensures var row := store.CellOf(thread).row;
              && turnBinding == Rebound(old(turnBinding), row, account)
              && lastSeenRevision == if IsActive(row) then row.value.objectiveRevision else old(lastSeenRevision)
      ensures tools.tally == T.BeginTurn(old(tools.tally))
    {
      OnTurnStart(gap, now);
      var goal := store.Read(thread);
      if goal.Some? && goal.value.status == Active {
        lastSeenRevision := goal.value.objectiveRevision;
        turnBinding := Some(TurnBinding(goal.value.goalId, account));
      }
    }

    method InjectBudgetSteeringIfFlipped(outcome: AccountingOutcome, env: TurnEnv) returns (steered: Option<Goal>)
      requires Valid() && env.files == service.Files()
      modifies store, accounting`budgetReported, driver
      ensures Valid() && store.OthersUnchanged(thread)
      ensures var i := InjectCall(old(store.CellOf(thread)), old(accounting.budgetReported), outcome, env);
              && store.CellOf(thread) == i.cell && accounting.budgetReported == i.reported && steered == i.steered
              && driver.started == Log(old(driver.started), i.turn) && driver.plain == Log(old(driver.plain), i.plain)
    {
      store.Interleave(thread, env.beforeSteer);
      var claimed := accounting.TakeBudgetSteeringIfFlipped(outcome, env.steerGap);
      if claimed.None? {
        return None;
      }
      var full := service.ResolveObjective(claimed.value);
      steered := Some(full);
      CloseTurn(full.objective, env);
    }

    method CloseTurn(objective: string, env: TurnEnv)
      requires Valid()
      modifies store, driver
      ensures Valid() && store.OthersUnchanged(thread)
      ensures var c := CloseCall(old(store.CellOf(thread)), objective, env);
              && store.CellOf(thread) == c.cell
              && driver.started == Log(old(driver.started), c.turn) && driver.plain == Log(old(driver.plain), c.plain)
    {
      store.Interleave(thread, env.beforeStart);
      var goal := store.Read(thread);
      if goal.Some? {
        var turn := GoalTurn(goal.value.goalId, objective, goal.value.iterationCount + 1, BudgetLimit);
        var _ := StartTurn(turn, env.driverStarts, env.beforeIterate, env.iterateOk);
      } else {
        var _ := driver.StartTurnIfIdle(objective, env.driverStarts);
      }
    }

    /** Asks the driver for a turn, and counts it if it was started. */
    method StartTurn(turn: GoalTurn, idle: bool, gap: seq<StoreOp>, countOk: bool) returns (started: bool)
      requires Valid()
      modifies store, driver`started
      ensures Valid() && store.OthersUnchanged(thread) && started == idle
      ensures store.CellOf(thread)
           == if started then CountIteration(Run(old(store.CellOf(thread)), gap), turn, countOk)
              else old(store.CellOf(thread))
      ensures driver.started == Log(old(driver.started), if started then Some(turn) else None)
    {
      started := driver.StartGoalTurn(turn, idle);
      if started {
        store.Interleave(thread, gap);
        if countOk {
          var _ := store.SetIteration(thread, turn.goalId, turn.iteration);
        }
      }
    }

    /** The goal that was blocked, if the statement got through and met it active. */
    method TryToBlock(goalId: GoalId, reason: string, ok: bool) returns (blocked: Option<Goal>)
      requires Valid()
      modifies store
      ensures Valid() && store.OthersUnchanged(thread)
      ensures Blocking(store.CellOf(thread), blocked) == BlockGoal(old(store.CellOf(thread)), goalId, reason, ok)
    {
      blocked := None;
      if ok {
        var marked := store.MarkBlocked(thread, goalId, reason);
        blocked := if marked.Ok? then Some(marked.value) else None;
      }
    }

    method OnTurnFinish(totals: Option<TokenTotals>, env: TurnEnv) returns (r: Result<Option<Goal>, GoalError>)
      requires Valid() && env.files == service.Files()
      modifies this`turnBinding, store, accounting, tools, driver
      ensures Valid() && store.OthersUnchanged(thread) && turnBinding == None
      ensures var bound := old(turnBinding);
              var (tally, unavailable) :=
                  T.Judge(old(tools.tally), if bound.Some? then Some(bound.value.goalId) else None);
              var e := FinishExit(old(store.CellOf(thread)), old(accounting.inner), old(accounting.budgetReported),
                                  bound, unavailable, totals, env);
              && store.CellOf(thread) == e.cell && accounting.inner == e.inner
                 && accounting.budgetReported == e.reported
              && driver.started == Log(old(driver.started), e.turn) && driver.plain == Log(old(driver.plain), e.plain)
              && r == e.result
              && tools.tally == if Exempt(bound) || r.Err? then old(tools.tally) else tally
    {
      var bound := turnBinding;
      turnBinding := None;
      if Exempt(bound) {
        return Ok(None);
      }
      store.Interleave(thread, env.beforeAccount);
      var outcome := accounting.FinishTurn(totals, env.accounting);
      if outcome.Err? {
        return Err(outcome.error);
      }
      var unavailable := tools.ExecutionFailureGoal(if bound.Some? then Some(bound.value.goalId) else None);
      if unavailable.Some? {
        store.Interleave(thread, env.beforeBlock);
        var blocked := TryToBlock(unavailable.value, EXEC_UNAVAILABLE, env.blockOk);
        if blocked.Some? {
          return Ok(None);
        }
      }
      var steered := InjectBudgetSteeringIfFlipped(outcome.value, env);
      r := Ok(steered);
    }

    /** A cancelled turn: charge what it used, start nothing, and leave the steering slot alone. */
    method OnTurnAbort(totals: Option<TokenTotals>, env: TurnEnv) returns (r: Result<AccountingOutcome, GoalError>)
      requires Valid()
      modifies this`turnBinding, store, accounting`inner
      ensures Valid() && store.OthersUnchanged(thread) && turnBinding == None
      ensures A.Accounting(store.CellOf(thread), accounting.inner, r)
           == AbortExit(old(store.CellOf(thread)), old(accounting.inner), old(turnBinding), totals, env)
    {
      var bound := turnBinding;
      turnBinding := None;
      if Exempt(bound) {
        return Ok(Unchanged);
      }
      store.Interleave(thread, env.beforeAccount);
      r := accounting.StopAbnormal(totals, env.accounting);
    }

    /** The bound goal, or without a binding whichever goal is active. */
    method BlockAfterError(bound: Option<TurnBinding>, reason: string, env: TurnEnv) returns (blocked: Option<Goal>)
      requires Valid()
      modifies store
      ensures Valid() && store.OthersUnchanged(thread)
      ensures Blocking(store.CellOf(thread), blocked) == BlockCall(old(store.CellOf(thread)), bound, reason, env)
    {
      blocked := None;
      store.Interleave(thread, env.beforeBlock);
      if bound.Some? {
        blocked := TryToBlock(bound.value.goalId, reason, env.blockOk);
      } else if env.blockReadOk {
        var goal := store.Read(thread);
        if goal.Some? && goal.value.status == Active {
          store.Interleave(thread, env.readToBlock);
          blocked := TryToBlock(goal.value.goalId, reason, env.blockOk);
        }
      }
    }

    method OnTurnError(reason: string, totals: Option<TokenTotals>, env: TurnEnv)
      returns (r: Result<Option<Goal>, GoalError>, blocked: Option<Goal>)
      requires Valid() && env.files == service.Files()
      modifies this`turnBinding, store, accounting, driver
      ensures Valid() && store.OthersUnchanged(thread) && turnBinding == None
      ensures var e := ErrorExit(old(store.CellOf(thread)), old(accounting.inner), old(accounting.budgetReported),
                                 old(turnBinding), reason, totals, env);
              && store.CellOf(thread) == e.cell && accounting.inner == e.inner
                 && accounting.budgetReported == e.reported
              && driver.started == Log(old(driver.started), e.turn) && driver.plain == Log(old(driver.plain), e.plain)
              && r == e.result && blocked == e.blocked
    {
      var bound := turnBinding;
      turnBinding := None;
      blocked := None;
      if Exempt(bound) {
        return Ok(None), None;
      }
      // the state lock is requested here, but its outcome is not checked
      store.Interleave(thread, env.beforeAccount);
      var outcome := accounting.StopAbnormal(totals, env.accounting);
      if outcome.Err? {
        return Err(outcome.error), None;
      }
      blocked := BlockAfterError(bound, reason, env);
      var steered := InjectBudgetSteeringIfFlipped(outcome.value, env);
      r := Ok(steered);
    }

    /** Quota exhausted: charge what was used, then mark the goal that is there as usage limited. */
    method OnProviderQuotaExhausted(reason: string, totals: Option<TokenTotals>, env: TurnEnv)
      returns (r: Result<AccountingOutcome, GoalError>)
      requires Valid()
      modifies store, accounting`inner
      ensures Valid() && store.OthersUnchanged(thread)
      ensures A.Accounting(store.CellOf(thread), accounting.inner, r)
           == QuotaExit(old(store.CellOf(thread)), old(accounting.inner), reason, totals, env)
    {
      store.Interleave(thread, env.beforeAccount);
      r := accounting.StopAbnormal(totals, env.accounting);
      if r.Err? {
        return;
      }
      store.Interleave(thread, env.beforeBlock);
      if !env.blockReadOk {
        return;
      }
      var goal := store.Read(thread);
      if goal.Some? {
        store.Interleave(thread, env.readToBlock);
        if env.blockOk {
          var _ := store.MarkUsageLimited(thread, goal.value.goalId, reason);
        }
      }
    }

    method ContinueIfIdle(env: IdleEnv) returns (started: bool)
      requires Valid()
      modifies this`lastSeenRevision, store, driver`started
      ensures Valid() && store.OthersUnchanged(thread)
      ensures var c :=
              IdleCall(old(store.CellOf(thread)), old(service.Files()), goalToolsVisibility, old(lastSeenRevision),
                  env);
              && store.CellOf(thread) == c.cell && lastSeenRevision == c.seen && started == c.turn.Some?
              && driver.started == Log(old(driver.started), c.turn)
    {
      if goalToolsVisibility == Missing || !env.permit {
        return false;
      }
      var deferred := store.HasContinuationDeferral(thread);
      if deferred {
        return false;
      }
      store.Interleave(thread, env.beforeRead);
      var row := store.Read(thread);
      if row.None? || row.value.status != Active {
        return false;
      }
      var turn := RenderContinuation(row.value);
      store.Interleave(thread, env.beforeStart);
      started := StartTurn(turn, env.driverStarts, env.beforeIterate, env.iterateOk);
      if started && turn.reason == ObjectiveUpdated {
        lastSeenRevision := row.value.objectiveRevision;
      }
    }

    /** The turn for an active goal, with the full text of its objective. */
    method RenderContinuation(row: Goal) returns (turn: GoalTurn)
      ensures turn == Continuation(row, service.Files(), lastSeenRevision)
    {
      var goal := service.ResolveObjective(row);
      turn := GoalTurn(goal.goalId, goal.objective, goal.iterationCount + 1,
                       if goal.objectiveRevision > lastSeenRevision then ObjectiveUpdated else ActiveGoal);
    }

    /** After a pause the binding is dropped and the clock flushed; after a resume the clock starts again, from zero. */
    method OnGoalStatusChanged(
      status: GoalStatus, env: TurnEnv, now: nat) returns (r: Result<AccountingOutcome, GoalError>)
      requires Valid()
      modifies this`turnBinding, store, accounting`inner
      ensures Valid() && store.OthersUnchanged(thread)
      ensures status.Active? ==>
                && turnBinding == old(turnBinding) && r == Ok(Unchanged)
                && accounting.inner == A.StartedInner(old(store.CellOf(thread)).row, now)
      ensures !status.Active? ==>
                && turnBinding == None
                && A.AccountCall(old(store.CellOf(thread)), old(accounting.inner), None, ActiveOrStopped, true,
                   env.accounting)
                == A.Accounting(store.CellOf(thread), accounting.inner, r)
    {
      if status == Active {
        accounting.StartWallClockIfActive([], now);
        r := Ok(Unchanged);
      } else {
        turnBinding := None;
        r := accounting.FlushWallClock(ActiveOrStopped, env.accounting);
      }
    }

    /** `note_goal_armed`: the new goal is measured from the last totals that are known. */
    method NoteGoalArmed(goalId: GoalId)
      modifies accounting`inner
      ensures accounting.inner == A.Inner(Some(A.Mark(goalId, A.BaselineTotals(old(accounting.inner)))), None)
    {
      var totals := accounting.LastTotals();
      accounting.ResetBaselines(goalId, totals);
    }
  }

  // ----- properties -----

  /**
   Whatever other tasks do around it, the blocking step of a bound turn changes the row only if that is the bound goal
   and it is active at that very moment; a goal that replaced it is never blocked.
   */
  lemma ErrorBlocksOnlyTheBoundGoal(cell: Cell, bound: TurnBinding, reason: string, env: TurnEnv)
    ensures var before := Run(cell, env.beforeBlock);
            var b := BlockCall(cell, Some(bound), reason, env);
            && (b.blocked.Some? <==> env.blockOk && before.Holds(bound.goalId) && before.row.value.status.Active?)
            && (b.blocked.Some? ==>
                 b.blocked.value == before.row.value.(status := Blocked, statusReason := Some(reason))
                                    && b.cell == before.(row := b.blocked))
            && (b.blocked.None? ==> b.cell == before)
  {
  }

  // ----- exits, with other tasks in between -----

  /**
   Nothing fails, and the statements of other tasks spare the goal; they may pause, resume, edit, limit or block it.
   */
  predicate Works(env: A.Environment) {
    env.permit && env.readOk && env.writeOk && AllSpare(env.gap)
  }

  predicate Spared(env: TurnEnv) {
    && AllSpare(env.beforeAccount) && AllSpare(env.beforeBlock) && AllSpare(env.readToBlock)
    && AllSpare(env.beforeSteer) && AllSpare(env.steerGap) && AllSpare(env.beforeStart) && AllSpare(env.beforeIterate)
    && Works(env.accounting) && env.blockReadOk && env.blockOk
  }

  /** The row of goal `g`, with `more` tokens. */
  predicate Carries(cell: Cell, g: Goal, more: int) {
    cell.Holds(g.goalId) && cell.row.value.tokensUsed == g.tokensUsed + more
  }

  /** The row at the moment of the accounting statement. */
  function AtCharge(cell: Cell, env: TurnEnv): Cell {
    Run(Run(cell, env.beforeAccount), env.accounting.gap)
  }

  function Charged(
    cell: Cell, inner: A.Inner, totals: Option<TokenTotals>, mode: AccountingMode, env: TurnEnv): A.Accounting {
    A.AccountCall(Run(cell, env.beforeAccount), inner, totals, mode, true, env.accounting)
  }

  /** The usage that the statement admits: all of it, or nothing when the status forbids it at that moment. */
  function Admitted(at: Cell, mode: AccountingMode, delta: int): int {
    if at.row.Some? && mode.Allows(at.row.value.status) then delta else 0
  }

  predicate BudgetReached(g: Goal, delta: int) {
    g.tokenBudget.Some? && g.tokensUsed + delta >= g.tokenBudget.value
  }

  /** The status after the statement. */
  function StatusAfter(at: Cell, mode: AccountingMode, delta: int): GoalStatus
    requires at.row.Some?
  {
    if at.row.value.status.Active? && BudgetReached(at.row.value, delta) then BudgetLimited else at.row.value.status
  }

  /** The row still holds the measured goal when the statement is issued. */
  lemma ChargeMeetsItsGoal(cell: Cell, env: TurnEnv)
    requires cell.row.Some? && Spared(env)
    ensures Carries(Run(cell, env.beforeAccount), cell.row.value, 0) && Carries(AtCharge(cell, env), cell.row.value, 0)
  {
    SparedGoalStays(cell, env.beforeAccount);
    SparedGoalStays(Run(cell, env.beforeAccount), env.accounting.gap);
  }

  /** The accounting call of an exit: what it adds, and what it reports. */
  lemma ExitCharges(
    cell: Cell, inner: A.Inner, start: TokenTotals, final: TokenTotals, mode: AccountingMode, env: TurnEnv)
    requires cell.row.Some? && Spared(env) && inner.baseline == Some(A.Mark(cell.row.value.goalId, start))
    ensures var delta, at := GoalTokenDelta(start, final), AtCharge(cell, env);
            var a := Charged(cell, inner, Some(final), mode, env);
            && a.result.Ok? && Carries(a.cell, cell.row.value, Admitted(at, mode, delta)) && at.row.Some?
            && (delta > 0 && mode.Allows(at.row.value.status) ==>
                  && a.cell.row.value.status == StatusAfter(at, mode, delta)
                  && a.result == Ok(Updated(a.cell.row.value.tokensUsed, a.cell.row.value.status)))
            && (delta > 0 && !mode.Allows(at.row.value.status) ==> a.cell == at && a.result == Ok(Unchanged))
  {
    ChargeMeetsItsGoal(cell, env);
  }

  /** Steering leaves id and tokens of a spared goal alone. */
  lemma InjectionSpares(cell: Cell, reported: Option<GoalId>, outcome: AccountingOutcome, env: TurnEnv)
    requires cell.row.Some? && Spared(env)
    ensures Carries(InjectCall(cell, reported, outcome, env).cell, cell.row.value, 0)
  {
    var read := Run(cell, env.beforeSteer);
    SparedGoalStays(cell, env.beforeSteer);
    SparedGoalStays(read, env.steerGap);
    SparedGoalStays(read, env.beforeStart);
    var after := if outcome.Updated? && outcome.status.BudgetLimited? then Run(read, env.steerGap) else read;
    SparedGoalStays(after, env.beforeStart);
    SparedGoalStays(Run(after, env.beforeStart), env.beforeIterate);
  }

  /** Blocking, or not, leaves id and tokens alone; it succeeds exactly if the bound goal is active at that moment. */
  lemma BlockingSpares(cell: Cell, g: GoalId, reason: string)
    requires cell.Holds(g)
    ensures var b := BlockGoal(cell, g, reason, true);
            && Carries(b.cell, cell.row.value, 0)
            && (b.blocked.Some? <==> cell.row.value.status.Active?)
            && b.cell.row.value.status == (if cell.row.value.status.Active? then Blocked else cell.row.value.status)
  {
  }

  /**
   An error in a turn on goal `g`, whatever others do to the goal meanwhile: the usage is on the row once, unless the
   status at that moment forbids it, and the goal is blocked exactly if it is active just before that statement.
   */
  lemma ErrorSettlesTheTurn(
    cell: Cell, inner: A.Inner, reported: Option<GoalId>, start: TokenTotals, final: TokenTotals, reason: string,
    env: TurnEnv)
    requires cell.row.Some? && Spared(env) && inner.baseline == Some(A.Mark(cell.row.value.goalId, start))
    ensures var g := cell.row.value;
            var e := ErrorExit(cell, inner, reported, Some(TurnBinding(g.goalId, true)), reason, Some(final), env);
            var before := Run(Charged(cell, inner, Some(final), ActiveOrStopped, env).cell, env.beforeBlock);
            && e.result.Ok?
               && Carries(e.cell, g, Admitted(AtCharge(cell, env), ActiveOrStopped, GoalTokenDelta(start, final)))
            && Carries(before, g, Admitted(AtCharge(cell, env), ActiveOrStopped, GoalTokenDelta(start, final)))
            && (e.blocked.Some? <==> before.row.value.status.Active?)
  {
    var a := Charged(cell, inner, Some(final), ActiveOrStopped, env);
    ExitCharges(cell, inner, start, final, ActiveOrStopped, env);
    SparedGoalStays(a.cell, env.beforeBlock);
    BlockingSpares(Run(a.cell, env.beforeBlock), cell.row.value.goalId, reason);
    var b := BlockCall(a.cell, Some(TurnBinding(cell.row.value.goalId, true)), reason, env);
    InjectionSpares(b.cell, reported, a.result.value, env);
  }

  /** The same for a turn that ends normally; only a failing tool streak may block it. */
  lemma FinishSettlesTheTurn(
    cell: Cell, inner: A.Inner, reported: Option<GoalId>, fails: bool, start: TokenTotals, final: TokenTotals,
    env: TurnEnv)
    requires cell.row.Some? && Spared(env) && inner.baseline == Some(A.Mark(cell.row.value.goalId, start))
    ensures var g := cell.row.value;
            var unavailable := if fails then Some(g.goalId) else None;
            var e := FinishExit(cell, inner, reported, Some(TurnBinding(g.goalId, true)), unavailable, Some(final),
                env);
            var before := Run(Charged(cell, inner, Some(final), ActiveOnly, env).cell, env.beforeBlock);
            && e.result.Ok?
               && Carries(e.cell, g, Admitted(AtCharge(cell, env), ActiveOnly, GoalTokenDelta(start, final)))
            && Carries(before, g, Admitted(AtCharge(cell, env), ActiveOnly, GoalTokenDelta(start, final)))
            && (e.blocked.Some? <==> fails && before.row.value.status.Active?)
  {
    var a := Charged(cell, inner, Some(final), ActiveOnly, env);
    ExitCharges(cell, inner, start, final, ActiveOnly, env);
    SparedGoalStays(a.cell, env.beforeBlock);
    BlockingSpares(Run(a.cell, env.beforeBlock), cell.row.value.goalId, EXEC_UNAVAILABLE);
    var b := if fails then BlockGoal(Run(a.cell, env.beforeBlock), cell.row.value.goalId, EXEC_UNAVAILABLE, true)
             else Blocking(a.cell, None);
    InjectionSpares(b.cell, reported, a.result.value, env);
  }

  /**
   A cancelled turn and one without quota: charged the same way; the quota limits the goal unless its status forbids
   that by then.
   */
  lemma StopSettlesTheTurn(
    cell: Cell, inner: A.Inner, bound: Option<TurnBinding>, start: TokenTotals, final: TokenTotals, reason: string,
    env: TurnEnv)
    requires cell.row.Some? && Spared(env) && inner.baseline == Some(A.Mark(cell.row.value.goalId, start))
             && !Exempt(bound)
    ensures var g, more := cell.row.value, Admitted(AtCharge(cell, env), ActiveOrStopped, GoalTokenDelta(start, final));
            var stopped := AbortExit(cell, inner, bound, Some(final), env).cell;
            var before := Run(Run(stopped, env.beforeBlock), env.readToBlock);
            var limited := QuotaExit(cell, inner, reason, Some(final), env).cell;
            && Carries(stopped, g, more) && Carries(before, g, more) && Carries(limited, g, more)
            && limited.row.value.status == if before.row.value.status.Active? || before.row.value.status.BudgetLimited?
                                           then UsageLimited else before.row.value.status
  {
    var a := Charged(cell, inner, Some(final), ActiveOrStopped, env);
    ExitCharges(cell, inner, start, final, ActiveOrStopped, env);
    SparedGoalStays(a.cell, env.beforeBlock);
    SparedGoalStays(Run(a.cell, env.beforeBlock), env.readToBlock);
  }

  /** Only a resume makes a limited goal active again. */
  lemma {:induction false} LimitedStays(cell: Cell, ops: seq<StoreOp>)
    requires cell.row.Some? && (cell.row.value.status.BudgetLimited? || cell.row.value.status.UsageLimited?)
    requires AllSpare(ops) && forall op | op in ops :: !op.Resume?
    ensures var c := Run(cell, ops);
            c.row.Some? && (c.row.value.status.BudgetLimited? || c.row.value.status.UsageLimited?)
  {
    if ops != [] {
      var n := |ops| - 1;
      assert forall op | op in ops[..n] :: op in ops;
      LimitedStays(cell, ops[..n]);
      SparedGoalStays(cell, ops[..n]);
      assert Spares(ops[n]) && !ops[n].Resume?;
      StatementKeepsLimit(Run(cell, ops[..n]), ops[n]);
      SparedRowStays(Run(cell, ops[..n]), ops[n]);
    }
  }

  predicate HitsBudget(result: Result<AccountingOutcome, GoalError>) {
    result.Ok? && result.value.Updated? && result.value.status.BudgetLimited?
  }

  /**
   Budget before blocking: if the last charge of a finished turn reaches the budget, a failing tool streak blocks the
   goal only if somebody resumes it in between, and the steering turn is produced exactly if this goal had none yet.
   */
  lemma BudgetWinsOverBlocking(
    cell: Cell, inner: A.Inner, reported: Option<GoalId>, unavailable: Option<GoalId>,
    start: TokenTotals, final: TokenTotals, env: TurnEnv)
    requires cell.row.Some? && Spared(env) && inner.baseline == Some(A.Mark(cell.row.value.goalId, start))
    requires GoalTokenDelta(start, final) > 0 && HitsBudget(Charged(cell, inner, Some(final), ActiveOnly, env).result)
    requires forall op | op in env.beforeBlock :: !op.Resume?
    ensures var id := cell.row.value.goalId;
            var e := FinishExit(cell, inner, reported, Some(TurnBinding(id, true)), unavailable, Some(final), env);
            && e.blocked.None? && e.result.Ok? && e.reported == Some(id)
            && (e.result.value.Some? <==> reported != Some(id))
            && (e.result.value.Some? ==> e.result.value.value.goalId == id)
  {
    var a := Charged(cell, inner, Some(final), ActiveOnly, env);
    ExitCharges(cell, inner, start, final, ActiveOnly, env);
    LimitedStays(a.cell, env.beforeBlock);
    SparedGoalStays(a.cell, env.beforeBlock);
    SparedGoalStays(a.cell, env.beforeSteer);
    SparedGoalStays(Run(a.cell, env.beforeBlock), env.beforeSteer);
  }

  // ----- whom the steering is for -----

  /** The rows that steering reads: to decide, and to start the closing turn. */
  function FirstRead(cell: Cell, env: TurnEnv): Cell {
    Run(cell, env.beforeSteer)
  }

  function SecondRead(cell: Cell, env: TurnEnv): Cell {
    Run(Run(FirstRead(cell, env), env.steerGap), env.beforeStart)
  }

  /**
   Whatever others do in between: a charge that reached the budget of `g` is answered by steering for `g` exactly if
   `g` is still in the row at the first read and was not the one reported last. The closing turn is started exactly if
   there is a goal at the second read and the host is idle; it carries the steered objective, under the id of the
   second read, which is the steered goal's exactly if that is still there.
   */
  lemma SteeringNamesExactly(cell: Cell, g: GoalId, reported: Option<GoalId>, outcome: AccountingOutcome, env: TurnEnv)
    requires HitsBudget(Ok(outcome))
    ensures var i := InjectCall(cell, reported, outcome, env);
            var first, second := FirstRead(cell, env), SecondRead(cell, env);
            && (i.steered.Some? && i.steered.value.goalId == g <==> first.Holds(g) && reported != Some(g))
            && (i.turn.Some? <==> i.steered.Some? && env.driverStarts && second.row.Some?)
            && (i.turn.Some? ==>
                  && i.turn.value.objective == i.steered.value.objective && i.turn.value.reason == BudgetLimit
                  && i.turn.value.objective == Resolve(first.row.value.objective, env.files)
                  && i.turn.value.iteration == second.row.value.iterationCount + 1
                  && (i.turn.value.goalId == i.steered.value.goalId <==> second.Holds(i.steered.value.goalId)))
  {
  }

  /**
   Over a whole error or finish: the steering that is returned is for the goal that was charged exactly under that
   condition.
   */
  lemma ExitNamesExactly(
    cell: Cell, inner: A.Inner, reported: Option<GoalId>, bound: Option<TurnBinding>, reason: string,
    totals: Option<TokenTotals>, env: TurnEnv, g: GoalId)
    requires !Exempt(bound)
    ensures var a := Charged(cell, inner, totals, ActiveOrStopped, env);
            HitsBudget(a.result) ==>
              var e := ErrorExit(cell, inner, reported, bound, reason, totals, env);
              e.result.Ok?
              && (e.result.value.Some? && e.result.value.value.goalId == g
                  <==> FirstRead(BlockCall(a.cell, bound, reason, env).cell, env).Holds(g) && reported != Some(g))
    ensures var a := Charged(cell, inner, totals, ActiveOnly, env);
            HitsBudget(a.result) ==>
              var e := FinishExit(cell, inner, reported, bound, None, totals, env);
              e.result.Ok?
              && (e.result.value.Some? && e.result.value.value.goalId == g
                  <==> FirstRead(a.cell, env).Holds(g) && reported != Some(g))
  {
    var a := Charged(cell, inner, totals, ActiveOrStopped, env);
    if HitsBudget(a.result) {
      SteeringNamesExactly(BlockCall(a.cell, bound, reason, env).cell, g, reported, a.result.value, env);
    }
    var f := Charged(cell, inner, totals, ActiveOnly, env);
    if HitsBudget(f.result) {
      SteeringNamesExactly(f.cell, g, reported, f.result.value, env);
    }
  }

  /** The closing turn for a goal that stays in the row. */
  function ClosingTurn(cell: Cell, g: GoalId, env: TurnEnv): Option<GoalTurn> {
    if FirstRead(cell, env).row.None? || SecondRead(cell, env).row.None? then None
    else 
      var objective := Resolve(FirstRead(cell, env).row.value.objective, env.files);
      Some(GoalTurn(g, objective, SecondRead(cell, env).row.value.iterationCount + 1, BudgetLimit))
  }

  /**
   An error or a finish of a turn that used something starts the closing turn exactly if the statement leaves the goal
   limited by its budget, this is the first time, and the host is idle; whatever others do to the goal meanwhile.
   */
  lemma ClosingTurnExactly(
    cell: Cell, inner: A.Inner, reported: Option<GoalId>, start: TokenTotals, final: TokenTotals, reason: string,
    env: TurnEnv)
    requires cell.row.Some? && Spared(env) && inner.baseline == Some(A.Mark(cell.row.value.goalId, start))
    requires GoalTokenDelta(start, final) > 0
    ensures var id, delta, at := cell.row.value.goalId, GoalTokenDelta(start, final), AtCharge(cell, env);
            var first := reported != Some(id) && env.driverStarts && at.row.Some?;
            var bound := Some(TurnBinding(id, true));
            var a, f := Charged(cell, inner, Some(final), ActiveOrStopped, env),
                Charged(cell, inner, Some(final), ActiveOnly, env);
            var b := BlockCall(a.cell, bound, reason, env);
            && ErrorExit(cell, inner, reported, bound, reason, Some(final), env).turn
               == (if first && ActiveOrStopped.Allows(at.row.value.status)
                   && StatusAfter(at, ActiveOrStopped, delta).BudgetLimited?
                   then ClosingTurn(b.cell, id, env) else None)
            && FinishExit(cell, inner, reported, bound, None, Some(final), env).turn
               == (if first && ActiveOnly.Allows(at.row.value.status)
                   && StatusAfter(at, ActiveOnly, delta).BudgetLimited?
                   then ClosingTurn(f.cell, id, env) else None)
  {
    var id := cell.row.value.goalId;
    ExitCharges(cell, inner, start, final, ActiveOrStopped, env);
    ExitCharges(cell, inner, start, final, ActiveOnly, env);
    var a, f := Charged(cell, inner, Some(final), ActiveOrStopped, env),
        Charged(cell, inner, Some(final), ActiveOnly, env);
    var b := BlockCall(a.cell, Some(TurnBinding(id, true)), reason, env);
    SparedGoalStays(a.cell, env.beforeBlock);
    BlockingSpares(Run(a.cell, env.beforeBlock), id, reason);
    InjectionCloses(b.cell, reported, a.result.value, env);
    InjectionCloses(f.cell, reported, f.result.value, env);
  }

  lemma InjectionCloses(cell: Cell, reported: Option<GoalId>, outcome: AccountingOutcome, env: TurnEnv)
    requires cell.row.Some? && Spared(env)
    ensures InjectCall(cell, reported, outcome, env).turn
         == (if HitsBudget(Ok(outcome)) && reported != Some(cell.row.value.goalId) && env.driverStarts
             then ClosingTurn(cell, cell.row.value.goalId, env) else None)
  {
    SparedGoalStays(cell, env.beforeSteer);
    SparedGoalStays(FirstRead(cell, env), env.steerGap);
    SparedGoalStays(Run(FirstRead(cell, env), env.steerGap), env.beforeStart);
  }

  /**
   The goal is replaced between the two reads: the closing turn is counted for the replacement and carries the
   objective of the goal that is gone.
   */
  lemma ClosingTurnForTheReplacement(
    g: Goal, reported: Option<GoalId>, outcome: AccountingOutcome, replace: StoreOp, b: Goal, env: TurnEnv)
    requires HitsBudget(Ok(outcome)) && reported != Some(g.goalId) && b.goalId != g.goalId && env.driverStarts
    requires replace.Replace? && Apply(Cell(Some(g), false), replace) == Applied(Cell(Some(b), false), Row(b))
    requires env.beforeSteer == [] && env.steerGap == [] && env.beforeStart == [replace]
    ensures var i := InjectCall(Cell(Some(g), false), reported, outcome, env);
            && i.steered == Some(g.(objective := Resolve(g.objective, env.files))) && i.turn.Some?
            && i.turn.value.goalId == b.goalId && i.turn.value.objective == i.steered.value.objective
  {
    var cell := Cell(Some(g), false);
    assert Run(cell, []) == cell;
    assert [replace][..0] == [] && Run(cell, [replace]) == Cell(Some(b), false);
  }

  // ----- idle continuation -----

  /**
   A continuation is started only without a deferral, for a goal that was read active, and carries its full objective.
   */
  lemma ContinuationCarriesTheGoalRead(
    cell: Cell, files: Option<map<string, string>>, visibility: ToolVisibility, seen: int, env: IdleEnv)
    ensures var c := IdleCall(cell, files, visibility, seen, env);
            var read := Run(cell, env.beforeRead).row;
            && (c.turn.Some? <==> visibility != Missing && env.permit && !cell.deferred && env.driverStarts
                                  && read.Some? && read.value.status.Active?)
            && (c.turn.Some? ==>
                  && c.turn.value.goalId == read.value.goalId
                  && c.turn.value.objective == Resolve(read.value.objective, files)
                  && c.turn.value.iteration == read.value.iterationCount + 1
                  && (c.turn.value.reason.ObjectiveUpdated? <==> read.value.objectiveRevision > seen)
                  && c.seen == Max(seen, read.value.objectiveRevision))
  {
  }

  // ----- counting the turns -----

  /**
   The row is as others left it, except that the goal of the turn, if it is there and the statement gets through, has
   that turn's number.
   */
  predicate Counted(before: Cell, after: Cell, turn: GoalTurn, ok: bool) {
    if ok && before.Holds(turn.goalId)
    then after == before.(row := Some(before.row.value.(iterationCount := turn.iteration)))
    else after == before
  }

  /** What the other tasks make of the cell while `continue_if_idle` gets as far as it does. */
  function OthersOnly(cell: Cell, visibility: ToolVisibility, env: IdleEnv): Cell {
    if visibility.Missing? || !env.permit || cell.deferred then cell
    else
      var read := Run(cell, env.beforeRead);
      if !IsActive(read.row) then read
      else if !env.driverStarts then Run(read, env.beforeStart)
      else Run(Run(read, env.beforeStart), env.beforeIterate)
  }

  /**
   A continuation that is started is counted on the row of its goal, unless that has left the row by then or the
   statement is lost; nothing else changes, and a call that starts nothing leaves the cell to the other tasks.
   */
  lemma ContinuationIsCounted(
    cell: Cell, files: Option<map<string, string>>, visibility: ToolVisibility, seen: int, env: IdleEnv)
    ensures var c, before := IdleCall(cell, files, visibility, seen, env), OthersOnly(cell, visibility, env);
            && (c.turn.Some? ==> Counted(before, c.cell, c.turn.value, env.iterateOk))
            && (c.turn.None? ==> c.cell == before && c.seen == seen)
  {
  }

  /**
   The closing turn is counted in the same way; without a row the text starts a plain turn, which is not, and a busy
   host starts neither.
   */
  lemma ClosingIsCounted(cell: Cell, objective: string, env: TurnEnv)
    ensures var c, found := CloseCall(cell, objective, env), Run(cell, env.beforeStart);
            && (c.turn.Some? <==> env.driverStarts && found.row.Some?)
            && (c.plain == if env.driverStarts && found.row.None? then Some(objective) else None)
            && (c.turn.Some? ==>
                  && c.turn.value == GoalTurn(found.row.value.goalId, objective, found.row.value.iterationCount + 1,
                                              BudgetLimit)
                  && Counted(Run(found, env.beforeIterate), c.cell, c.turn.value, env.iterateOk))
            && (c.turn.None? ==> c.cell == found)
  {
  }

  /** Steering and closing as one: what is started is the closing turn of the steered goal's full text. */
  lemma SteeringCloses(cell: Cell, reported: Option<GoalId>, outcome: AccountingOutcome, env: TurnEnv)
    ensures var i := InjectCall(cell, reported, outcome, env);
            var first := FirstRead(cell, env);
            && (i.steered.None? ==>
                  && i.turn.None? && i.plain.None? && i.reported == reported
                  && i.cell == if HitsBudget(Ok(outcome)) then Run(first, env.steerGap) else first)
            && (i.steered.Some? ==>
                  && HitsBudget(Ok(outcome)) && first.row.Some? && reported != Some(first.row.value.goalId)
                  && i.steered == Some(first.row.value.(objective := Resolve(first.row.value.objective, env.files)))
                  && i.reported == Some(first.row.value.goalId)
                  && var c := CloseCall(Run(first, env.steerGap), i.steered.value.objective, env);
                     i.cell == c.cell && i.turn == c.turn && i.plain == c.plain)
  {
  }

  // ----- the parts of an exit -----

  /** The row has the status and reason that were asked for, and is otherwise as it was. */
  predicate Marked(before: Cell, after: Cell, status: GoalStatus, reason: string)
    requires before.row.Some?
  {
    after == before.(row := Some(before.row.value.(status := status, statusReason := Some(reason))))
  }

  /** Without a binding, an error blocks the goal that it reads active, if that is still there and active then. */
  lemma UnboundErrorBlocksExactly(cell: Cell, reason: string, env: TurnEnv)
    ensures var b := BlockCall(cell, None, reason, env);
            var read, met := Run(cell, env.beforeBlock), Run(Run(cell, env.beforeBlock), env.readToBlock);
            var found := env.blockReadOk && IsActive(read.row);
            && (b.blocked.Some? <==>
                  found && env.blockOk && met.Holds(read.row.value.goalId) && met.row.value.status.Active?)
            && (if b.blocked.Some? then Marked(met, b.cell, Blocked, reason) && b.blocked == b.cell.row
                else b.cell == if found then met else read)
  {
  }

  /** The quota limits the goal that it reads, if that is still there then, and active or limited by its budget. */
  lemma QuotaLimitsExactly(cell: Cell, reason: string, env: TurnEnv)
    ensures var after := LimitCall(cell, reason, env);
            var read, met := Run(cell, env.beforeBlock), Run(Run(cell, env.beforeBlock), env.readToBlock);
            if !env.blockReadOk || read.row.None? then after == read
            else if env.blockOk && met.Holds(read.row.value.goalId)
                    && (met.row.value.status.Active? || met.row.value.status.BudgetLimited?)
            then Marked(met, after, UsageLimited, reason)
            else after == met
  {
  }

  /**
   A cancelled turn is charged as a failed one is, and so is one without quota; what a failed charge leaves behind is
   the end of any exit.
   */
  lemma StoppedTurnsAreChargedAlike(
    cell: Cell, inner: A.Inner, reported: Option<GoalId>, bound: Option<TurnBinding>, reason: string,
    totals: Option<TokenTotals>, env: TurnEnv)
    requires !Exempt(bound)
    ensures var stopped := AbortExit(cell, inner, bound, totals, env);
            var failed := ErrorExit(cell, inner, reported, bound, reason, totals, env);
            var limited := QuotaExit(cell, inner, reason, totals, env);
            && stopped == Charged(cell, inner, totals, ActiveOrStopped, env)
            && failed.inner == stopped.inner == limited.inner && limited.result == stopped.result
            && (failed.result.Err? <==> stopped.result.Err?)
            && (stopped.result.Err? ==>
                  && limited == stopped && failed == Exit(stopped.cell, stopped.inner, reported, None, None, None,
                                                          Err(stopped.result.error)))
            && (stopped.result.Ok? ==> limited.cell == LimitCall(stopped.cell, reason, env))
  {
  }

  /** A finish that blocks the goal stops there: no steering and no closing turn; a failed charge stops it earlier. */
  lemma FinishStopsEarly(
    cell: Cell, inner: A.Inner, reported: Option<GoalId>, bound: Option<TurnBinding>, unavailable: Option<GoalId>,
    totals: Option<TokenTotals>, env: TurnEnv)
    requires !Exempt(bound)
    ensures var e := FinishExit(cell, inner, reported, bound, unavailable, totals, env);
            var a := Charged(cell, inner, totals, ActiveOnly, env);
            var before := Run(a.cell, env.beforeBlock);
            && e.inner == a.inner
            && (a.result.Err? ==> e == Exit(a.cell, a.inner, reported, None, None, None, Err(a.result.error)))
            && (e.blocked.Some? ==>
                  && unavailable.Some? && before.Holds(unavailable.value)
                  && Marked(before, e.cell, Blocked, EXEC_UNAVAILABLE)
                  && e == Exit(e.cell, a.inner, reported, e.cell.row, None, None, Ok(None)))
            && (a.result.Ok? && e.blocked.None? ==>
                  var i := InjectCall(if unavailable.Some? then before else a.cell, reported, a.result.value, env);
                  e == Exit(i.cell, a.inner, i.reported, None, i.turn, i.plain, Ok(i.steered)))
  {
  }
}
