/** The model's tools that change goals (`agent/goal/src/tools.rs`), as calls with other tasks in between. */
module GoalTools {
  import opened Wrappers
  import opened GoalTypes
  import opened GoalRow
  import opened TokenDelta
  import A = GoalAccounting
  import R = GoalRuntime
  import W = WallClock
  import opened StoreRuns

  datatype ToolReply =
    | NothingThere
    | VerifyFailed(command: string)
    | NotActive(goalId: GoalId)
    | Completed(goal: Goal)
    | MarkedBlocked(goal: Goal)
    | ToolError(error: GoalError)

  /**
   Statements of other tasks: while the verify command runs, around the two accounting calls, before the final
   statement.
   */
  datatype ToolEnv = ToolEnv(
    duringVerify: seq<StoreOp>,
    report: A.Environment,
    flush: A.Environment,
    beforeMark: seq<StoreOp>)

  /** `before_model_status_update`: report the usage so far, then flush the clock. */
  function SettleCall(cell: Cell, inner: A.Inner, usage: Option<TokenTotals>, env: ToolEnv): A.Accounting {
    var reported := if usage.Some? then A.AccountCall(cell, inner, usage, ActiveStatusOnly, false, env.report)
                    else A.Accounting(cell, inner, Ok(Unchanged));
    if reported.result.Err? then reported
    else A.AccountCall(reported.cell, reported.inner, None, ActiveOrStopped, true, env.flush)
  }

  datatype Marking = Marking(cell: Cell, inner: A.Inner, reply: ToolReply)

  function MarkReply(goalId: GoalId, complete: bool, reply: Reply): ToolReply {
    match reply
    case Row(g) => if complete then Completed(g) else MarkedBlocked(g)
    case _ => NotActive(goalId)
  }

  /** From the settling on, for the goal that was read first. */
  function MarkCall(
    cell: Cell, inner: A.Inner, goalId: GoalId, complete: bool, reason: string, usage: Option<TokenTotals>,
    env: ToolEnv): Marking
  {
    var settled := SettleCall(cell, inner, usage, env);
    if settled.result.Err? then Marking(settled.cell, settled.inner, ToolError(settled.result.error))
    else
      var now := Run(settled.cell, env.beforeMark);
      var r := Apply(now, if complete then MarkComplete(goalId) else MarkBlocked(goalId, reason));
      Marking(r.cell, settled.inner, MarkReply(goalId, complete, r.reply))
  }

  function CompleteCall(
    cell: Cell, inner: A.Inner, verify: string -> bool, usage: Option<TokenTotals>, env: ToolEnv): Marking
  {
    if cell.row.None? then Marking(cell, inner, NothingThere)
    else
      var goal := cell.row.value;
      if goal.verifyCommand.None? then MarkCall(cell, inner, goal.goalId, true, "", usage, env)
      else
        var after := Run(cell, env.duringVerify);
        if !verify(goal.verifyCommand.value) then Marking(after, inner, VerifyFailed(goal.verifyCommand.value))
        else MarkCall(after, inner, goal.goalId, true, "", usage, env)
  }

  function BlockedCall(
    cell: Cell, inner: A.Inner, reason: string, usage: Option<TokenTotals>, env: ToolEnv): Marking
  {
    if cell.row.None? then Marking(cell, inner, NothingThere)
    else
      MarkCall(cell, inner, cell.row.value.goalId, false, if reason == "" then "blocked by model" else reason, usage,
               env)
  }

  class GoalTools {
    const runtime: R.GoalRuntime

    constructor (runtime: R.GoalRuntime)
      ensures this.runtime == runtime
    {
      this.runtime := runtime;
    }

    method BeforeModelStatusUpdate(
      usage: Option<TokenTotals>, env: ToolEnv) returns (r: Result<AccountingOutcome, GoalError>)
      requires runtime.Valid()
      modifies runtime.store, runtime.accounting`inner
      ensures runtime.Valid() && runtime.store.OthersUnchanged(runtime.thread)
      ensures SettleCall(old(runtime.store.CellOf(runtime.thread)), old(runtime.accounting.inner), usage, env)
           == A.Accounting(runtime.store.CellOf(runtime.thread), runtime.accounting.inner, r)
    {
      if usage.Some? {
        r := runtime.accounting.RecordUsage(usage.value, env.report);
        if r.Err? {
          return;
        }
      }
      r := runtime.accounting.FlushWallClock(ActiveOrStopped, env.flush);
    }

    method Mark(goalId: GoalId, complete: bool, reason: string, usage: Option<TokenTotals>, env: ToolEnv)
      returns (reply: ToolReply)
      requires runtime.Valid()
      modifies runtime.store, runtime.accounting`inner
      ensures runtime.Valid() && runtime.store.OthersUnchanged(runtime.thread)
      ensures MarkCall(old(runtime.store.CellOf(runtime.thread)), old(runtime.accounting.inner), goalId, complete,
              reason, usage, env)
           == Marking(runtime.store.CellOf(runtime.thread), runtime.accounting.inner, reply)
    {
      var settled := BeforeModelStatusUpdate(usage, env);
      if settled.Err? {
        return ToolError(settled.error);
      }
      runtime.store.Interleave(runtime.thread, env.beforeMark);
      if complete {
        var marked := runtime.store.MarkComplete(runtime.thread, goalId);
        reply := if marked.Ok? then Completed(marked.value) else NotActive(goalId);
      } else {
        var marked := runtime.store.MarkBlocked(runtime.thread, goalId, reason);
        reply := if marked.Ok? then MarkedBlocked(marked.value) else NotActive(goalId);
      }
    }

    /** `update_goal` with status `complete`. */
    method UpdateGoalComplete(
      verify: string -> bool, usage: Option<TokenTotals>, env: ToolEnv) returns (reply: ToolReply)
      requires runtime.Valid()
      modifies runtime.store, runtime.accounting`inner
      ensures runtime.Valid() && runtime.store.OthersUnchanged(runtime.thread)
      ensures CompleteCall(old(runtime.store.CellOf(runtime.thread)), old(runtime.accounting.inner), verify, usage, env)
           == Marking(runtime.store.CellOf(runtime.thread), runtime.accounting.inner, reply)
    {
      var goal := runtime.store.Read(runtime.thread);
      if goal.None? {
        return NothingThere;
      }
      if goal.value.verifyCommand.Some? {
        runtime.store.Interleave(runtime.thread, env.duringVerify);
        if !verify(goal.value.verifyCommand.value) {
          return VerifyFailed(goal.value.verifyCommand.value);
        }
      }
      reply := Mark(goal.value.goalId, true, "", usage, env);
    }

    /** `update_goal` with status `blocked`. */
    method UpdateGoalBlocked(reason: string, usage: Option<TokenTotals>, env: ToolEnv) returns (reply: ToolReply)
      requires runtime.Valid()
      modifies runtime.store, runtime.accounting`inner
      ensures runtime.Valid() && runtime.store.OthersUnchanged(runtime.thread)
      ensures var cell := old(runtime.store.CellOf(runtime.thread));
              Marking(runtime.store.CellOf(runtime.thread), runtime.accounting.inner, reply)
              == BlockedCall(cell, old(runtime.accounting.inner), reason, usage, env)
    {
      var goal := runtime.store.Read(runtime.thread);
      if goal.None? {
        return NothingThere;
      }
      reply := Mark(goal.value.goalId, false, if reason == "" then "blocked by model" else reason, usage, env);
    }

    /** `create_goal`: a new goal is armed with the usage of the moment, or with the last known totals. */
    method CreateGoal(objective: string, budget: Option<int>, usage: Option<TokenTotals>, goalId: GoalId, cap: int)
      returns (r: Result<Goal, GoalError>)
      requires runtime.Valid()
      modifies runtime.store, runtime.accounting`inner
      ensures runtime.Valid() && runtime.store.OthersUnchanged(runtime.thread)
      ensures runtime.store.CellOf(runtime.thread)
           == Apply(old(runtime.store.CellOf(runtime.thread)),
               Create(CreateRequest(objective, budget, None), goalId, cap)).cell
      ensures r.Err? ==> runtime.accounting.inner == old(runtime.accounting.inner)
      ensures r.Ok? ==>
                && runtime.store.CellOf(runtime.thread).row == Some(r.value) && r.value.goalId == goalId
                && runtime.accounting.inner
                == A.Inner(Some(A.Mark(goalId, usage.UnwrapOr(A.BaselineTotals(old(runtime.accounting.inner))))), None)
    {
      r := runtime.store.Create(runtime.thread, CreateRequest(objective, budget, None), goalId, cap);
      if r.Ok? {
        if usage.Some? {
          runtime.accounting.ResetBaselines(goalId, usage.value);
        } else {
          runtime.NoteGoalArmed(goalId);
        }
      }
    }
  }

  /**
   Whatever happens between its steps, the call completes at most the goal it read, that goal was active at that moment,
   and its verify command, if it had one when the call read it, has returned true. A failing verify leaves the row to
   the other tasks.
   */
  lemma OnlyTheVerifiedGoalCompletes(
    cell: Cell, inner: A.Inner, verify: string -> bool, usage: Option<TokenTotals>, env: ToolEnv)
    ensures var m := CompleteCall(cell, inner, verify, usage, env);
            && (m.reply.Completed? ==>
                  && cell.row.Some? && m.cell.Holds(cell.row.value.goalId) && m.cell.row == Some(m.reply.goal)
                  && m.reply.goal.status.Complete?
                  && (cell.row.value.verifyCommand.Some? ==> verify(cell.row.value.verifyCommand.value)))
            && (m.reply.VerifyFailed? ==>
                  && m.cell == Run(cell, env.duringVerify) && m.inner == inner
                  && cell.row.value.verifyCommand == Some(m.reply.command) && !verify(m.reply.command))
  {
  }

  /** The row just before the last statement of a call that began to settle in `cell`. */
  function BeforeMark(cell: Cell, inner: A.Inner, usage: Option<TokenTotals>, env: ToolEnv): Cell {
    Run(SettleCall(cell, inner, usage, env).cell, env.beforeMark)
  }

  /** The row as the last statement leaves it if it is accepted. */
  function AsBlocked(g: Goal, reason: string): Goal {
    g.(status := Blocked, statusReason := Some(if reason == "" then "blocked by model" else reason))
  }

  /**
   Whatever happens between its steps, `update_goal(blocked)` blocks the goal it read, with the reason given, exactly if
   that is in the row and active just before the last statement; the statement changes nothing else, and nothing at all
   otherwise.
   */
  lemma BlocksTheGoalReadExactly(
    cell: Cell, inner: A.Inner, reason: string, usage: Option<TokenTotals>, env: ToolEnv)
    requires cell.row.Some? && SettleCall(cell, inner, usage, env).result.Ok?
    ensures var m, before := BlockedCall(cell, inner, reason, usage, env), BeforeMark(cell, inner, usage, env);
            && (m.reply.MarkedBlocked? <==>
                  before.Holds(cell.row.value.goalId) && before.row.value.status.Active?)
            && (m.reply.MarkedBlocked? ==>
                  && m.reply.goal == AsBlocked(before.row.value, reason)
                  && m.cell == before.(row := Some(m.reply.goal)))
            && (!m.reply.MarkedBlocked? ==> m.cell == before && m.reply == NotActive(cell.row.value.goalId))
            && m.inner == SettleCall(cell, inner, usage, env).inner
  {
  }

  /** The same for `update_goal(complete)`, once the verify command has returned true. */
  lemma CompletesTheGoalReadExactly(
    cell: Cell, inner: A.Inner, verify: string -> bool, usage: Option<TokenTotals>, env: ToolEnv)
    requires cell.row.Some? && (cell.row.value.verifyCommand.Some? ==> verify(cell.row.value.verifyCommand.value))
    requires SettleCall(Verified(cell, env), inner, usage, env).result.Ok?
    ensures var m := CompleteCall(cell, inner, verify, usage, env);
            var before := BeforeMark(Verified(cell, env), inner, usage, env);
            && (m.reply.Completed? <==> before.Holds(cell.row.value.goalId) && before.row.value.status.Active?)
            && (m.reply.Completed? ==>
                  && m.reply.goal == before.row.value.(status := Complete, statusReason := None)
                  && m.cell == before.(row := Some(m.reply.goal)))
            && (!m.reply.Completed? ==> m.cell == before && m.reply == NotActive(cell.row.value.goalId))
            && m.inner == SettleCall(Verified(cell, env), inner, usage, env).inner
  {
  }

  /** What the verify command decides: a call stops at it exactly if the goal it read has one and that returns false. */
  lemma VerifyDecidesExactly(
    cell: Cell, inner: A.Inner, verify: string -> bool, usage: Option<TokenTotals>, env: ToolEnv)
    ensures var m, goal := CompleteCall(cell, inner, verify, usage, env), cell.row;
            && (m.reply.VerifyFailed? <==>
                  goal.Some? && goal.value.verifyCommand.Some? && !verify(goal.value.verifyCommand.value))
            && (m.reply.VerifyFailed? ==> m.reply.command == goal.value.verifyCommand.value)
            && (m.reply.NothingThere? <==> goal.None?)
  {
  }

  /** Neither call does anything without a goal, and a failed settling is where both end. */
  lemma NothingToMark(
    cell: Cell, inner: A.Inner, verify: string -> bool, reason: string, usage: Option<TokenTotals>, env: ToolEnv)
    ensures cell.row.None? ==>
              && CompleteCall(cell, inner, verify, usage, env) == Marking(cell, inner, NothingThere)
              && BlockedCall(cell, inner, reason, usage, env) == Marking(cell, inner, NothingThere)
    ensures var s := SettleCall(cell, inner, usage, env);
            cell.row.Some? && s.result.Err? ==>
              BlockedCall(cell, inner, reason, usage, env) == Marking(s.cell, s.inner, ToolError(s.result.error))
    ensures var s := SettleCall(Verified(cell, env), inner, usage, env);
            && cell.row.Some? && s.result.Err?
            && (cell.row.value.verifyCommand.Some? ==> verify(cell.row.value.verifyCommand.value)) ==>
              CompleteCall(cell, inner, verify, usage, env) == Marking(s.cell, s.inner, ToolError(s.result.error))
  {
  }

  /** Settling stops the clock of the goal it measures, whatever its statements come to. */
  lemma SettlingStopsTheClock(cell: Cell, inner: A.Inner, usage: Option<TokenTotals>, env: ToolEnv)
    requires cell.row.Some? && R.Works(env.report) && R.Works(env.flush)
    requires inner.baseline.Some? && inner.baseline.value.goalId == cell.row.value.goalId
    ensures SettleCall(cell, inner, usage, env).result.Ok?
    ensures SettleCall(cell, inner, usage, env).inner.wallClockSince.None?
  {
    if usage.Some? {
      var a := A.AccountCall(cell, inner, usage, ActiveStatusOnly, false, env.report);
      SparedGoalStays(cell, env.report.gap);
      A.CallFailsExactly(cell, inner, usage, ActiveStatusOnly, false, env.report);
      A.BaselineFollowsTheRow(cell, inner, usage, ActiveStatusOnly, false, env.report);
      ReportAdds(cell, inner, cell.row.value, inner.baseline.value.totals, usage.value, env.report);
      A.FlushStopsTheClock(a.cell, a.inner, None, ActiveOrStopped, true, env.flush);
      A.CallFailsExactly(a.cell, a.inner, None, ActiveOrStopped, true, env.flush);
    } else {
      A.FlushStopsTheClock(cell, inner, None, ActiveOrStopped, true, env.flush);
      A.CallFailsExactly(cell, inner, None, ActiveOrStopped, true, env.flush);
    }
  }

  /** Nothing fails, the verify command succeeds, and other tasks spare the goal. */
  predicate GoesThrough(goal: Goal, verify: string -> bool, env: ToolEnv) {
    && (goal.verifyCommand.Some? ==> verify(goal.verifyCommand.value))
    && AllSpare(env.duringVerify) && AllSpare(env.beforeMark) && R.Works(env.report) && R.Works(env.flush)
  }

  /** The row once the verify command has run, and at the moment the call's usage is added. */
  function Verified(cell: Cell, env: ToolEnv): Cell {
    if cell.row.Some? && cell.row.value.verifyCommand.Some? then Run(cell, env.duringVerify) else cell
  }

  function AtReport(cell: Cell, env: ToolEnv): Cell {
    Run(Verified(cell, env), env.report.gap)
  }

  /** The report adds the admitted usage and leaves the goal's own baseline behind. */
  lemma ReportAdds(cell: Cell, inner: A.Inner, g: Goal, start: TokenTotals, usage: TokenTotals, env: A.Environment)
    requires R.Carries(cell, g, 0) && R.Works(env) && inner.baseline == Some(A.Mark(g.goalId, start))
    ensures var a := A.AccountCall(cell, inner, Some(usage), ActiveStatusOnly, false, env);
            && a.result.Ok? && a.inner.baseline.Some? && a.inner.baseline.value.goalId == g.goalId
            && R.Carries(a.cell, g, R.Admitted(Run(cell, env.gap), ActiveStatusOnly, GoalTokenDelta(start, usage)))
  {
    SparedGoalStays(cell, env.gap);
  }

  /** The flush of the clock adds no tokens. */
  lemma FlushAddsNoTokens(cell: Cell, inner: A.Inner, g: Goal, more: int, env: A.Environment)
    requires R.Carries(cell, g, more) && R.Works(env)
    requires inner.baseline.Some? && inner.baseline.value.goalId == g.goalId
    ensures var a := A.AccountCall(cell, inner, None, ActiveOrStopped, true, env);
            a.result.Ok? && R.Carries(a.cell, g, more)
  {
    SparedGoalStays(cell, env.gap);
  }

  /** Report and flush of one call add the admitted usage and nothing else. */
  lemma SettleAdds(cell: Cell, inner: A.Inner, g: Goal, start: TokenTotals, usage: TokenTotals, env: ToolEnv)
    requires R.Carries(cell, g, 0)
    requires R.Works(env.report) && R.Works(env.flush) && inner.baseline == Some(A.Mark(g.goalId, start))
    ensures var s := SettleCall(cell, inner, Some(usage), env);
            && s.result.Ok?
            && R.Carries(s.cell, g,
               R.Admitted(Run(cell, env.report.gap), ActiveStatusOnly, GoalTokenDelta(start, usage)))
  {
    var a := A.AccountCall(cell, inner, Some(usage), ActiveStatusOnly, false, env.report);
    ReportAdds(cell, inner, g, start, usage, env.report);
    FlushAddsNoTokens(a.cell, a.inner, g, a.cell.row.value.tokensUsed - g.tokensUsed, env.flush);
  }

  /**
   Whatever others do to the goal meanwhile, the usage of the completing call is on the row, unless the goal is inactive
   when it is added, and the call completes the goal exactly if it is active just before the last statement.
   */
  lemma CompletionSettlesItsOwnUsage(
    cell: Cell, inner: A.Inner, start: TokenTotals, usage: TokenTotals, verify: string -> bool, env: ToolEnv)
    requires cell.row.Some? && GoesThrough(cell.row.value, verify, env)
    requires inner.baseline == Some(A.Mark(cell.row.value.goalId, start))
    ensures var g := cell.row.value;
            var m := CompleteCall(cell, inner, verify, Some(usage), env);
            var more := R.Admitted(AtReport(cell, env), ActiveStatusOnly, GoalTokenDelta(start, usage));
            var before := Run(SettleCall(Verified(cell, env), inner, Some(usage), env).cell, env.beforeMark);
            && R.Carries(m.cell, g, more) && R.Carries(before, g, more)
            && (m.reply.Completed? <==> before.row.value.status.Active?)
  {
    var now := Verified(cell, env);
    SparedGoalStays(cell, env.duringVerify);
    SettleAdds(now, inner, cell.row.value, start, usage, env);
    SparedGoalStays(SettleCall(now, inner, Some(usage), env).cell, env.beforeMark);
  }

  /** The row when the clock is flushed. */
  function AtFlush(cell: Cell, inner: A.Inner, usage: Option<TokenTotals>, env: ToolEnv): Cell {
    Run(if usage.Some? then A.AccountCall(cell, inner, usage, ActiveStatusOnly, false, env.report).cell else cell,
        env.flush.gap)
  }

  /** A flush adds what the clock shows, unless the goal is complete by then. */
  lemma FlushAddsItsSeconds(cell: Cell, inner: A.Inner, env: A.Environment)
    requires cell.row.Some? && R.Works(env)
    requires inner.baseline.Some? && inner.baseline.value.goalId == cell.row.value.goalId
    ensures var after, at := A.AccountCall(cell, inner, None, ActiveOrStopped, true, env).cell, Run(cell, env.gap);
            && at.row.Some?
            && W.Seconds(after)
               == W.Seconds(cell) + if at.row.value.status.Complete? then 0 else A.Shown(inner, env.now)
  {
    SparedGoalStays(cell, env.gap);
    W.SparedSeconds(cell, env.gap);
    A.CallIsAcceptedExactly(cell, inner, None, ActiveOrStopped, true, env);
    if A.Accepted(cell, inner, None, ActiveOrStopped, true, env) {
      A.CallChargesExactly(cell, inner, None, ActiveOrStopped, true, env);
    }
  }

  /** A report adds no seconds and leaves the clock running. */
  lemma ReportAddsNoSeconds(cell: Cell, inner: A.Inner, usage: TokenTotals, env: A.Environment)
    requires cell.row.Some? && R.Works(env)
    requires inner.baseline.Some? && inner.baseline.value.goalId == cell.row.value.goalId
    ensures var a := A.AccountCall(cell, inner, Some(usage), ActiveStatusOnly, false, env);
            && W.Seconds(a.cell) == W.Seconds(cell) && a.inner.wallClockSince == inner.wallClockSince
            && a.result.Ok? && a.cell.Holds(cell.row.value.goalId)
            && a.inner.baseline.Some? && a.inner.baseline.value.goalId == cell.row.value.goalId
  {
    W.SparedSeconds(cell, env.gap);
    ReportAdds(cell, inner, cell.row.value, inner.baseline.value.totals, usage, env);
    A.FlushStopsTheClock(cell, inner, Some(usage), ActiveStatusOnly, false, env);
    A.CallIsAcceptedExactly(cell, inner, Some(usage), ActiveStatusOnly, false, env);
    if A.Accepted(cell, inner, Some(usage), ActiveStatusOnly, false, env) {
      A.CallChargesExactly(cell, inner, Some(usage), ActiveStatusOnly, false, env);
    }
  }

  /**
   What the running clock shows at the end of settling is on the row, once, whether or not there was a reading before,
   unless the goal is complete by then.
   */
  lemma SettlingAddsItsSeconds(cell: Cell, inner: A.Inner, usage: Option<TokenTotals>, env: ToolEnv)
    requires cell.row.Some? && R.Works(env.report) && R.Works(env.flush)
    requires inner.baseline.Some? && inner.baseline.value.goalId == cell.row.value.goalId
    ensures var s, at := SettleCall(cell, inner, usage, env), AtFlush(cell, inner, usage, env);
            && at.row.Some? && s.inner.wallClockSince.None?
            && W.Seconds(s.cell)
               == W.Seconds(cell) + if at.row.value.status.Complete? then 0 else A.Shown(inner, env.flush.now)
  {
    SettlingStopsTheClock(cell, inner, usage, env);
    if usage.Some? {
      var a := A.AccountCall(cell, inner, usage, ActiveStatusOnly, false, env.report);
      ReportAddsNoSeconds(cell, inner, usage.value, env.report);
      FlushAddsItsSeconds(a.cell, a.inner, env.flush);
    } else {
      FlushAddsItsSeconds(cell, inner, env.flush);
    }
  }

  /** The usage of a blocking call is on the row in the same way, and the goal is blocked under the same condition. */
  lemma BlockingSettlesItsOwnUsage(
    cell: Cell, inner: A.Inner, start: TokenTotals, usage: TokenTotals, reason: string, env: ToolEnv)
    requires cell.row.Some? && AllSpare(env.beforeMark) && R.Works(env.report) && R.Works(env.flush)
    requires inner.baseline == Some(A.Mark(cell.row.value.goalId, start))
    ensures var g := cell.row.value;
            var m := BlockedCall(cell, inner, reason, Some(usage), env);
            var at := Run(cell, env.report.gap);
            var more := R.Admitted(at, ActiveStatusOnly, GoalTokenDelta(start, usage));
            var before := BeforeMark(cell, inner, Some(usage), env);
            && R.Carries(m.cell, g, more) && R.Carries(before, g, more) && m.inner.wallClockSince.None?
            && (m.reply.MarkedBlocked? <==> before.row.value.status.Active?)
            && (m.reply.MarkedBlocked? ==> m.cell.row == Some(AsBlocked(before.row.value, reason)))
  {
    SettleAdds(cell, inner, cell.row.value, start, usage, env);
    SettlingStopsTheClock(cell, inner, Some(usage), env);
    SparedGoalStays(SettleCall(cell, inner, Some(usage), env).cell, env.beforeMark);
    BlocksTheGoalReadExactly(cell, inner, reason, Some(usage), env);
  }

  predicate NobodyElse(env: ToolEnv) {
    env.duringVerify == [] && env.beforeMark == [] && env.report.gap == [] && env.flush.gap == []
  }

  /** What the budget says about a call that adds `delta` tokens and then `seconds`. */
  predicate StaysActive(g: Goal, delta: int, seconds: int) {
    g.tokenBudget.None? || g.tokensUsed + delta < g.tokenBudget.value || (delta == 0 && seconds == 0)
  }

  /** An active goal after report and flush, when nobody interferes. */
  lemma SettledStatus(cell: Cell, inner: A.Inner, start: TokenTotals, usage: TokenTotals, env: ToolEnv)
    requires cell.row.Some? && cell.row.value.status.Active? && R.Works(env.report) && R.Works(env.flush)
             && NobodyElse(env)
    requires inner.baseline == Some(A.Mark(cell.row.value.goalId, start))
    ensures var s := SettleCall(cell, inner, Some(usage), env).cell;
            var delta, seconds := GoalTokenDelta(start, usage), A.Elapsed(inner.wallClockSince, env.flush.now);
            s.row.Some? && (s.row.value.status.Active? <==> StaysActive(cell.row.value, delta, seconds))
  {
    assert forall c :: Run(c, []) == c;
    var a := A.AccountCall(cell, inner, Some(usage), ActiveStatusOnly, false, env.report);
    assert a.result.Ok? && a.inner.wallClockSince == inner.wallClockSince && a.cell.Holds(cell.row.value.goalId);
  }

  /**
   When nobody interferes, the call completes the goal with its whole usage, with or without a verify command and
   whether or not the clock runs, unless usage and clock make it hit the budget: the goal is at or over its budget
   then, and something, tokens or seconds, had to be added.
   */
  lemma CompletesExactlyBelowBudget(
    cell: Cell, inner: A.Inner, start: TokenTotals, usage: TokenTotals, verify: string -> bool, env: ToolEnv)
    requires cell.row.Some? && cell.row.value.status.Active? && GoesThrough(cell.row.value, verify, env)
             && NobodyElse(env)
    requires inner.baseline == Some(A.Mark(cell.row.value.goalId, start))
    ensures var m := CompleteCall(cell, inner, verify, Some(usage), env);
            var delta, seconds := GoalTokenDelta(start, usage), A.Elapsed(inner.wallClockSince, env.flush.now);
            && R.Carries(m.cell, cell.row.value, delta)
            && (m.reply.Completed? <==> StaysActive(cell.row.value, delta, seconds))
  {
    assert forall c :: Run(c, []) == c;
    CompletionSettlesItsOwnUsage(cell, inner, start, usage, verify, env);
    SettledStatus(cell, inner, start, usage, env);
  }
}
