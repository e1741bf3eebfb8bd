/**
 Token and wall-clock accounting of one thread (`agent/goal/src/accounting.rs`).

 An accounting call reads the row, then issues one compare-and-set statement. The two steps are separate
 functions, because other tasks may change the row in between; the memory they share is protected by a
 mutex that is held over both.
 */
module GoalAccounting {
  import opened Wrappers
  import opened GoalTypes
  import opened GoalRow
  import opened TokenDelta
  import S = GoalStore

  /** A token baseline is always tied to the goal whose usage it measures. */
  datatype Mark = Mark(goalId: GoalId, totals: TokenTotals)

  /** `Inner`: the baseline, and when the clock started if the goal is being timed. */
  datatype Inner = Inner(baseline: Option<Mark>, wallClockSince: Option<nat>)

  const Unarmed := Inner(None, None)

  /** What an accounting call carries from its read step to its compare-and-set. */
  datatype Pending = Pending(
    goalId: GoalId,
    baseline: TokenTotals,
    current: Option<TokenTotals>,
    mode: AccountingMode,
    tokens: int,
    seconds: int)
  {
    /** The baseline once the statement has been accepted. */
    function NextTotals(): TokenTotals {
      current.UnwrapOr(baseline)
    }

    function Statement(): StoreOp {
      Account(goalId, mode, tokens, seconds)
    }
  }

  /** The read step either settles the call without touching the store, or leaves a statement to issue. */
  datatype ReadStep = Settled(inner: Inner) | Charging(inner: Inner, pending: Pending)

  function Elapsed(since: Option<nat>, now: nat): nat {
    if since.Some? && now > since.value then now - since.value else 0
  }

  /** Everything `account_with` does up to its statement. The baseline is taken out before the statement is issued. */
  function BeginAccount(
    inner: Inner, row: Option<Goal>, current: Option<TokenTotals>, mode: AccountingMode, flush: bool,
    now: nat): ReadStep
  {
    if row.None? then
      Settled(inner.(baseline := None))
    else if inner.baseline.Some? && inner.baseline.value.goalId != row.value.goalId then
      // replaced or cleared since: drop the old delta, measure the new goal from here
      Settled(inner.(baseline := Some(Mark(row.value.goalId, current.UnwrapOr(ZERO)))))
    else
      var mark := inner.baseline.UnwrapOr(Mark(row.value.goalId, current.UnwrapOr(ZERO)));
      var tokens := if current.Some? then GoalTokenDelta(mark.totals, current.value) else 0;
      var seconds := if flush then Elapsed(inner.wallClockSince, now) else 0;
      var clock := if flush then None else inner.wallClockSince;
      if tokens == 0 && seconds == 0 then
        Settled(Inner(Some(Mark(mark.goalId, current.UnwrapOr(mark.totals))), clock))
      else
        Charging(Inner(None, clock), Pending(mark.goalId, mark.totals, current, mode, tokens, seconds))
  }

  /** Only an accepted statement advances the baseline; a refused one leaves the usage to be charged later. */
  function EndAccount(inner: Inner, p: Pending, outcome: AccountingOutcome): Inner {
    inner.(baseline := Some(Mark(p.goalId, if outcome.Updated? then p.NextTotals() else p.baseline)))
  }

  /** What the rest of the system does around one accounting call. */
  datatype Environment = Environment(
    permit: bool,            // the progress permit was obtained in time
    readOk: bool,            // the read of the row succeeded
    gap: seq<StoreOp>,       // statements of other tasks between the read and the compare-and-set
    writeOk: bool,           // the compare-and-set statement reached the database
    now: nat)

  datatype Accounting = Accounting(cell: Cell, inner: Inner, result: Result<AccountingOutcome, GoalError>)

  /** The part of a call from its statement on. */
  function IssueCall(cell: Cell, taken: Inner, p: Pending, env: Environment): (r: Accounting)
    ensures cell.Valid() ==> r.cell.Valid()
  {
    var between := Run(cell, env.gap);
    if !env.writeOk then Accounting(between, taken, Err(Database))
    else
      var applied := Apply(between, p.Statement());
      Accounting(applied.cell, EndAccount(taken, p, applied.reply.outcome), Ok(applied.reply.outcome))
  }

  /** A whole `account_with` call. */
  function AccountCall(
    cell: Cell, inner: Inner, current: Option<TokenTotals>, mode: AccountingMode, flush: bool,
    env: Environment): (r: Accounting)
    ensures cell.Valid() ==> r.cell.Valid()
  {
    if !env.permit then Accounting(cell, inner, Err(LockTimeout))
    else if !env.readOk then Accounting(cell, inner, Err(Database))
    else
      match BeginAccount(inner, cell.row, current, mode, flush, env.now)
      case Settled(settled) => Accounting(cell, settled, Ok(Unchanged))
      case Charging(taken, p) => IssueCall(cell, taken, p, env)
  }

  /** `take_budget_steering_if_flipped` after its read: which goal to steer, and which id counts as reported. */
  function Steer(
    reported: Option<GoalId>, outcome: AccountingOutcome, row: Option<Goal>): (r: (Option<Goal>, Option<GoalId>))
  {
    if !(outcome.Updated? && outcome.status.BudgetLimited?) || row.None? || reported == Some(row.value.goalId)
    then (None, reported)
    else (row, Some(row.value.goalId))
  }

  class GoalAccounting {
    const store: S.GoalStore
    const thread: ThreadId
    var inner: Inner
    var budgetReported: Option<GoalId>

    /** `new`: armed for a goal, with the totals at the moment it was armed. */
    constructor Armed(store: S.GoalStore, thread: ThreadId, goalId: GoalId, initial: TokenTotals)
      ensures this.store == store && this.thread == thread
      ensures inner == Inner(Some(Mark(goalId, initial)), None) && budgetReported == None
    {
      this.store, this.thread := store, thread;
      inner, budgetReported := Inner(Some(Mark(goalId, initial)), None), None;
    }

    /** `new_unarmed`. */
    constructor (store: S.GoalStore, thread: ThreadId)
      ensures this.store == store && this.thread == thread
      ensures inner == Unarmed && budgetReported == None
    {
      this.store, this.thread := store, thread;
      inner, budgetReported := Unarmed, None;
    }

    method AccountWith(current: Option<TokenTotals>, mode: AccountingMode, flush: bool, env: Environment)
      returns (r: Result<AccountingOutcome, GoalError>)
      requires store.Valid()
      modifies this`inner, store
      ensures store.Valid() && store.OthersUnchanged(thread)
      ensures AccountCall(old(store.CellOf(thread)), old(inner), current, mode, flush, env)
           == Accounting(store.CellOf(thread), inner, r)
    {
      if !env.permit {
        return Err(LockTimeout);
      }
      if !env.readOk {
        return Err(Database);
      }
      var snapshot := store.Read(thread);
      if snapshot.None? {
        inner := inner.(baseline := None);
        return Ok(Unchanged);
      }
      var goal := snapshot.value;
      var taken := inner.baseline;
      inner := inner.(baseline := None);
      if taken.Some? && taken.value.goalId != goal.goalId {
        inner := inner.(baseline := Some(Mark(goal.goalId, current.UnwrapOr(ZERO))));
        return Ok(Unchanged);
      }
      var mark := taken.UnwrapOr(Mark(goal.goalId, current.UnwrapOr(ZERO)));
      var deltaTokens := if current.Some? then GoalTokenDelta(mark.totals, current.value) else 0;
      var deltaSeconds := 0;
      if flush {
        deltaSeconds := Elapsed(inner.wallClockSince, env.now);
        inner := inner.(wallClockSince := None);
      }
      if deltaTokens == 0 && deltaSeconds == 0 {
        inner := inner.(baseline := Some(Mark(mark.goalId, current.UnwrapOr(mark.totals))));
        return Ok(Unchanged);
      }
      r := Issue(Pending(mark.goalId, mark.totals, current, mode, deltaTokens, deltaSeconds), env);
    }

    /** The statement of an accounting call, and what becomes of the baseline that was taken out for it. */
    method Issue(p: Pending, env: Environment) returns (r: Result<AccountingOutcome, GoalError>)
      requires store.Valid()
      modifies this`inner, store
      ensures store.Valid() && store.OthersUnchanged(thread)
      ensures IssueCall(old(store.CellOf(thread)), old(inner), p, env) == Accounting(store.CellOf(thread), inner, r)
    {
      store.Interleave(thread, env.gap);
      if !env.writeOk {
        return Err(Database);
      }
      var outcome := store.AccountThreadGoalUsage(thread, p.goalId, p.mode, p.tokens, p.seconds);
      if outcome.Updated? {
        inner := inner.(baseline := Some(Mark(p.goalId, p.current.UnwrapOr(p.baseline))));
      } else {
        inner := inner.(baseline := Some(Mark(p.goalId, p.baseline)));
      }
      r := Ok(outcome);
    }

    /** Progress during a turn. */
    method RecordUsage(current: TokenTotals, env: Environment) returns (r: Result<AccountingOutcome, GoalError>)
      requires store.Valid()
      modifies this`inner, store
      ensures store.Valid() && store.OthersUnchanged(thread)
      ensures AccountCall(old(store.CellOf(thread)), old(inner), Some(current), ActiveStatusOnly, false, env)
           == Accounting(store.CellOf(thread), inner, r)
    {
      r := AccountWith(Some(current), ActiveStatusOnly, false, env);
    }

    /** The last reading of a turn that ended normally. */
    method FinishTurn(current: Option<TokenTotals>, env: Environment) returns (r: Result<AccountingOutcome, GoalError>)
      requires store.Valid()
      modifies this`inner, store
      ensures store.Valid() && store.OthersUnchanged(thread)
      ensures AccountCall(old(store.CellOf(thread)), old(inner), current, ActiveOnly, true, env)
           == Accounting(store.CellOf(thread), inner, r)
    {
      r := AccountWith(current, ActiveOnly, true, env);
    }

    /** The last reading of a turn that failed or was cancelled. */
    method StopAbnormal(
      current: Option<TokenTotals>, env: Environment) returns (r: Result<AccountingOutcome, GoalError>)
      requires store.Valid()
      modifies this`inner, store
      ensures store.Valid() && store.OthersUnchanged(thread)
      ensures AccountCall(old(store.CellOf(thread)), old(inner), current, ActiveOrStopped, true, env)
           == Accounting(store.CellOf(thread), inner, r)
    {
      r := AccountWith(current, ActiveOrStopped, true, env);
    }

    method FlushWallClock(mode: AccountingMode, env: Environment) returns (r: Result<AccountingOutcome, GoalError>)
      requires store.Valid()
      modifies this`inner, store
      ensures store.Valid() && store.OthersUnchanged(thread)
      ensures AccountCall(old(store.CellOf(thread)), old(inner), None, mode, true, env)
           == Accounting(store.CellOf(thread), inner, r)
    {
      r := AccountWith(None, mode, true, env);
    }

    /**
     The start of a prompt: measure the active goal from zero, or forget everything. `gap` runs between read and
     update.
     */
    method StartWallClockIfActive(gap: seq<StoreOp>, now: nat)
      requires store.Valid()
      modifies this`inner, store
      ensures store.Valid() && store.OthersUnchanged(thread)
      ensures store.CellOf(thread) == Run(old(store.CellOf(thread)), gap)
      ensures inner == StartedInner(old(store.CellOf(thread)).row, now)
    {
      var goal := store.Read(thread);
      store.Interleave(thread, gap);
      if goal.Some? && goal.value.status == Active {
        inner := Inner(Some(Mark(goal.value.goalId, ZERO)), Some(now));
      } else {
        inner := Unarmed;
      }
    }

    method ClearBaselines()
      modifies this`inner
      ensures inner == Unarmed
    {
      inner := Unarmed;
    }

    method ResetBaselines(goalId: GoalId, initial: TokenTotals)
      modifies this`inner
      ensures inner == Inner(Some(Mark(goalId, initial)), None)
    {
      inner := Inner(Some(Mark(goalId, initial)), None);
    }

    /** The totals of the baseline, or zero when there is none. */
    method LastTotals() returns (t: TokenTotals)
      ensures t == BaselineTotals(inner)
    {
      t := if inner.baseline.Some? then inner.baseline.value.totals else ZERO;
    }

    method TakeBudgetSteeringIfFlipped(outcome: AccountingOutcome, gap: seq<StoreOp>) returns (steered: Option<Goal>)
      requires store.Valid()
      modifies this`budgetReported, store
      ensures store.Valid() && store.OthersUnchanged(thread)
      ensures (steered, budgetReported) == Steer(old(budgetReported), outcome, old(store.CellOf(thread)).row)
      ensures store.CellOf(thread)
              == Run(old(store.CellOf(thread)), if outcome.Updated? && outcome.status.BudgetLimited? then gap else [])
    {
      if !(outcome.Updated? && outcome.status == BudgetLimited) {
        return None;
      }
      var goal := store.Read(thread);
      store.Interleave(thread, gap);
      if goal.None? || budgetReported == Some(goal.value.goalId) {
        return None;
      }
      budgetReported := Some(goal.value.goalId);
      steered := goal;
    }
  }

  /** Memory after `start_wall_clock_if_active`, given the row it read. */
  function StartedInner(row: Option<Goal>, now: nat): Inner {
    if row.Some? && row.value.status.Active? then Inner(Some(Mark(row.value.goalId, ZERO)), Some(now)) else Unarmed
  }

  function BaselineTotals(inner: Inner): TokenTotals {
    if inner.baseline.Some? then inner.baseline.value.totals else ZERO
  }

  // ----- what one call does, said without its steps -----

  /** What the clock shows. */
  function Shown(inner: Inner, now: nat): nat {
    match inner.wallClockSince
    case Some(since) => if since < now then now - since else 0
    case None => 0
  }

  /** The call gets the lock and reads a row that the baseline, if there is one, belongs to. */
  predicate Measures(cell: Cell, inner: Inner, env: Environment) {
    && env.permit && env.readOk && cell.row.Some?
    && (inner.baseline.Some? ==> inner.baseline.value.goalId == cell.row.value.goalId)
  }

  /** The tokens that such a call finds: the reading against the baseline, and none without one of them. */
  function TokensFound(inner: Inner, current: Option<TokenTotals>): nat {
    if inner.baseline.Some? && current.Some? then GoalTokenDelta(inner.baseline.value.totals, current.value) else 0
  }

  function SecondsFound(inner: Inner, flush: bool, now: nat): nat {
    if flush then Shown(inner, now) else 0
  }

  /** It has something to add, and issues a statement for it. */
  predicate Issues(cell: Cell, inner: Inner, current: Option<TokenTotals>, flush: bool, env: Environment) {
    Measures(cell, inner, env) && (TokensFound(inner, current) > 0 || SecondsFound(inner, flush, env.now) > 0)
  }

  /** The statement reaches the database and meets the goal that was read, in a status that the mode admits. */
  predicate Accepted(
    cell: Cell, inner: Inner, current: Option<TokenTotals>, mode: AccountingMode, flush: bool, env: Environment)
  {
    && Issues(cell, inner, current, flush, env) && env.writeOk
    && var at := Run(cell, env.gap);
       at.Holds(cell.row.value.goalId) && mode.Allows(at.row.value.status)
  }

  /** When a call fails, and how. */
  lemma CallFailsExactly(
    cell: Cell, inner: Inner, current: Option<TokenTotals>, mode: AccountingMode, flush: bool, env: Environment)
    ensures var r := AccountCall(cell, inner, current, mode, flush, env).result;
            && (r.Err? <==> !env.permit || !env.readOk || (Issues(cell, inner, current, flush, env) && !env.writeOk))
            && (r.Err? ==> r.error == if env.permit then Database else LockTimeout)
  {
  }

  /** For every memory, reading and interference: when a call changes the row, and that it leaves it alone otherwise. */
  lemma CallIsAcceptedExactly(
    cell: Cell, inner: Inner, current: Option<TokenTotals>, mode: AccountingMode, flush: bool, env: Environment)
    ensures var a := AccountCall(cell, inner, current, mode, flush, env);
            && (a.result.Ok? && a.result.value.Updated? <==> Accepted(cell, inner, current, mode, flush, env))
            && (!Accepted(cell, inner, current, mode, flush, env) ==>
                  a.cell == if Issues(cell, inner, current, flush, env) then Run(cell, env.gap) else cell)
  {
    var a := AccountCall(cell, inner, current, mode, flush, env);
    if Issues(cell, inner, current, flush, env) && env.writeOk {
      var tokens, seconds := TokensFound(inner, current), SecondsFound(inner, flush, env.now);
      var r := Apply(Run(cell, env.gap), Account(cell.row.value.goalId, mode, tokens, seconds));
      assert a.cell == r.cell && a.result == Ok(r.reply.outcome);
    } else {
      assert a.cell == if Issues(cell, inner, current, flush, env) then Run(cell, env.gap) else cell;
    }
  }

  /**
   What an accepted call adds: exactly the tokens and seconds that it found; nothing else on the row changes but the
   status of an active goal that reaches its budget.
   */
  lemma CallChargesExactly(
    cell: Cell, inner: Inner, current: Option<TokenTotals>, mode: AccountingMode, flush: bool, env: Environment)
    requires Accepted(cell, inner, current, mode, flush, env)
    ensures var a := AccountCall(cell, inner, current, mode, flush, env);
            var at := Run(cell, env.gap);
            var g := at.row.value;
            var used := g.tokensUsed + TokensFound(inner, current);
            var reached := g.status.Active? && g.tokenBudget.Some? && g.tokenBudget.value <= used;
            && a.cell == at.(row := Some(
                 g.(tokensUsed := used,
                    timeUsedSeconds := g.timeUsedSeconds + SecondsFound(inner, flush, env.now),
                    status := if reached then BudgetLimited else g.status,
                    statusReason := if reached then Some("budget_limited") else g.statusReason)))
            && a.result == Ok(Updated(used, a.cell.row.value.status))
  {
    var at := Run(cell, env.gap);
    var tokens, seconds := TokensFound(inner, current), SecondsFound(inner, flush, env.now);
    assert AccountCall(cell, inner, current, mode, flush, env).cell
        == Apply(at, Account(cell.row.value.goalId, mode, tokens, seconds)).cell;
  }

  /**
   A call stops the clock exactly if it flushes and measures, whatever becomes of its statement; no other call touches
   it.
   */
  lemma FlushStopsTheClock(
    cell: Cell, inner: Inner, current: Option<TokenTotals>, mode: AccountingMode, flush: bool, env: Environment)
    ensures AccountCall(cell, inner, current, mode, flush, env).inner.wallClockSince ==
            if flush && Measures(cell, inner, env) then None else inner.wallClockSince
  {
  }

  /**
   The baseline after a call: untouched when the call did not get to the row, forgotten without a row or when the
   statement was lost in the database, handed to the goal that is there, and otherwise advanced to the reading unless
   the statement was refused.
   */
  lemma BaselineFollowsTheRow(
    cell: Cell, inner: Inner, current: Option<TokenTotals>, mode: AccountingMode, flush: bool, env: Environment)
    ensures var after := AccountCall(cell, inner, current, mode, flush, env).inner.baseline;
            if !env.permit || !env.readOk then after == inner.baseline
            else if cell.row.None? then after == None
            else if !Measures(cell, inner, env) then
              after == Some(Mark(cell.row.value.goalId, current.UnwrapOr(ZERO)))
            else if Issues(cell, inner, current, flush, env) && !env.writeOk then after == None
            else
              && after.Some? && after.value.goalId == cell.row.value.goalId
              && var kept := if inner.baseline.Some? then inner.baseline.value.totals else current.UnwrapOr(ZERO);
                 var refused := Issues(cell, inner, current, flush, env)
                                && !Accepted(cell, inner, current, mode, flush, env);
                 after.value.totals == if refused then kept else current.UnwrapOr(kept)
  {
  }
}
