/**
 Properties of every run of the store: what a row keeps while its goal id lives, that a removed goal
 never comes back, and when a row may be active although its budget is spent.

 A run is a sequence of atomic statements issued by anybody, in any order.
 */
module StoreRuns {
  import opened Wrappers
  import opened Text
  import opened GoalTypes
  import opened GoalRow

  /** The cell after the first `n` statements. */
  function At(cell: Cell, ops: seq<StoreOp>, n: nat): Cell
    requires n <= |ops|
  {
    Run(cell, ops[..n])
  }

  lemma AtNext(cell: Cell, ops: seq<StoreOp>, n: nat)
    requires n < |ops|
    ensures At(cell, ops, n + 1) == Apply(At(cell, ops, n), ops[n]).cell
  {
    assert ops[..n + 1][..n] == ops[..n];
  }

  // ----- goal ids -----

  /** The ids that statements of the run have tried to give to new rows. */
  function Inserted(ops: seq<StoreOp>): set<GoalId> {
    set op | op in ops && InsertedId(op).Some? :: InsertedId(op).value
  }

  /** Every insertion uses an id that neither the starting row nor an earlier insertion had. */
  ghost predicate Fresh(cell: Cell, ops: seq<StoreOp>) {
    forall n | 0 <= n < |ops| && InsertedId(ops[n]).Some? ::
      var id := InsertedId(ops[n]).value; !cell.Holds(id) && id !in Inserted(ops[..n])
  }

  /** Only an insertion gives a row an id it did not have. */
  lemma OnlyInsertionsNameRows(cell: Cell, op: StoreOp, id: GoalId)
    requires Apply(cell, op).cell.Holds(id) && !cell.Holds(id)
    ensures InsertedId(op) == Some(id)
  {
  }

  lemma OtherIdStaysOther(cell: Cell, op: StoreOp, id: GoalId)
    requires !cell.Holds(id) && InsertedId(op) != Some(id)
    ensures !Apply(cell, op).cell.Holds(id)
  {
  }

  /** A row's id is the starting one or an inserted one. */
  lemma {:induction false} RowIdIsKnown(cell: Cell, ops: seq<StoreOp>, n: nat, id: GoalId)
    requires n <= |ops| && At(cell, ops, n).Holds(id)
    ensures cell.Holds(id) || id in Inserted(ops[..n])
  {
    if n > 0 {
      AtNext(cell, ops, n - 1);
      if At(cell, ops, n - 1).Holds(id) {
        RowIdIsKnown(cell, ops, n - 1, id);
        assert forall op | op in ops[..n - 1] :: op in ops[..n];
      } else {
        OnlyInsertionsNameRows(At(cell, ops, n - 1), ops[n - 1], id);
        assert ops[n - 1] in ops[..n];
      }
    }
  }

  /** In a run with fresh ids, an id that a row has had is never inserted again. */
  lemma HeldIdIsNotReused(cell: Cell, ops: seq<StoreOp>, i: nat, k: nat, id: GoalId)
    requires Fresh(cell, ops) && i <= k < |ops| && At(cell, ops, i).Holds(id)
    ensures InsertedId(ops[k]) != Some(id)
  {
    RowIdIsKnown(cell, ops, i, id);
    assert forall op | op in ops[..i] :: op in ops[..k];
  }

  /** A goal id that was in the row and is not any more stays out of it for the rest of the run. */
  lemma {:induction false} RemovedGoalNeverReturns(cell: Cell, ops: seq<StoreOp>, i: nat, j: nat, k: nat, id: GoalId)
    requires Fresh(cell, ops) && i <= j <= k <= |ops|
    requires At(cell, ops, i).Holds(id) && !At(cell, ops, j).Holds(id)
    ensures !At(cell, ops, k).Holds(id)
  {
    if j < k {
      RemovedGoalNeverReturns(cell, ops, i, j, k - 1, id);
      HeldIdIsNotReused(cell, ops, i, k - 1, id);
      OtherIdStaysOther(At(cell, ops, k - 1), ops[k - 1], id);
      AtNext(cell, ops, k - 1);
    }
  }

  /** An id held at both ends of an interval is held throughout. */
  lemma HeldThroughout(cell: Cell, ops: seq<StoreOp>, i: nat, m: nat, j: nat, id: GoalId)
    requires Fresh(cell, ops) && i <= m <= j <= |ops|
    requires At(cell, ops, i).Holds(id) && At(cell, ops, j).Holds(id)
    ensures At(cell, ops, m).Holds(id)
  {
    if !At(cell, ops, m).Holds(id) {
      RemovedGoalNeverReturns(cell, ops, i, m, j, id);
    }
  }

  // ----- life of a row -----

  /** What may happen to a row while its goal id stays the same. */
  predicate Evolves(a: Goal, b: Goal) {
    && a.goalId == b.goalId
    && a.verifyCommand == b.verifyCommand
    && a.tokensUsed <= b.tokensUsed
    && a.timeUsedSeconds <= b.timeUsedSeconds
    && a.objectiveRevision <= b.objectiveRevision
    && (a.objectiveRevision == b.objectiveRevision ==> a.objective == b.objective)
    && (a.status.Complete? ==> b.status.Complete? && a.objective == b.objective && a.tokenBudget == b.tokenBudget)
  }

  /** A single statement that does not insert the row's own id again lets the row evolve. */
  lemma StatementEvolves(cell: Cell, op: StoreOp)
    requires cell.row.Some?
    requires InsertedId(op) != Some(cell.row.value.goalId)
    ensures var c := Apply(cell, op).cell;
            c.Holds(cell.row.value.goalId) ==> Evolves(cell.row.value, c.row.value)
  {
  }

  /** Between any two moments at which the row has the same goal id, it has only evolved. */
  lemma {:induction false} RowLifecycle(cell: Cell, ops: seq<StoreOp>, i: nat, j: nat)
    requires Fresh(cell, ops) && i <= j <= |ops|
    requires At(cell, ops, i).row.Some? && At(cell, ops, j).Holds(At(cell, ops, i).row.value.goalId)
    ensures Evolves(At(cell, ops, i).row.value, At(cell, ops, j).row.value)
  {
    var id := At(cell, ops, i).row.value.goalId;
    if i < j {
      HeldThroughout(cell, ops, i, j - 1, j, id);
      RowLifecycle(cell, ops, i, j - 1);
      AtNext(cell, ops, j - 1);
      HeldIdIsNotReused(cell, ops, i, j - 1, id);
      StatementEvolves(At(cell, ops, j - 1), ops[j - 1]);
    }
  }

  /** The edges of the status diagram. */
  const MOVES: set<(GoalStatus, GoalStatus)> := {
    (Active, Paused), (Active, Blocked), (Active, UsageLimited), (Active, BudgetLimited), (Active, Complete),
    (BudgetLimited, UsageLimited),
    (Paused, Active), (Blocked, Active), (UsageLimited, Active), (BudgetLimited, Active)}

  /** Statement `op` moves a living row from status `s` to status `t`. */
  predicate MovesStatus(cell: Cell, op: StoreOp, s: GoalStatus, t: GoalStatus) {
    && cell.row.Some? && cell.row.value.status == s
    && InsertedId(op) != Some(cell.row.value.goalId)
    && Apply(cell, op).cell.Holds(cell.row.value.goalId)
    && Apply(cell, op).cell.row.value.status == t
  }

  /** The statements move a living row along the edges of the diagram and along no others. */
  lemma StatusGraphIsExact(s: GoalStatus, t: GoalStatus)
    requires s != t
    ensures (s, t) in MOVES <==> exists cell, op :: MovesStatus(cell, op, s, t)
  {
    var g := Goal("g", "o", s, Some(1), 0, 0, None, None, 0, 0);
    var cell := Cell(Some(g), false);
    if (s, t) in MOVES {
      var op := match t
        case Active => Resume("g")
        case Paused => Pause("g")
        case Blocked => MarkBlocked("g", "")
        case UsageLimited => MarkUsageLimited("g", "")
        case BudgetLimited => Account("g", ActiveOnly, 1, 0)
        case Complete => MarkComplete("g");
      assert MovesStatus(cell, op, s, t);
    }
    if (exists cell, op :: MovesStatus(cell, op, s, t)) {
      var cell, op :| MovesStatus(cell, op, s, t);
      StatementFollowsEdge(cell, op, s, t);
    }
  }

  lemma StatementFollowsEdge(cell: Cell, op: StoreOp, s: GoalStatus, t: GoalStatus)
    requires s != t && MovesStatus(cell, op, s, t)
    ensures (s, t) in MOVES
  {
  }

  /** The model's `create` replaces nothing but a finished goal, and then and only then succeeds. */
  lemma CreateSucceedsExactlyOnFreeThread(cell: Cell, req: CreateRequest, id: GoalId, cap: int)
    requires RequestProblem(req, cap).None?
    ensures var r := Apply(cell, Create(req, id, cap));
            && ((cell.row.None? || cell.row.value.status.Complete?) <==> r.reply.Row?)
            && (!r.reply.Row? ==> r.cell == cell)
            && (r.reply.Row? ==>
                 r.cell.Holds(id) && r.cell.row.value.status.Active? && r.cell.row.value.tokensUsed == 0)
  {
  }

  // ----- statements that leave a goal in its row -----

  /** A statement that neither removes nor replaces a goal nor accounts for it. */
  predicate Spares(op: StoreOp) {
    !op.Clear? && !op.Account? && InsertedId(op).None?
  }

  predicate AllSpare(ops: seq<StoreOp>) {
    forall op | op in ops :: Spares(op)
  }

  lemma SparedRowStays(cell: Cell, op: StoreOp)
    requires cell.row.Some? && Spares(op)
    ensures var c := Apply(cell, op).cell;
            c.Holds(cell.row.value.goalId) && c.row.value.tokensUsed == cell.row.value.tokensUsed
  {
  }

  /** Over any number of such statements the row keeps its id and its tokens. */
  lemma {:induction false} SparedGoalStays(cell: Cell, ops: seq<StoreOp>)
    requires cell.row.Some? && AllSpare(ops)
    ensures var c := Run(cell, ops);
            c.Holds(cell.row.value.goalId) && c.row.value.tokensUsed == cell.row.value.tokensUsed
  {
    if ops != [] {
      assert forall op | op in ops[..|ops| - 1] :: op in ops;
      SparedGoalStays(cell, ops[..|ops| - 1]);
      SparedRowStays(Run(cell, ops[..|ops| - 1]), ops[|ops| - 1]);
    }
  }

  // ----- the budget window -----

  /** Active although the budget is already spent. */
  predicate Exposed(cell: Cell) {
    && cell.row.Some? && cell.row.value.status.Active?
    && cell.row.value.tokenBudget.Some?
    && cell.row.value.tokensUsed >= cell.row.value.tokenBudget.value
  }

  /** Statement `m` is one of the three that do not compare usage with the budget, and it succeeded. */
  predicate Reopens(cell: Cell, ops: seq<StoreOp>, m: nat)
    requires m < |ops|
  {
    (ops[m].Resume? || ops[m].UpdateBudget? || ops[m].InsertMigrated?) && Apply(At(cell, ops, m), ops[m]).reply.Row?
  }

  /** Statement `m` added usage to the row. */
  predicate Charges(cell: Cell, ops: seq<StoreOp>, m: nat)
    requires m < |ops|
  {
    var reply := Apply(At(cell, ops, m), ops[m]).reply;
    reply.Accounted? && reply.outcome.Updated?
  }

  lemma StatementExposes(cell: Cell, op: StoreOp)
    requires Exposed(Apply(cell, op).cell)
    ensures var r := Apply(cell, op);
            && !(r.reply.Accounted? && r.reply.outcome.Updated?)
            && (Exposed(cell) || ((op.Resume? || op.UpdateBudget? || op.InsertMigrated?) && r.reply.Row?))
  {
  }

  /** Reopened by statement `m`, and not charged from there up to `n`. */
  predicate OpenSince(cell: Cell, ops: seq<StoreOp>, m: nat, n: nat)
    requires m < n <= |ops|
  {
    Reopens(cell, ops, m) && forall k | m < k < n :: !Charges(cell, ops, k)
  }

  lemma StillOpen(cell: Cell, ops: seq<StoreOp>, m: nat, n: nat)
    requires m < n < |ops| && OpenSince(cell, ops, m, n) && !Charges(cell, ops, n)
    ensures OpenSince(cell, ops, m, n + 1)
  {
  }

  /** The last statement before an exposed row did not charge it, and reopened it or found it exposed. */
  lemma LastStatementExposes(cell: Cell, ops: seq<StoreOp>, n: nat)
    requires 0 < n <= |ops| && Exposed(At(cell, ops, n))
    ensures !Charges(cell, ops, n - 1)
    ensures Reopens(cell, ops, n - 1) || Exposed(At(cell, ops, n - 1))
  {
    AtNext(cell, ops, n - 1);
    StatementExposes(At(cell, ops, n - 1), ops[n - 1]);
  }

  /** An exposed row was reopened at some point, and no usage has been added to it since. */
  lemma {:induction false} BudgetWindow(cell: Cell, ops: seq<StoreOp>, n: nat) returns (m: nat)
    requires n <= |ops| && !Exposed(cell) && Exposed(At(cell, ops, n))
    ensures m < n && OpenSince(cell, ops, m, n)
  {
    if n == 0 {
      assert false;
    } else {
      LastStatementExposes(cell, ops, n);
      if Reopens(cell, ops, n - 1) {
        m := n - 1;
      } else {
        m := BudgetWindow(cell, ops, n - 1);
        StillOpen(cell, ops, m, n - 1);
      }
    }
  }

  /** A charge of any amount, even zero, closes the window, and only a reopening statement opens it again. */
  lemma {:induction false} ChargeClosesWindow(cell: Cell, ops: seq<StoreOp>, m: nat, n: nat)
    requires m < n <= |ops| && Charges(cell, ops, m)
    requires forall k | m < k < n :: !Reopens(cell, ops, k)
    ensures !Exposed(At(cell, ops, n))
  {
    if Exposed(At(cell, ops, n)) {
      LastStatementExposes(cell, ops, n);
      if m < n - 1 {
        ChargeClosesWindow(cell, ops, m, n - 1);
      }
    }
  }

  lemma StatementKeepsLimit(cell: Cell, op: StoreOp)
    requires cell.row.Some? && (cell.row.value.status.BudgetLimited? || cell.row.value.status.UsageLimited?)
    requires InsertedId(op) != Some(cell.row.value.goalId) && !(op.Resume? && Apply(cell, op).reply.Row?)
    ensures var c := Apply(cell, op).cell;
            c.Holds(cell.row.value.goalId) ==> c.row.value.status.BudgetLimited? || c.row.value.status.UsageLimited?
  {
  }

  /** Without a successful resume, a budget-limited goal can only become usage limited, be replaced or be cleared. */
  lemma {:induction false} BudgetLimitedIsSticky(cell: Cell, ops: seq<StoreOp>, i: nat, j: nat)
    requires Fresh(cell, ops) && i <= j <= |ops|
    requires At(cell, ops, i).row.Some? && At(cell, ops, i).row.value.status.BudgetLimited?
    requires At(cell, ops, j).Holds(At(cell, ops, i).row.value.goalId)
    requires forall m | i <= m < j :: !(ops[m].Resume? && Apply(At(cell, ops, m), ops[m]).reply.Row?)
    ensures var s := At(cell, ops, j).row.value.status; s.BudgetLimited? || s.UsageLimited?
  {
    if i < j {
      var id := At(cell, ops, i).row.value.goalId;
      HeldThroughout(cell, ops, i, j - 1, j, id);
      BudgetLimitedIsSticky(cell, ops, i, j - 1);
      AtNext(cell, ops, j - 1);
      HeldIdIsNotReused(cell, ops, i, j - 1, id);
      StatementKeepsLimit(At(cell, ops, j - 1), ops[j - 1]);
    }
  }
}
