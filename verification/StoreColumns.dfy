/**
 Who wrote what is in a thread's cell, over every run of the store: each column of the row goes back to the last
 accepted statement that writes it, and a deferral to the last one that deferred (`agent/goal/src/store.rs`).
 */
module StoreColumns {
  import opened Wrappers
  import opened Text
  import opened GoalTypes
  import opened GoalRow
  import opened StoreRuns

  // ----- who wrote a column -----

  /** Statement `n` was accepted and the row it left is the one it answered with. */
  predicate Wrote(cell: Cell, ops: seq<StoreOp>, n: int) {
    0 <= n < |ops| && Apply(At(cell, ops, n), ops[n]).reply.Row?
  }

  /** The budget that an accepted statement puts on the row, if it is one that does. */
  function BudgetOf(op: StoreOp): Option<Option<int>> {
    match op
    case Create(req, _, _) => Some(req.tokenBudget)
    case Replace(req, _, _) => Some(req.tokenBudget)
    case InsertMigrated(row) => Some(row.tokenBudget)
    case UpdateBudget(_, budget, _) => Some(Some(budget))
    case _ => None
  }

  function VerifyOf(op: StoreOp): Option<Option<string>> {
    match op
    case Create(req, _, _) => Some(req.verifyCommand)
    case Replace(req, _, _) => Some(req.verifyCommand)
    case InsertMigrated(row) => Some(row.verifyCommand)
    case _ => None
  }

  function ObjectiveOf(op: StoreOp): Option<string> {
    match op
    case Create(req, _, _) => Some(Trim(req.objective))
    case Replace(req, _, _) => Some(Trim(req.objective))
    case InsertMigrated(row) => Some(Trim(row.objective))
    case EditObjective(_, objective) => Some(Trim(objective))
    case _ => None
  }

  function IterationOf(op: StoreOp): Option<int> {
    match op
    case Create(_, _, _) => Some(0)
    case Replace(_, _, _) => Some(0)
    case InsertMigrated(_) => Some(0)
    case SetIteration(_, iteration) => Some(iteration)
    case _ => None
  }

  /** A column follows a rule: an accepted statement leaves what the rule says, and any other the column as it was. */
  ghost predicate Follows<T(!new)>(column: Goal -> T, writes: StoreOp -> Option<T>) {
    forall cell: Cell, op: StoreOp | Apply(cell, op).cell.row.Some? ::
      var r := Apply(cell, op);
      if r.reply.Row? && writes(op).Some? then column(r.cell.row.value) == writes(op).value
      else cell.row.Some? && column(r.cell.row.value) == column(cell.row.value)
  }

  /** What statement `n` of a run writes to the column, if it is accepted. */
  function Written<T>(cell: Cell, ops: seq<StoreOp>, writes: StoreOp -> Option<T>): seq<Option<T>> {
    seq(|ops|, n requires 0 <= n < |ops| => if Wrote(cell, ops, n) then writes(ops[n]) else None)
  }

  /** The column before each statement and at the end, while there is a row. */
  function Shown<T>(cell: Cell, ops: seq<StoreOp>, column: Goal -> T): seq<Option<T>> {
    seq(|ops| + 1, n requires 0 <= n <= |ops| =>
      var row := At(cell, ops, n).row; if row.Some? then Some(column(row.value)) else None)
  }

  /** Entry `m` is the last one before `n` that writes anything. */
  predicate LastWrite<T>(written: seq<Option<T>>, m: int, n: int) {
    0 <= m < n <= |written| && written[m].Some? && forall k | m < k < n :: written[k].None?
  }

  /** What is shown is what was written, or stays. */
  predicate Stays<T(==)>(written: seq<Option<T>>, shown: seq<Option<T>>) {
    && |shown| == |written| + 1
    && forall n | 0 <= n < |written| && shown[n + 1].Some? ::
         shown[n + 1] == if written[n].Some? then written[n] else shown[n]
  }

  lemma {:induction false} LastWriteShows<T>(written: seq<Option<T>>, shown: seq<Option<T>>, m: nat, n: nat)
    requires Stays(written, shown) && LastWrite(written, m, n) && shown[n].Some?
    ensures shown[n] == written[m]
  {
    if m < n - 1 {
      LastWriteShows(written, shown, m, n - 1);
    }
  }

  lemma FollowedAt<T(!new)>(cell: Cell, ops: seq<StoreOp>, column: Goal -> T, writes: StoreOp -> Option<T>, n: nat)
    requires Follows(column, writes) && n < |ops| && Shown(cell, ops, column)[n + 1].Some?
    ensures var written, shown := Written(cell, ops, writes), Shown(cell, ops, column);
            shown[n + 1] == if written[n].Some? then written[n] else shown[n]
  {
    AtNext(cell, ops, n);
    var before := At(cell, ops, n);
    assert Apply(before, ops[n]).cell.row.Some?;
  }

  /** Whatever a rule writes last is shown. */
  lemma LastWriterDecides<T(!new)>(
    cell: Cell, ops: seq<StoreOp>, column: Goal -> T, writes: StoreOp -> Option<T>, m: nat, n: nat)
    requires Follows(column, writes) && LastWrite(Written(cell, ops, writes), m, n)
    requires n <= |ops| && At(cell, ops, n).row.Some?
    ensures writes(ops[m]) == Some(column(At(cell, ops, n).row.value))
  {
    var written, shown := Written(cell, ops, writes), Shown(cell, ops, column);
    forall k | 0 <= k < |written| && shown[k + 1].Some?
      ensures shown[k + 1] == if written[k].Some? then written[k] else shown[k]
    {
      FollowedAt(cell, ops, column, writes, k);
    }
    LastWriteShows(written, shown, m, n);
  }

  lemma BudgetFollows()
    ensures Follows((g: Goal) => g.tokenBudget, BudgetOf)
  {
  }

  lemma VerifyFollows()
    ensures Follows((g: Goal) => g.verifyCommand, VerifyOf)
  {
  }

  lemma ObjectiveFollows()
    ensures Follows((g: Goal) => g.objective, ObjectiveOf)
  {
  }

  lemma IterationFollows()
    ensures Follows((g: Goal) => g.iterationCount, IterationOf)
  {
  }

  /**
   Over every run, whoever issued its statements: budget, verify command, objective and iteration of the row are those
   of the last accepted statement that writes them.
   */
  lemma LastRequestIsOnTheRow(cell: Cell, ops: seq<StoreOp>, m: nat, n: nat)
    requires n <= |ops| && At(cell, ops, n).row.Some?
    ensures var g := At(cell, ops, n).row.value;
            && (LastWrite(Written(cell, ops, BudgetOf), m, n) ==> BudgetOf(ops[m]) == Some(g.tokenBudget))
            && (LastWrite(Written(cell, ops, VerifyOf), m, n) ==> VerifyOf(ops[m]) == Some(g.verifyCommand))
            && (LastWrite(Written(cell, ops, ObjectiveOf), m, n) ==> ObjectiveOf(ops[m]) == Some(g.objective))
            && (LastWrite(Written(cell, ops, IterationOf), m, n) ==> IterationOf(ops[m]) == Some(g.iterationCount))
  {
    if LastWrite(Written(cell, ops, BudgetOf), m, n) {
      BudgetFollows();
      LastWriterDecides(cell, ops, (g: Goal) => g.tokenBudget, BudgetOf, m, n);
    }
    if LastWrite(Written(cell, ops, VerifyOf), m, n) {
      VerifyFollows();
      LastWriterDecides(cell, ops, (g: Goal) => g.verifyCommand, VerifyOf, m, n);
    }
    if LastWrite(Written(cell, ops, ObjectiveOf), m, n) {
      ObjectiveFollows();
      LastWriterDecides(cell, ops, (g: Goal) => g.objective, ObjectiveOf, m, n);
    }
    if LastWrite(Written(cell, ops, IterationOf), m, n) {
      IterationFollows();
      LastWriterDecides(cell, ops, (g: Goal) => g.iterationCount, IterationOf, m, n);
    }
  }

  // ----- deferrals -----

  /** Statement `n` leaves no deferral: it clears it, or removes the row it hangs on. */
  predicate Undefers(cell: Cell, ops: seq<StoreOp>, n: int) {
    && 0 <= n < |ops|
    && (ops[n].ClearDeferral? || ops[n].Clear?
        || ((ops[n].Replace? || ops[n].InsertMigrated?) && Wrote(cell, ops, n)))
  }

  /** Statement `n` defers the goal that is there. */
  predicate Defers(cell: Cell, ops: seq<StoreOp>, n: int) {
    0 <= n < |ops| && ops[n].Defer? && At(cell, ops, n).row.Some?
  }

  /** Statement `m` deferred a goal, and nothing up to `n` has taken that back. */
  predicate DeferredSince(cell: Cell, ops: seq<StoreOp>, m: int, n: int) {
    0 <= m < n && Defers(cell, ops, m) && forall k | m < k < n :: !Undefers(cell, ops, k)
  }

  ghost predicate RaisedSince(raise: nat -> bool, lower: nat -> bool, m: nat, n: nat) {
    m < n && raise(m) && forall k: nat | m < k < n :: !lower(k)
  }

  /** A flag that is raised and lowered is up exactly if it was raised and not lowered since. */
  lemma {:induction false} UpSince(up: nat -> bool, raise: nat -> bool, lower: nat -> bool, n: nat)
    requires !up(0) && forall k: nat | k < n :: up(k + 1) == (raise(k) || (up(k) && !lower(k)))
    ensures up(n) <==> exists m: nat :: RaisedSince(raise, lower, m, n)
  {
    if n > 0 {
      UpSince(up, raise, lower, n - 1);
      if raise(n - 1) {
        assert RaisedSince(raise, lower, n - 1, n);
      } else if up(n) {
        var m: nat :| RaisedSince(raise, lower, m, n - 1);
        assert RaisedSince(raise, lower, m, n);
      } else if m: nat :| RaisedSince(raise, lower, m, n) {
        assert RaisedSince(raise, lower, m, n - 1);
      }
    }
  }

  /** What one statement does to the deferral. */
  lemma StatementDefers(cell: Cell, ops: seq<StoreOp>, n: nat)
    requires n < |ops| && At(cell, ops, n).Valid()
    ensures At(cell, ops, n + 1).deferred
       <==> Defers(cell, ops, n) || (At(cell, ops, n).deferred && !Undefers(cell, ops, n))
  {
    AtNext(cell, ops, n);
  }

  /**
   Over every run from a thread without a deferral: there is one exactly if a goal was deferred and neither the deferral
   nor that goal has been taken away since.
   */
  lemma DeferredExactly(cell: Cell, ops: seq<StoreOp>, n: nat)
    requires n <= |ops| && !cell.deferred
    ensures At(cell, ops, n).deferred <==> exists m :: DeferredSince(cell, ops, m, n)
  {
    var up := (k: nat) => k <= |ops| && At(cell, ops, k).deferred;
    var raise := (k: nat) => Defers(cell, ops, k);
    var lower := (k: nat) => Undefers(cell, ops, k);
    forall k: nat | k < n ensures up(k + 1) == (raise(k) || (up(k) && !lower(k))) {
      StatementDefers(cell, ops, k);
    }
    UpSince(up, raise, lower, n);
    if up(n) {
      var m: nat :| RaisedSince(raise, lower, m, n);
      SinceIsSince(cell, ops, raise, lower, m, n);
    }
    if m :| DeferredSince(cell, ops, m, n) {
      SinceIsSince(cell, ops, raise, lower, m, n);
    }
  }

  lemma SinceIsSince(cell: Cell, ops: seq<StoreOp>, raise: nat -> bool, lower: nat -> bool, m: nat, n: nat)
    requires forall k: nat :: raise(k) == Defers(cell, ops, k) && lower(k) == Undefers(cell, ops, k)
    ensures RaisedSince(raise, lower, m, n) <==> DeferredSince(cell, ops, m, n)
  {
  }

  // ----- answers -----

  /** What a new row looks like: nothing used, nothing counted, active; an imported one keeps its own story. */
  lemma InsertedRowExactly(cell: Cell, op: StoreOp)
    requires InsertedId(op).Some? && Apply(cell, op).reply.Row?
    ensures var g := Apply(cell, op).reply.goal;
            match op
            case Create(req, id, _) =>
              g == Goal(id, Trim(req.objective), Active, req.tokenBudget, 0, 0, req.verifyCommand, None, 0, 0)
            case Replace(req, id, _) =>
              g == Goal(id, Trim(req.objective), Active, req.tokenBudget, 0, 0, req.verifyCommand, None, 0, 0)
            case InsertMigrated(row) =>
              && g.tokensUsed == (if row.tokensUsed < 0 then 0 else row.tokensUsed)
              && g.timeUsedSeconds == (if row.timeUsedSeconds < 0 then 0 else row.timeUsedSeconds)
              && g.objectiveRevision == 0 == g.iterationCount && g.objective == Trim(row.objective) != ""
              && g == row.(tokensUsed := g.tokensUsed, timeUsedSeconds := g.timeUsedSeconds, objective := g.objective,
                           objectiveRevision := 0, iterationCount := 0)
  {
  }

  /** An answer with a row is the row that is there now; a refusal leaves everything as it was. */
  lemma AnswersAreTrue(cell: Cell, op: StoreOp)
    ensures var r := Apply(cell, op);
            && (r.reply.Row? ==> r.cell.row == Some(r.reply.goal))
            && (r.reply.Refused? ==> r.cell == cell)
            && (op.Clear? ==> r.cell == Cell(None, false) && r.reply == Flag(cell.row.Some?))
            && (op.ClearDeferral? ==> r.cell == cell.(deferred := false) && r.reply == Flag(cell.deferred))
            && (op.Defer? ==> r.cell.row == cell.row && r.reply == Flag(r.cell.deferred && !cell.deferred))
  {
  }

  /** What a `create` or `replace` is refused for, in the order in which it is looked at. */
  lemma RefusalsSayWhy(cell: Cell, op: StoreOp)
    requires op.Create? || op.Replace?
    ensures var text, budget, reply := Trim(op.req.objective), op.req.tokenBudget, Apply(cell, op).reply;
            var fits := text != "" && Utf8Length(text) <= 4000;
            && (reply == Refused(EmptyObjective) <==> text == "")
            && (reply == Refused(ObjectiveTooLong) <==> text != "" && Utf8Length(text) > 4000)
            && (reply == Refused(BudgetMustBePositive) <==> fits && budget.Some? && budget.value <= 0)
            && (reply == Refused(BudgetAboveCap(op.cap)) <==> fits && budget.Some? && budget.value > Max(0, op.cap))
            && (reply == Refused(ExistingUnfinishedGoal) <==>
                  && op.Create? && fits && (budget.Some? ==> 0 < budget.value <= op.cap)
                  && cell.row.Some? && !cell.row.value.status.Complete?)
  {
  }

  /** Which statuses each mode charges, and that a charge asks for nothing but status and id. */
  lemma ModesChargeExactly(cell: Cell, id: GoalId, mode: AccountingMode, tokens: int, seconds: int)
    ensures var r := Apply(cell, Account(id, mode, tokens, seconds));
            && r.reply.Accounted?
            && (r.reply.outcome.Updated? <==>
                  && cell.Holds(id)
                  && var status := cell.row.value.status;
                     match mode
                     case ActiveStatusOnly => status == Active
                     case ActiveOnly => status == Active || status == BudgetLimited
                     case ActiveOrComplete => status == Active || status == BudgetLimited || status == Complete
                     case ActiveOrStopped => status != Complete)
            && (r.reply.outcome.Unchanged? ==> r.cell == cell)
  {
  }
}
