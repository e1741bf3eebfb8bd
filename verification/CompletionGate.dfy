/**
 The completion gate of `update_goal(complete)` (`agent/goal/src/tools.rs`) with any number of calls in flight. A call
 reads the row, runs the goal's verify command, and then marks the goal it read as complete; other tasks may set, clear,
 pause, create or account between these steps.
 */
module CompletionGate {
  import opened Wrappers
  import opened GoalTypes
  import opened GoalRow
  import StoreRuns
  import V = GoalService

  /** A call that has read `goal`; `verified` once its verify step is behind it. */
  datatype Call = Call(goal: Goal, verified: bool)

  /** `seen` and `passed` are history: ids the row has had, and verify commands that returned ok. */
  datatype State = State(
    cell: Cell,
    calls: map<nat, Call>,
    seen: set<GoalId>,
    passed: set<(GoalId, string)>)

  datatype Step =
    | Store(op: StoreOp)
    | ReadGoal(call: nat)
    | Verify(call: nat, ok: bool)
    | Finish(call: nat)

  predicate Enabled(s: State, step: Step) {
    match step
    case Store(op) =>
      // completion goes through the tool; a migration may import a completed goal, which is not its subject
      && !op.MarkComplete?
      && (op.InsertMigrated? ==> op.row.status != Complete)
      && (InsertedId(op).Some? ==> InsertedId(op).value !in s.seen)
    case ReadGoal(call) => call !in s.calls && s.cell.row.Some?
    case Verify(call, _) => call in s.calls && !s.calls[call].verified
    case Finish(call) => call in s.calls && s.calls[call].verified
  }

  function Next(s: State, step: Step): State
    requires Enabled(s, step)
  {
    match step
    case Store(op) =>
      var cell := Apply(s.cell, op).cell;
      s.(cell := cell, seen := if cell.row.Some? then s.seen + {cell.row.value.goalId} else s.seen)
    case ReadGoal(call) =>
      s.(calls := s.calls[call := Call(s.cell.row.value, false)])
    case Verify(call, ok) =>
      var goal := s.calls[call].goal;
      if goal.verifyCommand.None? then s.(calls := s.calls[call := Call(goal, true)])
      else if ok then
        s.(calls := s.calls[call := Call(goal, true)], passed := s.passed + {(goal.goalId, goal.verifyCommand.value)})
      else s.(calls := s.calls - {call})
    case Finish(call) =>
      s.(cell := Apply(s.cell, MarkComplete(s.calls[call].goal.goalId)).cell, calls := s.calls - {call})
  }

  function Initial(cell: Cell): State {
    State(cell, map[], if cell.row.Some? then {cell.row.value.goalId} else {}, {})
  }

  function After(s: State, steps: seq<Step>): State {
    if steps == [] then s
    else
      var before := After(s, steps[..|steps| - 1]);
      var step := steps[|steps| - 1];
      if Enabled(before, step) then Next(before, step) else before
  }

  /** The goal has no verify command, or its command has returned ok. */
  predicate Approved(s: State, goal: Goal) {
    goal.verifyCommand.Some? ==> (goal.goalId, goal.verifyCommand.value) in s.passed
  }

  predicate Inv(s: State) {
    && (s.cell.row.Some? ==> s.cell.row.value.goalId in s.seen)
    && (forall p | p in s.passed :: p.0 in s.seen)
    && (s.cell.row.Some? && s.cell.row.value.status.Complete? ==> Approved(s, s.cell.row.value))
    && forall k | k in s.calls ::
         var goal := s.calls[k].goal;
         && goal.goalId in s.seen
         && (s.cell.Holds(goal.goalId) ==> s.cell.row.value.verifyCommand == goal.verifyCommand)
         && (s.calls[k].verified ==> Approved(s, goal))
  }

  /** Apart from `mark_complete` and imports, no statement completes a goal; and none changes a verify command. */
  lemma StatementKeepsGate(cell: Cell, op: StoreOp)
    requires !op.MarkComplete? && (op.InsertMigrated? ==> op.row.status != Complete)
    requires cell.row.Some? ==> InsertedId(op) != Some(cell.row.value.goalId)
    ensures var c := Apply(cell, op).cell;
            c.row.Some? ==>
              || (cell.Holds(c.row.value.goalId)
                  && c.row.value.verifyCommand == cell.row.value.verifyCommand
                  && (c.row.value.status.Complete? ==> cell.row.value.status.Complete?))
              || (InsertedId(op) == Some(c.row.value.goalId) && !c.row.value.status.Complete?)
  {
    if cell.row.Some? {
      StoreRuns.StatementEvolves(cell, op);
    }
  }

  lemma StoreKeepsInv(s: State, op: StoreOp)
    requires Inv(s) && Enabled(s, Store(op))
    ensures Inv(Next(s, Store(op)))
  {
    StatementKeepsGate(s.cell, op);
  }

  lemma ToolKeepsInv(s: State, step: Step)
    requires !step.Store? && Inv(s) && Enabled(s, step)
    ensures Inv(Next(s, step))
  {
  }

  lemma {:induction false} RunsKeepInv(s: State, steps: seq<Step>)
    requires Inv(s)
    ensures Inv(After(s, steps))
  {
    if steps != [] {
      var n := |steps| - 1;
      RunsKeepInv(s, steps[..n]);
      var before := After(s, steps[..n]);
      if Enabled(before, steps[n]) {
        if steps[n].Store? {
          StoreKeepsInv(before, steps[n].op);
        } else {
          ToolKeepsInv(before, steps[n]);
        }
      }
    }
  }

  /**
   In every interleaving, a goal that is complete has no verify command, or that very command was run for that very
   goal and returned ok.
   */
  lemma CompleteMeansVerified(cell: Cell, steps: seq<Step>)
    requires cell.row.Some? ==> cell.row.value.status != Complete
    ensures var s := After(Initial(cell), steps);
            s.cell.row.Some? && s.cell.row.value.status.Complete? ==> Approved(s, s.cell.row.value)
  {
    RunsKeepInv(Initial(cell), steps);
  }

  /** Step `n` is the verify step of a call that had read goal `id` with this command, and the command returned ok. */
  predicate RanOk(s: State, steps: seq<Step>, n: int, id: GoalId, command: string) {
    && 0 <= n < |steps| && steps[n].Verify? && steps[n].ok && Enabled(After(s, steps[..n]), steps[n])
    && var goal := After(s, steps[..n]).calls[steps[n].call].goal;
       goal.goalId == id && goal.verifyCommand == Some(command)
  }

  lemma {:induction false} PassedMeansRan(s: State, steps: seq<Step>, id: GoalId, command: string)
    requires (id, command) !in s.passed && (id, command) in After(s, steps).passed
    ensures exists n :: RanOk(s, steps, n, id, command)
  {
    var n := |steps| - 1;
    if (id, command) in After(s, steps[..n]).passed {
      PassedMeansRan(s, steps[..n], id, command);
      var m :| RanOk(s, steps[..n], m, id, command);
      assert steps[..n][..m] == steps[..m];
      assert RanOk(s, steps, m, id, command);
    } else {
      assert RanOk(s, steps, n, id, command);
    }
  }

  /**
   In every interleaving, a complete goal with a verify command has a step in its past at which that command returned
   ok for it.
   */
  lemma CompletedGoalHasRun(cell: Cell, steps: seq<Step>)
    requires cell.row.Some? ==> cell.row.value.status != Complete
    ensures var row := After(Initial(cell), steps).cell.row;
            row.Some? && row.value.status.Complete? && row.value.verifyCommand.Some? ==>
              exists n :: RanOk(Initial(cell), steps, n, row.value.goalId, row.value.verifyCommand.value)
  {
    CompleteMeansVerified(cell, steps);
    var row := After(Initial(cell), steps).cell.row;
    if row.Some? && row.value.status.Complete? && row.value.verifyCommand.Some? {
      PassedMeansRan(Initial(cell), steps, row.value.goalId, row.value.verifyCommand.value);
    }
  }

  /** As long as every verify run fails, no goal with a verify command is ever complete, however many calls try. */
  lemma FailingVerifyNeverCompletes(cell: Cell, steps: seq<Step>)
    requires cell.row.Some? ==> cell.row.value.status != Complete
    requires forall n | 0 <= n < |steps| && steps[n].Verify? :: !steps[n].ok
    ensures var row := After(Initial(cell), steps).cell.row;
            row.Some? && row.value.verifyCommand.Some? ==> row.value.status != Complete
  {
    CompletedGoalHasRun(cell, steps);
  }

  // ----- a goal that was set with a verify command -----

  /** Goal `id`, wherever it is still in the row, has this verify command; its id is known. */
  predicate Carries(s: State, id: GoalId, verify: Option<string>) {
    id in s.seen && (s.cell.Holds(id) ==> s.cell.row.value.verifyCommand == verify)
  }

  lemma StepCarries(s: State, step: Step, id: GoalId, verify: Option<string>)
    requires Enabled(s, step) && Carries(s, id, verify)
    ensures Carries(Next(s, step), id, verify)
  {
    if step.Store? && s.cell.row.Some? {
      if InsertedId(step.op) != Some(s.cell.row.value.goalId) {
        StoreRuns.StatementEvolves(s.cell, step.op);
      }
    }
  }

  lemma {:induction false} RunsCarry(s: State, steps: seq<Step>, id: GoalId, verify: Option<string>)
    requires Carries(s, id, verify)
    ensures Carries(After(s, steps), id, verify)
  {
    if steps != [] {
      var n := |steps| - 1;
      RunsCarry(s, steps[..n], id, verify);
      if Enabled(After(s, steps[..n]), steps[n]) {
        StepCarries(After(s, steps[..n]), steps[n], id, verify);
      }
    }
  }

  /** The gate after the user's `set`, which gave the new goal an id that was not in use. */
  function AfterSet(s: State, disk: V.Disk, id: GoalId): State {
    s.(cell := disk.cell, seen := s.seen + {id})
  }

  /**
   From the `set` call to completion: whatever ran before it and whatever runs after it, a goal that the user set with a
   verify command is complete only if that very command has returned ok for it since.
   */
  lemma SetGoalIsVerified(
    cell: Cell, earlier: seq<Step>, disk: V.Disk, thread: ThreadId, objective: string, budget: Option<int>,
    command: string, c: V.Conditions, steps: seq<Step>)
    requires cell.row.Some? ==> cell.row.value.status != Complete
    requires var s := After(Initial(cell), earlier);
             disk.cell == s.cell && c.goalId !in s.seen
    requires V.SetCall(disk, thread, objective, budget, Some(command), c).result.Ok?
    ensures var done := V.SetCall(disk, thread, objective, budget, Some(command), c).disk;
            var s := AfterSet(After(Initial(cell), earlier), done, c.goalId);
            var row := After(s, steps).cell.row;
            row.Some? && row.value.goalId == c.goalId && row.value.status.Complete? ==>
              exists n :: RanOk(s, steps, n, c.goalId, command)
  {
    var done := V.SetCall(disk, thread, objective, budget, Some(command), c).disk;
    V.SetExactly(disk, thread, objective, budget, Some(command), c);
    var s := AfterSet(After(Initial(cell), earlier), done, c.goalId);
    RunsKeepInv(Initial(cell), earlier);
    assert Inv(s);
    RunsKeepInv(s, steps);
    RunsCarry(s, steps, c.goalId, Some(command));
    var row := After(s, steps).cell.row;
    if row.Some? && row.value.goalId == c.goalId && row.value.status.Complete? {
      PassedMeansRan(s, steps, c.goalId, command);
    }
  }
}
