/**
 Turns of one session over whole runs (`agent/goal/src/runtime.rs`). There is one binding for all of them: a start that
 finds an active goal writes it, exits and reported status changes take it. A turn need not have ended when the next one
 starts: the host frees the session before the exit hook runs, and some prompts return without any
 (`apps/acp/src/agent.rs`). Between and inside the hooks other tasks may issue statements.
 */
module TurnRuns {
  import opened Wrappers
  import opened GoalTypes
  import opened GoalRow
  import opened TokenDelta
  import opened GoalRuntime
  import A = GoalAccounting

  /** What the hooks of a session share besides the binding. */
  datatype Memory = Memory(cell: Cell, inner: A.Inner, reported: Option<GoalId>)

  /** The binding, with the token of the turn that wrote it. */
  datatype Held = Held(binding: TurnBinding, owner: nat)

  datatype Exit = Finish(toolsFail: bool) | Abort | Error(reason: string) | Quota(reason: string)

  /** Where a start fails in the database, if it does; the host logs the error and the turn goes on. */
  datatype StartFailure = NoFailure | AtClear | AtClock | AtRead

  /** `started` and `ended` are history: the tokens in use. */
  datatype State = State(memory: Memory, held: Option<Held>, started: set<nat>, ended: set<nat>)

  datatype Step =
    | Store(op: StoreOp)
    | Start(turn: nat, exempt: bool, failure: StartFailure, gap: seq<StoreOp>, now: nat)
    | StatusChanged(status: GoalStatus, flush: A.Environment, now: nat)
    | Arm(mark: Option<A.Mark>)  // after a set, a creation or a clear
    | End(turn: nat, exit: Exit, totals: Option<TokenTotals>, env: TurnEnv)

  predicate Enabled(s: State, step: Step) {
    match step
    case Start(turn, _, _, _, _) => turn !in s.started
    case End(turn, _, _, _) => turn in s.started && turn !in s.ended
    case _ => true
  }

  function BindingOf(held: Option<Held>): Option<TurnBinding> {
    if held.Some? then Some(held.value.binding) else None
  }

  /** The goal whose failing tools an exit may block: the bound one. */
  function BoundGoal(binding: Option<TurnBinding>): Option<GoalId> {
    if binding.Some? then Some(binding.value.goalId) else None
  }

  /** What an exit does, by the hook that makes it. */
  function Exited(m: Memory, binding: Option<TurnBinding>, exit: Exit, totals: Option<TokenTotals>, env: TurnEnv)
    : (Memory, Option<Goal>)
  {
    match exit
    case Finish(toolsFail) =>
      var unavailable := if toolsFail then BoundGoal(binding) else None;
      var e := FinishExit(m.cell, m.inner, m.reported, binding, unavailable, totals, env);
      (Memory(e.cell, e.inner, e.reported), e.blocked)
    case Abort =>
      var a := AbortExit(m.cell, m.inner, binding, totals, env);
      (m.(cell := a.cell, inner := a.inner), None)
    case Error(reason) =>
      var e := ErrorExit(m.cell, m.inner, m.reported, binding, reason, totals, env);
      (Memory(e.cell, e.inner, e.reported), e.blocked)
    case Quota(reason) =>
      var a := QuotaExit(m.cell, m.inner, reason, totals, env);
      (m.(cell := a.cell, inner := a.inner), None)
  }

  /** The rows that a start meets: after clearing the deferral, and when it looks for the goal to bind. */
  function Cleared(cell: Cell, step: Step): Cell
    requires step.Start?
  {
    if step.failure.AtClear? then cell else Apply(cell, ClearDeferral).cell
  }

  function Looked(cell: Cell, step: Step): Cell
    requires step.Start?
  {
    Run(Cleared(cell, step), step.gap)
  }

  /** The binding that a start writes, if it gets as far as finding an active goal. */
  function Written(cell: Cell, step: Step): Option<Held>
    requires step.Start?
  {
    var row := Looked(cell, step).row;
    if step.failure.NoFailure? && IsActive(row)
    then Some(Held(TurnBinding(row.value.goalId, !step.exempt), step.turn)) else None
  }

  function Next(s: State, step: Step): State
    requires Enabled(s, step)
  {
    match step
    case Store(op) => s.(memory := s.memory.(cell := Apply(s.memory.cell, op).cell))
    case Start(turn, _, failure, _, now) =>
      var cleared := Cleared(s.memory.cell, step);
      var inner := if failure.AtClear? || failure.AtClock? then s.memory.inner else A.StartedInner(cleared.row, now);
      var written := Written(s.memory.cell, step);
      s.(memory := s.memory.(cell := Looked(s.memory.cell, step), inner := inner),
         held := if written.Some? then written else s.held,
         started := s.started + {turn})
    case StatusChanged(status, flush, now) =>
      if status.Active? then s.(memory := s.memory.(inner := A.StartedInner(s.memory.cell.row, now)))
      else
        var a := A.AccountCall(s.memory.cell, s.memory.inner, None, ActiveOrStopped, true, flush);
        s.(memory := s.memory.(cell := a.cell, inner := a.inner), held := None)
    case Arm(mark) => s.(memory := s.memory.(inner := A.Inner(mark, None)))
    case End(turn, exit, totals, env) =>
      s.(memory := Exited(s.memory, BindingOf(s.held), exit, totals, env).0,
         held := if exit.Quota? then s.held else None,
         ended := s.ended + {turn})
  }

  /** A start of the machine is the start hook: the same row, the same clock, and the same binding afterwards. */
  lemma StartIsTheHook(s: State, step: Step)
    requires step.Start? && step.failure.NoFailure? && Enabled(s, step)
    ensures var cleared := s.memory.cell.(deferred := false);
            var t := Next(s, step);
            && t.memory.cell == Run(cleared, step.gap) && t.memory.inner == A.StartedInner(cleared.row, step.now)
            && BindingOf(t.held) == Rebound(BindingOf(s.held), t.memory.cell.row, !step.exempt)
  {
  }

  function Initial(cell: Cell): State {
    State(Memory(cell, A.Unarmed, None), None, {}, {})
  }

  /** A step that is not enabled does not happen. */
  function After(s: State, steps: seq<Step>): State {
    if steps == [] then s
    else
      var before := After(s, steps[..|steps| - 1]);
      if Enabled(before, steps[|steps| - 1]) then Next(before, steps[|steps| - 1]) else before
  }

  /** The state before step `n` of a run. */
  function At(cell: Cell, steps: seq<Step>, n: int): State
    requires 0 <= n <= |steps|
  {
    After(Initial(cell), steps[..n])
  }

  predicate Happens(cell: Cell, steps: seq<Step>, n: int) {
    0 <= n < |steps| && Enabled(At(cell, steps, n), steps[n])
  }

  lemma AtNext(cell: Cell, steps: seq<Step>, n: nat)
    requires n < |steps|
    ensures var s := At(cell, steps, n);
            At(cell, steps, n + 1) == if Happens(cell, steps, n) then Next(s, steps[n]) else s
  {
    assert steps[..n + 1][..n] == steps[..n];
  }

  // ----- which binding an exit finds -----

  /** What step `n` writes to the binding. */
  function Binds(cell: Cell, steps: seq<Step>, n: int): Option<Held> {
    if Happens(cell, steps, n) && steps[n].Start? then Written(At(cell, steps, n).memory.cell, steps[n]) else None
  }

  /** Step `n` takes the binding away: an exit other than by quota, whoever's, or a change to an inactive status. */
  predicate Takes(cell: Cell, steps: seq<Step>, n: int) {
    && Happens(cell, steps, n)
    && ((steps[n].End? && !steps[n].exit.Quota?) || (steps[n].StatusChanged? && !steps[n].status.Active?))
  }

  /** Between steps `m` and `n` the binding is neither taken nor written. */
  predicate Untouched(cell: Cell, steps: seq<Step>, m: int, n: int) {
    forall k | m < k < n :: Binds(cell, steps, k).None? && !Takes(cell, steps, k)
  }

  /** Step `m` is the last start before step `n` that wrote a binding, and nothing has taken it since. */
  predicate LastBinder(cell: Cell, steps: seq<Step>, m: int, n: int) {
    0 <= m < n <= |steps| && Binds(cell, steps, m).Some? && Untouched(cell, steps, m, n)
  }

  lemma StepHolds(cell: Cell, steps: seq<Step>, n: nat)
    requires n < |steps|
    ensures At(cell, steps, n + 1).held ==
            if Binds(cell, steps, n).Some? then Binds(cell, steps, n)
            else if Takes(cell, steps, n) then None
            else At(cell, steps, n).held
  {
    AtNext(cell, steps, n);
  }

  /** The last binder determines the binding. */
  lemma {:induction false} LastBinderIsHeld(cell: Cell, steps: seq<Step>, m: nat, n: nat)
    requires LastBinder(cell, steps, m, n)
    ensures At(cell, steps, n).held == Binds(cell, steps, m)
  {
    StepHolds(cell, steps, n - 1);
    if m < n - 1 {
      assert Binds(cell, steps, n - 1).None? && !Takes(cell, steps, n - 1);
      LastBinderIsHeld(cell, steps, m, n - 1);
    }
  }

  lemma UntouchedLonger(cell: Cell, steps: seq<Step>, m: nat, n: nat)
    requires LastBinder(cell, steps, m, n) && n < |steps|
    requires Binds(cell, steps, n).None? && !Takes(cell, steps, n)
    ensures LastBinder(cell, steps, m, n + 1)
  {
  }

  /** A binding has a last binder. */
  lemma {:induction false} HeldHasLastBinder(cell: Cell, steps: seq<Step>, n: nat) returns (m: nat)
    requires n <= |steps| && At(cell, steps, n).held.Some?
    ensures LastBinder(cell, steps, m, n) && At(cell, steps, n).held == Binds(cell, steps, m)
  {
    if n == 0 {
      assert false;
    } else {
      StepHolds(cell, steps, n - 1);
      if Binds(cell, steps, n - 1).Some? {
        m := n - 1;
      } else {
        m := HeldHasLastBinder(cell, steps, n - 1);
        UntouchedLonger(cell, steps, m, n - 1);
      }
    }
  }

  /** The binding before any step: that of the last start with an active goal that nothing has taken since. */
  lemma BindingIsTheLastUntaken(cell: Cell, steps: seq<Step>, n: nat, h: Held)
    requires n <= |steps|
    ensures At(cell, steps, n).held == Some(h) <==>
              exists m :: LastBinder(cell, steps, m, n) && Binds(cell, steps, m) == Some(h)
  {
    if At(cell, steps, n).held == Some(h) {
      var m := HeldHasLastBinder(cell, steps, n);
    }
    if m :| LastBinder(cell, steps, m, n) && Binds(cell, steps, m) == Some(h) {
      LastBinderIsHeld(cell, steps, m, n);
    }
  }

  // ----- where a binding that outlives its turn comes from -----

  predicate EndsAt(cell: Cell, steps: seq<Step>, n: int) {
    Happens(cell, steps, n) && steps[n].End?
  }

  lemma {:induction false} EndedWereStarted(cell: Cell, steps: seq<Step>, n: nat)
    requires n <= |steps|
    ensures At(cell, steps, n).ended <= At(cell, steps, n).started
  {
    if n > 0 {
      EndedWereStarted(cell, steps, n - 1);
      AtNext(cell, steps, n - 1);
    }
  }

  /** A turn that has ended since it was started has an exit in between. */
  lemma {:induction false} EndedHasExit(cell: Cell, steps: seq<Step>, m: nat, n: nat, turn: nat) returns (j: nat)
    requires m <= n <= |steps| && turn !in At(cell, steps, m).ended && turn in At(cell, steps, n).ended
    ensures m <= j < n && EndsAt(cell, steps, j) && steps[j].turn == turn
  {
    if m == n {
      assert false;
    } else {
      AtNext(cell, steps, n - 1);
      if turn in At(cell, steps, n - 1).ended {
        j := EndedHasExit(cell, steps, m, n - 1, turn);
      } else {
        j := n - 1;
      }
    }
  }

  predicate QuotaExitBetween(cell: Cell, steps: seq<Step>, m: int, n: int, turn: nat) {
    exists j :: m < j < n && EndsAt(cell, steps, j) && steps[j].turn == turn && steps[j].exit.Quota?
  }

  /**
   Whoever's binding is found: that turn has not reached an exit yet, and perhaps never will, or left by its quota
   exit.
   */
  lemma StaleBindingOrigin(cell: Cell, steps: seq<Step>, n: nat) returns (m: nat)
    requires n <= |steps| && At(cell, steps, n).held.Some?
    ensures var owner := At(cell, steps, n).held.value.owner;
            && LastBinder(cell, steps, m, n) && steps[m].turn == owner
            && (owner !in At(cell, steps, n).ended || QuotaExitBetween(cell, steps, m, n, owner))
  {
    m := HeldHasLastBinder(cell, steps, n);
    var owner := At(cell, steps, n).held.value.owner;
    if owner in At(cell, steps, n).ended {
      EndedWereStarted(cell, steps, m);
      var j := EndedHasExit(cell, steps, m, n, owner);
      assert j != m && !Takes(cell, steps, j);
    }
  }

  // ----- what an exit may block -----

  /** The row that the blocking statement of an exit meets; without a binding, the row that is read first. */
  function ReadRow(m: Memory, step: Step): Cell
    requires step.End?
  {
    Run(ExitCharge(m, step).cell, step.env.beforeBlock)
  }

  /** Without a binding, the row that the statement meets. */
  function MetRow(m: Memory, step: Step): Cell
    requires step.End?
  {
    Run(ReadRow(m, step), step.env.readToBlock)
  }

  function ExitCharge(m: Memory, step: Step): A.Accounting
    requires step.End?
  {
    Charged(m.cell, m.inner, step.totals, if step.exit.Finish? then ActiveOnly else ActiveOrStopped, step.env)
  }

  /**
   An exit with binding `b` blocks: it is not exempt, failed or had failing tools, and meets the bound goal active.
   */
  predicate BlocksBound(m: Memory, b: TurnBinding, step: Step)
    requires step.End?
  {
    && b.account && (step.exit.Error? || step.exit == Finish(true)) && ExitCharge(m, step).result.Ok?
       && step.env.blockOk
    && ReadRow(m, step).Holds(b.goalId) && ReadRow(m, step).row.value.status.Active?
  }

  /** An exit without a binding blocks: it failed, and read and met one and the same goal active. */
  predicate BlocksUnbound(m: Memory, step: Step)
    requires step.End?
  {
    && step.exit.Error? && ExitCharge(m, step).result.Ok? && step.env.blockReadOk && step.env.blockOk
    && IsActive(ReadRow(m, step).row)
    && MetRow(m, step).Holds(ReadRow(m, step).row.value.goalId) && MetRow(m, step).row.value.status.Active?
  }

  function BlockedBy(s: State, step: Step): Option<Goal>
    requires step.End?
  {
    Exited(s.memory, BindingOf(s.held), step.exit, step.totals, step.env).1
  }

  /**
   In any state, whatever happens during the exit: what it blocks is decided by the binding it finds and the rows it
   meets.
   */
  lemma ExitBlocksExactly(s: State, step: Step)
    requires step.End?
    ensures s.held.Some? ==>
              && (BlockedBy(s, step).Some? <==> BlocksBound(s.memory, s.held.value.binding, step))
              && (BlockedBy(s, step).Some? ==> BlockedBy(s, step).value.goalId == s.held.value.binding.goalId)
    ensures s.held.None? ==>
              && (BlockedBy(s, step).Some? <==> BlocksUnbound(s.memory, step))
              && (BlockedBy(s, step).Some? ==>
                    BlockedBy(s, step).value.goalId == ReadRow(s.memory, step).row.value.goalId)
  {
  }

  /** Step `n` ends the turn that step `m` started on the active goal `g`. */
  predicate TurnOn(cell: Cell, steps: seq<Step>, m: int, n: int, g: GoalId) {
    && Binds(cell, steps, m).Some? && Binds(cell, steps, m).value.binding.goalId == g
    && m < n && EndsAt(cell, steps, n) && steps[n].turn == steps[m].turn
  }

  /** A turn whose binding is still its own blocks its goal or none, and when exactly. */
  lemma BoundTurnBlocksItsGoalOnly(cell: Cell, steps: seq<Step>, m: nat, n: nat, g: GoalId)
    requires TurnOn(cell, steps, m, n, g) && Untouched(cell, steps, m, n)
    ensures var s := At(cell, steps, n);
            && (BlockedBy(s, steps[n]).Some? <==> BlocksBound(s.memory, TurnBinding(g, !steps[m].exempt), steps[n]))
            && (BlockedBy(s, steps[n]).Some? ==> BlockedBy(s, steps[n]).value.goalId == g)
  {
    LastBinderIsHeld(cell, steps, m, n);
    ExitBlocksExactly(At(cell, steps, n), steps[n]);
  }

  lemma {:induction false} EndedStays(cell: Cell, steps: seq<Step>, j: nat, n: nat, turn: nat)
    requires j <= n <= |steps| && turn in At(cell, steps, j).ended
    ensures turn in At(cell, steps, n).ended
  {
    if j < n {
      EndedStays(cell, steps, j, n - 1, turn);
      AtNext(cell, steps, n - 1);
    }
  }

  /** What takes the binding of a turn before its own exit is a status change or the exit of another turn. */
  lemma TakenByOthers(cell: Cell, steps: seq<Step>, m: nat, k: nat, n: nat, g: GoalId)
    requires TurnOn(cell, steps, m, n, g) && m < k < n && Takes(cell, steps, k)
    ensures steps[k].StatusChanged? || (steps[k].End? && steps[k].turn != steps[m].turn)
  {
    AtNext(cell, steps, k);
    if steps[k].End? && steps[k].turn == steps[m].turn {
      EndedStays(cell, steps, k + 1, n, steps[m].turn);
    }
  }

  /**
   The exit finds another goal's binding and blocks that goal, or finds none and blocks another goal that is there.
   */
  predicate BlocksAnother(s: State, step: Step, g: GoalId)
    requires step.End?
  {
    if s.held.Some? then s.held.value.binding.goalId != g && BlocksBound(s.memory, s.held.value.binding, step)
    else BlocksUnbound(s.memory, step) && ReadRow(s.memory, step).row.value.goalId != g
  }

  /**
   A turn that began on goal `g` blocks another goal exactly if its binding was touched since, that is, taken by a
   reported change to an inactive status or by another turn's exit or overwritten by a later start, and the rows it
   meets are as that requires.
   */
  lemma ForeignGoalIsBlockedExactly(cell: Cell, steps: seq<Step>, m: nat, n: nat, g: GoalId)
    requires TurnOn(cell, steps, m, n, g)
    ensures var s := At(cell, steps, n);
            BlockedBy(s, steps[n]).Some? && BlockedBy(s, steps[n]).value.goalId != g
            <==> !Untouched(cell, steps, m, n) && BlocksAnother(s, steps[n], g)
  {
    ExitBlocksExactly(At(cell, steps, n), steps[n]);
    if Untouched(cell, steps, m, n) {
      BoundTurnBlocksItsGoalOnly(cell, steps, m, n, g);
    }
  }

  /**
   A turn that finds somebody else's binding at its end cannot block the goal it created itself, or any but the bound
   one.
   */
  lemma StaleBindingShieldsOtherGoals(cell: Cell, steps: seq<Step>, m: nat, n: nat)
    requires LastBinder(cell, steps, m, n) && EndsAt(cell, steps, n) && steps[m].turn != steps[n].turn
    ensures var s, b := At(cell, steps, n), Binds(cell, steps, m).value.binding;
            && (BlockedBy(s, steps[n]).Some? <==> BlocksBound(s.memory, b, steps[n]))
            && (!ReadRow(s.memory, steps[n]).Holds(b.goalId) ==> BlockedBy(s, steps[n]).None?)
  {
    LastBinderIsHeld(cell, steps, m, n);
    ExitBlocksExactly(At(cell, steps, n), steps[n]);
  }

  // ----- exempt turns -----

  /** Nobody else does anything during the exit, and its accounting call goes through. */
  predicate Still(env: TurnEnv) {
    && env.beforeAccount == [] && env.beforeBlock == [] && env.readToBlock == [] && env.beforeSteer == []
    && env.steerGap == [] && env.beforeStart == [] && env.beforeIterate == []
    && env.accounting == A.Environment(true, true, [], true, env.accounting.now)
  }

  /** An exit that touches neither row, accounting nor steering slot, whatever it finds; others keep still. */
  ghost predicate Silent(exit: Exit, binding: Option<TurnBinding>) {
    forall m: Memory, totals: Option<TokenTotals>, env: TurnEnv | Still(env) ::
      Exited(m, binding, exit, totals, env).0 == m
  }

  /** An exit that leaves the goal row alone, whatever it finds. */
  ghost predicate LeavesRow(exit: Exit, binding: Option<TurnBinding>) {
    forall m: Memory, totals: Option<TokenTotals>, env: TurnEnv | Still(env) ::
      Exited(m, binding, exit, totals, env).0.cell.row == m.cell.row
  }

  /** A limited goal whose clock has been running for a second, and which was steered before. */
  function OnTheClock(id: GoalId, t: TokenTotals): Memory {
    var g := Goal(id, "o", BudgetLimited, Some(1), 1, 0, None, None, 0, 0);
    Memory(Cell(Some(g), false), A.Inner(Some(A.Mark(id, t)), Some(0)), Some(id))
  }

  /** Every exit charge adds that second to the row. */
  lemma SecondIsCharged(id: GoalId, t: TokenTotals, mode: AccountingMode, env: TurnEnv)
    requires Still(env) && env.accounting.now == 1 && (mode == ActiveOnly || mode == ActiveOrStopped)
    ensures var m := OnTheClock(id, t);
            var a := Charged(m.cell, m.inner, None, mode, env);
            && a.result == Ok(Updated(1, BudgetLimited))
            && a.cell == m.cell.(row := Some(m.cell.row.value.(timeUsedSeconds := 1)))
  {
    var m := OnTheClock(id, t);
    assert Run(m.cell, []) == m.cell;
  }

  /** An exit that is not silent adds it to the row for good. */
  lemma LoudExitChangesRow(id: GoalId, t: TokenTotals, exit: Exit, binding: Option<TurnBinding>, env: TurnEnv)
    requires Still(env) && env.accounting.now == 1 && (exit.Quota? || !Exempt(binding))
    ensures Exited(OnTheClock(id, t), binding, exit, None, env).0.cell.row != OnTheClock(id, t).cell.row
  {
    assert forall c :: Run(c, []) == c;
    SecondIsCharged(id, t, ActiveOnly, env);
    SecondIsCharged(id, t, ActiveOrStopped, env);
  }

  lemma SilentExactly(exit: Exit, binding: Option<TurnBinding>)
    ensures Silent(exit, binding) <==> !exit.Quota? && Exempt(binding)
    ensures LeavesRow(exit, binding) <==> !exit.Quota? && Exempt(binding)
  {
    if exit.Quota? || !Exempt(binding) {
      var env := TurnEnv([], A.Environment(true, true, [], true, 1), [], true, [], true, [], [], None, [], false, [],
                         true);
      LoudExitChangesRow("g", ZERO, exit, binding, env);
      assert Still(env);
    }
  }

  /** The last start that wrote a binding, and whose binding nobody has taken, was exempt. */
  ghost predicate ExemptHeld(cell: Cell, steps: seq<Step>, n: int) {
    exists m :: LastBinder(cell, steps, m, n) && steps[m].exempt
  }

  /**
   Over every run: an exit leaves the row alone, and the accounting and the steering slot with it, exactly if it is
   not a quota exit and the last start with an active goal, whose binding nothing has taken since, was exempt;
   whoever's turn that was and whatever the ending turn is.
   */
  lemma ExitIsSilentExactly(cell: Cell, steps: seq<Step>, n: nat)
    requires EndsAt(cell, steps, n)
    ensures var found := BindingOf(At(cell, steps, n).held);
            && (Silent(steps[n].exit, found) <==> !steps[n].exit.Quota? && ExemptHeld(cell, steps, n))
            && (LeavesRow(steps[n].exit, found) <==> !steps[n].exit.Quota? && ExemptHeld(cell, steps, n))
  {
    SilentExactly(steps[n].exit, BindingOf(At(cell, steps, n).held));
    if At(cell, steps, n).held.Some? {
      var m := HeldHasLastBinder(cell, steps, n);
      assert ExemptHeld(cell, steps, n) <== steps[m].exempt;
    }
    if m :| LastBinder(cell, steps, m, n) && steps[m].exempt {
      LastBinderIsHeld(cell, steps, m, n);
    }
  }

  /**
   In particular: an exempt turn that found an active goal and whose binding is untouched changes nothing but the
   binding.
   */
  lemma UntouchedExemptTurnIsSilent(cell: Cell, steps: seq<Step>, m: nat, n: nat, g: GoalId)
    requires TurnOn(cell, steps, m, n, g) && Untouched(cell, steps, m, n) && steps[m].exempt && !steps[n].exit.Quota?
    ensures At(cell, steps, n + 1).memory == At(cell, steps, n).memory && At(cell, steps, n + 1).held.None?
  {
    LastBinderIsHeld(cell, steps, m, n);
    AtNext(cell, steps, n);
  }

  // ----- runs -----

  lemma {:induction false} Then(s: State, step: Step, rest: seq<Step>)
    requires Enabled(s, step)
    ensures After(s, [step] + rest) == After(Next(s, step), rest)
  {
    var all := [step] + rest;
    if rest == [] {
      assert all[..0] == [] && After(s, all[..0]) == s && all[0] == step;
    } else {
      var n := |rest| - 1;
      Then(s, step, rest[..n]);
      assert all[..n + 1] == [step] + rest[..n] && all[n + 1] == rest[n];
    }
  }

  function Begin(turn: nat, exempt: bool): Step {
    Start(turn, exempt, NoFailure, [], 0)
  }

  /** `op` puts the new goal `b` into any row that admits it. */
  predicate Puts(op: StoreOp, cell: Cell, b: Goal) {
    (op.Replace? || op.Create?) && Apply(cell, op) == Applied(Cell(Some(b), false), Row(b)) && b.status.Active?
  }

  predicate Instant(env: TurnEnv) {
    Still(env) && env.accounting.now == 0 && env.blockReadOk && env.blockOk
  }

  function BlockedVersion(b: Goal, reason: string): Goal {
    b.(status := Blocked, statusReason := Some(reason))
  }

  /** A failing exit without a reading meets the active goal `b`, whose clock shows nothing. */
  lemma FailureBlocks(s: State, turn: nat, b: Goal, reason: string, env: TurnEnv)
    requires s.memory.cell == Cell(Some(b), false) && b.status.Active? && Instant(env)
    requires s.memory.inner.wallClockSince == None || s.memory.inner.wallClockSince == Some(0)
    requires s.held.Some? ==> s.held.value.binding == TurnBinding(b.goalId, true)
    ensures BlockedBy(s, End(turn, Error(reason), None, env)) == Some(BlockedVersion(b, reason))
  {
    assert forall c :: Run(c, []) == c;
    var step := End(turn, Error(reason), None, env);
    assert ExitCharge(s.memory, step).cell == s.memory.cell;
  }

  /** A turn begins on `g`; the user pauses `g` and sets `b`. */
  function PauseRun(g: Goal, replace: StoreOp, flush: A.Environment): seq<Step> {
    [Begin(1, false)] + ([Store(Pause(g.goalId))] + ([StatusChanged(Paused, flush, 0)] + ([Store(replace)] + [])))
  }

  /**
   The reported pause takes the binding away that would have protected the replacement: the turn that began on `g`
   fails and blocks `b`, although it never worked on it.
   */
  lemma PauseLosesTheProtection(g: Goal, b: Goal, replace: StoreOp, flush: A.Environment, reason: string, env: TurnEnv)
    requires g.status.Active? && replace.Replace? && b.goalId != g.goalId && Instant(env) && flush == env.accounting
    requires forall cell :: Puts(replace, cell, b)
    ensures var s := After(Initial(Cell(Some(g), false)), PauseRun(g, replace, flush));
            && Enabled(s, End(1, Error(reason), None, env))
            && BlockedBy(s, End(1, Error(reason), None, env)) == Some(BlockedVersion(b, reason))
  {
    var s0 := Initial(Cell(Some(g), false));
    var s1 := Next(s0, Begin(1, false));
    var s2 := Next(s1, Store(Pause(g.goalId)));
    var s3 := Next(s2, StatusChanged(Paused, flush, 0));
    assert s3.memory.inner.wallClockSince == None && s3.held == None;
    assert Puts(replace, s3.memory.cell, b);
    var s4 := Next(s3, Store(replace));
    FailureBlocks(s4, 1, b, reason, env);
    assert After(s4, []) == s4;
    Then(s3, Store(replace), []);
    Then(s2, StatusChanged(Paused, flush, 0), [Store(replace)] + []);
    Then(s1, Store(Pause(g.goalId)), [StatusChanged(Paused, flush, 0)] + ([Store(replace)] + []));
    Then(s0, Begin(1, false),
         [Store(Pause(g.goalId))] + ([StatusChanged(Paused, flush, 0)] + ([Store(replace)] + [])));
  }

  /** A turn begins on `g`, the user sets `b`, and before the first turn's exit the next one begins on `b`. */
  function OverlapRun(replace: StoreOp): seq<Step> {
    [Begin(1, false)] + ([Store(replace)] + ([Begin(2, false)] + []))
  }

  /**
   No status change is needed: the late exit of the first turn finds the binding of the second, blocks its goal, and
   leaves the second turn without a binding.
   */
  lemma LateExitBlocksTheNextGoal(g: Goal, b: Goal, replace: StoreOp, reason: string, env: TurnEnv)
    requires g.status.Active? && replace.Replace? && b.goalId != g.goalId && Instant(env)
    requires Puts(replace, Cell(Some(g), false), b)
    ensures var s := After(Initial(Cell(Some(g), false)), OverlapRun(replace));
            && Enabled(s, End(1, Error(reason), None, env))
            && BlockedBy(s, End(1, Error(reason), None, env)) == Some(BlockedVersion(b, reason))
            && Next(s, End(1, Error(reason), None, env)).held == None
  {
    var s0 := Initial(Cell(Some(g), false));
    var s1 := Next(s0, Begin(1, false));
    assert s1.memory.cell == Cell(Some(g), false);
    var s2 := Next(s1, Store(replace));
    assert s2.memory.cell == Cell(Some(b), false);
    var s3 := Next(s2, Begin(2, false));
    assert s3.held == Some(Held(TurnBinding(b.goalId, true), 2)) && s3.memory.cell == Cell(Some(b), false);
    FailureBlocks(s3, 1, b, reason, env);
    assert After(s3, []) == s3;
    Then(s2, Begin(2, false), []);
    Then(s1, Store(replace), [Begin(2, false)] + []);
    Then(s0, Begin(1, false), [Store(replace)] + ([Begin(2, false)] + []));
  }

  /**
   An exempt prompt begins on an active goal, clears it and returns without an exit; an ordinary turn follows and
   creates a goal of its own.
   */
  function EarlyReturnRun(create: StoreOp): seq<Step> {
    [Begin(1, true)] + ([Store(Clear)] + ([Arm(None)] + ([Begin(2, false)] + ([Store(create)] + []))))
  }

  /**
   The exemption outlives the prompt, with no quota in sight: whatever the ordinary turn used or failed at leaves no
   trace.
   */
  lemma EarlyReturnLeavesTheExemptionBehind(
    g: Goal, b: Goal, create: StoreOp, exit: Exit, totals: Option<TokenTotals>, env: TurnEnv)
    requires g.status.Active? && create.Create? && Puts(create, EmptyCell, b) && !exit.Quota?
    ensures var s := After(Initial(Cell(Some(g), false)), EarlyReturnRun(create));
            && s.memory.cell == Cell(Some(b), false) && Enabled(s, End(2, exit, totals, env))
            && s.held == Some(Held(TurnBinding(g.goalId, false), 1))
            && BlockedBy(s, End(2, exit, totals, env)) == None
            && Next(s, End(2, exit, totals, env)).memory == s.memory
  {
    var s0 := Initial(Cell(Some(g), false));
    var s1 := Next(s0, Begin(1, true));
    assert s1.held == Some(Held(TurnBinding(g.goalId, false), 1));
    var s2 := Next(s1, Store(Clear));
    var s3 := Next(s2, Arm(None));
    var s4 := Next(s3, Begin(2, false));
    assert s4.memory.cell == EmptyCell && s4.held == s1.held;
    var s5 := Next(s4, Store(create));
    assert After(s5, []) == s5;
    Then(s4, Store(create), []);
    Then(s3, Begin(2, false), [Store(create)] + []);
    Then(s2, Arm(None), [Begin(2, false)] + ([Store(create)] + []));
    Then(s1, Store(Clear), [Arm(None)] + ([Begin(2, false)] + ([Store(create)] + [])));
    Then(s0, Begin(1, true), [Store(Clear)] + ([Arm(None)] + ([Begin(2, false)] + ([Store(create)] + []))));
  }

  /** An exempt turn runs out of quota, and an ordinary one follows. */
  function QuotaRun(reason: string, env: TurnEnv): seq<Step> {
    [Begin(1, true)] + ([End(1, Quota(reason), None, env)] + ([Begin(2, false)] + []))
  }

  /** The quota exit limits the goal of an exempt turn, too. */
  lemma QuotaLimits(s: State, g: Goal, reason: string, env: TurnEnv)
    requires s.memory.cell == Cell(Some(g), false) && g.status.Active? && Instant(env)
    requires s.memory.inner.wallClockSince == Some(0)
    requires Enabled(s, End(1, Quota(reason), None, env))
    ensures var after := Next(s, End(1, Quota(reason), None, env));
            && after.memory.cell == Cell(Some(g.(status := UsageLimited, statusReason := Some(reason))), false)
            && after.held == s.held && after.started == s.started
  {
    assert forall c :: Run(c, []) == c;
  }

  /**
   An exempt turn is not exempt from the quota, and its binding outlives it: the goal is limited, and the ordinary turn
   that follows is treated as exempt.
   */
  lemma QuotaLeavesTheExemptionBehind(
    g: Goal, reason: string, env: TurnEnv, exit: Exit, totals: Option<TokenTotals>, env': TurnEnv)
    requires g.status.Active? && Instant(env) && !exit.Quota?
    ensures var s := After(Initial(Cell(Some(g), false)), QuotaRun(reason, env));
            && s.memory.cell.row == Some(g.(status := UsageLimited, statusReason := Some(reason)))
            && Enabled(s, End(2, exit, totals, env'))
            && BlockedBy(s, End(2, exit, totals, env')) == None
            && Next(s, End(2, exit, totals, env')).memory == s.memory
  {
    var s0 := Initial(Cell(Some(g), false));
    var s1 := Next(s0, Begin(1, true));
    assert s1.memory.cell == Cell(Some(g), false) && s1.held == Some(Held(TurnBinding(g.goalId, false), 1));
    QuotaLimits(s1, g, reason, env);
    var s2 := Next(s1, End(1, Quota(reason), None, env));
    var s3 := Next(s2, Begin(2, false));
    assert s3.held == s1.held;
    assert After(s3, []) == s3;
    Then(s2, Begin(2, false), []);
    Then(s1, End(1, Quota(reason), None, env), [Begin(2, false)] + []);
    Then(s0, Begin(1, true), [End(1, Quota(reason), None, env)] + ([Begin(2, false)] + []));
  }
}
