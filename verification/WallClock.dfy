/**
 The wall clock of goals over whole runs (`agent/goal/src/accounting.rs`): a start sets it, a flushing call stops it and
 adds what it shows, and arming a goal forgets it. Other tasks issue statements between the calls and inside them.
 */
module WallClock {
  import opened Wrappers
  import opened GoalTypes
  import opened GoalRow
  import opened TokenDelta
  import opened GoalAccounting
  import opened StoreRuns

  datatype State = State(cell: Cell, inner: Inner, now: nat)

  datatype Step =
    | Tick(seconds: nat)
    | Store(op: StoreOp)
    | Start
    | Arm(mark: Option<Mark>)
    | Call(current: Option<TokenTotals>, mode: AccountingMode, flush: bool, env: Environment)

  /** Seconds reach the row through this accounting only, and no row is imported. */
  predicate AddsNoSeconds(ops: seq<StoreOp>) {
    forall op | op in ops :: !op.Account? && !op.InsertMigrated?
  }

  predicate Enabled(s: State, step: Step) {
    match step
    case Store(op) => AddsNoSeconds([op])
    case Call(_, _, _, env) => env.now == s.now && AddsNoSeconds(env.gap)
    case _ => true
  }

  function Next(s: State, step: Step): State {
    match step
    case Tick(seconds) => s.(now := s.now + seconds)
    case Store(op) => s.(cell := Apply(s.cell, op).cell)
    case Start => s.(inner := StartedInner(s.cell.row, s.now))
    case Arm(mark) => s.(inner := Inner(mark, None))
    case Call(current, mode, flush, env) =>
      var a := AccountCall(s.cell, s.inner, current, mode, flush, env);
      s.(cell := a.cell, inner := a.inner)
  }

  /** A step that is not enabled does not happen. */
  function After(s: State, steps: seq<Step>): State {
    if steps == [] then s
    else
      var before := After(s, steps[..|steps| - 1]);
      if Enabled(before, steps[|steps| - 1]) then Next(before, steps[|steps| - 1]) else before
  }

  /** The seconds on the row; no row shows none. */
  function Seconds(cell: Cell): int {
    if cell.row.Some? then cell.row.value.timeUsedSeconds else 0
  }

  /** On the row or still on the clock. */
  function Booked(s: State): int {
    Seconds(s.cell) + Shown(s.inner, s.now)
  }

  // ----- never more than the time that passed -----

  lemma StatementAddsNoSeconds(cell: Cell, op: StoreOp)
    requires AddsNoSeconds([op])
    ensures var after := Seconds(Apply(cell, op).cell); after == Seconds(cell) || after == 0
  {
    assert op in [op];
  }

  lemma {:induction false} OthersAddNoSeconds(cell: Cell, ops: seq<StoreOp>)
    requires AddsNoSeconds(ops)
    ensures Seconds(Run(cell, ops)) == Seconds(cell) || Seconds(Run(cell, ops)) == 0
  {
    if ops != [] {
      var n := |ops| - 1;
      OthersAddNoSeconds(cell, ops[..n]);
      assert ops[n] in ops;
      StatementAddsNoSeconds(Run(cell, ops[..n]), ops[n]);
    }
  }

  /** The seconds that a call leaves on the row. */
  lemma CallSeconds(s: State, step: Step)
    requires step.Call?
    ensures var Call(current, mode, flush, env) := step;
            var at := Run(s.cell, env.gap);
            var after := Seconds(Next(s, step).cell);
            if Accepted(s.cell, s.inner, current, mode, flush, env)
            then after == Seconds(at) + SecondsFound(s.inner, flush, env.now)
            else after == Seconds(at) || after == Seconds(s.cell)
    ensures !AllSpare(step.env.gap) || Seconds(Run(s.cell, step.env.gap)) == Seconds(s.cell)
    ensures !AddsNoSeconds(step.env.gap) || Seconds(Run(s.cell, step.env.gap)) == Seconds(s.cell)
            || Seconds(Run(s.cell, step.env.gap)) == 0
  {
    var Call(current, mode, flush, env) := step;
    CallIsAcceptedExactly(s.cell, s.inner, current, mode, flush, env);
    if Accepted(s.cell, s.inner, current, mode, flush, env) {
      CallChargesExactly(s.cell, s.inner, current, mode, flush, env);
    }
    if AddsNoSeconds(env.gap) {
      OthersAddNoSeconds(s.cell, env.gap);
    }
    if AllSpare(env.gap) {
      SparedSeconds(s.cell, env.gap);
    }
  }

  lemma CallMovesSeconds(s: State, step: Step)
    requires step.Call? && Enabled(s, step)
    ensures Booked(Next(s, step)) <= Max(Booked(s), Shown(s.inner, s.now))
  {
    CallSeconds(s, step);
    FlushStopsTheClock(s.cell, s.inner, step.current, step.mode, step.flush, step.env);
  }

  lemma {:induction false} TimeOnlyPasses(s: State, steps: seq<Step>)
    ensures s.now <= After(s, steps).now
  {
    if steps != [] {
      TimeOnlyPasses(s, steps[..|steps| - 1]);
    }
  }

  /**
   Over every run of starts, arms, calls of any kind with any outcome, and statements of others, whatever goals come and
   go: the seconds on the row, and those still on the clock, grow by no more than the time that has passed.
   */
  lemma {:induction false} SecondsStayWithinTime(s: State, steps: seq<Step>)
    requires 0 <= Seconds(s.cell)
    ensures var t := After(s, steps); Booked(t) <= Booked(s) + t.now - s.now
  {
    if steps != [] {
      var n := |steps| - 1;
      SecondsStayWithinTime(s, steps[..n]);
      TimeOnlyPasses(s, steps[..n]);
      var before := After(s, steps[..n]);
      if Enabled(before, steps[n]) {
        NoneAreNegative(s, steps[..n]);
        if steps[n].Call? {
          CallMovesSeconds(before, steps[n]);
        } else if steps[n].Store? {
          StatementAddsNoSeconds(before.cell, steps[n].op);
        }
      }
    }
  }

  lemma {:induction false} NoneAreNegative(s: State, steps: seq<Step>)
    requires 0 <= Seconds(s.cell)
    ensures 0 <= Seconds(After(s, steps).cell)
  {
    if steps != [] {
      var n := |steps| - 1;
      NoneAreNegative(s, steps[..n]);
      var before := After(s, steps[..n]);
      if Enabled(before, steps[n]) {
        if steps[n].Call? {
          CallSeconds(before, steps[n]);
        } else if steps[n].Store? {
          StatementAddsNoSeconds(before.cell, steps[n].op);
        }
      }
    }
  }

  // ----- a stopped clock -----

  predicate NoStart(steps: seq<Step>) {
    forall step | step in steps :: !step.Start?
  }

  /** Once the clock is stopped, no call adds a second until it is started again, however often it is flushed. */
  lemma {:induction false} StoppedClockAddsNothing(s: State, steps: seq<Step>)
    requires s.inner.wallClockSince.None? && NoStart(steps)
    ensures var t := After(s, steps);
            t.inner.wallClockSince.None? && (Seconds(t.cell) == Seconds(s.cell) || Seconds(t.cell) == 0)
  {
    if steps != [] {
      var n := |steps| - 1;
      assert forall step | step in steps[..n] :: step in steps;
      StoppedClockAddsNothing(s, steps[..n]);
      var before := After(s, steps[..n]);
      assert !steps[n].Start?;
      if Enabled(before, steps[n]) {
        if steps[n].Call? {
          CallSeconds(before, steps[n]);
          FlushStopsTheClock(before.cell, before.inner, steps[n].current, steps[n].mode, steps[n].flush, steps[n].env);
        } else if steps[n].Store? {
          StatementAddsNoSeconds(before.cell, steps[n].op);
        }
      }
    }
  }

  /** In particular after a flush that measured, accepted or not: what the row then says stays until the next start. */
  lemma SecondFlushAddsNothing(s: State, flush: Step, steps: seq<Step>)
    requires flush.Call? && flush.flush && Enabled(s, flush) && Measures(s.cell, s.inner, flush.env) && NoStart(steps)
    ensures var flushed, t := Next(s, flush), After(Next(s, flush), steps);
            Seconds(t.cell) == Seconds(flushed.cell) || Seconds(t.cell) == 0
  {
    FlushStopsTheClock(s.cell, s.inner, flush.current, flush.mode, true, flush.env);
    StoppedClockAddsNothing(Next(s, flush), steps);
  }

  // ----- nothing is lost -----

  /** The clock was not started in the future. */
  predicate Sound(s: State) {
    s.inner.wallClockSince.Some? ==> s.inner.wallClockSince.value <= s.now
  }

  /**
   A step that loses nothing: others spare the goal, a flush of a running clock is accepted, and the clock is not reset
   while it shows something.
   */
  predicate Keeps(s: State, step: Step) {
    match step
    case Tick(_) => true
    case Store(op) => Spares(op)
    case Call(current, mode, flush, env) =>
      && AllSpare(env.gap)
      && (flush && Shown(s.inner, s.now) > 0 && Measures(s.cell, s.inner, env) ==>
            Accepted(s.cell, s.inner, current, mode, flush, env))
    case _ => Shown(s.inner, s.now) == 0
  }

  predicate AllKeep(s: State, steps: seq<Step>) {
    forall n | 0 <= n < |steps| :: Enabled(After(s, steps[..n]), steps[n]) && Keeps(After(s, steps[..n]), steps[n])
  }

  /** For how long the clock was running. */
  function Running(s: State, steps: seq<Step>): nat {
    if steps == [] then 0
    else
      var n := |steps| - 1;
      Running(s, steps[..n])
      + if steps[n].Tick? && After(s, steps[..n]).inner.wallClockSince.Some? then steps[n].seconds else 0
  }

  lemma {:induction false} SparedSeconds(cell: Cell, ops: seq<StoreOp>)
    requires AllSpare(ops)
    ensures Seconds(Run(cell, ops)) == Seconds(cell)
  {
    if ops != [] {
      var n := |ops| - 1;
      assert forall op | op in ops[..n] :: op in ops;
      SparedSeconds(cell, ops[..n]);
      assert Spares(ops[n]);
    }
  }

  /** A call moves what the clock shows to the row, or leaves it on the clock, exactly if it loses nothing. */
  lemma CallKeepsExactly(s: State, step: Step)
    requires step.Call? && AllSpare(step.env.gap) && step.env.now == s.now
    ensures Booked(Next(s, step)) == Booked(s) <==> Keeps(s, step)
  {
    CallSeconds(s, step);
    FlushStopsTheClock(s.cell, s.inner, step.current, step.mode, step.flush, step.env);
  }

  lemma StepKeepsSeconds(s: State, step: Step)
    requires Sound(s) && Enabled(s, step) && Keeps(s, step)
    ensures Sound(Next(s, step))
    ensures Booked(Next(s, step)) == Booked(s) + if step.Tick? && s.inner.wallClockSince.Some? then step.seconds else 0
  {
    if step.Call? {
      CallKeepsExactly(s, step);
      FlushStopsTheClock(s.cell, s.inner, step.current, step.mode, step.flush, step.env);
    } else if step.Store? {
      SparedSeconds(s.cell, [step.op]);
      assert [step.op][..0] == [];
    }
  }

  /** Over every run that loses nothing, the row and the clock together show exactly the time the clock was running. */
  lemma {:induction false} SecondsAreConserved(s: State, steps: seq<Step>)
    requires Sound(s) && AllKeep(s, steps)
    ensures Sound(After(s, steps)) && Booked(After(s, steps)) == Booked(s) + Running(s, steps)
  {
    if steps != [] {
      var n := |steps| - 1;
      assert forall m | 0 <= m < n :: steps[..n][..m] == steps[..m];
      SecondsAreConserved(s, steps[..n]);
      StepKeepsSeconds(After(s, steps[..n]), steps[n]);
    }
  }

  // ----- one turn -----

  /** Nothing stops, resets or starts the clock. */
  predicate LeavesClock(step: Step) {
    step.Tick? || step.Store? || (step.Call? && !step.flush)
  }

  lemma {:induction false} ClockRunsOn(s: State, steps: seq<Step>)
    requires s.inner.wallClockSince.Some? && forall step | step in steps :: LeavesClock(step)
    requires forall n | 0 <= n < |steps| :: Enabled(After(s, steps[..n]), steps[n])
    ensures var t := After(s, steps);
            t.inner.wallClockSince == s.inner.wallClockSince && Running(s, steps) == t.now - s.now
  {
    if steps != [] {
      var n := |steps| - 1;
      assert forall step | step in steps[..n] :: step in steps;
      assert forall m | 0 <= m < n :: steps[..n][..m] == steps[..m];
      ClockRunsOn(s, steps[..n]);
      var before := After(s, steps[..n]);
      assert LeavesClock(steps[n]) && Enabled(before, steps[n]);
      if steps[n].Call? {
        var Call(current, mode, flush, env) := steps[n];
        FlushStopsTheClock(before.cell, before.inner, current, mode, flush, env);
      }
    }
  }

  /**
   A turn that starts on an active goal, goes on for whatever time with reports and with others who spare the goal, and
   ends with an accepted flush, adds exactly the time between start and end to the row.
   */
  lemma TurnIsTimedExactly(s: State, steps: seq<Step>, end: Step)
    requires s.cell.row.Some? && s.cell.row.value.status.Active? && forall step | step in steps :: LeavesClock(step)
    requires AllKeep(Next(s, Start), steps)
    requires var t := After(Next(s, Start), steps);
             && end.Call? && end.flush && Enabled(t, end) && AllSpare(end.env.gap)
             && Accepted(t.cell, t.inner, end.current, end.mode, true, end.env)
    ensures var t := After(Next(s, Start), steps);
            && Seconds(Next(t, end).cell) == Seconds(s.cell) + t.now - s.now
            && Next(t, end).inner.wallClockSince.None?
  {
    var begun := Next(s, Start);
    var t := After(begun, steps);
    assert begun.inner.wallClockSince == Some(s.now);
    ClockRunsOn(begun, steps);
    SecondsAreConserved(begun, steps);
    FlushStopsTheClock(t.cell, t.inner, end.current, end.mode, true, end.env);
    CallKeepsExactly(t, end);
  }
}
