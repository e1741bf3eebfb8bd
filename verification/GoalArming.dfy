/**
 Which usage a goal pays for. A goal is given a baseline when it is armed, when the clock is started, or when accounting
 finds a row it has no baseline for; it should pay for what the prompt uses from then on and for nothing before.
 */
module GoalArming {
  import opened Wrappers
  import opened GoalTypes
  import opened GoalRow
  import opened TokenDelta
  import opened GoalAccounting
  import opened TokenLedger

  /**
   The baseline that a step hands to a goal. The start of a prompt is not one of these: usage starts from zero with
   it.
   */
  function Binds(s: State, step: Step): Option<Mark> {
    match step
    case Arm(goalId, totals) => Some(Mark(goalId, totals))
    case Restart(row, now) => StartedInner(row, now).baseline
    case Begin(current, _, _, _) =>
      if s.cell.row.None? || (s.inner.baseline.Some? && s.cell.Holds(s.inner.baseline.value.goalId)) then None
      else Some(Mark(s.cell.row.value.goalId, current.UnwrapOr(ZERO)))
    case _ => None
  }

  /** When the step hands `g` a baseline, that baseline weighs at least what the prompt has used at that moment. */
  predicate ArmsFairly(s: State, step: Step, g: GoalId) {
    var mark := Binds(s, step);
    mark.Some? && mark.value.goalId == g ==> Weight(mark.value.totals) >= Weight(s.book.usage)
  }

  /** A run in order; what the callers hand to goals other than `g` does not matter. */
  predicate FairRun(s: State, steps: seq<Step>, g: GoalId) {
    forall n | 0 <= n < |steps| ::
      var before := After(s, steps[..n]);
      Enabled(before, steps[n]) && InOrder(before, steps[n]) && ArmsFairly(before, steps[n], g)
  }

  /** The goal's charges stay within what the prompt has used since the goal was first given a baseline. */
  predicate PaysForItself(s: State, g: GoalId) {
    && (g !in s.book.since ==> s.book.ChargedTo(g) == 0)
    && (g in s.book.since ==> s.book.ChargedTo(g) <= Weight(s.book.usage) - Weight(s.book.since[g]))
  }

  // ----- the invariant of one goal -----

  predicate Own(s: State, g: GoalId) {
    && Ordered(s) && PendingMeasured(s) && RowExplained(s)
    && (BoundGoal(s).Some? ==> BoundGoal(s).value in s.book.since)
    && (g !in s.book.since ==> s.book.ChargedTo(g) == 0)
    && (g in s.book.since ==>
          var reach := if BoundGoal(s) == Some(g) then Base(s) else s.book.usage;
          s.book.ChargedTo(g) <= Weight(reach) - Weight(s.book.since[g]))
  }

  /** A bound baseline never weighs more than the usage. */
  lemma BaseIsUsage(s: State)
    requires Ordered(s) && BoundGoal(s).Some?
    ensures Later(Base(s), s.book.usage) && Weight(Base(s)) <= Weight(s.book.usage)
  {
    LaterIsTransitive(Base(s), s.book.high, s.book.usage);
    DeltaIsWeightDifference(Base(s), s.book.usage);
  }

  lemma OwnPays(s: State, g: GoalId)
    requires Own(s, g)
    ensures PaysForItself(s, g)
  {
    if BoundGoal(s) == Some(g) {
      BaseIsUsage(s);
    }
  }

  lemma UseKeepsOwn(s: State, g: GoalId, totals: TokenTotals)
    requires Own(s, g) && Enabled(s, Use(totals))
    ensures Own(Next(s, Use(totals)), g)
  {
    LaterIsTransitive(s.book.high, s.book.usage, totals);
    DeltaIsWeightDifference(s.book.usage, totals);
  }

  lemma StoreKeepsOwn(s: State, g: GoalId, op: StoreOp)
    requires Own(s, g) && Enabled(s, Store(op)) && InOrder(s, Store(op))
    ensures Own(Next(s, Store(op)), g)
  {
    StoreExplainsRow(s, op);
  }

  /** The memory and the order after the read step; the row and the charges are as before. */
  lemma BeginInOrder(s: State, step: Step)
    requires step.Begin? && Ordered(s) && PendingMeasured(s) && Enabled(s, step) && InOrder(s, step)
    ensures Ordered(Next(s, step)) && PendingMeasured(Next(s, step))
  {
    var t := Next(s, step);
    LaterIsTransitive(Base(s), s.book.high, t.book.high);
    DeltaIsWeightDifference(Base(s), t.book.high);
  }

  /**
   Where the next charge is measured from after a read step without adoption: no further back, and not moved for free.
   */
  predicate Measured(s: State, t: State) {
    && t.cell == s.cell && t.book == s.book.(high := t.book.high)
    && (BoundGoal(t).Some? ==> BoundGoal(t) == BoundGoal(s) && Weight(Base(t)) == Weight(Base(s)))
  }

  lemma ReportStep(s: State, step: Step)
    requires step.Begin? && Ordered(s) && Enabled(s, step) && InOrder(s, step) && Binds(s, step).None?
    requires BoundGoal(s).Some? ==> BoundGoal(s).value in s.book.since
    ensures Measured(s, Next(s, step))
  {
    if BoundGoal(s).Some? {
      LaterIsTransitive(Base(s), s.book.high, Next(s, step).book.high);
      DeltaIsWeightDifference(Base(s), Next(s, step).book.high);
    }
  }

  lemma ReportKeepsOwn(s: State, g: GoalId, step: Step)
    requires step.Begin? && Own(s, g) && Enabled(s, step) && InOrder(s, step) && Binds(s, step).None?
    ensures Own(Next(s, step), g)
  {
    BeginInOrder(s, step);
    ReportStep(s, step);
    OwnPays(s, g);
    MeasuredOwn(s, Next(s, step), g);
  }

  lemma MeasuredOwn(s: State, t: State, g: GoalId)
    requires Own(s, g) && PaysForItself(s, g) && Measured(s, t) && Ordered(t) && PendingMeasured(t)
    ensures Own(t, g)
  {
  }

  lemma NothingSinceItself(t: TokenTotals)
    ensures GoalTokenDelta(t, t) == 0
  {
  }

  /** After an adoption the goal is bound to its new baseline; what is issued, if anything, is seconds only. */
  predicate Adopted(s: State, t: State, mark: Mark) {
    && t.cell == s.cell && t.book == s.book.(high := t.book.high).Note(Some(mark))
    && BoundGoal(t) == Some(mark.goalId) && Base(t) == mark.totals
  }

  /** A statement in flight charges no tokens and does not move its baseline. */
  predicate SecondsOnly(t: State) {
    t.phase.InFlight? ==> t.phase.pending.tokens == 0 && t.phase.pending.NextTotals() == t.phase.pending.baseline
  }

  lemma AdoptionStep(s: State, step: Step)
    requires step.Begin? && Enabled(s, step) && Binds(s, step).Some?
    ensures Adopted(s, Next(s, step), Binds(s, step).value) && SecondsOnly(Next(s, step))
  {
    NothingSinceItself(step.current.UnwrapOr(ZERO));
  }

  lemma AdoptionKeepsOwn(s: State, g: GoalId, step: Step)
    requires step.Begin? && Own(s, g) && Enabled(s, step) && InOrder(s, step) && ArmsFairly(s, step, g)
             && Binds(s, step).Some?
    ensures Own(Next(s, step), g)
  {
    BeginInOrder(s, step);
    OwnPays(s, g);
    AdoptionStep(s, step);
    AdoptedOwn(s, Next(s, step), Binds(s, step).value, g);
  }

  lemma AdoptedOwn(s: State, t: State, mark: Mark, g: GoalId)
    requires Own(s, g) && PaysForItself(s, g) && Adopted(s, t, mark) && Ordered(t) && PendingMeasured(t)
    requires mark.goalId == g ==> Weight(mark.totals) >= Weight(s.book.usage)
    ensures Own(t, g)
  {
  }

  lemma CommitKeepsOwn(s: State, g: GoalId)
    requires s.phase.InFlight? && Own(s, g)
    ensures Own(Next(s, Commit), g)
  {
    LaterIsTransitive(Base(s), s.phase.pending.NextTotals(), s.book.high);
  }

  lemma RearmingStep(s: State, step: Step)
    requires (step.Arm? || step.Restart?) && Ordered(s) && Enabled(s, step) && InOrder(s, step) && Binds(s, step).Some?
    ensures Adopted(s, Next(s, step), Binds(s, step).value) && Next(s, step).phase.Idle? && Ordered(Next(s, step))
  {
  }

  lemma RearmingKeepsOwn(s: State, g: GoalId, step: Step)
    requires (step.Arm? || step.Restart?) && Own(s, g) && Enabled(s, step) && InOrder(s, step)
    requires ArmsFairly(s, step, g) && Binds(s, step).Some?
    ensures Own(Next(s, step), g)
  {
    OwnPays(s, g);
    RearmingStep(s, step);
    AdoptedOwn(s, Next(s, step), Binds(s, step).value, g);
  }

  lemma ForgettingKeepsOwn(s: State, g: GoalId, step: Step)
    requires step.CommitFails? || step.Disarm? || (step.Restart? && Binds(s, step).None?)
    requires Own(s, g) && Enabled(s, step)
    ensures Own(Next(s, step), g)
  {
    OwnPays(s, g);
  }

  lemma PromptKeepsOwn(s: State, g: GoalId, step: Step)
    requires step.StartPrompt? && Enabled(s, step)
    ensures Own(Next(s, step), g)
  {
  }

  lemma StepKeepsOwn(s: State, g: GoalId, step: Step)
    requires Own(s, g) && Enabled(s, step) && InOrder(s, step) && ArmsFairly(s, step, g)
    ensures Own(Next(s, step), g)
  {
    match step
    case Use(totals) => UseKeepsOwn(s, g, totals);
    case Store(op) => StoreKeepsOwn(s, g, op);
    case Begin(_, _, _, _) =>
      if Binds(s, step).Some? {
        AdoptionKeepsOwn(s, g, step);
      } else {
        ReportKeepsOwn(s, g, step);
      }
    case Commit => CommitKeepsOwn(s, g);
    case StartPrompt(_, _) => PromptKeepsOwn(s, g, step);
    case _ =>
      if Binds(s, step).Some? {
        RearmingKeepsOwn(s, g, step);
      } else {
        ForgettingKeepsOwn(s, g, step);
      }
  }

  lemma {:induction false} RunsKeepOwn(s: State, steps: seq<Step>, g: GoalId)
    requires Own(s, g) && FairRun(s, steps, g)
    ensures Own(After(s, steps), g)
  {
    if steps != [] {
      var n := |steps| - 1;
      assert forall m | 0 <= m < n :: steps[..n][..m] == steps[..m];
      RunsKeepOwn(s, steps[..n], g);
      var before := After(s, steps[..n]);
      assert Enabled(before, steps[n]) && InOrder(before, steps[n]) && ArmsFairly(before, steps[n], g);
      StepKeepsOwn(before, g, steps[n]);
    }
  }

  lemma StartsOwn(cell: Cell, g: GoalId)
    ensures Own(Initial(cell), g)
  {
  }

  /**
   No goal pays for usage from before it was given a baseline: in every run in which each baseline handed to `g` weighs
   at least the usage at that moment, the row of `g` holds at most what was on it at first and the usage since then.
   */
  lemma NoUsageFromBefore(cell: Cell, steps: seq<Step>, g: GoalId)
    requires FairRun(Initial(cell), steps, g)
    ensures var s := After(Initial(cell), steps);
            && PaysForItself(s, g)
            && (s.cell.Holds(g) ==>
                  g in s.book.opening
                  && s.cell.row.value.tokensUsed - s.book.opening[g]
                     <= if g in s.book.since then Weight(s.book.usage) - Weight(s.book.since[g]) else 0)
  {
    StartsOwn(cell, g);
    RunsKeepOwn(Initial(cell), steps, g);
    OwnPays(After(Initial(cell), steps), g);
  }

  // ----- fairness is needed -----

  /**
   What a goal must be measured from: the usage of the moment, or for a goal that had a baseline already, what it has
   paid for.
   */
  function Owed(s: State, g: GoalId): int {
    if g in s.book.since then Weight(s.book.since[g]) + s.book.ChargedTo(g) else Weight(s.book.usage)
  }

  /** Whatever follows, with fair baselines from here on. */
  ghost predicate StaysFair(s: State, g: GoalId) {
    forall steps :: FairRun(s, steps, g) ==> PaysForItself(After(s, steps), g)
  }

  /** The row of `g` can still be charged. */
  predicate Open(cell: Cell, g: GoalId) {
    cell.Holds(g) && (cell.row.value.status.Active? || cell.row.value.status.BudgetLimited?)
  }

  /** The next reading of an idle accounting, and its statement. */
  function ReportSteps(totals: TokenTotals): seq<Step> {
    [Begin(Some(totals), ActiveOnly, false, 0), Commit]
  }

  lemma ReportRuns(s: State, totals: TokenTotals)
    requires s.phase.Idle?
    requires var begun := Next(s, Begin(Some(totals), ActiveOnly, false, 0)); begun.phase.InFlight?
    ensures After(s, ReportSteps(totals)) == Next(Next(s, Begin(Some(totals), ActiveOnly, false, 0)), Commit)
  {
    var steps := ReportSteps(totals);
    assert steps[..1] == [Begin(Some(totals), ActiveOnly, false, 0)] && steps[..1][..0] == [] && steps[..2] == steps;
    assert After(s, steps[..0]) == s;
    assert After(s, steps[..1]) == Next(s, steps[0]);
  }

  /** A goal measured from `t` below what it owes is overcharged by the very next report of the usage. */
  lemma NextReportOvercharges(s: State, g: GoalId, t: TokenTotals)
    requires s.phase.Idle? && Open(s.cell, g) && s.inner.baseline == Some(Mark(g, t)) && g in s.book.since
    requires Ordered(s) && Later(t, s.book.usage) && Weight(t) < Weight(s.book.usage)
    requires Weight(t) < Weight(s.book.since[g]) + s.book.ChargedTo(g)
    requires (s.book.ChargedTo(g) == 0 && Weight(s.book.since[g]) == Weight(s.book.usage))
             || Weight(s.book.usage) - Weight(t) <= I64_MAX
    ensures FairRun(s, ReportSteps(s.book.usage), g)
    ensures !PaysForItself(After(s, ReportSteps(s.book.usage)), g)
  {
    LongReport(s, g, t);
    ReportRuns(s, s.book.usage);
    var steps := ReportSteps(s.book.usage);
    assert steps[..0] == [] && steps[..1] == [steps[0]] && steps[..1][..0] == [];
    assert After(s, steps[..0]) == s && After(s, steps[..1]) == Next(s, steps[0]);
  }

  /** What the two steps of that report do. */
  lemma LongReport(s: State, g: GoalId, t: TokenTotals)
    requires s.phase.Idle? && Open(s.cell, g) && s.inner.baseline == Some(Mark(g, t)) && g in s.book.since
    requires Ordered(s) && Later(t, s.book.usage) && Weight(t) < Weight(s.book.usage)
    ensures var begun := Next(s, Begin(Some(s.book.usage), ActiveOnly, false, 0));
            && begun.phase.InFlight?
            && Next(begun, Commit).book.since == s.book.since && Next(begun, Commit).book.usage == s.book.usage
            && Next(begun, Commit).book.ChargedTo(g) == s.book.ChargedTo(g) + GoalTokenDelta(t, s.book.usage)
    ensures var d := Weight(s.book.usage) - Weight(t);
            d > 0 && GoalTokenDelta(t, s.book.usage) == if d > I64_MAX then I64_MAX else d
  {
    DeltaIsWeightDifference(t, s.book.usage);
  }

  lemma StaysFairNow(s: State, g: GoalId, steps: seq<Step>)
    requires StaysFair(s, g) && FairRun(s, steps, g)
    ensures PaysForItself(After(s, steps), g)
  {
  }

  /** A run goes on from where its first step leads. */
  lemma {:induction false} PrependAfter(s: State, step: Step, steps: seq<Step>)
    requires Enabled(s, step)
    ensures After(s, [step] + steps) == After(Next(s, step), steps)
  {
    var all := [step] + steps;
    if steps == [] {
      assert all[..0] == [] && After(s, all[..0]) == s && all[0] == step;
    } else {
      var n := |steps| - 1;
      PrependAfter(s, step, steps[..n]);
      assert all[..n + 1] == [step] + steps[..n] && all[n + 1] == steps[n];
    }
  }

  lemma Prepend(s: State, step: Step, steps: seq<Step>, g: GoalId)
    requires Enabled(s, step) && InOrder(s, step) && ArmsFairly(s, step, g) && FairRun(Next(s, step), steps, g)
    ensures After(s, [step] + steps) == After(Next(s, step), steps) && FairRun(s, [step] + steps, g)
  {
    var all := [step] + steps;
    PrependAfter(s, step, steps);
    forall n | 0 <= n < |all|
      ensures var before := After(s, all[..n]);
              Enabled(before, all[n]) && InOrder(before, all[n]) && ArmsFairly(before, all[n], g)
    {
      if n == 0 {
        assert all[..0] == [];
      } else {
        PrependAfter(s, step, steps[..n - 1]);
        assert all[..n] == [step] + steps[..n - 1] && all[n] == steps[n - 1];
      }
    }
  }

  /** `g` is measured from `m`, and charged as in `s`. */
  predicate Bound(s: State, t: State, g: GoalId, m: TokenTotals) {
    && BoundGoal(t) == Some(g) && Base(t) == m && Ordered(t) && Later(m, t.book.usage)
    && g in t.book.since && t.book.usage == s.book.usage && t.book.ChargedTo(g) == s.book.ChargedTo(g)
    && t.book.since[g] == if g in s.book.since then s.book.since[g] else s.book.usage
  }

  lemma AdoptedIsBound(s: State, t: State, mark: Mark)
    requires Adopted(s, t, mark) && Ordered(t)
    ensures Bound(s, t, mark.goalId, mark.totals)
  {
    LaterIsTransitive(mark.totals, t.book.high, t.book.usage);
  }

  /** What a step does that hands out a baseline. */
  lemma BindingStep(s: State, step: Step)
    requires Ordered(s) && PendingMeasured(s) && Enabled(s, step) && InOrder(s, step) && Binds(s, step).Some?
    ensures Adopted(s, Next(s, step), Binds(s, step).value)
    ensures Ordered(Next(s, step)) && PendingMeasured(Next(s, step)) && SecondsOnly(Next(s, step))
  {
    if step.Begin? {
      BeginInOrder(s, step);
      AdoptionStep(s, step);
    } else {
      RearmingStep(s, step);
    }
  }

  /**
   A goal measured from below what it owes is overcharged by the next report, after any statement that is still in
   flight.
   */
  lemma UnfairArmingOvercharges(s: State, t: State, g: GoalId, m: TokenTotals) returns (steps: seq<Step>)
    requires Own(s, g) && Bound(s, t, g, m) && PendingMeasured(t) && SecondsOnly(t) && Open(t.cell, g)
    requires Weight(m) < Owed(s, g)
    requires g in s.book.since ==> Weight(s.book.usage) - Weight(m) <= I64_MAX
    ensures FairRun(t, steps, g) && !PaysForItself(After(t, steps), g)
  {
    OwnPays(s, g);
    steps := ReportSteps(t.book.usage);
    if t.phase.Idle? {
      NextReportOvercharges(t, g, m);
    } else {
      var c := Next(t, Commit);
      NextReportOvercharges(c, g, m);
      Prepend(t, Commit, steps, g);
      steps := [Commit] + steps;
    }
  }

  /**
   The exact condition on a baseline that is handed to a goal whose row is open: with fair baselines afterwards, the
   goal never pays for more than its own usage if and only if this one weighs at least what is owed. For a goal that
   has had no baseline in this prompt, that is the usage of the moment.
   */
  lemma ArmingIsFairExactly(s: State, step: Step, g: GoalId)
    requires Own(s, g) && Enabled(s, step) && InOrder(s, step)
    requires Binds(s, step).Some? && Binds(s, step).value.goalId == g && Open(Next(s, step).cell, g)
    requires g in s.book.since ==> Weight(s.book.usage) - Weight(Binds(s, step).value.totals) <= I64_MAX
    ensures StaysFair(Next(s, step), g) <==> Weight(Binds(s, step).value.totals) >= Owed(s, g)
  {
    BindingStep(s, step);
    BaselineIsFairExactly(s, Next(s, step), Binds(s, step).value);
  }

  /** The same, whichever step it was. */
  lemma BaselineIsFairExactly(s: State, t: State, mark: Mark)
    requires Own(s, mark.goalId) && Adopted(s, t, mark) && Ordered(t) && PendingMeasured(t) && SecondsOnly(t)
    requires Open(t.cell, mark.goalId)
    requires mark.goalId in s.book.since ==> Weight(s.book.usage) - Weight(mark.totals) <= I64_MAX
    ensures StaysFair(t, mark.goalId) <==> Weight(mark.totals) >= Owed(s, mark.goalId)
  {
    var g, m := mark.goalId, mark.totals;
    AdoptedIsBound(s, t, mark);
    if Weight(m) >= Owed(s, g) {
      PaidUpOwn(s, t, mark);
      OwnStaysFair(t, g);
    } else {
      var steps := UnfairArmingOvercharges(s, t, g, m);
      if StaysFair(t, g) {
        StaysFairNow(t, g, steps);
      }
    }
  }

  lemma OwnStaysFair(t: State, g: GoalId)
    requires Own(t, g)
    ensures StaysFair(t, g)
  {
    forall steps | FairRun(t, steps, g) ensures PaysForItself(After(t, steps), g) {
      RunsKeepOwn(t, steps, g);
      OwnPays(After(t, steps), g);
    }
  }

  lemma PaidUpOwn(s: State, t: State, mark: Mark)
    requires Own(s, mark.goalId) && Adopted(s, t, mark) && Ordered(t) && PendingMeasured(t)
    requires Weight(mark.totals) >= Owed(s, mark.goalId)
    ensures Own(t, mark.goalId)
  {
  }

  // ----- arming new goals -----

  /** The statement puts a new goal `g` into the row. */
  predicate Inserts(cell: Cell, op: StoreOp, g: GoalId) {
    (op.Create? || op.Replace?) && InsertedId(op) == Some(g) && Apply(cell, op).reply.Row?
  }

  /**
   A new goal armed with the last known totals `m` (`note_goal_armed`) is measured fairly if and only if nothing has
   been used since the last reading.
   */
  lemma NoteArmedIsFairExactly(s: State, op: StoreOp, g: GoalId, m: TokenTotals)
    requires Own(s, g) && s.phase.Idle? && g !in s.book.since && m == BaselineTotals(s.inner)
    requires Inserts(s.cell, op, g) && InOrder(s, Store(op))
    ensures var created := Next(s, Store(op));
            InOrder(created, Arm(g, m))
                && (StaysFair(Next(created, Arm(g, m)), g) <==> Weight(m) >= Weight(s.book.usage))
  {
    var created := Next(s, Store(op));
    StoreKeepsOwn(s, g, op);
    CreatedIsOpen(s, op, g);
    LastTotalsAreUsage(s);
    ArmingNewIsFairExactly(created, g, m);
  }

  /**
   Where there has been no reading in the prompt, because there was no goal, it was cleared, or it is replaced before
   its first report, that is: if and only if the prompt has not used anything yet.
   */
  lemma ArmedWithoutReadingIsFairExactly(s: State, op: StoreOp, g: GoalId, m: TokenTotals)
    requires Own(s, g) && s.phase.Idle? && g !in s.book.since && m == BaselineTotals(s.inner)
    requires Inserts(s.cell, op, g) && InOrder(s, Store(op))
    requires s.inner.baseline.None? || s.inner.baseline.value.totals == ZERO
    ensures StaysFair(Next(Next(s, Store(op)), Arm(g, m)), g) <==> Weight(s.book.usage) == 0
  {
    NoteArmedIsFairExactly(s, op, g, m);
    LastTotalsAreUsage(s);
  }

  lemma ArmingNewIsFairExactly(s: State, g: GoalId, m: TokenTotals)
    requires Own(s, g) && s.phase.Idle? && g !in s.book.since && Open(s.cell, g)
    requires Later(m, s.book.high) && Later(m, s.book.usage)
    ensures StaysFair(Next(s, Arm(g, m)), g) <==> Weight(m) >= Weight(s.book.usage)
  {
    ArmingIsFairExactly(s, Arm(g, m), g);
  }

  lemma CreatedIsOpen(s: State, op: StoreOp, g: GoalId)
    requires s.phase.Idle? && g !in s.book.since && Inserts(s.cell, op, g) && InOrder(s, Store(op))
    ensures var created := Next(s, Store(op));
            && Open(created.cell, g) && created.cell.row.value.tokensUsed == 0 && created.cell.row.value.status.Active?
            && created.inner == s.inner && created.phase.Idle?
            && created.book.since == s.book.since && created.book.usage == s.book.usage
               && created.book.high == s.book.high
  {
  }

  /** The last known totals are zero or a reading of this prompt. */
  lemma LastTotalsAreUsage(s: State)
    requires Ordered(s) && s.phase.Idle?
    ensures Later(BaselineTotals(s.inner), s.book.high) && Later(BaselineTotals(s.inner), s.book.usage)
    ensures 0 <= Weight(s.book.usage)
  {
    if s.inner.baseline.Some? {
      LaterIsTransitive(s.inner.baseline.value.totals, s.book.high, s.book.usage);
    }
  }

  /** A run whose steps are possible and in order, whatever is handed to whom. */
  predicate Possible(s: State, steps: seq<Step>)
    decreases |steps|
  {
    steps == [] || (Enabled(s, steps[0]) && InOrder(s, steps[0]) && Possible(Next(s, steps[0]), steps[1..]))
  }

  lemma Then(s: State, step: Step, rest: seq<Step>)
    requires Enabled(s, step) && InOrder(s, step) && Possible(Next(s, step), rest)
    ensures Possible(s, [step] + rest) && After(s, [step] + rest) == After(Next(s, step), rest)
  {
    assert ([step] + rest)[1..] == rest;
    PrependAfter(s, step, rest);
  }

  /** Set a goal, arm it with zero, report. */
  function LateArming(op: StoreOp, g: GoalId, n: u64): seq<Step> {
    [Store(op)] + ([Arm(g, ZERO)] + ([Begin(Some(Reading(n)), ActiveOnly, false, 0)] + ([Commit] + [])))
  }

  /** A goal that is armed with zero when the prompt has used `n` tokens pays for all of them. */
  lemma LateArmingChargesEverything(s: State, op: StoreOp, g: GoalId, n: u64)
    requires s.phase.Idle? && s.book.usage == Reading(n) && s.book.high == ZERO && 0 < n <= I64_MAX
    requires Inserts(s.cell, op, g) && InOrder(s, Store(op))
    ensures Possible(s, LateArming(op, g, n))
    ensures var t := After(s, LateArming(op, g, n));
            t.cell.Holds(g) && t.cell.row.value.tokensUsed == n && t.book.since == s.book.since[g := Reading(n)]
  {
    CreatedIsOpen(s, op, g);
    var created := Next(s, Store(op));
    ArmedReport(created, g, n);
    Then(s, Store(op), [Arm(g, ZERO)] + ([Begin(Some(Reading(n)), ActiveOnly, false, 0)] + ([Commit] + [])));
  }

  lemma ArmedReport(s: State, g: GoalId, n: u64)
    requires s.phase.Idle? && s.book.usage == Reading(n) && s.book.high == ZERO && 0 < n <= I64_MAX
    requires s.cell.Holds(g) && s.cell.row.value.status.Active? && s.cell.row.value.tokensUsed == 0
             && g !in s.book.since
    ensures var steps := [Arm(g, ZERO)] + ([Begin(Some(Reading(n)), ActiveOnly, false, 0)] + ([Commit] + []));
            && Possible(s, steps)
            && var t := After(s, steps);
               t.cell.Holds(g) && t.cell.row.value.tokensUsed == n && t.book.since == s.book.since[g := Reading(n)]
  {
    var armed := Next(s, Arm(g, ZERO));
    assert armed
        == s.(inner := Inner(Some(Mark(g, ZERO)), None), book := s.book.(since := s.book.since[g := Reading(n)]));
    FirstReport(armed, g, n);
    Then(s, Arm(g, ZERO), [Begin(Some(Reading(n)), ActiveOnly, false, 0)] + ([Commit] + []));
  }

  lemma ReadingFromZero(n: u64)
    requires n <= I64_MAX
    ensures GoalTokenDelta(ZERO, Reading(n)) == n && Later(ZERO, Reading(n))
  {
  }

  lemma FirstReport(s: State, g: GoalId, n: u64)
    requires s.phase.Idle? && s.book.usage == Reading(n) && s.book.high == ZERO && 0 < n <= I64_MAX
    requires s.cell.Holds(g) && s.cell.row.value.status.Active? && s.cell.row.value.tokensUsed == 0
    requires s.inner == Inner(Some(Mark(g, ZERO)), None) && g in s.book.since
    ensures var steps := [Begin(Some(Reading(n)), ActiveOnly, false, 0)] + ([Commit] + []);
            && Possible(s, steps)
            && var t := After(s, steps);
               t.cell.Holds(g) && t.cell.row.value.tokensUsed == n && t.book.since == s.book.since
  {
    ReadingFromZero(n);
    var begun := Next(s, Begin(Some(Reading(n)), ActiveOnly, false, 0));
    Then(begun, Commit, []);
    Then(s, Begin(Some(Reading(n)), ActiveOnly, false, 0), [Commit] + []);
  }

  /**
   An active goal is replaced in the middle of a turn, before its first report: the last known totals are still the zero
   of the turn's start, and the replacement pays for its predecessor's `n` tokens.
   */
  lemma ReplacingMidTurnChargesTheSuccessor(cell: Cell, op: StoreOp, g: GoalId, now: nat, n: u64)
    requires cell.row.Some? && cell.row.value.status.Active? && cell.row.value.goalId != g
    requires op.Replace? && Inserts(cell, op, g) && 0 < n <= I64_MAX
    ensures var steps := [StartPrompt(cell.row, now)] + ([Use(Reading(n))] + LateArming(op, g, n));
            && BaselineTotals(Next(Next(Initial(cell), steps[0]), steps[1]).inner) == ZERO
            && Possible(Initial(cell), steps)
            && After(Initial(cell), steps).cell.Holds(g) && After(Initial(cell), steps).cell.row.value.tokensUsed == n
  {
    var started := Next(Initial(cell), StartPrompt(cell.row, now));
    var used := Next(started, Use(Reading(n)));
    LateArmingChargesEverything(used, op, g, n);
    Then(started, Use(Reading(n)), LateArming(op, g, n));
    Then(Initial(cell), StartPrompt(cell.row, now), [Use(Reading(n))] + LateArming(op, g, n));
  }

  /**
   The goal is cleared, which forgets the last known totals, and another one is created: it pays for the whole prompt.
   */
  lemma ArmingAfterClearChargesTheSuccessor(cell: Cell, op: StoreOp, g: GoalId, now: nat, n: u64)
    requires cell.row.Some? && cell.row.value.status.Active? && cell.row.value.goalId != g
    requires op.Create? && Inserts(EmptyCell, op, g) && 0 < n <= I64_MAX
    ensures var rest := [Store(Clear)] + ([Disarm] + LateArming(op, g, n));
            var steps := [StartPrompt(cell.row, now)] + ([Use(Reading(n))] + rest);
            && Possible(Initial(cell), steps)
            && After(Initial(cell), steps).cell.Holds(g) && After(Initial(cell), steps).cell.row.value.tokensUsed == n
  {
    var started := Next(Initial(cell), StartPrompt(cell.row, now));
    var used := Next(started, Use(Reading(n)));
    var cleared := Next(used, Store(Clear));
    var disarmed := Next(cleared, Disarm);
    LateArmingChargesEverything(disarmed, op, g, n);
    Then(cleared, Disarm, LateArming(op, g, n));
    Then(used, Store(Clear), [Disarm] + LateArming(op, g, n));
    Then(started, Use(Reading(n)), [Store(Clear)] + ([Disarm] + LateArming(op, g, n)));
    Then(Initial(cell), StartPrompt(cell.row, now), [Use(Reading(n))]
        + ([Store(Clear)] + ([Disarm] + LateArming(op, g, n))));
  }

  // ----- baselines that are handed out again -----

  function ActiveGoal(id: GoalId, tokens: int): Cell {
    Cell(Some(Goal(id, "o", Active, None, tokens, 0, None, None, 0, 0)), false)
  }

  function Reading(tokens: u64): TokenTotals {
    TokenTotals(tokens, 0, 0)
  }

  /** Memory and row of an active goal `id` with `used` tokens, measured from `from`. */
  predicate Measuring(s: State, id: GoalId, used: int, from: u64) {
    s.phase.Idle? && s.cell == ActiveGoal(id, used) && s.inner.baseline == Some(Mark(id, Reading(from)))
  }

  /** A report that meets no other task: its two steps, if it has a second one. */
  function Report(s: State, tokens: u64): (r: State)
    requires s.phase.Idle?
    ensures r.phase.Idle?
  {
    var begun := Next(s, Begin(Some(Reading(tokens)), ActiveStatusOnly, false, 0));
    if begun.phase.InFlight? then Next(begun, Commit) else begun
  }

  lemma AcceptedReport(s: State, id: GoalId, used: int, from: u64, to: u64)
    requires Measuring(s, id, used, from) && from < to && to - from <= I64_MAX
    ensures Measuring(Report(s, to), id, used + to - from, to) && Report(s, to).book.high == Reading(to)
  {
    DeltaIsWeightDifference(Reading(from), Reading(to));
  }

  lemma PauseAndResume(s: State, id: GoalId, used: int)
    requires s.cell == ActiveGoal(id, used)
    ensures Next(Next(s, Store(Pause(id))), Store(Resume(id))) == s
  {
  }

  /**
   Resuming in the middle of a turn starts the clock again, and with it a baseline at zero: a goal that has used 10
   tokens of the prompt, is paused and resumed, and reports 10 again, is charged for 20.
   */
  lemma ResumeMidTurnChargesAgain(s: State, id: GoalId, now: nat)
    requires Measuring(s, id, 10, 10)
    ensures var resumed := Next(Next(s, Store(Pause(id))), Store(Resume(id)));
            Measuring(Report(Next(resumed, Restart(resumed.cell.row, now)), 10), id, 20, 10)
  {
    PauseAndResume(s, id, 10);
    var restarted := Next(s, Restart(s.cell.row, now));
    assert Measuring(restarted, id, 10, 0);
    AcceptedReport(restarted, id, 10, restarted.inner.baseline.value.totals.input, 10);
  }

  /** A restarted clock measures from a baseline that weighs nothing. */
  lemma RestartMeasuresFromZero(row: Option<Goal>, now: nat)
    ensures var mark := StartedInner(row, now).baseline; mark.Some? ==> Weight(mark.value.totals) == 0
  {
  }

  /** The baseline of a restart is fair to a goal that owes nothing, and only to one. */
  lemma BaselineOfRestart(row: Option<Goal>, now: nat, owed: int)
    ensures var mark := StartedInner(row, now).baseline;
            mark.Some? ==> (Weight(mark.value.totals) >= owed <==> owed <= 0)
  {
    RestartMeasuresFromZero(row, now);
  }

  /** A restart whose baseline is mentioned only through what it is compared with. */
  lemma RestartFrom(s: State, g: GoalId, now: nat, m: TokenTotals)
    requires Own(s, g) && s.phase.Idle? && s.cell.Holds(g) && s.cell.row.value.status.Active?
    requires StartedInner(s.cell.row, now).baseline == Some(Mark(g, m))
    requires g in s.book.since && Weight(s.book.usage) <= I64_MAX
    ensures StaysFair(Next(s, Restart(s.cell.row, now)), g) <==> Weight(m) >= Owed(s, g)
  {
    BaselineOfRestart(s.cell.row, now, Weight(s.book.usage) - I64_MAX);
    ArmingIsFairExactly(s, Restart(s.cell.row, now), g);
  }

  /**
   Restarting the clock of an active goal is fair if and only if the goal owes nothing: it was there from the start of
   the prompt and has not paid for anything yet.
   */
  lemma RestartIsFairExactly(s: State, g: GoalId, now: nat)
    requires Own(s, g) && s.phase.Idle? && s.cell.Holds(g) && s.cell.row.value.status.Active?
    requires g in s.book.since && Weight(s.book.usage) <= I64_MAX
    ensures StaysFair(Next(s, Restart(s.cell.row, now)), g) <==> Owed(s, g) <= 0
  {
    var m := StartedInner(s.cell.row, now).baseline.value.totals;
    BaselineOfRestart(s.cell.row, now, Owed(s, g));
    RestartFrom(s, g, now, m);
  }

  /** A flush without a reading that finds no baseline measures the goal from zero. */
  lemma BlindFlushAdoptsZero(s: State, id: GoalId, used: int)
    requires s.phase.Idle? && s.cell == ActiveGoal(id, used) && s.inner.baseline.None?
    ensures var flush := Begin(None, ActiveOrStopped, false, 0);
            !Orderly(s, flush) && Measuring(Next(s, flush), id, used, 0)
  {
  }

  /**
   A statement that fails in the database loses the baseline. A flush without a reading, as a pause does it, then adopts
   zero, and the next report charges the whole prompt again.
   */
  lemma FlushAfterLostBaselineChargesAgain(s: State, id: GoalId, n: u64, m: u64) returns (begun: State, flushed: State)
    requires Measuring(s, id, n, n) && n < m <= I64_MAX
    ensures begun == Next(s, Begin(Some(Reading(m)), ActiveStatusOnly, false, 0)) && begun.phase.InFlight?
    ensures flushed == Next(Next(begun, CommitFails), Begin(None, ActiveOrStopped, false, 0)) && flushed.phase.Idle?
    ensures Report(flushed, m).cell == ActiveGoal(id, n + m)
  {
    begun := BeginLater(s, id, n, n, m);
    BlindFlushAdoptsZero(begun.(phase := Idle), id, n);
    flushed := Next(begun.(phase := Idle), Begin(None, ActiveOrStopped, false, 0));
    AcceptedReport(flushed, id, n, flushed.inner.baseline.value.totals.input, m);
  }

  lemma BeginLater(s: State, id: GoalId, used: int, from: u64, to: u64) returns (begun: State)
    requires Measuring(s, id, used, from) && from < to && to - from <= I64_MAX
    ensures begun == Next(s, Begin(Some(Reading(to)), ActiveStatusOnly, false, 0))
    ensures begun.phase.InFlight? && begun.cell == s.cell && begun.inner.baseline.None?
  {
    DeltaIsWeightDifference(Reading(from), Reading(to));
    begun := Next(s, Begin(Some(Reading(to)), ActiveStatusOnly, false, 0));
  }
}
