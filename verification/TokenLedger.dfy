/**
 Accounting under concurrency: every interleaving of usage reports, their compare-and-set steps, re-arming,
 and whatever other tasks do to the row.

 A report is two transitions, `Begin` (read) and `Commit` (compare-and-set); between them any `Store` statement
 may happen. The mutex on the accounting memory only keeps other users of that memory out. `Book` is history
 kept for the statements below; the program has no such ledger.
 */
module TokenLedger {
  import opened Wrappers
  import opened GoalTypes
  import opened GoalRow
  import opened TokenDelta
  import opened GoalAccounting
  import opened StoreRuns

  datatype Phase = Idle | InFlight(pending: Pending)

  /** What happened in the current prompt. */
  datatype Book = Book(
    usage: TokenTotals,                 // what the prompt has used so far
    since: map<GoalId, TokenTotals>,    // the usage at the moment each goal was first given a baseline
    opening: map<GoalId, int>,          // tokens on a row when the prompt began or the row was inserted
    charged: map<GoalId, int>,          // tokens added to each goal since
    total: int,                         // tokens added to any goal
    high: TokenTotals)                  // the last reading presented
  {
    function ChargedTo(goalId: GoalId): int {
      if goalId in charged then charged[goalId] else 0
    }

    function Note(mark: Option<Mark>): Book {
      if mark.Some? && mark.value.goalId !in since then this.(since := since[mark.value.goalId := usage]) else this
    }

    function Add(goalId: GoalId, tokens: int): Book {
      this.(charged := charged[goalId := ChargedTo(goalId) + tokens], total := total + tokens)
    }
  }

  datatype State = State(cell: Cell, inner: Inner, phase: Phase, book: Book)

  /** `Use` is the prompt going on; `Restart` is the clock started again by a resume, after a read of `row`. */
  datatype Step =
    | Use(totals: TokenTotals)
    | Store(op: StoreOp)
    | Begin(current: Option<TokenTotals>, mode: AccountingMode, flush: bool, now: nat)
    | Commit
    | CommitFails
    | Arm(goalId: GoalId, totals: TokenTotals)
    | Disarm
    | Restart(row: Option<Goal>, now: nat)
    | StartPrompt(row: Option<Goal>, now: nat)

  function NewBook(cell: Cell): Book {
    Book(ZERO, map[], if cell.row.Some? then map[cell.row.value.goalId := cell.row.value.tokensUsed] else map[],
         map[], 0, ZERO)
  }

  function Initial(cell: Cell): State {
    State(cell, Unarmed, Idle, NewBook(cell))
  }

  /** The mutex admits one user of the accounting memory; other tasks reach the row through the store only. */
  predicate Enabled(s: State, step: Step) {
    match step
    case Use(totals) => Later(s.book.usage, totals)
    case Store(op) => !op.Account?
    case Commit => s.phase.InFlight?
    case CommitFails => s.phase.InFlight?
    case _ => s.phase.Idle?
  }

  function Next(s: State, step: Step): State
    requires Enabled(s, step)
  {
    match step
    case Use(totals) =>
      s.(book := s.book.(usage := totals))
    case Store(op) =>
      var r := Apply(s.cell, op);
      var book := if InsertedId(op).Some? && r.reply.Row?
                  then s.book.(opening := s.book.opening[r.reply.goal.goalId := r.reply.goal.tokensUsed]) else s.book;
      s.(cell := r.cell, book := book)
    case Begin(current, mode, flush, now) =>
      var book := s.book.(high := current.UnwrapOr(s.book.high));
      (match BeginAccount(s.inner, s.cell.row, current, mode, flush, now)
       case Settled(inner) => s.(inner := inner, book := book.Note(inner.baseline))
       case Charging(inner, p) =>
         s.(inner := inner, phase := InFlight(p), book := book.Note(Some(Mark(p.goalId, p.baseline)))))
    case Commit =>
      var p := s.phase.pending;
      var r := Apply(s.cell, p.Statement());
      State(r.cell, EndAccount(s.inner, p, r.reply.outcome), Idle,
            if r.reply.outcome.Updated? then s.book.Add(p.goalId, p.tokens) else s.book)
    case CommitFails =>
      s.(phase := Idle)
    case Arm(goalId, totals) =>
      var mark := Some(Mark(goalId, totals));
      s.(inner := Inner(mark, None),
         book := s.book.(high := if Later(s.book.high, totals) then totals else s.book.high).Note(mark))
    case Disarm =>
      s.(inner := Unarmed)
    case Restart(row, now) =>
      var inner := StartedInner(row, now);
      s.(inner := inner, book := s.book.Note(inner.baseline))
    case StartPrompt(row, now) =>
      var inner := StartedInner(row, now);
      s.(inner := inner, book := NewBook(s.cell).Note(inner.baseline))
  }

  /** Readings are usage of this prompt and are presented in order; goal ids are not used twice. */
  predicate InOrder(s: State, step: Step) {
    match step
    case Store(op) => InsertedId(op).Some? ==>
      var id := InsertedId(op).value;
      id !in s.book.opening && id !in s.book.charged && id !in s.book.since && !s.cell.Holds(id)
    case Begin(current, _, _, _) => current.Some? ==>
          Later(s.book.high, current.value) && Later(current.value, s.book.usage)
    case Arm(_, totals) => Later(totals, s.book.usage) && (Later(totals, s.book.high) || Later(s.book.high, totals))
    case _ => true
  }

  /**
   What the callers owe the accounting as a whole: besides order, a flush without a reading finds its own goal's
   baseline, a goal is armed with a current reading or the last known one, and the clock is not started again within a
   prompt.
   */
  predicate Orderly(s: State, step: Step) {
    && InOrder(s, step)
    && match step
       case Begin(current, _, _, _) =>
         current.Some? || s.cell.row.None? || (s.inner.baseline.Some? && s.cell.Holds(s.inner.baseline.value.goalId))
       case Arm(_, totals) =>
         Later(s.book.high, totals) || (s.inner.baseline.Some? && totals == s.inner.baseline.value.totals)
       case Restart(row, now) => StartedInner(row, now).baseline.None? || s.book.high == ZERO
       case _ => true
  }

  predicate Legal(s: State, steps: seq<Step>) {
    forall n | 0 <= n < |steps| ::
      var before := After(s, steps[..n]);
      Enabled(before, steps[n]) && Orderly(before, steps[n])
  }

  /** The state after the steps; a step that is not enabled does not happen. */
  function After(s: State, steps: seq<Step>): State {
    if steps == [] then s
    else
      var before := After(s, steps[..|steps| - 1]);
      var step := steps[|steps| - 1];
      if Enabled(before, step) then Next(before, step) else before
  }

  // ----- the invariant -----

  /** The reading from which the next charge would be measured. */
  function Base(s: State): TokenTotals {
    if s.phase.InFlight? then s.phase.pending.baseline
    else if s.inner.baseline.Some? then s.inner.baseline.value.totals
    else s.book.high
  }

  function BoundGoal(s: State): Option<GoalId> {
    if s.phase.InFlight? then Some(s.phase.pending.goalId)
    else if s.inner.baseline.Some? then Some(s.inner.baseline.value.goalId)
    else None
  }

  /** An issued statement carries at most the usage between its baseline and its reading. */
  predicate PendingMeasured(s: State) {
    s.phase.InFlight? ==>
      var p := s.phase.pending;
      && s.inner.baseline.None?
      && Later(p.baseline, p.NextTotals()) && Later(p.NextTotals(), s.book.high)
      && 0 <= p.tokens <= Weight(p.NextTotals()) - Weight(p.baseline)
  }

  predicate BookBounded(s: State) {
    && 0 <= s.book.total <= Weight(Base(s))
    && (forall g | g in s.book.charged :: s.book.charged[g] <= s.book.total)
  }

  /** What is on the row is what was there at first plus what was charged. */
  predicate RowExplained(s: State) {
    s.cell.row.Some? ==>
      var g := s.cell.row.value;
      g.goalId in s.book.opening && g.tokensUsed == s.book.opening[g.goalId] + s.book.ChargedTo(g.goalId)
  }

  /** The readings so far are ordered. */
  predicate Ordered(s: State) {
    && s.book.high.cached <= s.book.high.input && Later(s.book.high, s.book.usage)
    && (s.phase.InFlight? || s.inner.baseline.Some? ==> Later(Base(s), s.book.high))
  }

  predicate Inv(s: State) {
    Ordered(s) && PendingMeasured(s) && BookBounded(s) && RowExplained(s)
  }

  lemma StoreExplainsRow(s: State, op: StoreOp)
    requires RowExplained(s) && Enabled(s, Store(op)) && InOrder(s, Store(op))
    ensures RowExplained(Next(s, Store(op)))
  {
    if Apply(s.cell, op).cell.row.Some? {
      StatementKeepsTokens(s.cell, op);
    }
  }

  lemma StoreKeepsInv(s: State, op: StoreOp)
    requires Inv(s) && Enabled(s, Store(op)) && Orderly(s, Store(op))
    ensures Inv(Next(s, Store(op)))
  {
    StoreExplainsRow(s, op);
  }

  lemma UseKeepsInv(s: State, totals: TokenTotals)
    requires Inv(s) && Enabled(s, Use(totals))
    ensures Inv(Next(s, Use(totals)))
  {
    LaterIsTransitive(s.book.high, s.book.usage, totals);
  }

  /** Only accounting and insertion change the tokens of a row. */
  lemma StatementKeepsTokens(cell: Cell, op: StoreOp)
    requires !op.Account? && Apply(cell, op).cell.row.Some?
    ensures var r := Apply(cell, op);
            || (InsertedId(op).Some? && r.reply.Row? && InsertedId(op).value == r.reply.goal.goalId
                && r.cell.row == Some(r.reply.goal))
            || ((InsertedId(op).None? || !r.reply.Row?) && cell.row.Some?
                && r.cell.row.value.goalId == cell.row.value.goalId
                && r.cell.row.value.tokensUsed == cell.row.value.tokensUsed)
  {
  }

  lemma FlushSettlesInOrder(s: State, step: Step)
    requires step.Begin? && step.current.None? && Inv(s) && Enabled(s, step) && Orderly(s, step)
    requires Next(s, step).phase.Idle?
    ensures Inv(Next(s, step))
  {
  }

  lemma ReportSettlesInOrder(s: State, step: Step)
    requires step.Begin? && step.current.Some? && Inv(s) && Enabled(s, step) && Orderly(s, step)
    requires Next(s, step).phase.Idle?
    ensures Inv(Next(s, step))
  {
    var t := Next(s, step);
    LaterIsTransitive(Base(s), s.book.high, t.book.high);
    DeltaIsWeightDifference(Base(s), t.book.high);
  }

  lemma BeginIssuesInOrder(s: State, step: Step)
    requires step.Begin? && Inv(s) && Enabled(s, step) && Orderly(s, step) && Next(s, step).phase.InFlight?
    ensures Inv(Next(s, step))
  {
    var t := Next(s, step);
    LaterIsTransitive(Base(s), s.book.high, t.book.high);
    DeltaIsWeightDifference(Base(s), t.book.high);
  }

  lemma CommitKeepsInv(s: State)
    requires s.phase.InFlight? && Inv(s)
    ensures Inv(Next(s, Commit))
  {
  }

  /** Memory may change as long as the next charge is not measured from further back than what has been charged. */
  lemma RebasedKeepsInv(s: State, t: State)
    requires Inv(s) && t.cell == s.cell && t.phase.Idle? && Ordered(t) && s.book.total <= Weight(Base(t))
    requires t.book.charged == s.book.charged && t.book.opening == s.book.opening && t.book.total == s.book.total
    ensures Inv(t)
  {
  }

  lemma ForgettingKeepsInv(s: State, step: Step)
    requires step.CommitFails? || step.Disarm? || (step.Restart? && StartedInner(step.row, step.now).baseline.None?)
    requires Inv(s) && Enabled(s, step)
    ensures Inv(Next(s, step))
  {
    DeltaIsWeightDifference(Base(s), s.book.high);
    RebasedKeepsInv(s, Next(s, step));
  }

  lemma ArmingKeepsInv(s: State, step: Step)
    requires step.Arm? && Inv(s) && Enabled(s, step) && Orderly(s, step)
    ensures Inv(Next(s, step))
  {
    DeltaIsWeightDifference(Base(s), s.book.high);
    if Later(s.book.high, step.totals) {
      DeltaIsWeightDifference(s.book.high, step.totals);
    }
    RebasedKeepsInv(s, Next(s, step));
  }

  lemma RestartStep(s: State, step: Step)
    requires step.Restart? && StartedInner(step.row, step.now).baseline.Some? && Enabled(s, step)
    ensures var t := Next(s, step);
            && t.cell == s.cell && t.phase.Idle? && Base(t) == ZERO
            && t.inner.baseline.Some? && t.book == s.book.Note(t.inner.baseline)
  {
  }

  /** Before the first reading of a prompt there is nothing to lose. */
  lemma NothingChargedYet(s: State, t: State)
    requires Inv(s) && t.cell == s.cell && t.phase.Idle? && t.inner.baseline.Some? && Base(t) == s.book.high
    requires t.book == s.book.Note(t.inner.baseline)
    ensures Inv(t)
  {
    DeltaIsWeightDifference(Base(s), s.book.high);
    RebasedKeepsInv(s, t);
  }

  lemma EarlyRestartKeepsInv(s: State, step: Step)
    requires step.Restart? && StartedInner(step.row, step.now).baseline.Some? && s.book.high == ZERO
    requires Inv(s) && Enabled(s, step)
    ensures Inv(Next(s, step))
  {
    RestartStep(s, step);
    NothingChargedYet(s, Next(s, step));
  }

  lemma PromptStartsInOrder(s: State, step: Step)
    requires step.StartPrompt? && Enabled(s, step)
    ensures Ordered(Next(s, step)) && PendingMeasured(Next(s, step))
  {
  }

  lemma PromptStartsBook(s: State, step: Step)
    requires step.StartPrompt? && Enabled(s, step)
    ensures BookBounded(Next(s, step)) && RowExplained(Next(s, step))
  {
  }

  lemma StepKeepsInv(s: State, step: Step)
    requires Inv(s) && Enabled(s, step) && Orderly(s, step)
    ensures Inv(Next(s, step))
  {
    match step
    case Use(totals) => UseKeepsInv(s, totals);
    case Store(op) => StoreKeepsInv(s, op);
    case Begin(current, _, _, _) =>
      if Next(s, step).phase.InFlight? {
        BeginIssuesInOrder(s, step);
      } else if current.Some? {
        ReportSettlesInOrder(s, step);
      } else {
        FlushSettlesInOrder(s, step);
      }
    case Commit => CommitKeepsInv(s);
    case StartPrompt(_, _) =>
      PromptStartsInOrder(s, step);
      PromptStartsBook(s, step);
    case Arm(_, _) => ArmingKeepsInv(s, step);
    case Restart(row, now) =>
      if StartedInner(row, now).baseline.Some? {
        EarlyRestartKeepsInv(s, step);
      } else {
        ForgettingKeepsInv(s, step);
      }
    case _ => ForgettingKeepsInv(s, step);
  }

  lemma {:induction false} RunsKeepInv(s: State, steps: seq<Step>)
    requires Inv(s) && Legal(s, steps)
    ensures Inv(After(s, steps))
  {
    if steps != [] {
      var n := |steps| - 1;
      assert forall m | 0 <= m < n :: steps[..n][..m] == steps[..m];
      RunsKeepInv(s, steps[..n]);
      assert Enabled(After(s, steps[..n]), steps[n]) && Orderly(After(s, steps[..n]), steps[n]);
      StepKeepsInv(After(s, steps[..n]), steps[n]);
    }
  }

  /**
   In every orderly run, each token of a prompt is charged at most once, to one goal: all charges of the prompt together
   stay within its usage, and so does what is added to any one row.
   */
  lemma NoTokenIsChargedTwice(cell: Cell, steps: seq<Step>)
    requires Legal(Initial(cell), steps)
    ensures WithinUsage(After(Initial(cell), steps))
  {
    StartsInOrder(cell);
    RunsKeepInv(Initial(cell), steps);
    InvBoundsCharges(After(Initial(cell), steps));
  }

  predicate WithinUsage(s: State) {
    && s.book.total <= Weight(s.book.usage)
    && (s.cell.row.Some? ==>
          var g := s.cell.row.value;
          g.goalId in s.book.opening && g.tokensUsed - s.book.opening[g.goalId] <= Weight(s.book.usage))
  }

  lemma StartsInOrder(cell: Cell)
    ensures Inv(Initial(cell))
  {
  }

  lemma InvBoundsCharges(s: State)
    requires Inv(s)
    ensures WithinUsage(s)
  {
    DeltaIsWeightDifference(Base(s), s.book.high);
    DeltaIsWeightDifference(s.book.high, s.book.usage);
  }

  /**
   A compare-and-set adds tokens only to the goal that its baseline measured, whatever happened to the row meanwhile.
   */
  lemma ChargeStaysWithItsGoal(s: State)
    requires s.phase.InFlight? && s.cell.row.Some?
    requires Next(s, Commit).cell != s.cell
    ensures s.cell.row.value.goalId == s.phase.pending.goalId == Next(s, Commit).inner.baseline.value.goalId
    ensures Next(s, Commit).cell.row.value.tokensUsed == s.cell.row.value.tokensUsed + Max(s.phase.pending.tokens, 0)
  {
  }

  // ----- conservation -----

  /** No statement replaces or removes the row, no call loses the baseline, and readings stay below the clamp. */
  predicate Undisturbed(s: State, step: Step, start: TokenTotals) {
    match step
    case Store(op) => !op.Clear? && (InsertedId(op).Some? ==> Apply(s.cell, op).reply.Refused?)
    case Begin(current, _, _, _) =>
      current.Some? ==> Later(s.book.high, current.value) && Weight(current.value) - Weight(start) <= I64_MAX
    case Use(_) => true
    case Commit => true
    case _ => false
  }

  predicate Quiet(s: State, steps: seq<Step>, start: TokenTotals) {
    forall n | 0 <= n < |steps| ::
      var before := After(s, steps[..n]); Enabled(before, steps[n]) && Undisturbed(before, steps[n], start)
  }

  /** Goal `id` stood at `used` tokens when its baseline was `start`; nothing has been lost or added since. */
  predicate Conserved(s: State, id: GoalId, used: int, start: TokenTotals) {
    && s.cell.Holds(id)
    && BoundGoal(s) == Some(id)
    && Later(start, Base(s)) && Later(Base(s), s.book.high)
    && Weight(Base(s)) - Weight(start) <= I64_MAX
    && s.cell.row.value.tokensUsed - used == Weight(Base(s)) - Weight(start)
    && (s.phase.InFlight? ==>
          var p := s.phase.pending;
          && s.inner.baseline.None?
          && Later(p.baseline, p.NextTotals()) && Later(p.NextTotals(), s.book.high)
          && Weight(p.NextTotals()) - Weight(start) <= I64_MAX
          && p.tokens == Weight(p.NextTotals()) - Weight(p.baseline))
  }

  lemma BeginConserves(s: State, step: Step, id: GoalId, used: int, start: TokenTotals)
    requires step.Begin? && Conserved(s, id, used, start) && Enabled(s, step) && Undisturbed(s, step, start)
    ensures Conserved(Next(s, step), id, used, start)
  {
    var t := Next(s, step);
    LaterIsTransitive(Base(s), s.book.high, t.book.high);
    LaterIsTransitive(start, Base(s), t.book.high);
    DeltaIsWeightDifference(start, Base(s));
    DeltaIsWeightDifference(Base(s), t.book.high);
  }

  lemma CommitConserves(s: State, id: GoalId, used: int, start: TokenTotals)
    requires s.phase.InFlight? && Conserved(s, id, used, start)
    ensures Conserved(Next(s, Commit), id, used, start)
  {
    LaterIsTransitive(start, Base(s), s.phase.pending.NextTotals());
    DeltaIsWeightDifference(Base(s), s.phase.pending.NextTotals());
  }

  lemma StoreConserves(s: State, op: StoreOp, id: GoalId, used: int, start: TokenTotals)
    requires Conserved(s, id, used, start) && Enabled(s, Store(op)) && Undisturbed(s, Store(op), start)
    ensures Conserved(Next(s, Store(op)), id, used, start)
  {
    QuietStatementKeepsRow(s.cell, op);
  }

  /** A statement that neither removes nor inserts nor accounts leaves id and tokens alone. */
  lemma QuietStatementKeepsRow(cell: Cell, op: StoreOp)
    requires cell.row.Some? && !op.Clear? && !op.Account? && (InsertedId(op).Some? ==> Apply(cell, op).reply.Refused?)
    ensures var c := Apply(cell, op).cell;
            c.Holds(cell.row.value.goalId) && c.row.value.tokensUsed == cell.row.value.tokensUsed
  {
  }

  lemma {:induction false} RunsConserve(s: State, steps: seq<Step>, id: GoalId, used: int, start: TokenTotals)
    requires Conserved(s, id, used, start) && Quiet(s, steps, start)
    ensures Conserved(After(s, steps), id, used, start)
  {
    if steps != [] {
      var n := |steps| - 1;
      var before := After(s, steps[..n]);
      assert forall m | 0 <= m < n :: steps[..n][..m] == steps[..m];
      RunsConserve(s, steps[..n], id, used, start);
      assert Enabled(before, steps[n]) && Undisturbed(before, steps[n], start);
      match steps[n]
      case Use(_) =>
      case Store(op) => StoreConserves(before, op, id, used, start);
      case Begin(_, _, _, _) => BeginConserves(before, steps[n], id, used, start);
      case Commit => CommitConserves(before, id, used, start);
    }
  }

  /**
   Conservation: over every undisturbed run, with any mix of reports, duplicates, refused statements, pauses, resumes
   and budget flips, tokens on the row plus what the formula would still charge for a later reading stay what they
   were.
   */
  lemma TokensAreConserved(s: State, steps: seq<Step>, id: GoalId, start: TokenTotals, later: TokenTotals)
    requires s.phase.Idle? && s.cell.Holds(id) && s.inner.baseline == Some(Mark(id, start)) && Later(start, s.book.high)
    requires Quiet(s, steps, start)
    requires Later(After(s, steps).book.high, later) && Weight(later) - Weight(start) <= I64_MAX
    ensures var t := After(s, steps);
            && t.cell.Holds(id)
            && t.cell.row.value.tokensUsed + GoalTokenDelta(Base(t), later)
               == s.cell.row.value.tokensUsed + GoalTokenDelta(start, later)
  {
    var used := s.cell.row.value.tokensUsed;
    RunsConserve(s, steps, id, used, start);
    var t := After(s, steps);
    LaterIsTransitive(Base(t), t.book.high, later);
    LaterIsTransitive(start, Base(t), later);
    DeltaIsWeightDifference(Base(t), later);
    DeltaIsWeightDifference(start, later);
    DeltaIsWeightDifference(start, Base(t));
  }

  predicate TakesFinalUsage(cell: Cell) {
    cell.row.Some? && (cell.row.value.status.Active? || cell.row.value.status.BudgetLimited?)
  }

  /** What one whole `finish_turn` call adds to the row that its baseline belongs to. */
  lemma FinishTurnAdds(cell: Cell, inner: Inner, id: GoalId, base: TokenTotals, final: TokenTotals, env: Environment)
    requires cell.Holds(id) && inner.baseline == Some(Mark(id, base))
    requires env.permit && env.readOk && env.writeOk
    requires AllSpare(env.gap)
    ensures var done := AccountCall(cell, inner, Some(final), ActiveOnly, true, env).cell;
            var delta := GoalTokenDelta(base, final);
            && done.Holds(id)
            && done.row.value.tokensUsed
               == cell.row.value.tokensUsed + if TakesFinalUsage(Run(cell, env.gap)) then delta else 0
  {
    SparedGoalStays(cell, env.gap);
  }

  /**
   The end of a turn settles the account: after an undisturbed run, `finish_turn` with the final reading leaves exactly
   the usage since the start on the row, if and only if the row is active or budget limited when the statement is
   executed, or nothing was left to charge.
   */
  lemma FinishTurnSettles(
    s: State, steps: seq<Step>, id: GoalId, start: TokenTotals, final: TokenTotals, env: Environment)
    requires s.phase.Idle? && s.cell.Holds(id) && s.inner.baseline == Some(Mark(id, start)) && Later(start, s.book.high)
    requires Quiet(s, steps, start) && After(s, steps).phase.Idle?
    requires Later(After(s, steps).book.high, final) && Weight(final) - Weight(start) <= I64_MAX
    requires env.permit && env.readOk && env.writeOk
    requires AllSpare(env.gap)
    ensures var t := After(s, steps);
            var done := AccountCall(t.cell, t.inner, Some(final), ActiveOnly, true, env).cell;
            && done.Holds(id)
            && (done.row.value.tokensUsed == s.cell.row.value.tokensUsed + GoalTokenDelta(start, final)
                <==> GoalTokenDelta(Base(t), final) == 0 || TakesFinalUsage(Run(t.cell, env.gap)))
  {
    TokensAreConserved(s, steps, id, start, final);
    RunsConserve(s, steps, id, s.cell.row.value.tokensUsed, start);
    var t := After(s, steps);
    FinishTurnAdds(t.cell, t.inner, id, Base(t), final, env);
  }

}
