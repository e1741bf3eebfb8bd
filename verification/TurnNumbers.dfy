/**
 The numbers of a goal's turns over whole sessions: continuations of an idle thread and closing turns after the budget
 was reached, in any order, with other tasks before, between and inside them (`agent/goal/src/runtime.rs`).
 */
module TurnNumbers {
  import opened Wrappers
  import opened GoalTypes
  import opened GoalRow
  import opened StoreRuns
  import opened GoalRuntime

  /** One call that may start a turn, after statements of others. */
  datatype Round =
    | Idle(before: seq<StoreOp>, files: Option<map<string, string>>, visibility: ToolVisibility, idle: IdleEnv)
    | Close(before: seq<StoreOp>, objective: string, turnEnd: TurnEnv)

  /** `turns` are the turns that were started for goals. */
  datatype Session = Session(cell: Cell, seen: int, turns: seq<GoalTurn>)

  function Next(s: Session, round: Round): Session {
    var cell := Run(s.cell, round.before);
    match round
    case Idle(_, files, visibility, env) =>
      var c := IdleCall(cell, files, visibility, s.seen, env);
      Session(c.cell, c.seen, Log(s.turns, c.turn))
    case Close(_, objective, env) =>
      var c := CloseCall(cell, objective, env);
      Session(c.cell, s.seen, Log(s.turns, c.turn))
  }

  function After(s: Session, rounds: seq<Round>): Session {
    if rounds == [] then s else Next(After(s, rounds[..|rounds| - 1]), rounds[|rounds| - 1])
  }

  /** Others may do anything to the goal but remove, replace or number it. */
  predicate LeavesNumber(ops: seq<StoreOp>) {
    AllSpare(ops) && forall op | op in ops :: !op.SetIteration?
  }

  predicate Undisturbed(round: Round) {
    && LeavesNumber(round.before)
    && match round
       case Idle(_, _, _, env) =>
         LeavesNumber(env.beforeRead) && LeavesNumber(env.beforeStart) && LeavesNumber(env.beforeIterate)
       case Close(_, _, env) => LeavesNumber(env.beforeStart) && LeavesNumber(env.beforeIterate)
  }

  /** The round's numbering statement, if it comes to one, reaches the database. */
  predicate Counts(round: Round) {
    match round
    case Idle(_, _, _, env) => env.iterateOk
    case Close(_, _, env) => env.iterateOk
  }

  /** The row holds goal `g`, and its last turn was number `n`. */
  predicate Numbered(cell: Cell, g: GoalId, n: int) {
    cell.Holds(g) && cell.row.value.iterationCount == n
  }

  lemma {:induction false} NumberStays(cell: Cell, ops: seq<StoreOp>, g: GoalId, n: int)
    requires Numbered(cell, g, n) && LeavesNumber(ops)
    ensures Numbered(Run(cell, ops), g, n)
  {
    if ops != [] {
      var m := |ops| - 1;
      assert forall op | op in ops[..m] :: op in ops;
      NumberStays(cell, ops[..m], g, n);
      assert Spares(ops[m]) && !ops[m].SetIteration?;
      SparedRowStays(Run(cell, ops[..m]), ops[m]);
    }
  }

  /**
   A round starts at most one turn; if it does, that turn has the next number, and the row says so exactly if the
   statement was not lost.
   */
  lemma RoundCountsUp(s: Session, round: Round, g: GoalId, n: int)
    requires Numbered(s.cell, g, n) && Undisturbed(round)
    ensures var t := Next(s, round);
            || (t.turns == s.turns && Numbered(t.cell, g, n))
            || (|t.turns| == |s.turns| + 1 && s.turns <= t.turns
                && Numbered(t.cell, g, if Counts(round) then n + 1 else n)
                && t.turns[|s.turns|].goalId == g && t.turns[|s.turns|].iteration == n + 1)
  {
    var cell := Run(s.cell, round.before);
    NumberStays(s.cell, round.before, g, n);
    match round
    case Idle(_, files, visibility, env) =>
      var read := Run(cell, env.beforeRead);
      NumberStays(cell, env.beforeRead, g, n);
      NumberStays(read, env.beforeStart, g, n);
      NumberStays(Run(read, env.beforeStart), env.beforeIterate, g, n);
      ContinuationIsCounted(cell, files, visibility, s.seen, env);
      ContinuationCarriesTheGoalRead(cell, files, visibility, s.seen, env);
    case Close(_, objective, env) =>
      NumberStays(cell, env.beforeStart, g, n);
      NumberStays(Run(cell, env.beforeStart), env.beforeIterate, g, n);
      ClosingIsCounted(cell, objective, env);
  }

  /** The turns are numbered `n + 1`, `n + 2` and so on, all for goal `g`. */
  predicate NumberedFrom(turns: seq<GoalTurn>, g: GoalId, n: int) {
    forall i | 0 <= i < |turns| :: turns[i].goalId == g && turns[i].iteration == n + i + 1
  }

  /**
   Over any sequence of rounds, started or not: the turns of a goal that stays in the row are numbered without gap or
   repetition, and the row always shows the number of the last one.
   */
  lemma {:induction false} TurnsAreNumbered(cell: Cell, seen: int, rounds: seq<Round>, g: GoalId, n: int)
    requires Numbered(cell, g, n) && forall round | round in rounds :: Undisturbed(round) && Counts(round)
    ensures var s := After(Session(cell, seen, []), rounds);
            NumberedFrom(s.turns, g, n) && Numbered(s.cell, g, n + |s.turns|)
  {
    if rounds != [] {
      var m := |rounds| - 1;
      assert forall round | round in rounds[..m] :: round in rounds;
      TurnsAreNumbered(cell, seen, rounds[..m], g, n);
      var before := After(Session(cell, seen, []), rounds[..m]);
      assert Undisturbed(rounds[m]) && Counts(rounds[m]);
      RoundCountsUp(before, rounds[m], g, n + |before.turns|);
    }
  }

  /** Nobody else does anything, and everything works. */
  predicate Quiet(env: IdleEnv) {
    env.permit && env.driverStarts && env.beforeRead == [] && env.beforeStart == [] && env.beforeIterate == []
  }

  /**
   Two continuations in a row of an active goal, undisturbed, carry the next two numbers, exactly if the first one's
   statement was not lost; else they carry the same.
   */
  lemma SuccessiveContinuationsCountUp(
    cell: Cell, files: Option<map<string, string>>, visibility: ToolVisibility, seen: int, env: IdleEnv)
    requires IsActive(cell.row) && !cell.deferred && visibility != Missing && Quiet(env)
    ensures var c := IdleCall(cell, files, visibility, seen, env);
            var d := IdleCall(c.cell, files, visibility, c.seen, env);
            var n := cell.row.value.iterationCount;
            && c.turn.Some? && c.turn.value.iteration == n + 1
            && d.turn.Some? && d.turn.value.iteration == (if env.iterateOk then n + 2 else n + 1)
            && Numbered(d.cell, cell.row.value.goalId, if env.iterateOk then n + 2 else n)
  {
    assert forall c :: Run(c, []) == c;
    var c := IdleCall(cell, files, visibility, seen, env);
    ContinuationIsCounted(cell, files, visibility, seen, env);
    ContinuationIsCounted(c.cell, files, visibility, c.seen, env);
  }
}
