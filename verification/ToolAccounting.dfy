/**
 The streak of failed execution turns (`agent/goal/src/tool_accounting.rs`): three failing turns in a row on one goal
 mean that the execution environment is unavailable.
 */
module ToolAccounting {
  import opened Wrappers
  import opened GoalTypes

  const EXEC_TOOL_NAMES: set<string> := {"bash", "exec", "shell"}
  const MAX_CONSECUTIVE_EXECUTION_FAILURES := 3

  datatype ToolOutcome = ToolOutcome(tool: string, failed: bool)

  /** `Inner`: this turn's statistics, and the streak with the goal it belongs to. */
  datatype Tally = Tally(failedExecution: bool, successfulTool: bool, streakGoal: Option<GoalId>, streak: nat)

  const NoTally := Tally(false, false, None, 0)

  function Record(t: Tally, o: ToolOutcome): Tally {
    if !o.failed then t.(successfulTool := true, streakGoal := None, streak := 0)
    else if o.tool in EXEC_TOOL_NAMES then t.(failedExecution := true)
    else t
  }

  function BeginTurn(t: Tally): Tally {
    t.(failedExecution := false, successfulTool := false)
  }

  /** The verdict at the end of a turn; no goal means the turn is not attributed. */
  function Judge(t: Tally, bound: Option<GoalId>): (Tally, Option<GoalId>) {
    if bound.None? then (t, None)
    else
      var mine := if t.streakGoal == bound then t else t.(streakGoal := bound, streak := 0);
      if mine.successfulTool || !mine.failedExecution then (mine, None)
      else if mine.streak + 1 >= MAX_CONSECUTIVE_EXECUTION_FAILURES then (mine.(streak := 0), bound)
      else (mine.(streak := mine.streak + 1), None)
  }

  class ToolAccounting {
    var tally: Tally

    constructor ()
      ensures tally == NoTally
    {
      tally := NoTally;
    }

    method RecordToolOutcome(tool: string, failed: bool)
      modifies this
      ensures tally == Record(old(tally), ToolOutcome(tool, failed))
    {
      if failed {
        if tool in EXEC_TOOL_NAMES {
          tally := tally.(failedExecution := true);
        }
      } else {
        tally := tally.(successfulTool := true);
        tally := tally.(streakGoal := None, streak := 0);
      }
    }

    method StartTurn()
      modifies this
      ensures tally == BeginTurn(old(tally))
    {
      tally := tally.(failedExecution := false, successfulTool := false);
    }

    method ExecutionFailureGoal(bound: Option<GoalId>) returns (unavailable: Option<GoalId>)
      modifies this
      ensures (tally, unavailable) == Judge(old(tally), bound)
    {
      if bound.None? {
        return None;
      }
      if tally.streakGoal != bound {
        tally := tally.(streakGoal := bound, streak := 0);
      }
      if tally.successfulTool || !tally.failedExecution {
        return None;
      }
      tally := tally.(streak := tally.streak + 1);
      if tally.streak >= MAX_CONSECUTIVE_EXECUTION_FAILURES {
        tally := tally.(streak := 0);
        return bound;
      }
      unavailable := None;
    }
  }

  // ----- traces of turns -----

  /**
   A turn's tool outcomes, and with which goal its end was judged; aborted, failed and exempt turns are not judged.
   */
  datatype Turn = Turn(outcomes: seq<ToolOutcome>, judged: Option<Option<GoalId>>)

  function RecordAll(t: Tally, outcomes: seq<ToolOutcome>): Tally {
    if outcomes == [] then t else Record(RecordAll(t, outcomes[..|outcomes| - 1]), outcomes[|outcomes| - 1])
  }

  function PlayTurn(t: Tally, turn: Turn): (Tally, Option<GoalId>) {
    var recorded := RecordAll(BeginTurn(t), turn.outcomes);
    if turn.judged.Some? then Judge(recorded, turn.judged.value) else (recorded, None)
  }

  /** The tally after a trace. */
  function Play(turns: seq<Turn>): Tally {
    if turns == [] then NoTally else PlayTurn(Play(turns[..|turns| - 1]), turns[|turns| - 1]).0
  }

  /** What the last turn of a trace reported. */
  function Verdict(turns: seq<Turn>): Option<GoalId>
    requires turns != []
  {
    PlayTurn(Play(turns[..|turns| - 1]), turns[|turns| - 1]).1
  }

  // ----- the specification, without any counter -----

  predicate Succeeded(outcomes: seq<ToolOutcome>) {
    exists o :: o in outcomes && !o.failed
  }

  predicate FailedExecution(outcomes: seq<ToolOutcome>) {
    exists o :: o in outcomes && o.failed && o.tool in EXEC_TOOL_NAMES
  }

  /** The turn ends any streak of `g`: some tool worked, or the turn belonged to another goal. */
  predicate Breaks(turn: Turn, g: GoalId) {
    Succeeded(turn.outcomes) || (turn.judged.Some? && turn.judged.value.Some? && turn.judged.value.value != g)
  }

  /** The turn belonged to `g`, execution failed in it, and nothing worked. */
  predicate FailsFor(turn: Turn, g: GoalId) {
    turn.judged == Some(Some(g)) && FailedExecution(turn.outcomes) && !Succeeded(turn.outcomes)
  }

  /** The failing turns of `g` after the last turn that broke its streak. */
  function FailuresSinceBreak(turns: seq<Turn>, g: GoalId): set<nat> {
    set i: nat | i < |turns| && FailsFor(turns[i], g) && forall k | i <= k < |turns| :: !Breaks(turns[k], g)
  }

  lemma {:induction false} RecordedStatistics(t: Tally, outcomes: seq<ToolOutcome>)
    requires !t.failedExecution && !t.successfulTool
    ensures var r := RecordAll(t, outcomes);
            && r.successfulTool == Succeeded(outcomes)
            && r.failedExecution == FailedExecution(outcomes)
            && (if Succeeded(outcomes) then r.streakGoal == None && r.streak == 0
                else r.streakGoal == t.streakGoal && r.streak == t.streak)
  {
    if outcomes != [] {
      var rest, o := outcomes[..|outcomes| - 1], outcomes[|outcomes| - 1];
      RecordedStatistics(t, rest);
      assert outcomes == rest + [o];
      assert Succeeded(outcomes) <==> Succeeded(rest) || !o.failed;
      assert FailedExecution(outcomes) <==> FailedExecution(rest) || (o.failed && o.tool in EXEC_TOOL_NAMES);
    }
  }

  /** A turn empties the set of failures, adds itself to it, or leaves it alone. */
  lemma FailuresGrow(turns: seq<Turn>, turn: Turn, g: GoalId)
    ensures |FailuresSinceBreak(turns + [turn], g)| == NextCount(turn, |FailuresSinceBreak(turns, g)|, g)
  {
    var all := turns + [turn];
    assert all[|turns|] == turn;
    assert forall i: nat | i < |turns| :: all[i] == turns[i];
    if Breaks(turn, g) {
      assert FailuresSinceBreak(all, g) == {};
    } else {
      assert FailuresSinceBreak(all, g) == FailuresSinceBreak(turns, g) + if FailsFor(turn, g) then {|turns|} else {};
    }
  }

  function NextCount(turn: Turn, n: nat, g: GoalId): nat {
    if Breaks(turn, g) then 0 else if FailsFor(turn, g) then n + 1 else n
  }

  /** The counter holds `n` modulo three for its own goal; for every other goal `n` is zero. */
  predicate Counts(t: Tally, n: nat, g: GoalId) {
    if t.streakGoal == Some(g) then t.streak == n % MAX_CONSECUTIVE_EXECUTION_FAILURES else n == 0
  }

  lemma TurnCounts(t: Tally, turn: Turn, n: nat, g: GoalId)
    requires Counts(t, n, g)
    ensures Counts(PlayTurn(t, turn).0, NextCount(turn, n, g), g)
    ensures PlayTurn(t, turn).1 == Some(g)
       <==> FailsFor(turn, g) && NextCount(turn, n, g) % MAX_CONSECUTIVE_EXECUTION_FAILURES == 0
  {
    RecordedStatistics(BeginTurn(t), turn.outcomes);
  }

  lemma {:induction false} CounterRefinesFailures(turns: seq<Turn>, g: GoalId)
    ensures Counts(Play(turns), |FailuresSinceBreak(turns, g)|, g)
  {
    if turns != [] {
      var rest, turn := turns[..|turns| - 1], turns[|turns| - 1];
      CounterRefinesFailures(rest, g);
      assert turns == rest + [turn];
      FailuresGrow(rest, turn, g);
      TurnCounts(Play(rest), turn, |FailuresSinceBreak(rest, g)|, g);
    }
  }

  /**
   For every trace of turns, the last turn reports goal `g` exactly when it is itself a failing turn of `g` and the
   failing turns since the last break are a multiple of three, so every third one. Neutral turns, unattributed turns
   and turns that are not judged neither extend nor reset the count.
   */
  lemma StreakRefinement(turns: seq<Turn>, g: GoalId)
    requires turns != []
    ensures Verdict(turns) == Some(g)
       <==> FailsFor(turns[|turns| - 1], g) && |FailuresSinceBreak(turns, g)| % MAX_CONSECUTIVE_EXECUTION_FAILURES == 0
  {
    var rest, turn := turns[..|turns| - 1], turns[|turns| - 1];
    assert turns == rest + [turn];
    CounterRefinesFailures(rest, g);
    FailuresGrow(rest, turn, g);
    TurnCounts(Play(rest), turn, |FailuresSinceBreak(rest, g)|, g);
  }

  // ----- three turns -----

  predicate RunsCommands(tool: string) {
    tool == "bash" || tool == "exec" || tool == "shell"
  }

  /** A turn on `g` in which a command tool failed and nothing worked. */
  predicate CommandsFail(turn: Turn, g: GoalId) {
    && turn.judged == Some(Some(g)) && (forall o | o in turn.outcomes :: o.failed)
    && exists o :: o in turn.outcomes && RunsCommands(o.tool)
  }

  /** From a fresh start, the third failing turn in a row is reported, and neither of the two before it. */
  lemma ThirdFailureIsReported(a: Turn, b: Turn, c: Turn, g: GoalId)
    requires CommandsFail(a, g) && CommandsFail(b, g) && CommandsFail(c, g)
    ensures Verdict([a]) == None && Verdict([a, b]) == None && Verdict([a, b, c]) == Some(g)
  {
    assert [a][..0] == [] && [a, b][..1] == [a] && [a, b, c][..2] == [a, b];
    RecordedStatistics(BeginTurn(NoTally), a.outcomes);
    RecordedStatistics(BeginTurn(Play([a])), b.outcomes);
    RecordedStatistics(BeginTurn(Play([a, b])), c.outcomes);
    assert FailsFor(a, g) && FailsFor(b, g) && FailsFor(c, g);
  }

  /** A turn in which no command tool failed is never reported, whatever else failed and whatever came before. */
  lemma OtherFailuresDoNotCount(turns: seq<Turn>)
    requires turns != []
    requires forall o | o in turns[|turns| - 1].outcomes && o.failed :: !RunsCommands(o.tool)
    ensures Verdict(turns) == None
  {
    var n := |turns| - 1;
    RecordedStatistics(BeginTurn(Play(turns[..n])), turns[n].outcomes);
    assert !FailedExecution(turns[n].outcomes);
  }
}
