/**
 The user's side of the goal API (`agent/goal/src/service.rs`): mutations under the state lock, with long objectives
 kept in files beside the table.
 */
module GoalService {
  import opened Wrappers
  import opened Text
  import opened GoalTypes
  import opened GoalRow
  import opened ObjectiveFile
  import S = GoalStore

  /** One thread's cell and the objectives directory, if there is one. */
  datatype Disk = Disk(cell: Cell, files: Option<map<string, string>>)

  datatype Reply<+T> = Reply(disk: Disk, result: Result<T, GoalError>)

  datatype GoalSetOutcome = GoalSetOutcome(goal: Goal, replacedExisting: bool)

  /**
   What the outside decides about one call: whether lock, read, file write and statement succeed, the new id, the
   budget cap.
   */
  datatype Conditions = Conditions(
    permit: bool, readOk: bool, writeOk: bool, statementOk: bool, goalId: GoalId, cap: int)

  /** A statement that may fail in the database. */
  function Execute(cell: Cell, op: StoreOp, ok: bool): Applied {
    if ok then Apply(cell, op) else Applied(cell, Refused(Database))
  }

  /** `prepare_objective`: the directory afterwards, and the text for the row or the reason for refusing. */
  function Prepare(
    files: Option<map<string, string>>, thread: ThreadId, objective: string, writeOk: bool)
    : (Option<map<string, string>>, Result<string, GoalError>)
  {
    var trimmed := Trim(objective);
    if !NeedsFileBacking(trimmed) then
      (if files.Some? then Some(files.value - {FileNameFor(thread)}) else None, Ok(trimmed))
    else if |trimmed| > MAX_FILE_OBJECTIVE_CHARS then (files, Err(ObjectiveTooLong))
    else if files.None? then (files, Ok(trimmed))
    else if !writeOk then (files, Err(ObjectiveTooLong))
    else (Some(files.value[FileNameFor(thread) := trimmed]), Ok(MarkerFor(thread)))
  }

  function ResultOf(reply: GoalRow.Reply): Result<Goal, GoalError> {
    match reply
    case Row(g) => Ok(g)
    case Refused(e) => Err(e)
    case _ => Err(Database)
  }

  function SetCall(
    disk: Disk, thread: ThreadId, objective: string, budget: Option<int>, verify: Option<string>, c: Conditions)
    : Reply<GoalSetOutcome>
  {
    if !c.permit then Reply(disk, Err(LockTimeout))
    else if !c.readOk then Reply(disk, Err(Database))
    else
      var (files, stored) := Prepare(disk.files, thread, objective, c.writeOk);
      if stored.Err? then Reply(disk.(files := files), Err(stored.error))
      else
        var r := Execute(disk.cell, Replace(CreateRequest(stored.value, budget, verify), c.goalId, c.cap),
            c.statementOk);
        var result := ResultOf(r.reply);
        Reply(Disk(r.cell, files),
              if result.Ok? then Ok(GoalSetOutcome(result.value, disk.cell.row.Some?)) else Err(result.error))
  }

  function EditCall(disk: Disk, thread: ThreadId, objective: string, c: Conditions): Reply<Goal> {
    if !c.permit then Reply(disk, Err(LockTimeout))
    else if !c.readOk then Reply(disk, Err(Database))
    else if disk.cell.row.None? then Reply(disk, Err(NoGoal))
    else if disk.cell.row.value.status.IsTerminal() then Reply(disk, Err(NotFoundOrDisallowed))
    else
      var (files, stored) := Prepare(disk.files, thread, objective, c.writeOk);
      if stored.Err? then Reply(disk.(files := files), Err(stored.error))
      else
        var r := Execute(disk.cell, EditObjective(disk.cell.row.value.goalId, stored.value), c.statementOk);
        Reply(Disk(r.cell, files), ResultOf(r.reply))
  }

  function ClearCall(disk: Disk, thread: ThreadId, c: Conditions): Reply<bool> {
    if !c.permit then Reply(disk, Err(LockTimeout))
    else if !c.statementOk then Reply(disk, Err(Database))
    else
      var existed := disk.cell.row.Some?;
      var files := if existed && disk.files.Some? then Some(disk.files.value - {FileNameFor(thread)}) else disk.files;
      Reply(Disk(Apply(disk.cell, Clear).cell, files), Ok(existed))
  }

  /** The mutations that only look up the current goal and issue one statement for it. */
  datatype Change = PauseGoal | ResumeGoal | Rebudget(budget: int)

  function ChangeCall(disk: Disk, change: Change, c: Conditions): Reply<Goal> {
    if !c.permit then Reply(disk, Err(LockTimeout))
    else if !c.readOk then Reply(disk, Err(Database))
    else if disk.cell.row.None? then Reply(disk, Err(NoGoal))
    else
      var g := disk.cell.row.value;
      if change.ResumeGoal? && !g.status.UserResumable() then Reply(disk, Err(NotResumable(g.status)))
      else
        var op := match change
          case PauseGoal => Pause(g.goalId)
          case ResumeGoal => Resume(g.goalId)
          case Rebudget(budget) => UpdateBudget(g.goalId, budget, c.cap);
        var r := Execute(disk.cell, op, c.statementOk);
        Reply(disk.(cell := r.cell), ResultOf(r.reply))
  }

  /** `<home>/goals`: file names and their contents. */
  class GoalsDir {
    var files: map<string, string>

    constructor ()
      ensures files == map[]
    {
      files := map[];
    }
  }

  class GoalService {
    const store: S.GoalStore
    const dir: GoalsDir?

    constructor (store: S.GoalStore, dir: GoalsDir?)
      ensures this.store == store && this.dir == dir
    {
      this.store, this.dir := store, dir;
    }

    ghost function Files(): Option<map<string, string>>
      reads dir
    {
      if dir == null then None else Some(dir.files)
    }

    ghost function DiskOf(thread: ThreadId): Disk
      reads store, dir
    {
      Disk(store.CellOf(thread), Files())
    }

    method PrepareObjective(thread: ThreadId, objective: string, writeOk: bool) returns (r: Result<string, GoalError>)
      modifies dir
      ensures (Files(), r) == Prepare(old(Files()), thread, objective, writeOk)
    {
      var trimmed := Trim(objective);
      if !NeedsFileBacking(trimmed) {
        if dir != null {
          dir.files := dir.files - {FileNameFor(thread)};
        }
        return Ok(trimmed);
      }
      if |trimmed| > MAX_FILE_OBJECTIVE_CHARS {
        return Err(ObjectiveTooLong);
      }
      if dir == null {
        return Ok(trimmed);
      }
      if !writeOk {
        return Err(ObjectiveTooLong);
      }
      dir.files := dir.files[FileNameFor(thread) := trimmed];
      r := Ok(MarkerFor(thread));
    }

    method SetWithVerifyOutcome(
      thread: ThreadId, objective: string, budget: Option<int>, verify: Option<string>, c: Conditions)
      returns (r: Result<GoalSetOutcome, GoalError>)
      requires store.Valid()
      modifies store, dir
      ensures store.Valid() && store.OthersUnchanged(thread)
      ensures Reply(DiskOf(thread), r) == SetCall(old(DiskOf(thread)), thread, objective, budget, verify, c)
    {
      if !c.permit {
        return Err(LockTimeout);
      }
      if !c.readOk {
        return Err(Database);
      }
      var existing := store.Read(thread);
      var stored := PrepareObjective(thread, objective, c.writeOk);
      if stored.Err? {
        return Err(stored.error);
      }
      if !c.statementOk {
        return Err(Database);
      }
      var goal := store.Replace(thread, CreateRequest(stored.value, budget, verify), c.goalId, c.cap);
      r := match goal case Ok(g) => Ok(GoalSetOutcome(g, existing.Some?)) case Err(e) => Err(e);
    }

    method Edit(thread: ThreadId, objective: string, c: Conditions) returns (r: Result<Goal, GoalError>)
      requires store.Valid()
      modifies store, dir
      ensures store.Valid() && store.OthersUnchanged(thread)
      ensures Reply(DiskOf(thread), r) == EditCall(old(DiskOf(thread)), thread, objective, c)
    {
      if !c.permit {
        return Err(LockTimeout);
      }
      if !c.readOk {
        return Err(Database);
      }
      var goal := store.Read(thread);
      if goal.None? {
        return Err(NoGoal);
      }
      if goal.value.status.IsTerminal() {
        return Err(NotFoundOrDisallowed);
      }
      var stored := PrepareObjective(thread, objective, c.writeOk);
      if stored.Err? {
        return Err(stored.error);
      }
      if !c.statementOk {
        return Err(Database);
      }
      r := store.EditObjective(thread, goal.value.goalId, stored.value);
    }

    method Clear(thread: ThreadId, c: Conditions) returns (r: Result<bool, GoalError>)
      requires store.Valid()
      modifies store, dir
      ensures store.Valid() && store.OthersUnchanged(thread)
      ensures Reply(DiskOf(thread), r) == ClearCall(old(DiskOf(thread)), thread, c)
    {
      if !c.permit {
        return Err(LockTimeout);
      }
      if !c.statementOk {
        return Err(Database);
      }
      var cleared := store.Clear(thread);
      if cleared && dir != null {
        dir.files := dir.files - {FileNameFor(thread)};
      }
      r := Ok(cleared);
    }

    method Pause(thread: ThreadId, c: Conditions) returns (r: Result<Goal, GoalError>)
      requires store.Valid()
      modifies store
      ensures store.Valid() && store.OthersUnchanged(thread)
      ensures Reply(DiskOf(thread), r) == ChangeCall(old(DiskOf(thread)), PauseGoal, c)
    {
      if !c.permit {
        return Err(LockTimeout);
      }
      if !c.readOk {
        return Err(Database);
      }
      var goal := store.Read(thread);
      if goal.None? {
        return Err(NoGoal);
      }
      if !c.statementOk {
        return Err(Database);
      }
      r := store.Pause(thread, goal.value.goalId);
    }

    method Resume(thread: ThreadId, c: Conditions) returns (r: Result<Goal, GoalError>)
      requires store.Valid()
      modifies store
      ensures store.Valid() && store.OthersUnchanged(thread)
      ensures Reply(DiskOf(thread), r) == ChangeCall(old(DiskOf(thread)), ResumeGoal, c)
    {
      if !c.permit {
        return Err(LockTimeout);
      }
      if !c.readOk {
        return Err(Database);
      }
      var goal := store.Read(thread);
      if goal.None? {
        return Err(NoGoal);
      }
      if !goal.value.status.UserResumable() {
        return Err(NotResumable(goal.value.status));
      }
      if !c.statementOk {
        return Err(Database);
      }
      r := store.Resume(thread, goal.value.goalId);
    }

    method UpdateBudget(thread: ThreadId, budget: int, c: Conditions) returns (r: Result<Goal, GoalError>)
      requires store.Valid()
      modifies store
      ensures store.Valid() && store.OthersUnchanged(thread)
      ensures Reply(DiskOf(thread), r) == ChangeCall(old(DiskOf(thread)), Rebudget(budget), c)
    {
      if !c.permit {
        return Err(LockTimeout);
      }
      if !c.readOk {
        return Err(Database);
      }
      var goal := store.Read(thread);
      if goal.None? {
        return Err(NoGoal);
      }
      if !c.statementOk {
        return Err(Database);
      }
      r := store.UpdateBudget(thread, goal.value.goalId, budget, c.cap);
    }

    /** `resolve_objective`: the goal with the full text of its objective. */
    method ResolveObjective(goal: Goal) returns (r: Goal)
      ensures r == goal.(objective := Resolve(goal.objective, Files()))
    {
      var name := MarkerFileName(goal.objective);
      if name.None? || dir == null || name.value !in dir.files {
        return goal;
      }
      r := goal.(objective := dir.files[name.value]);
    }
  }

  // ----- what the calls come to, said without their steps -----

  /** Short enough for the row. */
  predicate FitsRow(text: string) {
    |text| <= 4000 && Utf8Length(text) <= 4000
  }

  /**
   A text that can be stored: not blank, and short enough for the row, or for a file if there is a directory, the file
   can be written and the marker with the thread's name fits into the row.
   */
  predicate Storable(files: Option<map<string, string>>, thread: ThreadId, objective: string, writeOk: bool) {
    var text := Trim(objective);
    && text != ""
    && (FitsRow(text) || (|text| <= 1_000_000 && files.Some? && writeOk && |thread| <= 3991))
  }

  /** What the row holds for it, and what becomes of the thread's file. */
  function Stored(thread: ThreadId, objective: string): string {
    if FitsRow(Trim(objective)) then Trim(objective) else MarkerFor(thread)
  }

  function Filed(files: Option<map<string, string>>, thread: ThreadId, objective: string): Option<map<string, string>> {
    var name := FileNameFor(thread);
    if files.None? then None
    else Some(if FitsRow(Trim(objective)) then files.value - {name} else files.value[name := Trim(objective)])
  }

  lemma MarkerLength(thread: ThreadId)
    ensures Utf8Length(MarkerFor(thread)) == |thread| + 9
  {
    AsciiLength(MarkerFor(thread));
  }

  /** The text that is prepared passes the validation of the row exactly if it can be stored. */
  lemma PreparedIsStorable(disk: Disk, thread: ThreadId, objective: string, writeOk: bool)
    ensures var (files, stored) := Prepare(disk.files, thread, objective, writeOk);
            && (stored.Ok? && ObjectiveProblem(stored.value).None? <==>
                  Storable(disk.files, thread, objective, writeOk))
            && (Storable(disk.files, thread, objective, writeOk) ==>
                  && stored.value == Trim(stored.value) == Stored(thread, objective)
                  && files == Filed(disk.files, thread, objective))
  {
    TrimIdempotent(objective);
    MarkerNamesItsFile(thread);
    MarkerLength(thread);
  }

  /** Lock, read and statement go through. */
  predicate GoesThrough(c: Conditions) {
    c.permit && c.readOk && c.statementOk
  }

  /**
   When a `set` succeeds, for every input and condition, and what it leaves behind: a new goal with the text, budget and
   verify command of the request, active and unused, without a deferral; otherwise the old row and deferral.
   */
  lemma SetExactly(
    disk: Disk, thread: ThreadId, objective: string, budget: Option<int>, verify: Option<string>, c: Conditions)
    ensures var r := SetCall(disk, thread, objective, budget, verify, c);
            && (r.result.Ok? <==>
                  && GoesThrough(c) && Storable(disk.files, thread, objective, c.writeOk)
                  && (budget.Some? ==> 0 < budget.value <= c.cap))
            && (r.result.Ok? ==>
                  && r.result.value.goal == Goal(c.goalId, Stored(thread, objective), Active, budget, 0, 0, verify,
                                                 None, 0, 0)
                  && r.result.value.replacedExisting == disk.cell.row.Some?
                  && r.disk == Disk(Cell(Some(r.result.value.goal), false), Filed(disk.files, thread, objective)))
            && (r.result.Err? ==> r.disk.cell == disk.cell)
  {
    PreparedIsStorable(disk, thread, objective, c.writeOk);
  }

  /** The same for an `edit`: the text is new and the revision one higher; everything else stays, the deferral too. */
  lemma EditExactly(disk: Disk, thread: ThreadId, objective: string, c: Conditions)
    ensures var r, row := EditCall(disk, thread, objective, c), disk.cell.row;
            && (r.result.Ok? <==>
                  && GoesThrough(c) && Storable(disk.files, thread, objective, c.writeOk)
                  && row.Some? && !row.value.status.BudgetLimited? && !row.value.status.Complete?)
            && (r.result.Ok? ==>
                  && r.result.value == row.value.(objective := Stored(thread, objective),
                                                  objectiveRevision := row.value.objectiveRevision + 1)
                  && r.disk == Disk(disk.cell.(row := Some(r.result.value)), Filed(disk.files, thread, objective)))
            && (r.result.Err? ==> r.disk.cell == disk.cell)
            && (r.result == Err(NoGoal) <==> c.permit && c.readOk && row.None?)
            && (r.result == Err(LockTimeout) <==> !c.permit)
  {
    PreparedIsStorable(disk, thread, objective, c.writeOk);
  }

  /** After a `clear` that goes through there is no row, no deferral, and no file if there was a row. */
  lemma ClearExactly(disk: Disk, thread: ThreadId, c: Conditions)
    ensures var r := ClearCall(disk, thread, c);
            && (r.result.Ok? <==> c.permit && c.statementOk)
            && (r.result.Err? ==> r.disk == disk)
            && (r.result.Ok? ==>
                  && r.disk.cell == Cell(None, false) && (r.result.value <==> disk.cell.row.Some?)
                  && (if disk.files.Some? && r.result.value
                      then r.disk.files == Some(disk.files.value - {FileNameFor(thread)})
                      else r.disk.files == disk.files))
  {
  }

  /** What a change makes of the goal. */
  function ChangedGoal(g: Goal, change: Change): Goal {
    match change
    case PauseGoal => g.(status := Paused, statusReason := None)
    case ResumeGoal => g.(status := Active, statusReason := None)
    case Rebudget(budget) => g.(tokenBudget := Some(budget))
  }

  /** Pausing takes an active goal, resuming one that is not active or complete, a new budget any but a complete one. */
  predicate Admits(g: Goal, change: Change, cap: int) {
    match change
    case PauseGoal => g.status.Active?
    case ResumeGoal => !g.status.Active? && !g.status.Complete?
    case Rebudget(budget) => !g.status.Complete? && 0 < budget <= cap
  }

  /** When `pause`, `resume` and `update_budget` succeed, and that they change only what they are for. */
  lemma ChangeExactly(disk: Disk, change: Change, c: Conditions)
    ensures var r, row := ChangeCall(disk, change, c), disk.cell.row;
            && (r.result.Ok? <==> GoesThrough(c) && row.Some? && Admits(row.value, change, c.cap))
            && (r.result.Ok? ==>
                  && r.result.value == ChangedGoal(row.value, change)
                  && r.disk == disk.(cell := disk.cell.(row := Some(r.result.value))))
            && (r.result.Err? ==> r.disk == disk)
            && (r.result.Err? && r.result.error.NotResumable? <==>
                  c.permit && c.readOk && row.Some? && change.ResumeGoal? && !Admits(row.value, change, c.cap))
            && (r.result.Err? && r.result.error.NotResumable? ==> r.result.error.status == row.value.status)
  {
  }

  // ----- what a refusal says -----

  /** The file step lets the text pass. */
  predicate Preparable(files: Option<map<string, string>>, objective: string, writeOk: bool) {
    FitsRow(Trim(objective)) || (|Trim(objective)| <= 1_000_000 && (files.None? || writeOk))
  }

  /** What the file step refuses, and what the validation of the row then says about what it lets pass. */
  lemma PreparedExactly(files: Option<map<string, string>>, thread: ThreadId, objective: string, writeOk: bool)
    ensures var (files', stored) := Prepare(files, thread, objective, writeOk);
            && (stored.Ok? <==> Preparable(files, objective, writeOk))
            && (stored.Err? ==> stored.error == ObjectiveTooLong && files' == files)
            && (stored.Ok? ==>
                  ObjectiveProblem(stored.value)
                  == if Trim(objective) == "" then Some(EmptyObjective)
                     else if Storable(files, thread, objective, writeOk) then None else Some(ObjectiveTooLong))
  {
    TrimIdempotent(objective);
    MarkerNamesItsFile(thread);
    MarkerLength(thread);
  }

  /** Why a `set` is refused: one condition for each error. */
  lemma SetRefusedExactly(
    disk: Disk, thread: ThreadId, objective: string, budget: Option<int>, verify: Option<string>, c: Conditions)
    ensures var r, text := SetCall(disk, thread, objective, budget, verify, c).result, Trim(objective);
            var prepared, kept := Preparable(disk.files, objective, c.writeOk),
                Storable(disk.files, thread, objective, c.writeOk);
            && (r == Err(LockTimeout) <==> !c.permit)
            && (r == Err(Database) <==> c.permit && (!c.readOk || (prepared && !c.statementOk)))
            && (r == Err(EmptyObjective) <==> GoesThrough(c) && text == "")
            && (r == Err(ObjectiveTooLong) <==>
                  c.permit && c.readOk && text != "" && (!prepared || (c.statementOk && !kept)))
            && (r == Err(BudgetMustBePositive) <==> GoesThrough(c) && kept && budget.Some? && budget.value <= 0)
            && (r == Err(BudgetAboveCap(c.cap)) <==>
                  GoesThrough(c) && kept && budget.Some? && budget.value > Max(0, c.cap))
  {
    PreparedExactly(disk.files, thread, objective, c.writeOk);
    PreparedIsStorable(disk, thread, objective, c.writeOk);
  }

  /** The same for an `edit`. */
  lemma EditRefusedExactly(disk: Disk, thread: ThreadId, objective: string, c: Conditions)
    ensures var r, row, text := EditCall(disk, thread, objective, c).result, disk.cell.row, Trim(objective);
            var prepared, kept := Preparable(disk.files, objective, c.writeOk),
                Storable(disk.files, thread, objective, c.writeOk);
            var open := row.Some? && !row.value.status.BudgetLimited? && !row.value.status.Complete?;
            && (r == Err(LockTimeout) <==> !c.permit)
            && (r == Err(NoGoal) <==> c.permit && c.readOk && row.None?)
            && (r == Err(NotFoundOrDisallowed) <==> c.permit && c.readOk && row.Some? && !open)
            && (r == Err(Database) <==> c.permit && (!c.readOk || (open && prepared && !c.statementOk)))
            && (r == Err(EmptyObjective) <==> GoesThrough(c) && open && text == "")
            && (r == Err(ObjectiveTooLong) <==>
                  c.permit && c.readOk && open && text != "" && (!prepared || (c.statementOk && !kept)))
  {
    PreparedExactly(disk.files, thread, objective, c.writeOk);
    PreparedIsStorable(disk, thread, objective, c.writeOk);
  }

  /** And for the calls that only change the row; a `clear` is refused for lock and database only. */
  lemma ChangeRefusedExactly(disk: Disk, thread: ThreadId, change: Change, c: Conditions)
    ensures var r, row := ChangeCall(disk, change, c).result, disk.cell.row;
            var looked := c.permit && c.readOk && row.Some?;
            && (r == Err(LockTimeout) <==> !c.permit)
            && (r == Err(NoGoal) <==> c.permit && c.readOk && row.None?)
            && (r == Err(NotFoundOrDisallowed) <==>
                  && looked && c.statementOk && !Admits(row.value, change, c.cap) && !change.ResumeGoal?
                  && (change.Rebudget? ==> 0 < change.budget <= c.cap))
            && (r == Err(Database) <==>
                  || (c.permit && !c.readOk)
                  || (looked && !c.statementOk && (change.ResumeGoal? ==> Admits(row.value, change, c.cap))))
    ensures var r := ClearCall(disk, thread, c).result;
            (r == Err(LockTimeout) <==> !c.permit) && (r == Err(Database) <==> c.permit && !c.statementOk)
  {
  }
}
