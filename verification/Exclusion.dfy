/**
 Idle continuation against user mutations: both take the one permit of the state lock, the rest of the system does
 not. Each await of `continue_if_idle` (`agent/goal/src/runtime.rs`) and of the `GoalService` calls
 (`agent/goal/src/service.rs`) is a step of its own, and any number of user calls may be waiting.
 */
module Exclusion {
  import opened Wrappers
  import opened Text
  import opened GoalTypes
  import opened GoalRow
  import opened ObjectiveFile
  import opened GoalRuntime
  import V = GoalService

  datatype Request =
    | SetRequest(objective: string, budget: Option<int>, verify: Option<string>)
    | EditRequest(objective: string)
    | ClearRequest
    | ChangeRequest(change: V.Change)

  /** Where a user call is: before the lock, after its read, after its file step, or about to remove the file. */
  datatype CallPc =
    | Waiting
    | Acquired
    | HasRead(row: Option<Goal>)
    | Prepared(row: Option<Goal>, stored: string)
    | Tidying

  datatype UserCall = UserCall(req: Request, c: V.Conditions, pc: CallPc)

  /**
   Where the continuation is. From its read on it remembers the row and, as history, what the row's objective resolved
   to, the objective the user asked for last, and the number of user writes so far.
   */
  datatype IdlePc =
    | Away
    | Entered(visibility: ToolVisibility)
    | Holding(visibility: ToolVisibility)
    | Checked(entry: Entry)
    | Read(goal: Goal, shown: string, text: Option<string>, mark: nat, entry: Entry)
    | Ready(goal: Goal, shown: string, text: Option<string>, mark: nat, entry: Entry, turn: GoalTurn)
    | Counting(turn: GoalTurn)

  /** What the continuation knew of the tools, and whether there was a deferral, when it checked. */
  datatype Entry = Entry(visibility: ToolVisibility, deferred: bool)

  datatype Holder = Free | ByIdle | ByUser(call: nat)

  /** A started turn with the row it was rendered from and the state at the start. */
  datatype Start = Start(
    turn: GoalTurn, goal: Goal, shown: string, text: Option<string>, mark: nat, entry: Entry, writes: nat, cell: Cell)

  datatype State = State(
    cell: Cell,
    files: map<string, string>,
    lock: Holder,
    idle: IdlePc,
    calls: map<nat, UserCall>,
    // history
    seen: set<GoalId>,       // ids the row has had
    asked: Option<string>,   // the objective set last, trimmed
    writes: nat,             // steps of user calls that changed row or files
    started: seq<Start>)

  datatype Step =
    | System(op: StoreOp)
    | Call(call: nat, req: Request, c: V.Conditions)
    | GiveUp(call: nat)
    | UserStep(call: nat)
    | Enter(visibility: ToolVisibility)
    | IdleGiveUp
    | IdleStep(seen: int, driverStarts: bool)

  /** Statements of accounting, hooks, tools and fork protection, none of which takes the lock. */
  predicate IsSystem(op: StoreOp) {
    op.Account? || op.MarkBlocked? || op.MarkUsageLimited? || op.MarkComplete? || op.SetIteration?
    || op.Create? || op.Defer? || op.ClearDeferral?
  }

  predicate Enabled(s: State, step: Step) {
    match step
    case System(op) => IsSystem(op) && (op.Create? ==> op.goalId !in s.seen)
    case Call(call, req, c) => call !in s.calls
    case GiveUp(call) => call in s.calls && s.calls[call].pc.Waiting?
    // the last condition holds in every state that can be reached: it is part of LockInv
    case UserStep(call) => call in s.calls && (s.calls[call].pc.Waiting? ==> s.lock.Free?) && WellFormed(s.calls[call])
    // tools that are known to be missing keep the continuation out
    case Enter(visibility) => s.idle.Away? && visibility != Missing
    case IdleGiveUp => s.idle.Entered?
    case IdleStep(_, _) => !s.idle.Away? && (s.idle.Entered? ==> s.lock.Free?)
  }

  /** An inline objective does not look like a file marker. */
  predicate PlainRequest(req: Request) {
    (req.SetRequest? || req.EditRequest?) && !NeedsFileBacking(Trim(req.objective)) ==>
      !IsFileBacked(Trim(req.objective))
  }

  function Known(s: State, cell: Cell): set<GoalId> {
    if cell.row.Some? then s.seen + {cell.row.value.goalId} else s.seen
  }

  /** The state after user call `k` has ended and released the lock. */
  function Ended(s: State, k: nat): State {
    s.(calls := s.calls - {k}, lock := Free)
  }

  function At(s: State, k: nat, pc: CallPc): State
    requires k in s.calls
  {
    s.(calls := s.calls[k := s.calls[k].(pc := pc)])
  }

  /** The row statement of a call that has read (and prepared) everything it needs. */
  function RowStatement(u: UserCall): StoreOp
    requires u.pc.HasRead? || u.pc.Prepared?
    requires u.req.SetRequest? || u.req.EditRequest? ==> u.pc.Prepared?
    requires u.req.EditRequest? || u.req.ChangeRequest? ==> u.pc.row.Some?
  {
    match u.req
    case SetRequest(_, budget, verify) => Replace(CreateRequest(u.pc.stored, budget, verify), u.c.goalId, u.c.cap)
    case EditRequest(_) => EditObjective(u.pc.row.value.goalId, u.pc.stored)
    case ClearRequest => Clear
    case ChangeRequest(change) =>
      (match change
       case PauseGoal => Pause(u.pc.row.value.goalId)
       case ResumeGoal => Resume(u.pc.row.value.goalId)
       case Rebudget(budget) => UpdateBudget(u.pc.row.value.goalId, budget, u.c.cap))
  }

  /** A call leaves after its read when there is nothing it may change. */
  predicate LeavesAfterRead(req: Request, row: Option<Goal>) {
    match req
    case EditRequest(_) => row.None? || row.value.status.IsTerminal()
    case ChangeRequest(change) => row.None? || (change.ResumeGoal? && !row.value.status.UserResumable())
    case _ => false
  }

  /** A call that is past its read has a row where its request needs one. */
  predicate WellFormed(u: UserCall) {
    && (u.pc.HasRead? || u.pc.Prepared? ==> (u.req.EditRequest? || u.req.ChangeRequest? ==> u.pc.row.Some?))
    && (u.pc.Prepared? ==> u.req.SetRequest? || u.req.EditRequest?)
    && (u.pc.Tidying? ==> u.req.ClearRequest?)
  }

  function PrepareStep(s: State, thread: ThreadId, k: nat): State
    requires k in s.calls && s.calls[k].pc.HasRead? && (s.calls[k].req.SetRequest? || s.calls[k].req.EditRequest?)
  {
    var u := s.calls[k];
    var (files, stored) := V.Prepare(Some(s.files), thread, u.req.objective, u.c.writeOk);
    var t := s.(files := files.UnwrapOr(s.files), writes := s.writes + 1);
    if stored.Ok? then At(t, k, Prepared(u.pc.row, stored.value)) else Ended(t, k)
  }

  function RowStep(s: State, k: nat): State
    requires k in s.calls && (s.calls[k].pc.HasRead? || s.calls[k].pc.Prepared?) && WellFormed(s.calls[k])
    requires s.calls[k].req.SetRequest? || s.calls[k].req.EditRequest? ==> s.calls[k].pc.Prepared?
  {
    var u := s.calls[k];
    var r := V.Execute(s.cell, RowStatement(u), u.c.statementOk);
    var clears := u.req.ClearRequest? && u.c.statementOk;
    var asked := if clears then None
                 else if u.pc.Prepared? && r.reply.Row? then Some(Trim(u.req.objective)) else s.asked;
    var t := s.(cell := r.cell, seen := Known(s, r.cell), asked := asked, writes := s.writes + 1);
    if clears && s.cell.row.Some? then At(t, k, Tidying) else Ended(t, k)
  }

  function UserNext(s: State, thread: ThreadId, k: nat): State
    requires k in s.calls && WellFormed(s.calls[k])
  {
    var u := s.calls[k];
    match u.pc
    case Waiting => At(s, k, Acquired).(lock := ByUser(k))
    case Acquired =>
      if (!u.c.readOk && !u.req.ClearRequest?) || LeavesAfterRead(u.req, s.cell.row) then Ended(s, k)
      else At(s, k, HasRead(s.cell.row))
    case HasRead(_) => if u.req.SetRequest? || u.req.EditRequest? then PrepareStep(s, thread, k) else RowStep(s, k)
    case Prepared(_, _) => RowStep(s, k)
    case Tidying => Ended(s.(files := s.files - {FileNameFor(thread)}, writes := s.writes + 1), k)
  }

  function IdleLeaves(s: State): State {
    s.(idle := Away, lock := Free)
  }

  function IdleNext(s: State, seen: int, driverStarts: bool): State {
    match s.idle
    case Away => s
    case Entered(visibility) => s.(idle := Holding(visibility), lock := ByIdle)
    case Holding(visibility) =>
      if s.cell.deferred then IdleLeaves(s) else s.(idle := Checked(Entry(visibility, s.cell.deferred)))
    case Checked(entry) =>
      if s.cell.row.None? || s.cell.row.value.status != Active then IdleLeaves(s)
      else 
        var goal := s.cell.row.value;
        s.(idle := Read(goal, Resolve(goal.objective, Some(s.files)), s.asked, s.writes, entry))
    case Read(goal, shown, text, mark, entry) =>
      s.(idle := Ready(goal, shown, text, mark, entry, Continuation(goal, Some(s.files), seen)))
    case Ready(goal, shown, text, mark, entry, turn) =>
      if !driverStarts then IdleLeaves(s)
      else
        var start := Start(turn, goal, shown, text, mark, entry, s.writes, s.cell);
        s.(idle := Counting(turn), started := s.started + [start])
    case Counting(turn) => IdleLeaves(s.(cell := CountIteration(s.cell, turn, true)))
  }

  function Next(s: State, thread: ThreadId, step: Step): State
    requires Enabled(s, step)
  {
    match step
    case System(op) =>
      var r := Apply(s.cell, op);
      s.(cell := r.cell, seen := Known(s, r.cell),
         asked := if op.Create? && r.reply.Row? then Some(Trim(op.req.objective)) else s.asked)
    case Call(call, req, c) => s.(calls := s.calls[call := UserCall(req, c, Waiting)])
    case GiveUp(call) => s.(calls := s.calls - {call})
    case UserStep(call) => UserNext(s, thread, call)
    case Enter(visibility) => s.(idle := Entered(visibility))
    case IdleGiveUp => s.(idle := Away)
    case IdleStep(seen, driverStarts) => IdleNext(s, seen, driverStarts)
  }

  /** User calls succeed, and no inline objective looks like a file marker. */
  predicate Clean(s: State, step: Step)
    requires Enabled(s, step)
  {
    match step
    case System(op) => op.Create? ==> !IsFileBacked(Trim(op.req.objective))
    case Call(_, req, _) => PlainRequest(req)
    case UserStep(call) =>
      var u := s.calls[call];
      && (u.pc.HasRead? && (u.req.SetRequest? || u.req.EditRequest?) ==>
            u.c.writeOk && |Trim(u.req.objective)| <= MAX_FILE_OBJECTIVE_CHARS)
      && (u.pc.Prepared? ==> V.Execute(s.cell, RowStatement(u), u.c.statementOk).reply.Row?)
    case _ => true
  }

  // ----- exclusion: every run -----

  predicate IdleInside(pc: IdlePc) {
    !pc.Away? && !pc.Entered?
  }

  /** At most one holder, and it is the one the lock names. */
  predicate LockInv(s: State) {
    && (IdleInside(s.idle) <==> s.lock == ByIdle)
    && (forall k | k in s.calls :: WellFormed(s.calls[k]))
    && (forall k | k in s.calls :: !s.calls[k].pc.Waiting? <==> s.lock == ByUser(k))
    && (s.lock.ByUser? ==> s.lock.call in s.calls)
  }

  /** Same goal, same objective, budget and revision. */
  predicate Unedited(goal: Goal, cell: Cell) {
    cell.Holds(goal.goalId) ==>
      && cell.row.value.objective == goal.objective
      && cell.row.value.tokenBudget == goal.tokenBudget
      && cell.row.value.objectiveRevision == goal.objectiveRevision
  }

  /** Tools not known missing, no deferral. */
  predicate Admitted(pc: IdlePc) {
    && (pc.Entered? || pc.Holding? ==> pc.visibility != Missing)
    && (pc.Checked? || pc.Read? || pc.Ready? ==> pc.entry.visibility != Missing && !pc.entry.deferred)
  }

  predicate IdleInv(s: State) {
    Admitted(s.idle) && (s.idle.Read? || s.idle.Ready? ==>
      && s.idle.mark == s.writes
      && s.idle.goal.status.Active? && s.idle.goal.goalId in s.seen
      && Unedited(s.idle.goal, s.cell)
      && Resolve(s.idle.goal.objective, Some(s.files)) == s.idle.shown
      && (s.idle.Ready? ==> s.idle.turn.goalId == s.idle.goal.goalId && s.idle.turn.objective == s.idle.shown))
  }

  /**
   No user call wrote between the read and the start, the turn carries what was read, and nothing forbade it at the
   check.
   */
  predicate StartInv(b: Start) {
    && b.writes == b.mark
    && b.goal.status.Active? && Unedited(b.goal, b.cell)
    && b.turn.goalId == b.goal.goalId && b.turn.objective == b.shown
    && b.entry.visibility != Missing && !b.entry.deferred
  }

  predicate Inv(s: State) {
    && (s.cell.row.Some? ==> s.cell.row.value.goalId in s.seen)
    && LockInv(s) && IdleInv(s)
    && forall n | 0 <= n < |s.started| :: StartInv(s.started[n])
  }

  /** A system statement leaves objective, budget and revision of a living row alone. */
  lemma SystemKeepsObjective(cell: Cell, op: StoreOp)
    requires IsSystem(op)
    ensures var r := Apply(cell, op);
            r.cell.row.Some? ==>
              || (cell.Holds(r.cell.row.value.goalId) && Unedited(cell.row.value, r.cell))
              || (op.Create? && r.reply.Row? && r.cell.row.value.goalId == op.goalId
                  && r.cell.row.value.objective == Trim(op.req.objective))
    ensures op.Create? && Apply(cell, op).reply.Row? ==> Apply(cell, op).cell.row == Some(NewGoal(op.req, op.goalId))
  {
  }

  lemma SystemKeepsInv(s: State, thread: ThreadId, op: StoreOp)
    requires Inv(s) && Enabled(s, System(op))
    ensures Inv(Next(s, thread, System(op)))
  {
    SystemKeepsObjective(s.cell, op);
  }

  lemma ArrivalKeepsInv(s: State, thread: ThreadId, step: Step)
    requires step.Call? || step.GiveUp? || step.Enter? || step.IdleGiveUp?
    requires Inv(s) && Enabled(s, step)
    ensures Inv(Next(s, thread, step))
  {
  }

  lemma LookingKeepsInv(s: State, thread: ThreadId, seen: int, starts: bool)
    requires s.idle.Entered? || s.idle.Holding? || s.idle.Checked?
    requires Inv(s) && Enabled(s, IdleStep(seen, starts))
    ensures Inv(Next(s, thread, IdleStep(seen, starts)))
  {
  }

  lemma StartingKeepsInv(s: State, thread: ThreadId, seen: int, starts: bool)
    requires s.idle.Read? || s.idle.Ready?
    requires Inv(s) && Enabled(s, IdleStep(seen, starts))
    ensures Inv(Next(s, thread, IdleStep(seen, starts)))
  {
  }

  lemma CountingKeepsInv(s: State, thread: ThreadId, seen: int, starts: bool)
    requires s.idle.Counting?
    requires Inv(s) && Enabled(s, IdleStep(seen, starts))
    ensures Inv(Next(s, thread, IdleStep(seen, starts)))
  {
    SystemKeepsObjective(s.cell, SetIteration(s.idle.turn.goalId, s.idle.turn.iteration));
  }

  lemma IdleKeepsInv(s: State, thread: ThreadId, seen: int, starts: bool)
    requires Inv(s) && Enabled(s, IdleStep(seen, starts))
    ensures Inv(Next(s, thread, IdleStep(seen, starts)))
  {
    match s.idle {
      case Counting(_) => CountingKeepsInv(s, thread, seen, starts);
      case Read(_, _, _, _, _) => StartingKeepsInv(s, thread, seen, starts);
      case Ready(_, _, _, _, _, _) => StartingKeepsInv(s, thread, seen, starts);
      case _ => LookingKeepsInv(s, thread, seen, starts);
    }
  }

  lemma RowStepKeepsInv(s: State, k: nat)
    requires Inv(s) && k in s.calls && (s.calls[k].pc.HasRead? || s.calls[k].pc.Prepared?)
    requires s.calls[k].req.SetRequest? || s.calls[k].req.EditRequest? ==> s.calls[k].pc.Prepared?
    ensures Inv(RowStep(s, k))
  {
  }

  lemma PrepareKeepsInv(s: State, thread: ThreadId, k: nat)
    requires Inv(s) && k in s.calls && s.calls[k].pc.HasRead?
    requires s.calls[k].req.SetRequest? || s.calls[k].req.EditRequest?
    ensures Inv(PrepareStep(s, thread, k))
  {
  }

  lemma UserKeepsInv(s: State, thread: ThreadId, k: nat)
    requires Inv(s) && Enabled(s, UserStep(k))
    ensures Inv(Next(s, thread, UserStep(k)))
  {
    var u := s.calls[k];
    if u.pc.HasRead? && (u.req.SetRequest? || u.req.EditRequest?) {
      PrepareKeepsInv(s, thread, k);
    } else if u.pc.HasRead? || u.pc.Prepared? {
      RowStepKeepsInv(s, k);
    }
  }

  // ----- agreement of row, file and request: runs of successful calls -----

  /** `stored` is `text`, or the thread's marker while the thread's file holds `text`. */
  predicate Represents(stored: string, files: map<string, string>, thread: ThreadId, text: string) {
    if IsFileBacked(stored)
    then stored == MarkerFor(thread) && FileNameFor(thread) in files && files[FileNameFor(thread)] == text
    else stored == text
  }

  /** The call between its file step and its row step, if there is one. */
  predicate Pending(s: State) {
    s.lock.ByUser? && s.lock.call in s.calls && s.calls[s.lock.call].pc.Prepared?
  }

  /** Row and file agree with what was asked for, except while a user call is between its file step and its row step. */
  predicate Agreed(s: State, thread: ThreadId) {
    && (forall k | k in s.calls :: PlainRequest(s.calls[k].req))
    && (Pending(s) ==>
          var u := s.calls[s.lock.call];
          && (u.req.SetRequest? || u.req.EditRequest?)
          && Represents(u.pc.stored, s.files, thread, Trim(u.req.objective)) && Trim(u.pc.stored) == u.pc.stored)
    && (!Pending(s) && s.cell.row.Some? ==>
          s.asked.Some? && Represents(s.cell.row.value.objective, s.files, thread, s.asked.value))
    && (s.lock.ByUser? && s.lock.call in s.calls && s.calls[s.lock.call].pc.Tidying? && s.cell.row.Some? ==>
          !IsFileBacked(s.cell.row.value.objective))
    && (s.idle.Read? || s.idle.Ready? ==> s.idle.text == Some(s.idle.shown))
    && forall n | 0 <= n < |s.started| :: s.started[n].text == Some(s.started[n].shown)
  }

  lemma SystemKeepsAgreed(s: State, thread: ThreadId, op: StoreOp)
    requires Inv(s) && Agreed(s, thread) && Enabled(s, System(op)) && Clean(s, System(op))
    ensures Agreed(Next(s, thread, System(op)), thread)
  {
    SystemKeepsObjective(s.cell, op);
  }

  lemma ArrivalKeepsAgreed(s: State, thread: ThreadId, step: Step)
    requires step.Call? || step.GiveUp? || step.Enter? || step.IdleGiveUp?
    requires Inv(s) && Agreed(s, thread) && Enabled(s, step) && Clean(s, step)
    ensures Agreed(Next(s, thread, step), thread)
  {
  }

  lemma LookingKeepsAgreed(s: State, thread: ThreadId, seen: int, starts: bool)
    requires s.idle.Entered? || s.idle.Holding? || s.idle.Checked?
    requires Inv(s) && Agreed(s, thread) && Enabled(s, IdleStep(seen, starts))
    ensures Agreed(Next(s, thread, IdleStep(seen, starts)), thread)
  {
    MarkerNamesItsFile(thread);
  }

  lemma StartingKeepsAgreed(s: State, thread: ThreadId, seen: int, starts: bool)
    requires s.idle.Read? || s.idle.Ready?
    requires Inv(s) && Agreed(s, thread) && Enabled(s, IdleStep(seen, starts))
    ensures Agreed(Next(s, thread, IdleStep(seen, starts)), thread)
  {
  }

  lemma CountingKeepsAgreed(s: State, thread: ThreadId, seen: int, starts: bool)
    requires s.idle.Counting?
    requires Inv(s) && Agreed(s, thread) && Enabled(s, IdleStep(seen, starts))
    ensures Agreed(Next(s, thread, IdleStep(seen, starts)), thread)
  {
    SystemKeepsObjective(s.cell, SetIteration(s.idle.turn.goalId, s.idle.turn.iteration));
  }

  lemma IdleKeepsAgreed(s: State, thread: ThreadId, seen: int, starts: bool)
    requires Inv(s) && Agreed(s, thread) && Enabled(s, IdleStep(seen, starts))
    ensures Agreed(Next(s, thread, IdleStep(seen, starts)), thread)
  {
    match s.idle {
      case Counting(_) => CountingKeepsAgreed(s, thread, seen, starts);
      case Read(_, _, _, _, _) => StartingKeepsAgreed(s, thread, seen, starts);
      case Ready(_, _, _, _, _, _) => StartingKeepsAgreed(s, thread, seen, starts);
      case _ => LookingKeepsAgreed(s, thread, seen, starts);
    }
  }

  /** What `prepare_objective` stores represents the trimmed text. */
  lemma PreparedRepresents(files: map<string, string>, thread: ThreadId, objective: string)
    requires |Trim(objective)| <= MAX_FILE_OBJECTIVE_CHARS
    requires !NeedsFileBacking(Trim(objective)) ==> !IsFileBacked(Trim(objective))
    ensures var (files', stored) := V.Prepare(Some(files), thread, objective, true);
            && stored.Ok? && files'.Some? && Trim(stored.value) == stored.value
            && Represents(stored.value, files'.value, thread, Trim(objective))
  {
    MarkerNamesItsFile(thread);
    TrimIdempotent(objective);
  }

  lemma PrepareKeepsAgreed(s: State, thread: ThreadId, k: nat)
    requires Inv(s) && Agreed(s, thread) && k in s.calls && s.calls[k].pc.HasRead?
    requires s.calls[k].req.SetRequest? || s.calls[k].req.EditRequest?
    requires Enabled(s, UserStep(k)) && Clean(s, UserStep(k))
    ensures Agreed(PrepareStep(s, thread, k), thread)
  {
    PreparedRepresents(s.files, thread, s.calls[k].req.objective);
  }

  /** A set or edit that goes through leaves exactly the prepared text in the row. */
  lemma RowStatementStores(cell: Cell, u: UserCall)
    requires u.pc.Prepared? && WellFormed(u) && Trim(u.pc.stored) == u.pc.stored
    requires Apply(cell, RowStatement(u)).reply.Row?
    ensures var c := Apply(cell, RowStatement(u)).cell; c.row.Some? && c.row.value.objective == u.pc.stored
  {
  }

  lemma ObjectiveStepKeepsAgreed(s: State, thread: ThreadId, k: nat)
    requires Inv(s) && Agreed(s, thread) && k in s.calls && s.calls[k].pc.Prepared?
    requires Enabled(s, UserStep(k)) && Clean(s, UserStep(k))
    ensures Agreed(RowStep(s, k), thread)
  {
    RowStatementStores(s.cell, s.calls[k]);
  }

  /** Pausing, resuming and re-budgeting do not touch the objective. */
  lemma ChangeKeepsObjective(cell: Cell, u: UserCall)
    requires u.pc.HasRead? && u.req.ChangeRequest? && WellFormed(u)
    ensures var c := Apply(cell, RowStatement(u)).cell;
            c.row.Some? ==> cell.Holds(c.row.value.goalId) && c.row.value.objective == cell.row.value.objective
  {
  }

  lemma OtherRowStepKeepsAgreed(s: State, thread: ThreadId, k: nat)
    requires Inv(s) && Agreed(s, thread) && k in s.calls && s.calls[k].pc.HasRead?
    requires s.calls[k].req.ClearRequest? || s.calls[k].req.ChangeRequest?
    ensures Agreed(RowStep(s, k), thread)
  {
    if s.calls[k].req.ChangeRequest? {
      ChangeKeepsObjective(s.cell, s.calls[k]);
    }
  }

  lemma UserKeepsAgreed(s: State, thread: ThreadId, k: nat)
    requires Inv(s) && Agreed(s, thread) && Enabled(s, UserStep(k)) && Clean(s, UserStep(k))
    ensures Agreed(Next(s, thread, UserStep(k)), thread)
  {
    match s.calls[k].pc {
      case HasRead(_) =>
        if s.calls[k].req.SetRequest? || s.calls[k].req.EditRequest? {
          PrepareKeepsAgreed(s, thread, k);
        } else {
          OtherRowStepKeepsAgreed(s, thread, k);
        }
      case Prepared(_, _) => ObjectiveStepKeepsAgreed(s, thread, k);
      case _ =>
    }
  }

  // ----- whole runs -----

  predicate Legal(s: State, thread: ThreadId, steps: seq<Step>)
    decreases |steps|
  {
    steps == [] || (Enabled(s, steps[0]) && Legal(Next(s, thread, steps[0]), thread, steps[1..]))
  }

  /** Every step of the run is clean. */
  predicate AllClean(s: State, thread: ThreadId, steps: seq<Step>)
    requires Legal(s, thread, steps)
    decreases |steps|
  {
    steps == [] || (Clean(s, steps[0]) && AllClean(Next(s, thread, steps[0]), thread, steps[1..]))
  }

  function After(s: State, thread: ThreadId, steps: seq<Step>): State
    requires Legal(s, thread, steps)
    decreases |steps|
  {
    if steps == [] then s else After(Next(s, thread, steps[0]), thread, steps[1..])
  }

  /** A thread without a goal or history, and nobody at work. */
  const Idle0 := State(EmptyCell, map[], Free, Away, map[], {}, None, 0, [])

  lemma StepKeepsInv(s: State, thread: ThreadId, step: Step)
    requires Inv(s) && Enabled(s, step)
    ensures Inv(Next(s, thread, step))
    ensures Agreed(s, thread) && Clean(s, step) ==> Agreed(Next(s, thread, step), thread)
  {
    match step {
      case System(op) =>
        SystemKeepsInv(s, thread, op);
        if Agreed(s, thread) && Clean(s, step) { SystemKeepsAgreed(s, thread, op); }
      case UserStep(k) =>
        UserKeepsInv(s, thread, k);
        if Agreed(s, thread) && Clean(s, step) { UserKeepsAgreed(s, thread, k); }
      case IdleStep(seen, starts) =>
        IdleKeepsInv(s, thread, seen, starts);
        if Agreed(s, thread) { IdleKeepsAgreed(s, thread, seen, starts); }
      case _ =>
        ArrivalKeepsInv(s, thread, step);
        if Agreed(s, thread) && Clean(s, step) { ArrivalKeepsAgreed(s, thread, step); }
    }
  }

  lemma {:induction false} RunsKeepInv(s: State, thread: ThreadId, steps: seq<Step>)
    requires Inv(s) && Legal(s, thread, steps)
    ensures Inv(After(s, thread, steps))
    ensures Agreed(s, thread) && AllClean(s, thread, steps) ==> Agreed(After(s, thread, steps), thread)
    decreases |steps|
  {
    if steps != [] {
      StepKeepsInv(s, thread, steps[0]);
      RunsKeepInv(Next(s, thread, steps[0]), thread, steps[1..]);
    }
  }

  /**
   Every turn the continuation ever started: its row was Active when it was read, no user call wrote the row or the file
   from that read to the start, and the turn carries that row's id and the objective it stood for. When user calls
   succeed, that objective is the one asked for last.
   */
  lemma ContinuationIsExclusive(thread: ThreadId, steps: seq<Step>)
    requires Legal(Idle0, thread, steps)
    ensures var started := After(Idle0, thread, steps).started;
            && (forall n | 0 <= n < |started| :: StartInv(started[n]))
            && (AllClean(Idle0, thread, steps) ==>
                  forall n | 0 <= n < |started| :: started[n].text == Some(started[n].turn.objective))
  {
    RunsKeepInv(Idle0, thread, steps);
  }

  /** While the continuation is inside, every user call is still waiting, and a call inside is alone. */
  lemma OneInside(thread: ThreadId, steps: seq<Step>, k: nat, m: nat)
    requires Legal(Idle0, thread, steps)
    ensures var s := After(Idle0, thread, steps);
            k in s.calls && !s.calls[k].pc.Waiting? ==>
              !IdleInside(s.idle) && (m in s.calls && m != k ==> s.calls[m].pc.Waiting?)
  {
    RunsKeepInv(Idle0, thread, steps);
  }

  // ----- an edit that is refused after its file step -----

  /** `k` is an edit between its file step and its row step. */
  predicate EditPending(s: State, k: nat) {
    k in s.calls && s.calls[k].req.EditRequest? && s.calls[k].pc.Prepared? && WellFormed(s.calls[k])
  }

  /**
   Since the file step of `k` in `s`: nobody touched call or files, and the row has the old objective or a new inline
   one.
   */
  predicate SinceFileStep(s: State, t: State, k: nat)
    requires k in s.calls
  {
    && EditPending(t, k) && t.calls[k] == s.calls[k] && t.files == s.files
    && (t.cell.row.Some? ==>
          || (s.cell.row.Some? && t.cell.row.value.objective == s.cell.row.value.objective && t.asked == s.asked)
          || (!IsFileBacked(t.cell.row.value.objective) && t.asked == Some(t.cell.row.value.objective)))
  }

  lemma StepSinceFileStep(s: State, t: State, thread: ThreadId, k: nat, step: Step)
    requires k in s.calls && Inv(t) && SinceFileStep(s, t, k) && Enabled(t, step) && Clean(t, step)
             && step != UserStep(k)
    ensures SinceFileStep(s, Next(t, thread, step), k)
  {
    if step.System? {
      SystemKeepsObjective(t.cell, step.op);
    }
  }

  /** The run goes through clean steps, none of them the call's own. */
  predicate Others(s: State, thread: ThreadId, steps: seq<Step>, k: nat)
    decreases |steps|
  {
    steps == [] || (Enabled(s, steps[0]) && Clean(s, steps[0]) && steps[0] != UserStep(k)
                    && Others(Next(s, thread, steps[0]), thread, steps[1..], k))
  }

  lemma {:induction false} OthersAreLegal(s: State, thread: ThreadId, steps: seq<Step>, k: nat)
    requires Others(s, thread, steps, k)
    ensures Legal(s, thread, steps)
    decreases |steps|
  {
    if steps != [] {
      OthersAreLegal(Next(s, thread, steps[0]), thread, steps[1..], k);
    }
  }

  lemma {:induction false} OthersKeepFileStep(s: State, t: State, thread: ThreadId, steps: seq<Step>, k: nat)
    requires k in s.calls && Inv(t) && SinceFileStep(s, t, k) && Others(t, thread, steps, k)
    ensures Legal(t, thread, steps) && Inv(After(t, thread, steps)) && SinceFileStep(s, After(t, thread, steps), k)
    decreases |steps|
  {
    OthersAreLegal(t, thread, steps, k);
    if steps != [] {
      StepSinceFileStep(s, t, thread, k, steps[0]);
      StepKeepsInv(t, thread, steps[0]);
      OthersKeepFileStep(s, Next(t, thread, steps[0]), thread, steps[1..], k);
    }
  }

  predicate Refused(s: State, k: nat)
    requires EditPending(s, k)
  {
    V.Execute(s.cell, RowStatement(s.calls[k]), s.calls[k].c.statementOk).reply.Refused?
  }

  /** A reader of the row gets what was asked for last. */
  predicate Readable(s: State) {
    s.cell.row.Some? ==> s.asked == Some(Resolve(s.cell.row.value.objective, Some(s.files)))
  }

  /** The refused row step of `k` leaves everything to be read as it was before that step. */
  lemma RefusalChangesNothing(s: State, k: nat)
    requires EditPending(s, k) && Refused(s, k)
    ensures var t := RowStep(s, k);
            t.cell == s.cell && t.files == s.files && t.asked == s.asked && k !in t.calls && t.lock.Free?
  {
  }

  /**
   An edit `k` writes its file, any number of clean steps of others follow, and its row statement is refused, for
   whatever reason. The row then still reads as what was asked for exactly if it is gone, or inline, or the edit had
   written the very text that was there.
   */
  lemma RefusedEditKeepsTextExactly(s: State, thread: ThreadId, k: nat, others: seq<Step>)
    requires Inv(s) && Agreed(s, thread) && k in s.calls && s.calls[k].req.EditRequest? && s.calls[k].pc.HasRead?
    requires Enabled(s, UserStep(k)) && Clean(s, UserStep(k)) && s.asked != Some(MarkerFor(thread))
    requires Others(Next(s, thread, UserStep(k)), thread, others, k)
    ensures var written := Next(s, thread, UserStep(k));
            && EditPending(written, k) && Legal(written, thread, others)
            && var before := After(written, thread, others);
               && EditPending(before, k)
               && (Refused(before, k) ==>
                     var t, text := RowStep(before, k), Trim(s.calls[k].req.objective);
                     && t.cell == before.cell && k !in t.calls
                     && (Readable(t) <==>
                           t.cell.row.None? || !IsFileBacked(t.cell.row.value.objective)
                           || (NeedsFileBacking(text) && s.asked == Some(text))))
  {
    var written := Next(s, thread, UserStep(k));
    PrepareKeepsInv(s, thread, k);
    PreparedRepresents(s.files, thread, s.calls[k].req.objective);
    OthersKeepFileStep(written, written, thread, others, k);
    var before := After(written, thread, others);
    if Refused(before, k) {
      RefusalChangesNothing(before, k);
      FileStepDecides(s, thread, s.calls[k].req.objective, before);
    }
  }

  /** What the row reads as once the file step is done. */
  lemma FileStepDecides(s: State, thread: ThreadId, objective: string, t: State)
    requires |Trim(objective)| <= MAX_FILE_OBJECTIVE_CHARS
    requires t.files == V.Prepare(Some(s.files), thread, objective, true).0.UnwrapOr(s.files)
    requires s.asked != Some(MarkerFor(thread))
    requires s.cell.row.Some? ==>
               s.asked.Some? && Represents(s.cell.row.value.objective, s.files, thread, s.asked.value)
    requires t.cell.row.Some? ==>
               || (s.cell.row.Some? && t.cell.row.value.objective == s.cell.row.value.objective && t.asked == s.asked)
               || (!IsFileBacked(t.cell.row.value.objective) && t.asked == Some(t.cell.row.value.objective))
    ensures Readable(t) <==>
              t.cell.row.None? || !IsFileBacked(t.cell.row.value.objective)
              || (NeedsFileBacking(Trim(objective)) && s.asked == Some(Trim(objective)))
  {
    MarkerNamesItsFile(thread);
  }

  /** One way to be refused: the model completes the goal in between. */
  lemma LateCompletionRefusesTheEdit(s: State, thread: ThreadId, k: nat)
    requires Inv(s) && EditPending(s, k) && s.cell.Holds(s.calls[k].pc.row.value.goalId)
             && s.cell.row.value.status.Active?
    ensures Enabled(s, System(MarkComplete(s.cell.row.value.goalId)))
    ensures var t := Next(s, thread, System(MarkComplete(s.cell.row.value.goalId))); EditPending(t, k) && Refused(t, k)
  {
  }

  /** Another: the text is blank. */
  lemma BlankEditIsRefused(s: State, k: nat)
    requires EditPending(s, k) && s.calls[k].pc.stored == ""
    ensures Refused(s, k)
  {
    var _, _ := TrimCuts(s.calls[k].pc.stored);
  }
}
