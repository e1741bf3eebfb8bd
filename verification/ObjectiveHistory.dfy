/**
 The round trip of objectives: what a user set or edited last is what readers of the goal get, whether the text is in
 the row or in a file, over any history of calls on any number of threads.
 */
module ObjectiveHistory {
  import opened Wrappers
  import opened Text
  import opened GoalTypes
  import opened GoalRow
  import opened ObjectiveFile
  import opened GoalService

  /** All threads' cells over one objectives directory, and what each thread's user asked for last. */
  datatype World = World(cells: map<ThreadId, Cell>, files: map<string, string>, asked: map<ThreadId, string>) {
    function DiskOf(thread: ThreadId): Disk {
      Disk(if thread in cells then cells[thread] else EmptyCell, Some(files))
    }

    function With(thread: ThreadId, disk: Disk, text: Option<string>): World
      requires disk.files.Some?
    {
      World(cells[thread := disk.cell], disk.files.value,
            if text.Some? then asked[thread := text.value] else asked - {thread})
    }
  }

  datatype Event =
    | SetGoal(thread: ThreadId, objective: string, budget: Option<int>, verify: Option<string>, c: Conditions)
    | EditGoal(thread: ThreadId, objective: string, c: Conditions)
    | ClearGoal(thread: ThreadId, c: Conditions)
    | Other(thread: ThreadId, op: StoreOp)

  /** An inline objective must not look like a file marker. */
  predicate PlainWhenInline(objective: string) {
    !NeedsFileBacking(Trim(objective)) ==> !IsFileBacked(Trim(objective))
  }

  /** A call that succeeds, or a statement that leaves objectives alone. */
  predicate Succeeds(w: World, e: Event) {
    match e
    case SetGoal(t, objective, budget, verify, c) =>
      PlainWhenInline(objective) && SetCall(w.DiskOf(t), t, objective, budget, verify, c).result.Ok?
    case EditGoal(t, objective, c) => PlainWhenInline(objective) && EditCall(w.DiskOf(t), t, objective, c).result.Ok?
    case ClearGoal(t, c) => ClearCall(w.DiskOf(t), t, c).result.Ok?
    case Other(_, op) => InsertedId(op).None? && !op.Clear? && !op.EditObjective?
  }

  function Next(w: World, e: Event): World {
    match e
    case SetGoal(t, objective, budget, verify, c) =>
      w.With(t, SetCall(w.DiskOf(t), t, objective, budget, verify, c).disk, Some(Trim(objective)))
    case EditGoal(t, objective, c) => w.With(t, EditCall(w.DiskOf(t), t, objective, c).disk, Some(Trim(objective)))
    case ClearGoal(t, c) => w.With(t, ClearCall(w.DiskOf(t), t, c).disk, None)
    case Other(t, op) => w.(cells := w.cells[t := Apply(w.DiskOf(t).cell, op).cell])
  }

  function After(w: World, events: seq<Event>): World {
    if events == [] then w else Next(After(w, events[..|events| - 1]), events[|events| - 1])
  }

  predicate AllSucceed(w: World, events: seq<Event>) {
    forall n | 0 <= n < |events| :: Succeeds(After(w, events[..n]), events[n])
  }

  /** No two of these threads share a file name. */
  predicate DistinctNames(threads: set<ThreadId>) {
    forall t, u | t in threads && u in threads && FileNameFor(t) == FileNameFor(u) :: t == u
  }

  /** The row holds the text itself, or the thread's marker while the file holds the text. */
  predicate Keeps(cell: Cell, files: map<string, string>, thread: ThreadId, text: string) {
    && cell.row.Some?
    && var stored := cell.row.value.objective;
       if IsFileBacked(stored)
       then stored == MarkerFor(thread) && FileNameFor(thread) in files && files[FileNameFor(thread)] == text
       else stored == text
  }

  ghost predicate Inv(w: World, threads: set<ThreadId>) {
    forall t | t in threads ::
      if t in w.asked then Keeps(w.DiskOf(t).cell, w.files, t, w.asked[t]) else w.DiskOf(t).cell.row.None?
  }

  lemma KeptIsResolved(cell: Cell, files: map<string, string>, thread: ThreadId, text: string)
    requires Keeps(cell, files, thread, text)
    ensures Resolve(cell.row.value.objective, Some(files)) == text
  {
    MarkerNamesItsFile(thread);
  }

  /** What `prepare_objective` stores is what it was given, inline or as a marker with its file. */
  lemma PreparedIsKept(files: map<string, string>, thread: ThreadId, objective: string, writeOk: bool, cell: Cell)
    requires PlainWhenInline(objective)
    requires var (_, stored) := Prepare(Some(files), thread, objective, writeOk);
             stored.Ok? && cell.row.Some? && cell.row.value.objective == Trim(stored.value)
    ensures var (files', _) := Prepare(Some(files), thread, objective, writeOk);
            files'.Some? && Keeps(cell, files'.value, thread, Trim(objective))
  {
    MarkerNamesItsFile(thread);
    TrimIdempotent(objective);
  }

  lemma CallKeepsOwnThread(w: World, e: Event)
    requires Succeeds(w, e) && (e.SetGoal? || e.EditGoal?)
    ensures var w' := Next(w, e);
            e.thread in w'.asked && Keeps(w'.DiskOf(e.thread).cell, w'.files, e.thread, w'.asked[e.thread])
  {
    PreparedIsKept(w.files, e.thread, e.objective, e.c.writeOk, Next(w, e).DiskOf(e.thread).cell);
  }

  /** A call on one thread touches no file but that thread's. */
  lemma CallLeavesOtherFiles(w: World, e: Event, name: string)
    requires name != FileNameFor(e.thread)
    ensures name in Next(w, e).files <==> name in w.files
    ensures name in w.files ==> Next(w, e).files[name] == w.files[name]
  {
  }

  lemma EventKeepsInv(w: World, e: Event, threads: set<ThreadId>)
    requires Inv(w, threads) && Succeeds(w, e) && e.thread in threads && DistinctNames(threads)
    ensures Inv(Next(w, e), threads)
  {
    var w' := Next(w, e);
    forall t | t in threads
      ensures if t in w'.asked then Keeps(w'.DiskOf(t).cell, w'.files, t, w'.asked[t]) else w'.DiskOf(t).cell.row.None?
    {
      if t != e.thread {
        CallLeavesOtherFiles(w, e, FileNameFor(t));
      } else if e.SetGoal? || e.EditGoal? {
        CallKeepsOwnThread(w, e);
      }
    }
  }

  lemma {:induction false} HistoriesKeepInv(w: World, events: seq<Event>, threads: set<ThreadId>)
    requires Inv(w, threads) && AllSucceed(w, events) && DistinctNames(threads)
    requires forall e | e in events :: e.thread in threads
    ensures Inv(After(w, events), threads)
  {
    if events != [] {
      var n := |events| - 1;
      assert forall m | 0 <= m < n :: events[..n][..m] == events[..m];
      assert forall e | e in events[..n] :: e in events;
      HistoriesKeepInv(w, events[..n], threads);
      EventKeepsInv(After(w, events[..n]), events[n], threads);
    }
  }

  /**
   From an empty world, after any history of successful calls and other statements on threads with distinct file names,
   every thread's goal resolves to exactly what its user asked for last, and a cleared thread has no goal.
   */
  lemma ObjectiveRoundTrip(events: seq<Event>, threads: set<ThreadId>, thread: ThreadId)
    requires AllSucceed(World(map[], map[], map[]), events) && DistinctNames(threads)
    requires thread in threads && forall e | e in events :: e.thread in threads
    ensures var w := After(World(map[], map[], map[]), events);
            var row := w.DiskOf(thread).cell.row;
            if thread in w.asked then row.Some? && Resolve(row.value.objective, Some(w.files)) == w.asked[thread]
            else row.None?
  {
    var w := After(World(map[], map[], map[]), events);
    HistoriesKeepInv(World(map[], map[], map[]), events, threads);
    if thread in w.asked {
      KeptIsResolved(w.DiskOf(thread).cell, w.files, thread, w.asked[thread]);
    }
  }

  // ----- the conditions are needed -----

  /**
   Sharing a file name: preparing an objective for `u` leaves what `t` reads from its file alone exactly when the names
   differ, or the very same text is written again.
   */
  lemma OtherThreadKeepsItsTextExactly(
    files: map<string, string>, t: ThreadId, text: string, u: ThreadId, objective: string)
    requires FileNameFor(t) in files && files[FileNameFor(t)] == text && text != MarkerFor(t)
    requires Prepare(Some(files), u, objective, true).1.Ok?
    ensures var files' := Prepare(Some(files), u, objective, true).0;
            (Resolve(MarkerFor(t), files') == text
             <==> FileNameFor(t) != FileNameFor(u) || (NeedsFileBacking(Trim(objective)) && Trim(objective) == text))
  {
    MarkerNamesItsFile(t);
  }

  lemma DifferentThreadsCanShareAName()
    ensures FileNameFor("a/b") == FileNameFor("a:b") && "a/b" != "a:b"
  {
    assert Sanitize("a/b") == "a_b" == Sanitize("a:b");
  }

  /**
   An inline objective that looks like a marker reads back as itself exactly when no other file has that name, or one
   with that text.
   */
  lemma InlineMarkerReadsBackExactly(files: map<string, string>, thread: ThreadId, objective: string)
    requires IsFileBacked(Trim(objective)) && !NeedsFileBacking(Trim(objective))
    ensures var (files', stored) := Prepare(Some(files), thread, objective, true);
            var name := MarkerFileName(Trim(objective)).value;
            && stored == Ok(Trim(objective))
            && (Resolve(stored.value, files') == Trim(objective)
                <==> name == FileNameFor(thread) || name !in files || files[name] == Trim(objective))
  {
  }

  /** The file step of a refused call has touched the thread's file: removed it, or put another text there. */
  predicate SpoilsFile(objective: string, text: string, c: Conditions) {
    NeedsFileBacking(Trim(objective)) ==>
          |Trim(objective)| <= MAX_FILE_OBJECTIVE_CHARS && c.writeOk && Trim(objective) != text
  }

  /**
   A `set` that fails has touched the file if it came as far as that. The old objective survives exactly when the call
   got no lock or no read, or the objective was inline, or the new text was too long even for a file, could not be
   written, or was the same long text.
   */
  lemma FailedSetKeepsObjectiveExactly(
    disk: Disk, thread: ThreadId, text: string, objective: string, budget: Option<int>, verify: Option<string>,
    c: Conditions)
    requires disk.files.Some? && Keeps(disk.cell, disk.files.value, thread, text) && text != MarkerFor(thread)
    requires SetCall(disk, thread, objective, budget, verify, c).result.Err?
    ensures var after := SetCall(disk, thread, objective, budget, verify, c).disk;
            && after.cell == disk.cell
            && (Resolve(after.cell.row.value.objective, after.files) == text <==>
                  (!c.permit || !c.readOk || !IsFileBacked(disk.cell.row.value.objective)
                   || !SpoilsFile(objective, text, c)))
  {
    MarkerNamesItsFile(thread);
  }

  /** The same for `edit`, which does not come to the file step for a terminal goal either. */
  lemma FailedEditKeepsObjectiveExactly(disk: Disk, thread: ThreadId, text: string, objective: string, c: Conditions)
    requires disk.files.Some? && Keeps(disk.cell, disk.files.value, thread, text) && text != MarkerFor(thread)
    requires EditCall(disk, thread, objective, c).result.Err?
    ensures var after := EditCall(disk, thread, objective, c).disk;
            && after.cell == disk.cell
            && (Resolve(after.cell.row.value.objective, after.files) == text
                <==> !c.permit || !c.readOk || disk.cell.row.value.status.IsTerminal()
                     || !IsFileBacked(disk.cell.row.value.objective) || !SpoilsFile(objective, text, c))
  {
    MarkerNamesItsFile(thread);
  }

  /** No fault of the surroundings is needed: a blank edit is refused and takes a long objective with it. */
  lemma BlankEditLosesTheText(disk: Disk, thread: ThreadId, text: string, objective: string, c: Conditions)
    requires disk.files.Some? && Keeps(disk.cell, disk.files.value, thread, text) && text != MarkerFor(thread)
    requires IsFileBacked(disk.cell.row.value.objective) && !disk.cell.row.value.status.IsTerminal()
    requires Trim(objective) == "" && c.permit && c.readOk && c.statementOk
    ensures var r := EditCall(disk, thread, objective, c);
            && r.result == Err(EmptyObjective) && r.disk.cell == disk.cell
            && Resolve(r.disk.cell.row.value.objective, r.disk.files) != text
  {
    TrimIdempotent(objective);
    FailedEditKeepsObjectiveExactly(disk, thread, text, objective, c);
  }
}
