/**
 Synchronising bundled skills into the user's skills directory (`sync_skills` in `agent/skill/src/sync.rs`), without
 I/O errors. A bundle maps the name of a skill to its tree; the MD5 of a tree is any function `hash`.
 */
module SkillSync {
  import opened Wrappers
  import opened SkillManifest
  import opened SkillTree

  type Bundle = b: map<string, Tree> | forall name | name in b :: b[name].Valid() && SKILL in b[name].files

  const SKILL: Path := ["SKILL.md"]

  /** What the report says about one name. */
  datatype Outcome = Added | Updated | Skipped(note: string)

  datatype SyncResult = SyncResult(added: seq<string>, updated: seq<string>, skipped: seq<string>)

  /** Index of the last dot, or -1. */
  function LastDot(name: string): (i: int)
    ensures -1 <= i < |name|
  {
    if name == "" then -1 else if name[|name| - 1] == '.' then |name| - 1 else LastDot(name[..|name| - 1])
  }

  /** `Path::with_extension("bak")`; a leading dot does not start an extension. */
  function BackupName(name: string): string {
    (if LastDot(name) > 0 then name[..LastDot(name)] else name) + ".bak"
  }

  lemma {:induction false} LastDotIsLast(name: string)
    ensures LastDot(name) >= 0 ==> name[LastDot(name)] == '.'
    ensures forall i | LastDot(name) < i < |name| :: name[i] != '.'
  {
    if name != "" && name[|name| - 1] != '.' {
      LastDotIsLast(name[..|name| - 1]);
    }
  }

  /** A skill is its own backup exactly when its name is something followed by ".bak". */
  lemma OwnBackupExactly(name: string)
    ensures BackupName(name) == name <==> |name| > 4 && name[|name| - 4..] == ".bak"
  {
    LastDotIsLast(name);
    var b := BackupName(name);
    assert b[|b| - 4..] == ".bak";
    if |name| > 4 && name[|name| - 4..] == ".bak" {
      assert forall i | |name| - 4 <= i < |name| :: name[i] == name[|name| - 4..][i - (|name| - 4)];
      assert name[|name| - 4] == '.';
      assert LastDot(name) == |name| - 4;
      assert name == name[..|name| - 4] + ".bak";
    }
  }

  /** The user's directories by name, and the manifest in memory. */
  datatype Home = Home(dirs: map<string, Tree>, manifest: Manifest, result: SyncResult)

  /** What one name can see: its directory and its manifest entry. */
  datatype Slot = Slot(tree: Option<Tree>, recorded: Option<string>)

  function Lookup<T>(m: map<string, T>, k: string): Option<T> {
    if k in m then Some(m[k]) else None
  }

  function SlotOf(dirs: map<string, Tree>, manifest: Manifest, k: string): Slot {
    Slot(Lookup(dirs, k), Lookup(manifest, k))
  }

  const EmptyTree := Tree({[]}, map[])

  /** Writing `SKILL.md` fails, without a trace, when that is a directory. */
  function WithSkill(t: Tree, content: string): Tree {
    if SKILL in t.dirs then t else t.(files := t.files[SKILL := content])
  }

  /**
   The bundled tree replaces the installed one: the user has not touched it since it was recorded, and it is not
   current.
   */
  predicate Replaces(slot: Slot, src: Tree, hash: Tree -> string) {
    slot.tree.Some? && slot.recorded.Some? && slot.recorded.value != hash(src)
        && hash(slot.tree.value) == slot.recorded.value
  }

  /** The slot of a bundled skill after a run in which no backup gets in the way. */
  function Decide(slot: Slot, src: Tree, force: bool, hash: Tree -> string): Slot
    requires SKILL in src.files
  {
    if slot.tree.None? then
      if slot.recorded.Some? && !force then slot
      else Slot(Some(WithSkill(EmptyTree, src.files[SKILL])), Some(hash(src)))
    else if slot.recorded.None? then
      if SKILL in slot.tree.value.files then slot
      else Slot(Some(WithSkill(slot.tree.value, src.files[SKILL])), Some(hash(src)))
    else if Replaces(slot, src, hash) then Slot(Some(src), Some(hash(src)))
    else slot
  }

  function Report(r: SyncResult, name: string, outcome: Outcome): SyncResult {
    match outcome
    case Added => r.(added := r.added + [name])
    case Updated => r.(updated := r.updated + [name])
    case Skipped(note) => r.(skipped := r.skipped + [name + note])
  }

  /**
   One round of the loop, backup included: the directory is moved aside, so a skill that is its own backup is lost.
   */
  function SyncOne(h: Home, name: string, src: Tree, force: bool, hash: Tree -> string): Home
    requires SKILL in src.files
  {
    var slot := SlotOf(h.dirs, h.manifest, name);
    var content := src.files[SKILL];
    if slot.tree.None? then
      if slot.recorded.Some? && !force then h.(result := Report(h.result, name, Skipped(" (deleted by user)")))
      else Home(h.dirs[name := WithSkill(EmptyTree, content)], h.manifest[name := hash(src)],
                Report(h.result, name, Added))
    else if slot.recorded.None? then
      if SKILL in slot.tree.value.files then h.(result := Report(h.result, name, Skipped(" (no manifest entry)")))
      else Home(h.dirs[name := WithSkill(slot.tree.value, content)], h.manifest[name := hash(src)],
                Report(h.result, name, Updated))
    else if slot.recorded.value == hash(src) then h.(result := Report(h.result, name, Skipped("")))
    else if !Replaces(slot, src, hash) then h.(result := Report(h.result, name, Skipped(" (user modified)")))
    else if BackupName(name) == name then
      h.(dirs := h.dirs - {name}, result := Report(h.result, name, Skipped(" (user modified)")))
    else Home((h.dirs - {BackupName(name)})[name := src], h.manifest[name := hash(src)],
              Report(h.result, name, Updated))
  }

  function SyncAll(h: Home, order: seq<string>, bundle: Bundle, force: bool, hash: Tree -> string): Home
    requires forall name | name in order :: name in bundle
  {
    if order == [] then h
    else
      var last := order[|order| - 1];
      SyncOne(SyncAll(h, order[..|order| - 1], bundle, force, hash), last, bundle[last], force, hash)
  }

  const NothingYet := SyncResult([], [], [])

  /** Entries whose skill is no longer bundled are dropped. */
  function Pruned(m: Manifest, bundle: Bundle): Manifest {
    map name | name in m && name in bundle :: m[name]
  }

  /** The skills directory: its subdirectories and its manifest file. */
  datatype Disk = Disk(dirs: map<string, Tree>, file: Option<string>) {
    function At(k: string): Slot {
      SlotOf(dirs, Loaded(file), k)
    }
  }

  /** One whole run from `before` to `after`, the bundled names taken in some order. */
  ghost predicate Synced(
    before: Disk, after: Disk, bundle: Bundle, force: bool, hash: Tree -> string, result: SyncResult) {
    exists order :: Enumerates(order, bundle.Keys) && SyncedInOrder(before, after, order, bundle, force, hash, result)
  }

  ghost predicate SyncedInOrder(
    before: Disk, after: Disk, order: seq<string>, bundle: Bundle, force: bool, hash: Tree -> string,
        result: SyncResult)
    requires Enumerates(order, bundle.Keys)
  {
    var h := SyncAll(Home(before.dirs, Loaded(before.file), NothingYet), order, bundle, force, hash);
    after.dirs == h.dirs && SavedAs(after.file, Pruned(h.manifest, bundle)) && result == h.result
  }

  class SkillsDir {
    var dirs: map<string, Tree>
    var file: Option<string>

    constructor (dirs: map<string, Tree>, file: Option<string>)
      ensures this.dirs == dirs && this.file == file
    {
      this.dirs, this.file := dirs, file;
    }

    /** The update branch: move the directory aside, copy the bundled tree in its place, drop what was moved aside. */
    method Replace(name: string, src: Tree) returns (replaced: bool)
      requires name in dirs && src.Valid()
      modifies this`dirs
      ensures replaced == (BackupName(name) != name)
      ensures dirs == if replaced then (old(dirs) - {BackupName(name)})[name := src] else old(dirs) - {name}
    {
      var backup := BackupName(name);
      dirs := dirs - {backup};
      if name !in dirs {
        return false;
      }
      dirs := (dirs - {name})[backup := dirs[name]];
      var copy := CopyTree(src, Tree({}, map[]));
      assert copy == src;
      dirs := dirs[name := copy];
      dirs := dirs - {backup};
      return true;
    }

    method SyncSkill(m: Manifest, r: SyncResult, name: string, src: Tree, force: bool, hash: Tree -> string)
      returns (m': Manifest, r': SyncResult)
      requires src.Valid() && SKILL in src.files
      modifies this`dirs
      ensures Home(dirs, m', r') == SyncOne(Home(old(dirs), m, r), name, src, force, hash)
    {
      m', r' := m, r;
      var content := src.files[SKILL];
      var srcHash := hash(src);
      if name !in dirs {
        if name in m && !force {
          r' := Report(r, name, Skipped(" (deleted by user)"));
          return;
        }
        dirs := dirs[name := EmptyTree];
        dirs := dirs[name := WithSkill(dirs[name], content)];
        m' := m[name := srcHash];
        r' := Report(r, name, Added);
        return;
      }
      if name !in m {
        if SKILL in dirs[name].files {
          r' := Report(r, name, Skipped(" (no manifest entry)"));
        } else {
          dirs := dirs[name := WithSkill(dirs[name], content)];
          m' := m[name := srcHash];
          r' := Report(r, name, Updated);
        }
      } else if m[name] == srcHash {
        r' := Report(r, name, Skipped(""));
      } else if hash(dirs[name]) == m[name] {
        var replaced := Replace(name, src);
        if replaced {
          m' := m[name := srcHash];
          r' := Report(r, name, Updated);
        } else {
          r' := Report(r, name, Skipped(" (user modified)"));
        }
      } else {
        r' := Report(r, name, Skipped(" (user modified)"));
      }
    }

    method SyncNames(
      m: Manifest, names: seq<string>, bundle: Bundle, force: bool, hash: Tree -> string)
      returns (manifest: Manifest, result: SyncResult)
      requires forall name | name in names :: name in bundle
      modifies this`dirs
      ensures Home(dirs, manifest, result) == SyncAll(Home(old(dirs), m, NothingYet), names, bundle, force, hash)
    {
      manifest, result := m, NothingYet;
      for n := 0 to |names|
        invariant Home(dirs, manifest, result)
                  == SyncAll(Home(old(dirs), m, NothingYet), names[..n], bundle, force, hash)
      {
        assert names[..n + 1][..n] == names[..n];
        manifest, result := SyncSkill(manifest, result, names[n], bundle[names[n]], force, hash);
      }
      assert names[..|names|] == names;
    }

    method SyncSkills(
      bundle: Bundle, force: bool, hash: Tree -> string) returns (result: SyncResult, removed: seq<string>)
      modifies this
      ensures Synced(old(Disk(dirs, file)), Disk(dirs, file), bundle, force, hash, result)
      ensures forall name :: name in removed <==> name in Loaded(old(file)) && name !in bundle
    {
      var manifest := LoadManifest(file);
      var names := Enumerate(bundle.Keys);
      ghost var before := Disk(dirs, file);
      manifest, result := SyncNames(manifest, names, bundle, force, hash);
      forall name | name !in bundle
        ensures name in manifest <==> name in Loaded(before.file)
      {
        EntriesElsewhere(Home(before.dirs, Loaded(before.file), NothingYet), names, bundle, force, hash, name);
      }
      var stale := Enumerate(manifest.Keys - bundle.Keys);
      removed := stale;
      var body := SaveManifest(Pruned(manifest, bundle));
      file := Some(body);
      assert SyncedInOrder(before, Disk(dirs, file), names, bundle, force, hash, result);
    }
  }

  // ----- one round -----

  lemma OneHere(h: Home, name: string, src: Tree, force: bool, hash: Tree -> string)
    requires SKILL in src.files && BackupName(name) != name
    ensures var h' := SyncOne(h, name, src, force, hash);
            SlotOf(h'.dirs, h'.manifest, name) == Decide(SlotOf(h.dirs, h.manifest, name), src, force, hash)
  {
  }

  lemma OneElsewhere(h: Home, name: string, src: Tree, force: bool, hash: Tree -> string, k: string)
    requires SKILL in src.files && k != name
    ensures var h' := SyncOne(h, name, src, force, hash);
            && Lookup(h'.manifest, k) == Lookup(h.manifest, k)
            && Lookup(h'.dirs, k) ==
               if Replaces(SlotOf(h.dirs, h.manifest, name), src, hash) && BackupName(name) == k then None
               else Lookup(h.dirs, k)
  {
  }

  // ----- all rounds -----

  lemma {:induction false} EntriesElsewhere(
    h: Home, order: seq<string>, bundle: Bundle, force: bool, hash: Tree -> string, k: string)
    requires (forall name | name in order :: name in bundle) && k !in order
    ensures Lookup(SyncAll(h, order, bundle, force, hash).manifest, k) == Lookup(h.manifest, k)
  {
    if order != [] {
      var n := |order| - 1;
      EntriesElsewhere(h, order[..n], bundle, force, hash, k);
      OneElsewhere(SyncAll(h, order[..n], bundle, force, hash), order[n], bundle[order[n]], force, hash, k);
    }
  }

  /** The rounds do not disturb each other when no backup has the name `k`. */
  lemma {:induction false} AllHere(
    h: Home, order: seq<string>, bundle: Bundle, force: bool, hash: Tree -> string, k: string)
    requires forall name | name in order :: name in bundle && BackupName(name) != k
    requires forall n, m | 0 <= n < m < |order| :: order[n] != order[m]
    ensures var h' := SyncAll(h, order, bundle, force, hash);
            SlotOf(h'.dirs, h'.manifest, k) ==
              if k in order then Decide(SlotOf(h.dirs, h.manifest, k), bundle[k], force, hash)
              else SlotOf(h.dirs, h.manifest, k)
  {
    if order != [] {
      var n := |order| - 1;
      var before := SyncAll(h, order[..n], bundle, force, hash);
      AllHere(h, order[..n], bundle, force, hash, k);
      if k == order[n] {
        assert k !in order[..n];
        OneHere(before, k, bundle[k], force, hash);
      } else {
        assert k in order <==> k in order[..n];
        OneElsewhere(before, order[n], bundle[order[n]], force, hash, k);
      }
    }
  }

  /** No bundled skill's backup is named like a bundled skill. */
  predicate ClashFree(bundle: Bundle) {
    forall n, m | n in bundle && m in bundle :: BackupName(n) != m
  }

  /** Some bundled skill is going to be replaced and uses `k` as its backup. */
  predicate UsedAsBackup(
    dirs: map<string, Tree>, m: Manifest, names: set<string>, bundle: Bundle, hash: Tree -> string, k: string)
  {
    exists n :: n in names && n in bundle && BackupName(n) == k && Replaces(SlotOf(dirs, m, n), bundle[n], hash)
  }

  function NamesIn(order: seq<string>): set<string> {
    set x | x in order
  }

  lemma NamesGrow(order: seq<string>, name: string)
    ensures NamesIn(order + [name]) == NamesIn(order) + {name}
  {
  }

  lemma {:induction false} AllElsewhere(
    h: Home, order: seq<string>, bundle: Bundle, force: bool, hash: Tree -> string, k: string)
    requires ClashFree(bundle) && k !in bundle
    requires forall name | name in order :: name in bundle
    requires forall n, m | 0 <= n < m < |order| :: order[n] != order[m]
    ensures Lookup(SyncAll(h, order, bundle, force, hash).dirs, k) ==
            if UsedAsBackup(h.dirs, h.manifest, NamesIn(order), bundle, hash, k) then None else Lookup(h.dirs, k)
  {
    if order != [] {
      var n := |order| - 1;
      var name, before := order[n], SyncAll(h, order[..n], bundle, force, hash);
      AllElsewhere(h, order[..n], bundle, force, hash, k);
      AllHere(h, order[..n], bundle, force, hash, name);
      assert name !in order[..n];
      assert SlotOf(before.dirs, before.manifest, name) == SlotOf(h.dirs, h.manifest, name);
      NamesGrow(order[..n], name);
      assert order == order[..n] + [name];
      OneMoreBackup(h.dirs, h.manifest, NamesIn(order[..n]), name, bundle, hash, k);
      OneElsewhere(before, name, bundle[name], force, hash, k);
    }
  }

  lemma OneMoreBackup(
    dirs: map<string, Tree>, m: Manifest, names: set<string>, name: string, bundle: Bundle, hash: Tree -> string,
        k: string)
    requires name in bundle
    ensures UsedAsBackup(dirs, m, names + {name}, bundle, hash, k) <==>
              || UsedAsBackup(dirs, m, names, bundle, hash, k)
              || (BackupName(name) == k && Replaces(SlotOf(dirs, m, name), bundle[name], hash))
  {
  }

  // ----- whole runs -----

  /** Directory names can be written to the manifest, and hashes are digits. */
  ghost predicate Writable(bundle: Bundle, hash: Tree -> string) {
    (forall name | name in bundle :: SafeName(name)) && forall t: Tree :: SafeHash(hash(t))
  }

  /** What a run leaves under the name `k`, whether it is bundled or not. */
  function SlotAfter(d: Disk, bundle: Bundle, force: bool, hash: Tree -> string, k: string): Slot {
    if k in bundle then Decide(d.At(k), bundle[k], force, hash)
    else if UsedAsBackup(d.dirs, Loaded(d.file), bundle.Keys, bundle, hash, k) then Slot(None, None)
    else Slot(d.At(k).tree, None)
  }

  lemma OneHashIsSafe(h: Home, name: string, src: Tree, force: bool, hash: Tree -> string)
    requires SKILL in src.files && SafeHashes(h.manifest) && SafeHash(hash(src))
    ensures SafeHashes(SyncOne(h, name, src, force, hash).manifest)
  {
  }

  lemma {:induction false} HashesStaySafe(
    h: Home, order: seq<string>, bundle: Bundle, force: bool, hash: Tree -> string)
    requires Writable(bundle, hash) && SafeHashes(h.manifest) && forall name | name in order :: name in bundle
    ensures SafeHashes(SyncAll(h, order, bundle, force, hash).manifest)
  {
    if order != [] {
      var n := |order| - 1;
      HashesStaySafe(h, order[..n], bundle, force, hash);
      OneHashIsSafe(SyncAll(h, order[..n], bundle, force, hash), order[n], bundle[order[n]], force, hash);
    }
  }

  lemma ManifestIsReadBack(
    before: Disk, after: Disk, order: seq<string>, bundle: Bundle, force: bool, hash: Tree -> string,
        result: SyncResult)
    requires Enumerates(order, bundle.Keys) && SyncedInOrder(before, after, order, bundle, force, hash, result)
    requires Writable(bundle, hash)
    ensures var h := SyncAll(Home(before.dirs, Loaded(before.file), NothingYet), order, bundle, force, hash);
            Loaded(after.file) == Pruned(h.manifest, bundle)
  {
    var start := Home(before.dirs, Loaded(before.file), NothingYet);
    LoadedIsSafe(before.file);
    HashesStaySafe(start, order, bundle, force, hash);
    SaveThenLoad(after.file, Pruned(SyncAll(start, order, bundle, force, hash).manifest, bundle));
  }

  lemma PrunedLookup(m: Manifest, bundle: Bundle, k: string)
    ensures Lookup(Pruned(m, bundle), k) == if k in bundle then Lookup(m, k) else None
  {
  }

  /** The slot that is read back after a run. */
  lemma SlotIsReadBack(
    before: Disk, after: Disk, order: seq<string>, bundle: Bundle, force: bool, hash: Tree -> string,
        result: SyncResult,
    k: string)
    requires Enumerates(order, bundle.Keys) && SyncedInOrder(before, after, order, bundle, force, hash, result)
    requires Writable(bundle, hash)
    ensures var h := SyncAll(Home(before.dirs, Loaded(before.file), NothingYet), order, bundle, force, hash);
            after.At(k) == Slot(Lookup(h.dirs, k), if k in bundle then Lookup(h.manifest, k) else None)
  {
    ManifestIsReadBack(before, after, order, bundle, force, hash, result);
    PrunedLookup(SyncAll(Home(before.dirs, Loaded(before.file), NothingYet), order, bundle, force, hash).manifest,
        bundle, k);
  }

  /** The whole effect of a run, through the saved manifest: every directory and every entry, bundled or not. */
  lemma SyncIsExact(
    before: Disk, after: Disk, bundle: Bundle, force: bool, hash: Tree -> string, result: SyncResult, k: string)
    requires Synced(before, after, bundle, force, hash, result) && Writable(bundle, hash) && ClashFree(bundle)
    ensures after.At(k) == SlotAfter(before, bundle, force, hash, k)
  {
    var order :| Enumerates(order, bundle.Keys) && SyncedInOrder(before, after, order, bundle, force, hash, result);
    SlotIsReadBack(before, after, order, bundle, force, hash, result, k);
    var start := Home(before.dirs, Loaded(before.file), NothingYet);
    if k in bundle {
      assert k in order;
      AllHere(start, order, bundle, force, hash, k);
    } else {
      AllElsewhere(start, order, bundle, force, hash, k);
      assert NamesIn(order) == bundle.Keys;
    }
  }

  /** The directory with the bundled SKILL.md put into it, unless a directory of that name is in the way. */
  predicate HasSkillFrom(before: Tree, after: Tree, src: Tree) {
    after == if SKILL in before.dirs then before
             else if SKILL in src.files then before.(files := before.files[SKILL := src.files[SKILL]])
             else before
  }

  /**
   A bundled skill without a directory is installed as its SKILL.md and recorded, unless there is an entry for it and
   nothing forces it: then the user has deleted it.
   */
  lemma MissingSkillExactly(
    before: Disk, after: Disk, bundle: Bundle, force: bool, hash: Tree -> string, result: SyncResult, k: string)
    requires Synced(before, after, bundle, force, hash, result) && Writable(bundle, hash) && ClashFree(bundle)
    requires k in bundle && k !in before.dirs
    ensures var entries, entries', src := Loaded(before.file), Loaded(after.file), bundle[k];
            if k in entries && !force then k !in after.dirs && k in entries' && entries'[k] == entries[k]
            else
              && k in after.dirs && HasSkillFrom(Tree({[]}, map[]), after.dirs[k], src)
              && k in entries' && entries'[k] == hash(src)
  {
    SyncIsExact(before, after, bundle, force, hash, result, k);
    SlotsByName(before, after, k);
  }

  /** One that is there without an entry is left alone if it has a SKILL.md, and else given one and recorded. */
  lemma UnrecordedSkillExactly(
    before: Disk, after: Disk, bundle: Bundle, force: bool, hash: Tree -> string, result: SyncResult, k: string)
    requires Synced(before, after, bundle, force, hash, result) && Writable(bundle, hash) && ClashFree(bundle)
    requires k in bundle && k in before.dirs && k !in Loaded(before.file)
    ensures var entries', src := Loaded(after.file), bundle[k];
            && k in after.dirs
            && if SKILL in before.dirs[k].files then after.dirs[k] == before.dirs[k] && k !in entries'
               else HasSkillFrom(before.dirs[k], after.dirs[k], src) && k in entries' && entries'[k] == hash(src)
  {
    SyncIsExact(before, after, bundle, force, hash, result, k);
    SlotsByName(before, after, k);
  }

  /** One with an entry is brought up to date exactly if the bundle is new and the directory is as it was recorded. */
  lemma RecordedSkillExactly(
    before: Disk, after: Disk, bundle: Bundle, force: bool, hash: Tree -> string, result: SyncResult, k: string)
    requires Synced(before, after, bundle, force, hash, result) && Writable(bundle, hash) && ClashFree(bundle)
    requires k in bundle && k in before.dirs && k in Loaded(before.file)
    ensures var entries, entries', src := Loaded(before.file), Loaded(after.file), bundle[k];
            var untouched := hash(before.dirs[k]) == entries[k] && entries[k] != hash(src);
            && k in after.dirs && k in entries'
            && after.dirs[k] == (if untouched then src else before.dirs[k])
            && entries'[k] == if untouched then hash(src) else entries[k]
  {
    SyncIsExact(before, after, bundle, force, hash, result, k);
    SlotsByName(before, after, k);
  }

  lemma SlotsByName(before: Disk, after: Disk, k: string)
    ensures before.At(k) == Slot(Lookup(before.dirs, k), Lookup(Loaded(before.file), k))
    ensures after.At(k) == Slot(Lookup(after.dirs, k), Lookup(Loaded(after.file), k))
  {
  }

  /** A user's directory disappears exactly when it is not bundled and in the way of a backup. */
  lemma OnlyBackupsDisappear(
    before: Disk, after: Disk, bundle: Bundle, force: bool, hash: Tree -> string, result: SyncResult, k: string)
    requires Synced(before, after, bundle, force, hash, result) && Writable(bundle, hash) && ClashFree(bundle)
    requires k in before.dirs
    ensures k !in after.dirs <==>
              k !in bundle && UsedAsBackup(before.dirs, Loaded(before.file), bundle.Keys, bundle, hash, k)
  {
    SyncIsExact(before, after, bundle, force, hash, result, k);
    TreeStays(before, bundle, force, hash, k);
  }

  lemma TreeStays(d: Disk, bundle: Bundle, force: bool, hash: Tree -> string, k: string)
    requires k in d.dirs
    ensures SlotAfter(d, bundle, force, hash, k).tree.Some? <==>
              k in bundle || !UsedAsBackup(d.dirs, Loaded(d.file), bundle.Keys, bundle, hash, k)
    ensures k !in bundle && SlotAfter(d, bundle, force, hash, k).tree.Some? ==>
              SlotAfter(d, bundle, force, hash, k).tree == Some(d.dirs[k])
  {
  }

  /**
   A user's directory that is still there has changed only if the bundle has a new version and the directory is what
   was recorded, or if it has neither an entry nor a SKILL.md.
   */
  lemma OnlyUntouchedSkillsChange(
    before: Disk, after: Disk, bundle: Bundle, force: bool, hash: Tree -> string, result: SyncResult, k: string)
    requires Synced(before, after, bundle, force, hash, result) && Writable(bundle, hash) && ClashFree(bundle)
    requires k in before.dirs && k in after.dirs && after.dirs[k] != before.dirs[k]
    ensures k in bundle
    ensures k in Loaded(before.file) ==>
              hash(before.dirs[k]) == Loaded(before.file)[k] != hash(bundle[k]) && after.dirs[k] == bundle[k]
    ensures k !in Loaded(before.file) ==>
              SKILL !in before.dirs[k].files && after.dirs[k] == WithSkill(before.dirs[k], bundle[k].files[SKILL])
  {
    SyncIsExact(before, after, bundle, force, hash, result, k);
    var slot := before.At(k);
    assert slot == Slot(Some(before.dirs[k]), Lookup(Loaded(before.file), k))
        && after.At(k).tree == Some(after.dirs[k]);
    TreeStays(before, bundle, force, hash, k);
    OnlyTwoDecisionsChange(slot, bundle[k], force, hash);
  }

  /** Which decisions change a tree that is there. */
  lemma OnlyTwoDecisionsChange(slot: Slot, src: Tree, force: bool, hash: Tree -> string)
    requires SKILL in src.files && slot.tree.Some? && Decide(slot, src, force, hash).tree != slot.tree
    ensures slot.recorded.Some? ==>
              hash(slot.tree.value) == slot.recorded.value != hash(src)
                  && Decide(slot, src, force, hash).tree == Some(src)
    ensures slot.recorded.None? ==>
              SKILL !in slot.tree.value.files
              && Decide(slot, src, force, hash).tree == Some(WithSkill(slot.tree.value, src.files[SKILL]))
  {
  }

  /** A second run over the same bundle changes neither directories nor manifest. */
  lemma SyncIsIdempotent(
    d0: Disk, d1: Disk, d2: Disk, bundle: Bundle, force: bool, hash: Tree -> string, r1: SyncResult, r2: SyncResult)
    requires Synced(d0, d1, bundle, force, hash, r1) && Synced(d1, d2, bundle, force, hash, r2)
    requires Writable(bundle, hash) && ClashFree(bundle)
    ensures d2.dirs == d1.dirs && Loaded(d2.file) == Loaded(d1.file)
  {
    forall k ensures d2.At(k) == d1.At(k) {
      SecondRunKeeps(d0, d1, d2, bundle, force, hash, r1, r2, k);
    }
    SameSlots(d1, d2);
  }

  lemma SameSlots(d: Disk, e: Disk)
    requires forall k :: e.At(k) == d.At(k)
    ensures e.dirs == d.dirs && Loaded(e.file) == Loaded(d.file)
  {
    forall k ensures Lookup(e.dirs, k) == Lookup(d.dirs, k) && Lookup(Loaded(e.file), k) == Lookup(Loaded(d.file), k) {
      assert e.At(k) == d.At(k);
    }
    SameMap(d.dirs, e.dirs);
    SameMap(Loaded(d.file), Loaded(e.file));
  }

  lemma SameMap<T>(m: map<string, T>, n: map<string, T>)
    requires forall k :: Lookup(n, k) == Lookup(m, k)
    ensures n == m
  {
    forall k ensures (k in n <==> k in m) && (k in m ==> n[k] == m[k]) {
      assert Lookup(n, k) == Lookup(m, k);
    }
  }

  /** A slot that was just brought up to date stays as it is. */
  lemma DecidedIsSettled(slot: Slot, src: Tree, force: bool, hash: Tree -> string)
    requires SKILL in src.files
    ensures var s := Decide(slot, src, force, hash); Decide(s, src, force, hash) == s && !Replaces(s, src, hash)
  {
  }

  lemma NothingLeftToReplace(
    d0: Disk, d1: Disk, bundle: Bundle, force: bool, hash: Tree -> string, result: SyncResult, k: string)
    requires Synced(d0, d1, bundle, force, hash, result) && Writable(bundle, hash) && ClashFree(bundle)
    ensures !UsedAsBackup(d1.dirs, Loaded(d1.file), bundle.Keys, bundle, hash, k)
  {
    forall n | n in bundle ensures !Replaces(d1.At(n), bundle[n], hash) {
      SyncIsExact(d0, d1, bundle, force, hash, result, n);
      DecidedIsSettled(d0.At(n), bundle[n], force, hash);
    }
  }

  lemma SecondRunKeeps(
    d0: Disk, d1: Disk, d2: Disk, bundle: Bundle, force: bool, hash: Tree -> string,
    r1: SyncResult, r2: SyncResult, k: string)
    requires Synced(d0, d1, bundle, force, hash, r1) && Synced(d1, d2, bundle, force, hash, r2)
    requires Writable(bundle, hash) && ClashFree(bundle)
    ensures d2.At(k) == d1.At(k)
  {
    SyncIsExact(d0, d1, bundle, force, hash, r1, k);
    SyncIsExact(d1, d2, bundle, force, hash, r2, k);
    if k in bundle {
      DecidedIsSettled(d0.At(k), bundle[k], force, hash);
    } else {
      NothingLeftToReplace(d0, d1, bundle, force, hash, r1, k);
    }
  }

  /** `k` is listed as added or updated exactly when its slot, once `slot`, was written. */
  predicate Told(r: SyncResult, slot: Slot, k: string, written: bool) {
    && (k in r.added <==> written && slot.tree.None?)
    && (k in r.updated <==> written && slot.tree.Some?)
  }

  /** The report lists as added or updated exactly the skills whose directory or entry was written. */
  lemma {:induction false} ReportTells(
    h: Home, order: seq<string>, bundle: Bundle, force: bool, hash: Tree -> string, k: string)
    requires forall name | name in order :: name in bundle && BackupName(name) != k
    requires forall n, m | 0 <= n < m < |order| :: order[n] != order[m]
    requires h.result == NothingYet
    ensures var slot := SlotOf(h.dirs, h.manifest, k);
            Told(SyncAll(h, order, bundle, force, hash).result, slot, k,
                 k in order && Decide(slot, bundle[k], force, hash) != slot)
  {
    if order != [] {
      var n := |order| - 1;
      var slot := SlotOf(h.dirs, h.manifest, k);
      var before := SyncAll(h, order[..n], bundle, force, hash);
      ReportTells(h, order[..n], bundle, force, hash, k);
      AllHere(h, order[..n], bundle, force, hash, k);
      if k == order[n] {
        assert k !in order[..n];
        ReportHere(before, slot, bundle[k], force, hash, k);
      } else {
        assert k in order <==> k in order[..n];
        ReportElsewhere(before, order[n], bundle[order[n]], force, hash, k);
      }
    }
  }

  lemma ReportHere(h: Home, slot: Slot, src: Tree, force: bool, hash: Tree -> string, k: string)
    requires SKILL in src.files && BackupName(k) != k && slot == SlotOf(h.dirs, h.manifest, k)
    requires Told(h.result, slot, k, false)
    ensures Told(SyncOne(h, k, src, force, hash).result, slot, k, Decide(slot, src, force, hash) != slot)
  {
  }

  lemma ReportElsewhere(h: Home, name: string, src: Tree, force: bool, hash: Tree -> string, k: string)
    requires SKILL in src.files && name != k
    ensures var r := SyncOne(h, name, src, force, hash).result;
            (k in r.added <==> k in h.result.added) && (k in r.updated <==> k in h.result.updated)
  {
  }

  /** Why a skill was skipped, if it was. */
  function SkipNote(slot: Slot, src: Tree, force: bool, hash: Tree -> string): Option<string> {
    match slot
    case Slot(None, Some(_)) => if force then None else Some(" (deleted by user)")
    case Slot(None, None) => None
    case Slot(Some(tree), None) => if SKILL in tree.files then Some(" (no manifest entry)") else None
    case Slot(Some(tree), Some(recorded)) =>
      if recorded == hash(src) then Some("") else if recorded != hash(tree) then Some(" (user modified)") else None
  }

  /** Every round makes exactly one entry in the report, under its own name, and says why a skill was skipped. */
  lemma RoundIsReported(h: Home, name: string, src: Tree, force: bool, hash: Tree -> string)
    requires SKILL in src.files && BackupName(name) != name
    ensures var slot := SlotOf(h.dirs, h.manifest, name);
            var note := SkipNote(slot, src, force, hash);
            SyncOne(h, name, src, force, hash).result ==
              if note.Some? then h.result.(skipped := h.result.skipped + [name + note.value])
              else if slot.tree.None? then h.result.(added := h.result.added + [name])
              else h.result.(updated := h.result.updated + [name])
  {
  }

  function Reported(r: SyncResult): nat {
    |r.added| + |r.updated| + |r.skipped|
  }

  lemma OneMoreReported(h: Home, name: string, src: Tree, force: bool, hash: Tree -> string)
    requires SKILL in src.files
    ensures Reported(SyncOne(h, name, src, force, hash).result) == Reported(h.result) + 1
  {
  }

  /** So over a whole run every bundled skill is reported once. */
  lemma {:induction false} EverySkillIsReportedOnce(
    h: Home, order: seq<string>, bundle: Bundle, force: bool, hash: Tree -> string)
    requires (forall name | name in order :: name in bundle) && h.result == NothingYet
    ensures Reported(SyncAll(h, order, bundle, force, hash).result) == |order|
  {
    if order != [] {
      var n := |order| - 1;
      EverySkillIsReportedOnce(h, order[..n], bundle, force, hash);
      OneMoreReported(SyncAll(h, order[..n], bundle, force, hash), order[n], bundle[order[n]], force, hash);
    }
  }

  /** An untouched skill that is its own backup is deleted by the very run that should update it. */
  lemma OwnBackupIsLost(h: Home, name: string, src: Tree, force: bool, hash: Tree -> string)
    requires SKILL in src.files && |name| > 4 && name[|name| - 4..] == ".bak"
    requires Replaces(SlotOf(h.dirs, h.manifest, name), src, hash)
    ensures SyncOne(h, name, src, force, hash).dirs == h.dirs - {name}
  {
    OwnBackupExactly(name);
  }

  /**
   Two bundled skills of which one is named like the other's backup: an update of the first costs the second its
   directory, in whatever order the two are taken. What was in it, even the user's own version, is gone; at best a new
   SKILL.md is installed.
   */
  lemma BackupClashLosesTheDirectory(h: Home, n: string, k: string, bundle: Bundle, force: bool, hash: Tree -> string)
    requires n in bundle && k in bundle && BackupName(n) == k && n != k
    requires BackupName(k) == k && Replaces(SlotOf(h.dirs, h.manifest, n), bundle[n], hash)
    requires k in h.dirs
    ensures var nFirst := SyncOne(SyncOne(h, n, bundle[n], force, hash), k, bundle[k], force, hash);
            Lookup(nFirst.dirs, k)
            == if k in h.manifest && !force then None else Some(WithSkill(EmptyTree, bundle[k].files[SKILL]))
    ensures var kFirst := SyncOne(SyncOne(h, k, bundle[k], force, hash), n, bundle[n], force, hash); k !in kFirst.dirs
  {
    OneElsewhere(h, n, bundle[n], force, hash, k);
    OneElsewhere(h, k, bundle[k], force, hash, n);
    OneElsewhere(SyncOne(h, k, bundle[k], force, hash), n, bundle[n], force, hash, k);
  }

  /**
   A name that serves another skill as backup is its own backup, so that the clash above is the only kind there is.
   */
  lemma BackupIsItsOwn(n: string)
    requires n != ""
    ensures BackupName(BackupName(n)) == BackupName(n)
  {
    LastDotIsLast(n);
    var b := BackupName(n);
    assert |b| > 4 && b[|b| - 4..] == ".bak";
    OwnBackupExactly(b);
  }

  // ----- many runs, each with a bundle of its own -----

  datatype Release = Release(bundle: Bundle, force: bool)

  /** Run `i` takes the disk from `ds[i]` to `ds[i + 1]`. */
  ghost predicate History(ds: seq<Disk>, rs: seq<Release>, hash: Tree -> string) {
    |ds| == |rs| + 1 && forall i | 0 <= i < |rs| :: RunTakes(ds, rs, hash, i)
  }

  ghost predicate RunTakes(ds: seq<Disk>, rs: seq<Release>, hash: Tree -> string, i: int)
    requires 0 <= i < |rs| < |ds|
  {
    Takes(ds[i], ds[i + 1], rs[i], hash)
  }

  ghost predicate Takes(d: Disk, e: Disk, release: Release, hash: Tree -> string) {
    && Writable(release.bundle, hash) && ClashFree(release.bundle)
    && exists result :: Synced(d, e, release.bundle, release.force, hash, result)
  }

  lemma RunIsExact(d: Disk, e: Disk, release: Release, hash: Tree -> string, k: string)
    requires Takes(d, e, release, hash)
    ensures e.At(k) == SlotAfter(d, release.bundle, release.force, hash, k)
  {
    var result :| Synced(d, e, release.bundle, release.force, hash, result);
    SyncIsExact(d, e, release.bundle, release.force, hash, result, k);
  }

  /** The user's own version: a SKILL.md that is not what the manifest recorded, if it recorded anything. */
  predicate UsersOwn(slot: Slot, hash: Tree -> string) {
    && slot.tree.Some? && SKILL in slot.tree.value.files
    && (slot.recorded.Some? ==> hash(slot.tree.value) != slot.recorded.value)
  }

  lemma DecisionKeepsUsersOwn(slot: Slot, src: Tree, force: bool, hash: Tree -> string)
    requires SKILL in src.files && UsersOwn(slot, hash)
    ensures Decide(slot, src, force, hash) == slot
  {
  }

  lemma SlotKeepsUsersOwn(d: Disk, bundle: Bundle, force: bool, hash: Tree -> string, k: string)
    requires UsersOwn(d.At(k), hash) && forall n | n in bundle :: BackupName(n) != k
    ensures UsersOwn(SlotAfter(d, bundle, force, hash, k), hash)
    ensures SlotAfter(d, bundle, force, hash, k).tree == d.At(k).tree
  {
    if k in bundle {
      DecisionKeepsUsersOwn(d.At(k), bundle[k], force, hash);
    } else {
      assert !UsedAsBackup(d.dirs, Loaded(d.file), bundle.Keys, bundle, hash, k);
    }
  }

  lemma RunKeepsUsersOwn(d: Disk, e: Disk, release: Release, hash: Tree -> string, k: string)
    requires Takes(d, e, release, hash) && UsersOwn(d.At(k), hash)
    requires forall n | n in release.bundle :: BackupName(n) != k
    ensures UsersOwn(e.At(k), hash) && e.At(k).tree == d.At(k).tree
  {
    RunIsExact(d, e, release, hash, k);
    SlotKeepsUsersOwn(d, release.bundle, release.force, hash, k);
  }

  lemma RunOfHistoryKeepsUsersOwn(ds: seq<Disk>, rs: seq<Release>, hash: Tree -> string, k: string, i: nat)
    requires History(ds, rs, hash) && i < |rs| && UsersOwn(ds[i].At(k), hash)
    requires forall n | n in rs[i].bundle :: BackupName(n) != k
    ensures UsersOwn(ds[i + 1].At(k), hash) && ds[i + 1].At(k).tree == ds[i].At(k).tree
  {
    assert RunTakes(ds, rs, hash, i);
    RunKeepsUsersOwn(ds[i], ds[i + 1], rs[i], hash, k);
  }

  /** However many releases are synchronised, the user's own version stays as it is. */
  lemma {:induction false} UsersOwnIsKeptForEver(
    ds: seq<Disk>, rs: seq<Release>, hash: Tree -> string, k: string, i: nat)
    requires History(ds, rs, hash) && i <= |rs| && UsersOwn(ds[0].At(k), hash)
    requires forall j, n | 0 <= j < |rs| && n in rs[j].bundle :: BackupName(n) != k
    ensures UsersOwn(ds[i].At(k), hash) && ds[i].At(k).tree == ds[0].At(k).tree
  {
    if i > 0 {
      UsersOwnIsKeptForEver(ds, rs, hash, k, i - 1);
      RunOfHistoryKeepsUsersOwn(ds, rs, hash, k, i - 1);
    }
  }

  /** Equal hashes mean equal visible files. */
  ghost predicate Distinguishes(hash: Tree -> string) {
    forall t: Tree, u: Tree :: hash(t) == hash(u) <==> t.Visible() == u.Visible()
  }

  /**
   A new skill arrives as its SKILL.md only, under the hash of the whole tree: exactly when the bundled skill has
   further files, what was installed already counts as the user's own version, so that it never gets them.
   */
  lemma PartialInstallIsNeverCompleted(slot: Slot, src: Tree, force: bool, hash: Tree -> string)
    requires src.Valid() && SKILL in src.files && Distinguishes(hash)
    requires slot.tree.None? && (slot.recorded.None? || force)
    ensures UsersOwn(Decide(slot, src, force, hash), hash) <==> exists p :: p in src.Visible() && p != SKILL
  {
    var t := WithSkill(EmptyTree, src.files[SKILL]);
    assert SKILL[|SKILL| - 1] == "SKILL.md" != ".bundled_manifest";
    assert SKILL in src.Visible() && SKILL in t.Visible();
    assert forall p :: p in t.Visible() <==> p == SKILL;
    if !exists p :: p in src.Visible() && p != SKILL {
      assert src.Visible() == t.Visible();
    }
    assert hash(t) == hash(src) <==> t.Visible() == src.Visible();
  }

  /** Installed as recorded. */
  predicate Tracked(slot: Slot, hash: Tree -> string) {
    slot.tree.Some? && slot.recorded == Some(hash(slot.tree.value))
  }

  lemma TrackedFollows(slot: Slot, src: Tree, force: bool, hash: Tree -> string)
    requires SKILL in src.files && Tracked(slot, hash)
    ensures Decide(slot, src, force, hash).recorded == Some(hash(src)) && Tracked(Decide(slot, src, force, hash), hash)
  {
  }

  /** The slots of one skill that every release ships, run by run. */
  predicate Decisions(slots: seq<Slot>, rs: seq<Release>, hash: Tree -> string, k: string) {
    && |slots| == |rs| + 1
    && forall i {:trigger rs[i]} | 0 <= i < |rs| ::
         k in rs[i].bundle && slots[i + 1] == Decide(slots[i], rs[i].bundle[k], rs[i].force, hash)
  }

  /** The entry is the hash of the release's own tree. */
  predicate RecordedFrom(slot: Slot, release: Release, k: string, hash: Tree -> string) {
    k in release.bundle && slot.recorded == Some(hash(release.bundle[k]))
  }

  lemma {:induction false} StaysTracked(slots: seq<Slot>, rs: seq<Release>, hash: Tree -> string, k: string, i: nat)
    requires Decisions(slots, rs, hash, k) && i <= |rs| && Tracked(slots[0], hash)
    ensures Tracked(slots[i], hash)
    ensures i > 0 ==> RecordedFrom(slots[i], rs[i - 1], k, hash)
  {
    if i > 0 {
      StaysTracked(slots, rs, hash, k, i - 1);
      TrackedFollows(slots[i - 1], rs[i - 1].bundle[k], rs[i - 1].force, hash);
    }
  }

  function SlotsOf(ds: seq<Disk>, k: string): seq<Slot> {
    seq(|ds|, n requires 0 <= n < |ds| => ds[n].At(k))
  }

  lemma RunDecides(ds: seq<Disk>, rs: seq<Release>, hash: Tree -> string, k: string, i: nat)
    requires History(ds, rs, hash) && i < |rs| && k in rs[i].bundle
    ensures ds[i + 1].At(k) == Decide(ds[i].At(k), rs[i].bundle[k], rs[i].force, hash)
  {
    assert RunTakes(ds, rs, hash, i);
    RunIsExact(ds[i], ds[i + 1], rs[i], hash, k);
  }

  lemma HistoryDecides(ds: seq<Disk>, rs: seq<Release>, hash: Tree -> string, k: string)
    requires History(ds, rs, hash) && forall j | 0 <= j < |rs| :: k in rs[j].bundle
    ensures Decisions(SlotsOf(ds, k), rs, hash, k)
  {
    var slots := SlotsOf(ds, k);
    forall i {:trigger rs[i]} | 0 <= i < |rs|
      ensures k in rs[i].bundle && slots[i + 1] == Decide(slots[i], rs[i].bundle[k], rs[i].force, hash)
    {
      RunDecides(ds, rs, hash, k, i);
    }
  }

  /** A skill the user leaves alone follows the bundle: after every run it shows the files of that run's release. */
  lemma TrackedSkillFollows(ds: seq<Disk>, rs: seq<Release>, hash: Tree -> string, k: string, i: nat)
    requires History(ds, rs, hash) && 0 < i <= |rs| && Tracked(ds[0].At(k), hash) && Distinguishes(hash)
    requires forall j | 0 <= j < |rs| :: k in rs[j].bundle
    ensures ds[i].At(k).tree.Some? && ds[i].At(k).tree.value.Visible() == rs[i - 1].bundle[k].Visible()
  {
    HistoryDecides(ds, rs, hash, k);
    StaysTracked(SlotsOf(ds, k), rs, hash, k, i);
    TrackedShowsRelease(ds[i].At(k), rs[i - 1], k, hash);
  }

  lemma TrackedShowsRelease(slot: Slot, release: Release, k: string, hash: Tree -> string)
    requires Tracked(slot, hash) && RecordedFrom(slot, release, k, hash) && Distinguishes(hash)
    ensures slot.tree.value.Visible() == release.bundle[k].Visible()
  {
    SameHashSameFiles(slot.tree.value, release.bundle[k], hash);
  }

  lemma SameHashSameFiles(t: Tree, u: Tree, hash: Tree -> string)
    requires Distinguishes(hash) && hash(t) == hash(u)
    ensures t.Visible() == u.Visible()
  {
  }
}
