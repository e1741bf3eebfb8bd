/** Naming and limits of objectives kept in files (`agent/goal/src/objective_file.rs`). */
module ObjectiveFile {
  import opened Wrappers
  import opened Text
  import opened GoalTypes

  const OBJECTIVE_INLINE_LIMIT_CHARS := 4000
  const MAX_FILE_OBJECTIVE_CHARS := 1_000_000
  const INLINE_MARKER_PREFIX := "@file:"

  predicate IsSafeNameChar(c: char) {
    'a' <= c <= 'z' || 'A' <= c <= 'Z' || '0' <= c <= '9' || c == '-' || c == '_' || c == '.'
  }

  /** Replaces every character that is not safe in a file name by an underscore. */
  function Sanitize(s: string): (r: string)
    ensures |r| == |s|
    ensures forall i | 0 <= i < |s| :: r[i] == if IsSafeNameChar(s[i]) then s[i] else '_'
  {
    if s == "" then "" else [if IsSafeNameChar(s[0]) then s[0] else '_'] + Sanitize(s[1..])
  }

  function FileNameFor(thread: ThreadId): string {
    Sanitize(thread) + ".md"
  }

  function MarkerFor(thread: ThreadId): string {
    INLINE_MARKER_PREFIX + FileNameFor(thread)
  }

  predicate IsFileBacked(objective: string) {
    INLINE_MARKER_PREFIX <= objective
  }

  function MarkerFileName(objective: string): Option<string> {
    if IsFileBacked(objective) then Some(objective[|INLINE_MARKER_PREFIX|..]) else None
  }

  /** Too many characters for the row, or too many bytes. */
  predicate NeedsFileBacking(objective: string) {
    |objective| > OBJECTIVE_INLINE_LIMIT_CHARS || Utf8Length(objective) > MAX_OBJECTIVE_LEN
  }

  /** The text a reader gets for a stored objective; without a directory or a file it is the stored text itself. */
  function Resolve(objective: string, files: Option<map<string, string>>): string {
    var name := MarkerFileName(objective);
    if name.Some? && files.Some? && name.value in files.value then files.value[name.value] else objective
  }

  lemma MarkerNamesItsFile(thread: ThreadId)
    ensures MarkerFileName(MarkerFor(thread)) == Some(FileNameFor(thread))
    ensures Trim(MarkerFor(thread)) == MarkerFor(thread)
  {
    var m := MarkerFor(thread);
    assert m[0] == '@' && m[|m| - 1] == FileNameFor(thread)[|FileNameFor(thread)| - 1] == ".md"[2];
    assert IsTrimmed(m);
    var _, _ := TrimCuts(m);
    assert m[|INLINE_MARKER_PREFIX|..] == FileNameFor(thread);
  }

  /** Who reads a stored objective gets the file behind a marker if there is one, and else what is stored. */
  lemma ResolvesExactly(objective: string, name: string, files: Option<map<string, string>>)
    ensures objective == INLINE_MARKER_PREFIX + name && files.Some? && name in files.value ==>
              Resolve(objective, files) == files.value[name]
    ensures files.None? || !(INLINE_MARKER_PREFIX <= objective) ==> Resolve(objective, files) == objective
    ensures objective == INLINE_MARKER_PREFIX + name && files.Some? && name !in files.value ==>
              Resolve(objective, files) == objective
  {
    assert (INLINE_MARKER_PREFIX + name)[|INLINE_MARKER_PREFIX|..] == name;
  }
}
