/**
 The text form of the manifest of bundled skills (`load_manifest` and `save_manifest` in `agent/skill/src/sync.rs`).
 The source sorts the lines; here they may come in any order.
 */
module SkillManifest {
  import opened Wrappers
  import opened Text

  type Manifest = map<string, string>

  /** Index of the first `c` at or after `i`, or the length. */
  function Find(s: string, c: char, i: nat): nat
    requires i <= |s|
    decreases |s| - i
  {
    if i == |s| || s[i] == c then i else Find(s, c, i + 1)
  }

  lemma {:induction false} FindFinds(s: string, c: char, i: nat)
    requires i <= |s|
    ensures i <= Find(s, c, i) <= |s|
    ensures forall j | i <= j < Find(s, c, i) :: s[j] != c
    ensures Find(s, c, i) < |s| ==> s[Find(s, c, i)] == c
    decreases |s| - i
  {
    if i < |s| && s[i] != c {
      FindFinds(s, c, i + 1);
    }
  }

  /** The first `c` of `a + c + b` is the one shown, when `a` has none. */
  lemma {:induction false} FindSplits(a: string, c: char, b: string, i: nat)
    requires c !in a && i <= |a|
    ensures Find(a + [c] + b, c, i) == |a|
    decreases |a| - i
  {
    if i < |a| {
      assert (a + [c] + b)[i] == a[i];
      FindSplits(a, c, b, i + 1);
    }
  }

  /**
   The pieces between line feeds. `str::lines` also drops a carriage return and a last empty piece; both vanish in
   `Parse`.
   */
  function Lines(text: string): seq<string>
    decreases |text|
  {
    FindFinds(text, '\n', 0);
    var i := Find(text, '\n', 0);
    if i == |text| then [text] else [text[..i]] + Lines(text[i + 1..])
  }

  function Join(lines: seq<string>): string {
    if lines == [] then "" else if |lines| == 1 then lines[0] else lines[0] + ['\n'] + Join(lines[1..])
  }

  lemma {:induction false} LinesOfJoin(lines: seq<string>)
    requires lines != [] && forall n | 0 <= n < |lines| :: '\n' !in lines[n]
    ensures Lines(Join(lines)) == lines
  {
    var text := Join(lines);
    FindFinds(text, '\n', 0);
    if |lines| == 1 {
      assert Find(text, '\n', 0) == |text|;
    } else {
      var rest := lines[1..];
      LinesOfJoin(rest);
      FindSplits(lines[0], '\n', Join(rest), 0);
      assert text[..|lines[0]|] == lines[0] && text[|lines[0]| + 1..] == Join(rest);
    }
  }

  lemma {:induction false} NoLineFeedInLines(text: string, n: nat)
    requires n < |Lines(text)|
    ensures '\n' !in Lines(text)[n]
    decreases |text|
  {
    FindFinds(text, '\n', 0);
    var i := Find(text, '\n', 0);
    if i < |text| && n > 0 {
      NoLineFeedInLines(text[i + 1..], n - 1);
    }
  }

  datatype Entry = Entry(name: string, hash: string)

  /** One line of the file: blank lines, comments and lines without a colon carry nothing. */
  function Parse(line: string): Option<Entry> {
    var l := Trim(line);
    if l == "" || l[0] == '#' then None
    else
      FindFinds(l, ':', 0);
      var i := Find(l, ':', 0);
      if i == |l| then None else Some(Entry(l[..i], l[i + 1..]))
  }

  function Added(m: Manifest, e: Option<Entry>): Manifest {
    if e.Some? then m[e.value.name := e.value.hash] else m
  }

  /** A later line overrides an earlier one for the same name. */
  function Collect(lines: seq<string>): Manifest {
    if lines == [] then map[] else Added(Collect(lines[..|lines| - 1]), Parse(lines[|lines| - 1]))
  }

  function Loaded(file: Option<string>): Manifest {
    if file.None? then map[] else Collect(Lines(file.value))
  }

  method LoadManifest(file: Option<string>) returns (m: Manifest)
    ensures m == Loaded(file)
  {
    m := map[];
    if file.None? {
      return;
    }
    var lines := Lines(file.value);
    for n := 0 to |lines|
      invariant m == Collect(lines[..n])
    {
      assert lines[..n + 1][..n] == lines[..n];
      var e := Parse(lines[n]);
      if e.Some? {
        m := m[e.value.name := e.value.hash];
      }
    }
    assert lines[..|lines|] == lines;
  }

  /** Each element of `s` exactly once. */
  predicate Enumerates(order: seq<string>, s: set<string>) {
    && (forall n, m | 0 <= n < m < |order| :: order[n] != order[m])
    && (forall n | 0 <= n < |order| :: order[n] in s)
    && (forall x | x in s :: x in order)
  }

  function Line(m: Manifest, name: string): string
    requires name in m
  {
    name + [':'] + m[name]
  }

  function LinesOf(order: seq<string>, m: Manifest): seq<string>
    requires Enumerates(order, m.Keys)
  {
    seq(|order|, n requires 0 <= n < |order| => Line(m, order[n]))
  }

  function Body(order: seq<string>, m: Manifest): string
    requires Enumerates(order, m.Keys)
  {
    Join(LinesOf(order, m))
  }

  /** `file` lists the entries of `m`, in some order. */
  ghost predicate SavedAs(file: Option<string>, m: Manifest) {
    exists order :: Enumerates(order, m.Keys) && file == Some(Body(order, m))
  }

  /** A name that survives being written as the left part of a line. */
  predicate SafeName(name: string) {
    && '\n' !in name && ':' !in name
    && (name == "" || (!IsWhitespace(name[0]) && name[0] != '#'))
  }

  /** So does a hash; hexadecimal digits always do. */
  predicate SafeHash(hash: string) {
    '\n' !in hash && (hash == "" || !IsWhitespace(hash[|hash| - 1]))
  }

  predicate SafeHashes(m: Manifest) {
    forall name | name in m :: SafeHash(m[name])
  }

  predicate SafeNames(m: Manifest) {
    forall name | name in m :: SafeName(name)
  }

  lemma LineParses(m: Manifest, name: string)
    requires name in m && SafeName(name) && SafeHash(m[name])
    ensures Parse(Line(m, name)) == Some(Entry(name, m[name])) && '\n' !in Line(m, name)
  {
    var l := Line(m, name);
    assert l[|name|] == ':';
    assert name != "" ==> l[0] == name[0];
    assert m[name] != "" ==> l[|l| - 1] == m[name][|m[name]| - 1];
    var _, _ := TrimCuts(l);
    FindSplits(name, ':', m[name], 0);
    assert l[..|name|] == name && l[|name| + 1..] == m[name];
  }

  /** The part of a trimmed line before its first colon. */
  lemma NamePartIsSafe(l: string, i: nat)
    requires '\n' !in l && IsTrimmed(l) && l != "" && l[0] != '#' && i <= |l| && forall j | 0 <= j < i :: l[j] != ':'
    ensures SafeName(l[..i])
  {
    assert forall c | c in l[..i] :: c in l;
  }

  /** The part after it. */
  lemma HashPartIsSafe(l: string, i: nat)
    requires '\n' !in l && IsTrimmed(l) && i < |l|
    ensures SafeHash(l[i + 1..])
  {
    assert forall c | c in l[i + 1..] :: c in l;
    assert i + 1 < |l| ==> l[i + 1..][|l| - i - 2] == l[|l| - 1];
  }

  lemma TrimmedHasNoLineFeed(line: string)
    requires '\n' !in line
    ensures '\n' !in Trim(line) && IsTrimmed(Trim(line))
  {
    var a, b := TrimCuts(line);
    assert forall c | c in line[a..b] :: c in line;
  }

  /** Whatever a line says, the name and the hash taken from it are safe. */
  lemma ParsedIsSafe(line: string)
    requires '\n' !in line
    ensures Parse(line).Some? ==> SafeName(Parse(line).value.name) && SafeHash(Parse(line).value.hash)
  {
    TrimmedHasNoLineFeed(line);
    var l := Trim(line);
    FindFinds(l, ':', 0);
    if Parse(line).Some? {
      NamePartIsSafe(l, Find(l, ':', 0));
      HashPartIsSafe(l, Find(l, ':', 0));
    }
  }

  lemma {:induction false} CollectedIsSafe(lines: seq<string>)
    requires forall n | 0 <= n < |lines| :: '\n' !in lines[n]
    ensures SafeNames(Collect(lines)) && SafeHashes(Collect(lines))
  {
    if lines != [] {
      CollectedIsSafe(lines[..|lines| - 1]);
      ParsedIsSafe(lines[|lines| - 1]);
    }
  }

  /** Every manifest that was read from a file is safe to write again. */
  lemma LoadedIsSafe(file: Option<string>)
    ensures SafeNames(Loaded(file)) && SafeHashes(Loaded(file))
  {
    if file.Some? {
      forall n | 0 <= n < |Lines(file.value)| ensures '\n' !in Lines(file.value)[n] {
        NoLineFeedInLines(file.value, n);
      }
      CollectedIsSafe(Lines(file.value));
    }
  }

  lemma {:induction false} CollectOfLines(lines: seq<string>, order: seq<string>, m: Manifest)
    requires |lines| == |order| && SafeNames(m) && SafeHashes(m)
    requires forall n | 0 <= n < |order| :: order[n] in m && lines[n] == Line(m, order[n])
    ensures Collect(lines) == map name | name in order :: m[name]
  {
    if lines != [] {
      var k := |lines| - 1;
      CollectOfLines(lines[..k], order[..k], m);
      LineParses(m, order[k]);
      assert order == order[..k] + [order[k]];
    }
  }

  lemma EmptyLoads(text: string)
    requires text == ""
    ensures Loaded(Some(text)) == map[]
  {
    var lines := Lines(text);
    assert lines == [text];
    assert Parse(lines[0]).None?;
    assert Collect(lines[..0]) == map[];
  }

  lemma BodyLoads(order: seq<string>, m: Manifest)
    requires Enumerates(order, m.Keys) && SafeNames(m) && SafeHashes(m)
    ensures Loaded(Some(Body(order, m))) == m
  {
    var lines := LinesOf(order, m);
    if lines == [] {
      EmptyLoads(Body(order, m));
    } else {
      forall n | 0 <= n < |lines| ensures '\n' !in lines[n] {
        LineParses(m, order[n]);
      }
      LinesOfJoin(lines);
      CollectOfLines(lines, order, m);
    }
  }

  /** The text round trip, on exactly the manifests whose names are all safe. */
  lemma SaveThenLoad(file: Option<string>, m: Manifest)
    requires SavedAs(file, m) && SafeHashes(m)
    ensures Loaded(file) == m <==> SafeNames(m)
  {
    if SafeNames(m) {
      var order :| Enumerates(order, m.Keys) && file == Some(Body(order, m));
      BodyLoads(order, m);
    } else {
      LoadedIsSafe(file);
    }
  }

  method SaveManifest(m: Manifest) returns (body: string)
    ensures SavedAs(Some(body), m)
  {
    var order := Enumerate(m.Keys);
    body := Body(order, m);
  }

  /** The keys of a map in whatever order the hash map gives them. */
  method Enumerate(s: set<string>) returns (order: seq<string>)
    ensures Enumerates(order, s)
  {
    order := [];
    var rest := s;
    while rest != {}
      invariant rest <= s && Enumerates(order, s - rest)
      decreases |rest|
    {
      var x :| x in rest;
      rest := rest - {x};
      order := order + [x];
    }
  }

  // ----- what a file says -----

  /** A line is an entry exactly if, without surrounding blanks, it is no comment and has a colon: the first one. */
  lemma ParsesExactly(line: string, name: string, hash: string)
    ensures Parse(line) == Some(Entry(name, hash)) <==>
              Trim(line) == name + [':'] + hash && ':' !in name && (name == "" || name[0] != '#')
  {
    var l := Trim(line);
    FindFinds(l, ':', 0);
    var i := Find(l, ':', 0);
    if l == name + [':'] + hash && ':' !in name {
      FindSplits(name, ':', hash, 0);
      assert l[..|name|] == name && l[|name| + 1..] == hash;
      assert name != "" ==> l[0] == name[0];
    }
    if Parse(line) == Some(Entry(name, hash)) {
      assert l == l[..i] + [l[i]] + l[i + 1..];
      assert forall c | c in l[..i] :: c != ':';
      assert name != "" ==> l[0] == name[0];
    }
  }

  /** Line `n` is the last one with an entry for `name`. */
  predicate LastLineFor(lines: seq<string>, n: int, name: string) {
    && 0 <= n < |lines| && Parse(lines[n]).Some? && Parse(lines[n]).value.name == name
    && forall m | n < m < |lines| && Parse(lines[m]).Some? :: Parse(lines[m]).value.name != name
  }

  /** A line for another name, or none, leaves the last one for this name the last. */
  lemma OtherLine(lines: seq<string>, line: string, name: string, n: int)
    requires Parse(line).Some? ==> Parse(line).value.name != name
    ensures LastLineFor(lines + [line], n, name) <==> LastLineFor(lines, n, name)
  {
    var all := lines + [line];
    assert all[|lines|] == line && forall m | 0 <= m < |lines| :: all[m] == lines[m];
  }

  lemma OwnLine(lines: seq<string>, line: string, name: string, n: int)
    requires Parse(line).Some? && Parse(line).value.name == name
    ensures LastLineFor(lines + [line], n, name) <==> n == |lines|
  {
    var all := lines + [line];
    assert all[|lines|] == line;
  }

  /** Of several entries for a name the last one counts, and a name is there only through an entry. */
  lemma {:induction false} LastLineCounts(lines: seq<string>, name: string)
    ensures name in Collect(lines) <==> exists n :: LastLineFor(lines, n, name)
    ensures forall n | LastLineFor(lines, n, name) :: Collect(lines)[name] == Parse(lines[n]).value.hash
  {
    if lines != [] {
      var k := |lines| - 1;
      var rest, line := lines[..k], lines[k];
      assert lines == rest + [line];
      LastLineCounts(rest, name);
      if Parse(line).Some? && Parse(line).value.name == name {
        forall n ensures LastLineFor(lines, n, name) <==> n == k {
          OwnLine(rest, line, name, n);
        }
        assert LastLineFor(lines, k, name);
      } else {
        forall n ensures LastLineFor(lines, n, name) <==> LastLineFor(rest, n, name) {
          OtherLine(rest, line, name, n);
        }
      }
    }
  }

  /** The lines are the whole text. */
  lemma {:induction false} JoinOfLines(text: string)
    ensures Lines(text) != [] && Join(Lines(text)) == text
    decreases |text|
  {
    FindFinds(text, '\n', 0);
    var i := Find(text, '\n', 0);
    if i < |text| {
      JoinOfLines(text[i + 1..]);
      JoinAgain(text[..i], Lines(text[i + 1..]));
      assert text == text[..i] + ['\n'] + text[i + 1..];
    }
  }

  lemma JoinAgain(line: string, rest: seq<string>)
    requires rest != []
    ensures Join([line] + rest) == line + ['\n'] + Join(rest)
  {
    assert ([line] + rest)[1..] == rest;
  }
}
