/** File trees and the recursive copy of `agent/skill/src/sync.rs`; symbolic links and permissions are left out. */
module SkillTree {

  /** A path below the root of a tree, one element per component. */
  type Path = seq<string>

  function Parent(p: Path): Path
    requires p != []
  {
    p[..|p| - 1]
  }

  datatype Tree = Tree(dirs: set<Path>, files: map<Path, string>) {
    /** Every entry but the root lies in a directory, and nothing is both file and directory. */
    predicate Valid() {
      && [] in dirs && [] !in files
      && (forall p {:trigger Parent(p)} | p in dirs && p != [] :: Parent(p) in dirs)
      && (forall p | p in files :: p !in dirs)
      && (forall p {:trigger Parent(p)} | p in files :: Parent(p) in dirs)
    }

    /** What `read_dir` lists. */
    function Children(dir: Path): set<Path> {
      (set p | p in dirs && p != [] && Parent(p) == dir) + (set p | p in files && p != [] && Parent(p) == dir)
    }

    /** What the tree hash covers: every file but manifests. */
    function Visible(): map<Path, string> {
      map p | p in files && p != [] && p[|p| - 1] != ".bundled_manifest" :: files[p]
    }
  }

  /** `dst` after the entries `part` of `src` have been copied over it. */
  function Copied(src: Tree, dst: Tree, part: set<Path>): Tree {
    Tree(dst.dirs + src.dirs * part, dst.files + map p | p in src.files && p in part :: src.files[p])
  }

  function CopyOne(src: Tree, dst: Tree, p: Path): Tree
    requires p in src.dirs || p in src.files
  {
    if p in src.dirs then dst.(dirs := dst.dirs + {p}) else dst.(files := dst.files[p := src.files[p]])
  }

  predicate Distinct(s: seq<Path>) {
    forall n, m | 0 <= n < m < |s| :: s[n] != s[m]
  }

  /** A directory that has been reached is on the stack, once and with none of its entries copied, or fully copied. */
  ghost predicate Pending(src: Tree, stack: seq<Path>, done: set<Path>) {
    && [] in done && done <= src.dirs + src.files.Keys && Distinct(stack)
    && (forall p | p in done && p != [] :: Parent(p) in done)
    && (forall d | d in stack :: d in src.dirs && d in done && src.Children(d) !! done)
    && (forall d | d in src.dirs && d in done && d !in stack :: src.Children(d) <= done)
  }

  lemma DistinctAppend(s: seq<Path>, t: seq<Path>)
    requires Distinct(s) && Distinct(t) && forall p | p in t :: p !in s
    ensures Distinct(s + t)
  {
    forall n, m | 0 <= n < m < |s + t| ensures (s + t)[n] != (s + t)[m] {
      if n < |s| <= m {
        assert t[m - |s|] in t;
      }
    }
  }

  /** The directories among `entries`, each once. */
  ghost predicate IsSubdirectories(src: Tree, entries: set<Path>, found: seq<Path>) {
    Distinct(found) && forall p :: p in found <==> p in entries && p in src.dirs
  }

  lemma OneMoreSubdirectory(src: Tree, listed: set<Path>, found: seq<Path>, p: Path)
    requires IsSubdirectories(src, listed, found) && p !in listed
    ensures IsSubdirectories(src, listed + {p}, if p in src.dirs then found + [p] else found)
  {
    DistinctAppend(found, [p]);
  }

  lemma CopiedOneMore(src: Tree, dst: Tree, part: set<Path>, p: Path)
    requires src.Valid() && (p in src.dirs || p in src.files)
    ensures Copied(src, dst, part + {p}) == CopyOne(src, Copied(src, dst, part), p)
  {
  }

  lemma CopiedNone(src: Tree, dst: Tree)
    ensures Copied(src, dst, {}) == dst
  {
    assert src.dirs * {} == {};
    assert Copied(src, dst, {}).files == dst.files;
  }

  lemma CopiedTwice(src: Tree, dst: Tree, a: set<Path>, b: set<Path>)
    ensures Copied(src, Copied(src, dst, a), b) == Copied(src, dst, a + b)
  {
    assert src.dirs * (a + b) == src.dirs * a + src.dirs * b;
  }

  lemma CopiedAll(src: Tree, dst: Tree, all: set<Path>)
    requires src.dirs <= all && src.files.Keys <= all
    ensures Copied(src, dst, all) == Tree(dst.dirs + src.dirs, dst.files + src.files)
  {
    assert src.dirs * all == src.dirs;
    assert src.files == map p | p in src.files && p in all :: src.files[p];
  }

  /** A subdirectory of the listed directory: not reached before, and none of its entries copied. */
  lemma NewSubdirectory(src: Tree, stack: seq<Path>, done: set<Path>, dir: Path, d: Path)
    requires Pending(src, stack + [dir], done) && d in src.Children(dir)
    ensures d !in done && d != dir && d !in stack && src.Children(d) !! done + src.Children(dir)
  {
    assert (stack + [dir])[|stack|] == dir && dir in stack + [dir];
    assert forall p | p in stack :: p in stack + [dir];
    assert Parent(d) == dir && d != dir;
    forall p | p in src.Children(d) ensures p !in done && p !in src.Children(dir) {
      assert Parent(p) == d;
    }
  }

  lemma RestOfStack(src: Tree, stack: seq<Path>, done: set<Path>, dir: Path)
    requires Pending(src, stack + [dir], done)
    ensures Distinct(stack) && dir !in stack && dir in done && dir in src.dirs
    ensures forall d | d in stack :: d in src.dirs && d in done && src.Children(d) !! done + src.Children(dir)
  {
    assert (stack + [dir])[|stack|] == dir && dir in stack + [dir];
    assert forall n | 0 <= n < |stack| :: stack[n] == (stack + [dir])[n];
    forall d | d in stack ensures d in src.dirs && d in done && src.Children(d) !! done + src.Children(dir) {
      assert d in stack + [dir];
      assert forall p | p in src.Children(d) :: Parent(p) == d != dir;
    }
  }

  lemma ListedOneMore(src: Tree, stack: seq<Path>, done: set<Path>, dir: Path, found: seq<Path>)
    requires src.Valid() && Pending(src, stack + [dir], done)
    requires IsSubdirectories(src, src.Children(dir), found)
    ensures Pending(src, stack + found, done + src.Children(dir))
  {
    RestOfStack(src, stack, done, dir);
    forall d | d in found ensures src.Children(d) !! done + src.Children(dir) && d !in stack {
      NewSubdirectory(src, stack, done, dir, d);
    }
    DistinctAppend(stack, found);
    forall d | d in src.dirs && d in done + src.Children(dir) && d !in stack + found
      ensures src.Children(d) <= done + src.Children(dir)
    {
      if d in done && d != dir {
        assert d !in stack + [dir];
      }
    }
  }

  lemma {:induction false} EveryEntryIsReached(src: Tree, done: set<Path>, p: Path)
    requires src.Valid() && Pending(src, [], done) && (p in src.dirs || p in src.files)
    ensures p in done
    decreases |p|
  {
    if p != [] {
      EveryEntryIsReached(src, done, Parent(p));
      assert p in src.Children(Parent(p));
    }
  }

  /** `copy_tree`: all of `src` arrives, existing files are overwritten, the rest of `dst` stays. */
  method CopyTree(src: Tree, dst: Tree) returns (out: Tree)
    requires src.Valid()
    ensures out == Tree(dst.dirs + src.dirs, dst.files + src.files)
  {
    out := dst.(dirs := dst.dirs + {[]});
    var stack: seq<Path> := [[]];
    ghost var done: set<Path> := {[]};
    ghost var all := src.dirs + src.files.Keys;
    assert out == Copied(src, dst, done);
    while stack != []
      invariant Pending(src, stack, done) && out == Copied(src, dst, done)
      decreases all - done, |stack|
    {
      var dir := stack[|stack| - 1];
      ghost var below := stack[..|stack| - 1];
      assert stack == below + [dir];
      var found;
      found, out := CopyEntries(src, out, dir);
      OneRound(src, dst, below, done, dir, found);
      stack := stack[..|stack| - 1] + found;
      done := done + src.Children(dir);
    }
    EverythingIsCopied(src, dst, done);
  }

  lemma EverythingIsCopied(src: Tree, dst: Tree, done: set<Path>)
    requires src.Valid() && Pending(src, [], done)
    ensures Copied(src, dst, done) == Tree(dst.dirs + src.dirs, dst.files + src.files)
  {
    forall p | p in src.dirs || p in src.files ensures p in done {
      EveryEntryIsReached(src, done, p);
    }
    CopiedAll(src, dst, done);
  }

  /** One directory is listed: the bookkeeping holds, the copy has grown by its entries, and so has what is done. */
  lemma OneRound(src: Tree, dst: Tree, stack: seq<Path>, done: set<Path>, dir: Path, found: seq<Path>)
    requires src.Valid() && Pending(src, stack + [dir], done) && IsSubdirectories(src, src.Children(dir), found)
    ensures var all, done' := src.dirs + src.files.Keys, done + src.Children(dir);
            && Pending(src, stack + found, done')
            && Copied(src, Copied(src, dst, done), src.Children(dir)) == Copied(src, dst, done')
            && (all - done' < all - done || (found == [] && all - done' == all - done))
  {
    RestOfStack(src, stack, done, dir);
    ListedOneMore(src, stack, done, dir, found);
    CopiedTwice(src, dst, done, src.Children(dir));
    assert (stack + [dir])[|stack|] in stack + [dir];
    PushedIsSmaller(src, done, dir, found);
  }

  /** Each round either copies something new or only shortens the stack. */
  lemma PushedIsSmaller(src: Tree, done: set<Path>, dir: Path, found: seq<Path>)
    requires dir in src.dirs && src.Children(dir) !! done
    requires IsSubdirectories(src, src.Children(dir), found)
    ensures var all := src.dirs + src.files.Keys;
            all - (done + src.Children(dir)) < all - done || (found == [] && src.Children(dir) == {})
  {
    if found != [] {
      assert found[0] in src.Children(dir);
    }
    if src.Children(dir) != {} {
      var p :| p in src.Children(dir);
      assert p in (src.dirs + src.files.Keys) - done;
    }
  }

  /** The entries of one directory are copied in any order; its subdirectories are returned. */
  method CopyEntries(src: Tree, dst: Tree, dir: Path) returns (found: seq<Path>, out: Tree)
    requires src.Valid()
    ensures out == Copied(src, dst, src.Children(dir))
    ensures IsSubdirectories(src, src.Children(dir), found)
  {
    found, out := [], dst;
    var rest := src.Children(dir);
    CopiedNone(src, dst);
    ghost var listed: set<Path> := {};
    while rest != {}
      invariant Listing(src, dst, dir, rest, listed, found, out)
      decreases |rest|
    {
      var p :| p in rest;
      OneMoreEntry(src, dst, dir, rest, listed, found, out, p);
      rest, listed := rest - {p}, listed + {p};
      out := CopyOne(src, out, p);
      if p in src.dirs {
        found := found + [p];
      }
    }
    assert listed == src.Children(dir);
  }

  /** The state of the listing: what is left, and what has been copied and found so far. */
  ghost predicate Listing(
    src: Tree, dst: Tree, dir: Path, rest: set<Path>, listed: set<Path>, found: seq<Path>, out: Tree)
  {
    && rest <= src.Children(dir) && listed == src.Children(dir) - rest
    && out == Copied(src, dst, listed) && IsSubdirectories(src, listed, found)
  }

  lemma OneMoreEntry(
    src: Tree, dst: Tree, dir: Path, rest: set<Path>, listed: set<Path>, found: seq<Path>, out: Tree, p: Path)
    requires src.Valid() && Listing(src, dst, dir, rest, listed, found, out) && p in rest
    ensures p in src.dirs || p in src.files
    ensures var found' := if p in src.dirs then found + [p] else found;
            Listing(src, dst, dir, rest - {p}, listed + {p}, found', CopyOne(src, out, p))
  {
    CopiedOneMore(src, dst, listed, p);
    OneMoreSubdirectory(src, listed, found, p);
  }
}
