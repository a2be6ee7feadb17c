/** The merge itself: `walkDirectory`, the file-system calls, `copySnapshotEntry` and
`mergeDirectoryWithBaseline`, as updates of a directory's tree. */
module WorkspaceMerge {
  import opened Paths
  import opened WorkspaceTree
  import opened Optional

  function Ancestry(p: Path): set<Path> {
    set n | 0 < n <= |p| :: p[..n]
  }

  /** `rm -r` */
  function Removed(t: Tree, p: Path): Tree {
    map q | q in t && q != p && !Under(p, q) :: t[q]
  }

  /** `mkdir -p` on a path with no file or symlink on the way. */
  function DirsMade(t: Tree, p: Path): Tree {
    map q | q in t.Keys + Ancestry(p) :: if q in Ancestry(p) then Dir else t[q]
  }

  /** Where copying `entry` to `p` leads, seen path by path. */
  ghost function Placed(t: Tree, p: Path, entry: Entry, q: Path): Option<Entry> {
    if q == p then Some(entry)
    else if Under(q, p) then Some(Dir)
    else if Under(p, q) && entry != Dir then None
    else Lookup(t, q)
  }

  predicate StrictlyIn(relative: Path, p: Path) {
    |relative| < |p| && p[..|relative|] == relative
  }

  function Inside(t: Tree, relative: Path): set<Path> {
    set p | p in t && StrictlyIn(relative, p)
  }

  /** The walk of `relative` with the children in `pending` still to come, over `acc`. */
  function Walked(t: Tree, exclude: seq<string>, relative: Path, acc: Tree, pending: set<Path>, p: Path): Option<Entry> {
    if p in t && !Excluded(p, exclude) && StrictlyIn(relative, p) && p[..|relative| + 1] !in pending
    then Some(t[p]) else Lookup(acc, p)
  }

  lemma ChildrenCover(t: Tree, relative: Path, children: set<Path>)
    requires TreeShaped(t)
    requires children == set p | p in t && StrictlyIn(relative, p) && |p| == |relative| + 1
    ensures forall p | p in t && StrictlyIn(relative, p) :: p[..|relative| + 1] in children
  {
    var n := |relative|;
    forall p | p in t && StrictlyIn(relative, p) ensures p[..n + 1] in children {
      if |p| == n + 1 {
        assert p[..n + 1] == p;
      } else {
        assert Under(p[..n + 1], p);
        assert Lookup(t, p[..n + 1]) == Some(Dir);
        assert p[..n + 1][..n] == p[..n];
      }
    }
  }

  lemma ThroughChild(relative: Path, next: Path, p: Path)
    requires StrictlyIn(relative, next) && |next| == |relative| + 1
    ensures StrictlyIn(relative, p) && p[..|relative| + 1] == next <==> p == next || StrictlyIn(next, p)
  {
    if StrictlyIn(next, p) {
      assert p[..|next|][..|relative|] == p[..|relative|];
    }
    if p == next {
      assert p[..|next|] == p;
    }
    if StrictlyIn(relative, p) && p[..|relative| + 1] == next && |p| == |next| {
      assert p == p[..|next|];
    }
  }

  lemma InsideShrinks(t: Tree, relative: Path, next: Path)
    requires next in t && StrictlyIn(relative, next) && |next| == |relative| + 1
    ensures Inside(t, next) < Inside(t, relative)
  {
    forall p | p in Inside(t, next) ensures p in Inside(t, relative) {
      ThroughChild(relative, next, p);
    }
    assert next in Inside(t, relative) && next !in Inside(t, next);
  }

  lemma SkipExcluded(t: Tree, exclude: seq<string>, relative: Path, acc: Tree, pending: set<Path>, next: Path)
    requires StrictlyIn(relative, next) && |next| == |relative| + 1 && Excluded(next, exclude)
    ensures forall p :: Walked(t, exclude, relative, acc, pending - {next}, p) == Walked(t, exclude, relative, acc, pending, p)
  {
    forall p ensures Walked(t, exclude, relative, acc, pending - {next}, p) == Walked(t, exclude, relative, acc, pending, p) {
      ThroughChild(relative, next, p);
      if StrictlyIn(next, p) {
        ExcludedBelow(next, p, exclude);
      }
    }
  }

  lemma EnterChild(t: Tree, exclude: seq<string>, relative: Path, acc: Tree, pending: set<Path>, next: Path,
                   before: Tree, after: Tree)
    requires TreeShaped(t) && next in t && next in pending && !Excluded(next, exclude)
    requires StrictlyIn(relative, next) && |next| == |relative| + 1
    requires forall p :: Lookup(before, p) == Walked(t, exclude, relative, acc, pending, p)
    requires var noted := before[next := t[next]];
      forall p :: Lookup(after, p) == if t[next] == Dir then Walked(t, exclude, next, noted, {}, p) else Lookup(noted, p)
    ensures forall p :: Lookup(after, p) == Walked(t, exclude, relative, acc, pending - {next}, p)
  {
    var noted := before[next := t[next]];
    forall p ensures Lookup(after, p) == Walked(t, exclude, relative, acc, pending - {next}, p) {
      assert Lookup(before, p) == Walked(t, exclude, relative, acc, pending, p);
      ThroughChild(relative, next, p);
      if StrictlyIn(next, p) && p in t {
        assert Under(next, p);
        assert Lookup(t, next) == Some(Dir);
      }
    }
  }

  lemma InAncestry(q: Path, p: Path)
    ensures q in Ancestry(p) <==> q != [] && (q == p || Under(q, p))
  {
    if q != [] && (q == p || Under(q, p)) {
      assert p[..|q|] == q;
    }
  }

  class Directory {
    var tree: Tree

    constructor (t: Tree)
      ensures tree == t
    {
      tree := t;
    }

    method RemoveRecursive(p: Path)
      modifies this
      ensures tree == Removed(old(tree), p)
    {
      tree := Removed(tree, p);
    }

    /** `rmdir` with its error swallowed: only an empty directory goes. */
    method RemoveEmptyDir(p: Path)
      modifies this
      ensures tree == if Lookup(old(tree), p) == Some(Dir) && (forall q | q in old(tree) :: !Under(p, q))
                      then Removed(old(tree), p) else old(tree)
    {
      if Lookup(tree, p) == Some(Dir) && forall q | q in tree :: !Under(p, q) {
        tree := Removed(tree, p);
      }
    }

    method MakeDirs(p: Path) returns (ok: bool)
      modifies this
      ensures ok <==> forall q | q in Ancestry(p) && q in old(tree) :: old(tree)[q] == Dir
      ensures tree == if ok then DirsMade(old(tree), p) else old(tree)
    {
      ok := forall q | q in Ancestry(p) && q in tree :: tree[q] == Dir;
      if ok {
        tree := DirsMade(tree, p);
      }
    }

    method CopySnapshotEntry(p: Path, entry: Entry) returns (ok: bool)
      requires TreeShaped(tree) && p != []
      modifies this
      ensures TreeShaped(tree)
      ensures ok <==> forall a | Under(a, p) && a in old(tree) :: old(tree)[a] == Dir
      ensures ok ==> forall q :: Lookup(tree, q) == Placed(old(tree), p, entry, q)
      ensures !ok ==> tree == old(tree)
    {
      forall q ensures q in Ancestry(p) <==> q != [] && (q == p || Under(q, p)) {
        InAncestry(q, p);
      }
      if entry == Dir {
        if Lookup(tree, p) == Some(Dir) {
          ok := true;
          return;
        }
        ghost var before := tree;
        if p in tree {
          RemoveRecursive(p);
        }
        assert forall q | Under(p, q) :: q !in before;
        ok := MakeDirs(p);
        if !ok {
          assert p !in before;
        }
      } else {
        forall q ensures q in Ancestry(Parent(p)) <==> Under(q, p) {
          InAncestry(q, Parent(p));
          if |q| < |p| {
            assert p[..|p| - 1][..|q|] == p[..|q|];
          }
        }
        ok := MakeDirs(Parent(p));
        if !ok {
          return;
        }
        RemoveRecursive(p);
        tree := tree[p := entry];
      }
      if ok {
        PlacedIsTreeShaped(old(tree), p, entry, tree);
      }
    }

    /** The pruned walk: excluded subtrees are not entered. */
    method WalkDirectory(relative: Path, exclude: seq<string>, acc: Tree) returns (out: Tree)
      requires TreeShaped(tree)
      requires relative != [] ==> !Excluded(relative, exclude)
      ensures forall p :: Lookup(out, p) == Walked(tree, exclude, relative, acc, {}, p)
      ensures forall p | ValidPath(p) && p in tree && StrictlyIn(relative, p) && !NamedAbove(p, exclude) ::
        Lookup(out, p) == Some(tree[p])
      ensures forall p | ValidPath(p) && !(p in tree && StrictlyIn(relative, p) && !NamedAbove(p, exclude)) ::
        Lookup(out, p) == Lookup(acc, p)
      decreases Inside(tree, relative)
    {
      out := acc;
      var n := |relative|;
      var children := set p | p in tree && StrictlyIn(relative, p) && |p| == n + 1;
      ghost var all := children;
      ChildrenCover(tree, relative, children);
      while children != {}
        invariant children <= all
        invariant forall p :: Lookup(out, p) == Walked(tree, exclude, relative, acc, children, p)
        decreases children
      {
        var next :| next in children;
        ghost var before := out;
        if Excluded(next, exclude) {
          SkipExcluded(tree, exclude, relative, acc, children, next);
        } else {
          out := out[next := tree[next]];
          if tree[next] == Dir {
            InsideShrinks(tree, relative, next);
            out := WalkDirectory(next, exclude, out);
          }
          EnterChild(tree, exclude, relative, acc, children, next, before, out);
        }
        children := children - {next};
      }
      EveryExcludedIff(exclude);
    }

    method CaptureSnapshot(exclude: seq<string>) returns (out: Tree)
      requires TreeShaped(tree)
      ensures out == Snapshot(tree, exclude)
      ensures IsSnapshot(out, exclude)
      ensures forall p | ValidPath(p) :: Lookup(out, p) == if NamedAbove(p, exclude) then None else Lookup(tree, p)
    {
      out := WalkDirectory([], exclude, map[]);
      SameTree(out, Snapshot(tree, exclude));
      SnapshotIsSnapshot(tree, exclude);
      EveryExcludedIff(exclude);
    }

    /** Phase one: files and symlinks the source deleted and the target left alone. */
    method DeleteLeaves(b: Tree, s: Tree, current: Tree, order: seq<Path>)
      requires TreeShaped(tree) && TreeShaped(b) && TreeShaped(s)
      requires forall p | p in b :: Lookup(current, p) == Lookup(tree, p)
      requires forall p :: p in order <==> p in b && b[p] != Dir && p !in s
      modifies this
      ensures TreeShaped(tree)
      ensures forall p :: Lookup(tree, p) == AfterDirs(b, s, old(tree), {}, p)
    {
      ghost var t := tree;
      for i := 0 to |order|
        invariant TreeShaped(tree)
        invariant forall p :: Lookup(tree, p) == AfterLeaves(b, s, t, Elements(order[..i]), p)
      {
        var p := order[i];
        assert Elements(order[..i + 1]) == Elements(order[..i]) + {p};
        assert p in order;
        if EntriesMatch(Lookup(current, p), Some(b[p])) {
          LeafStep(b, s, t, Elements(order[..i]), p, tree);
          RemovedIsTreeShaped(tree, p);
          RemoveRecursive(p);
        }
      }
      assert order[..|order|] == order;
      forall p ensures Lookup(tree, p) == AfterDirs(b, s, t, {}, p) {
        assert Lookup(tree, p) == AfterLeaves(b, s, t, Elements(order), p);
      }
    }

    /** Phase two: directories the source deleted, longest path first, if empty by then. */
    method DeleteDirs(b: Tree, s: Tree, ghost t: Tree, order: seq<Path>)
      requires TreeShaped(tree) && TreeShaped(t) && TreeShaped(b) && TreeShaped(s)
      requires forall p :: Lookup(tree, p) == AfterDirs(b, s, t, {}, p)
      requires forall p :: p in order <==> DirDropped(b, s, p)
      requires Sorted(order, (p, q) => |Key(p)| >= |Key(q)|)
      modifies this
      ensures forall p :: Lookup(tree, p) == AfterDirs(b, s, t, b.Keys, p)
      ensures TreeShaped(tree)
    {
      for i := 0 to |order|
        invariant forall p :: Lookup(tree, p) == AfterDirs(b, s, t, Elements(order[..i]), p)
        invariant forall p, q :: p in Elements(order[..i]) && DirDropped(b, s, q) && Under(p, q) ==> q in Elements(order[..i])
        invariant TreeShaped(tree)
      {
        var d := order[i];
        ghost var done := Elements(order[..i]);
        assert Elements(order[..i + 1]) == done + {d};
        assert d in order;
        DescendantsSortFirst(order, i);
        DirStep(b, s, t, done, d, tree);
        RemoveEmptyDir(d);
        AfterDirsTreeShaped(b, s, t, done + {d}, tree);
      }
      assert order[..|order|] == order;
      forall p ensures Lookup(tree, p) == AfterDirs(b, s, t, b.Keys, p) {
        assert Lookup(tree, p) == AfterDirs(b, s, t, Elements(order), p);
      }
    }

    /** Phase three: what the source added or changed, ancestors first. */
    method CopyChanges(b: Tree, s: Tree, ghost t: Tree, order: seq<Path>, ghost collate: (string, string) -> bool)
      returns (ok: bool)
      requires TreeShaped(tree) && TreeShaped(b) && TreeShaped(s)
      requires forall p :: Lookup(tree, p) == AfterDirs(b, s, t, b.Keys, p)
      requires forall p :: p in order <==> Changed(b, s, p)
      requires Collation(collate) && Sorted(order, (p, q) => collate(Key(p), Key(q)))
      modifies this
      ensures TreeShaped(tree)
      ensures ok <==> !Obstructed(b, s, t)
      ensures ok ==> IsMerge(b, s, t, tree)
      ensures exists done :: PartlyCopied(b, s, t, done, tree)
    {
      for i := 0 to |order|
        invariant TreeShaped(tree)
        invariant Elements(order[..i]) <= s.Keys
        invariant forall p :: Lookup(tree, p) == AfterCopies(b, s, t, Elements(order[..i]), p)
        invariant forall a, c | c in Elements(order[..i]) :: !Obstructs(b, s, t, a, c)
      {
        var c := order[i];
        ghost var done := Elements(order[..i]);
        assert Elements(order[..i + 1]) == done + {c};
        assert c in order;
        AncestorsSortFirst(order, collate, i);
        CopyBlocked(b, s, t, done, c, tree);
        ghost var before := tree;
        ok := CopySnapshotEntry(c, s[c]);
        if !ok {
          assert !forall a :: !Obstructs(b, s, t, a, c);
          assert PartlyCopied(b, s, t, done, tree);
          return;
        }
        CopyStep(b, s, t, done, c, before, tree);
      }
      assert order[..|order|] == order;
      AllCopied(b, s, t, Elements(order), tree);
      assert PartlyCopied(b, s, t, Elements(order), tree);
      ok := true;
    }

    /** `mergeDirectoryWithBaseline`, the lock held and `beforeApply` done. */
    method MergeWithBaseline(baseline: Tree, exclude: seq<string>, source: Directory, collate: (string, string) -> bool)
      returns (ok: bool)
      requires source != this && TreeShaped(source.tree) && TreeShaped(tree)
      requires IsSnapshot(baseline, exclude) && Collation(collate)
      modifies this
      ensures TreeShaped(tree)
      ensures ok <==> !Obstructed(baseline, Snapshot(source.tree, exclude), old(tree))
      ensures ok ==> IsMerge(baseline, Snapshot(source.tree, exclude), old(tree), tree)
      ensures forall p | Excluded(p, exclude) && !BeneathNewLeaf(baseline, Snapshot(source.tree, exclude), p) ::
        Lookup(tree, p) == Lookup(old(tree), p)
      ensures forall p | ValidPath(p) && NamedAbove(p, exclude) && !BeneathNewLeaf(baseline, Snapshot(source.tree, exclude), p) ::
        Lookup(tree, p) == Lookup(old(tree), p)
    {
      var s := source.CaptureSnapshot(exclude);
      var current := CaptureSnapshot(exclude);
      ghost var t := tree;
      ByLengthIsTotal();
      ByCollationIsTotal(collate);
      var leaves := SortPaths(set p | p in baseline && baseline[p] != Dir && p !in s, (p, q) => |Key(p)| >= |Key(q)|);
      DeleteLeaves(baseline, s, current, leaves);
      var dirs := SortPaths(set p | p in baseline && baseline[p] == Dir && p !in s, (p, q) => |Key(p)| >= |Key(q)|);
      DeleteDirs(baseline, s, t, dirs);
      var changes := SortPaths(set p | p in s && Changed(baseline, s, p), (p, q) => collate(Key(p), Key(q)));
      ok := CopyChanges(baseline, s, t, changes, collate);
      ghost var done :| PartlyCopied(baseline, s, t, done, tree);
      ExcludedUntouched(baseline, exclude, s, t, done, tree);
      EveryExcludedIff(exclude);
    }
  }

  // ----- the three loops, with the paths in `done` already handled -----

  ghost function AfterLeaves(b: Tree, s: Tree, t: Tree, done: set<Path>, p: Path): Option<Entry> {
    if p in done && LeafDropped(b, s, t, p) then None else Lookup(t, p)
  }

  ghost function AfterDirs(b: Tree, s: Tree, t: Tree, done: set<Path>, p: Path): Option<Entry> {
    if LeafDropped(b, s, t, p) || (p in done && DirGone(b, s, t, p)) then None else Lookup(t, p)
  }

  ghost function AfterCopies(b: Tree, s: Tree, t: Tree, done: set<Path>, p: Path): Option<Entry>
    requires done <= s.Keys
  {
    if p in done then Some(s[p])
    else if exists a :: a in done && Under(a, p) && s[a] != Dir then None
    else if exists c :: c in done && Under(p, c) then Some(Dir)
    else AfterDirs(b, s, t, b.Keys, p)
  }

  ghost predicate PartlyCopied(b: Tree, s: Tree, t: Tree, done: set<Path>, u: Tree) {
    && done <= s.Keys
    && (forall c | c in done :: Changed(b, s, c))
    && forall p :: Lookup(u, p) == AfterCopies(b, s, t, done, p)
  }

  lemma LeafStep(b: Tree, s: Tree, t: Tree, done: set<Path>, p: Path, u: Tree)
    requires TreeShaped(t) && LeafDropped(b, s, t, p)
    requires forall q :: Lookup(u, q) == AfterLeaves(b, s, t, done, q)
    ensures forall q :: Lookup(Removed(u, p), q) == AfterLeaves(b, s, t, done + {p}, q)
  {
    forall q ensures Lookup(Removed(u, p), q) == AfterLeaves(b, s, t, done + {p}, q) {
      assert Lookup(u, q) == AfterLeaves(b, s, t, done, q);
      assert Under(p, q) && q in t ==> Lookup(t, p) == Some(Dir);
    }
  }

  lemma DirStep(b: Tree, s: Tree, t: Tree, done: set<Path>, d: Path, u: Tree)
    requires DirDropped(b, s, d)
    requires forall q | DirDropped(b, s, q) && Under(d, q) :: q in done
    requires d !in done
    requires forall q :: Lookup(u, q) == AfterDirs(b, s, t, done, q)
    ensures Lookup(u, d) == Some(Dir) && (forall q | q in u :: !Under(d, q)) <==> DirGone(b, s, t, d)
    ensures DirGone(b, s, t, d) ==> forall q :: Lookup(Removed(u, d), q) == AfterDirs(b, s, t, done + {d}, q)
  {
    if Lookup(u, d) == Some(Dir) && forall q | q in u :: !Under(d, q) {
      forall q | Under(d, q) ensures !Survives(b, s, t, q) {
        assert Lookup(u, q) == AfterDirs(b, s, t, done, q);
      }
    }
    if DirGone(b, s, t, d) {
      forall q | Under(d, q) ensures Lookup(u, q) == None {
        if q in t && !LeafDropped(b, s, t, q) {
          forall r | Under(q, r) ensures !Survives(b, s, t, r) {
            UnderTransitive(d, q, r);
          }
        }
      }
      forall q | q in u ensures !Under(d, q) {
        assert Lookup(u, q) != None;
      }
      forall q ensures Lookup(Removed(u, d), q) == AfterDirs(b, s, t, done + {d}, q) {
        assert Lookup(u, q) == AfterDirs(b, s, t, done, q);
      }
    }
  }

  /** While the deepest dropped directories go first, nothing is left hanging. */
  lemma AfterDirsTreeShaped(b: Tree, s: Tree, t: Tree, done: set<Path>, u: Tree)
    requires TreeShaped(t) && TreeShaped(s) && TreeShaped(b)
    requires forall p, q :: p in done && DirDropped(b, s, q) && Under(p, q) ==> q in done
    requires forall q :: Lookup(u, q) == AfterDirs(b, s, t, done, q)
    ensures TreeShaped(u)
  {
    forall a, q | Under(a, q) && q in u ensures Lookup(u, a) == Some(Dir) {
      assert Lookup(u, q) == AfterDirs(b, s, t, done, q);
      assert Lookup(t, a) == Some(Dir);
      if a in done && DirGone(b, s, t, a) {
        assert !Survives(b, s, t, q);
        forall r | Under(q, r) ensures !Survives(b, s, t, r) {
          UnderTransitive(a, q, r);
        }
        assert DirGone(b, s, t, q);
      }
    }
    assert Lookup(u, []) == AfterDirs(b, s, t, done, []);
  }

  lemma CopyStep(b: Tree, s: Tree, t: Tree, done: set<Path>, c: Path, u: Tree, v: Tree)
    requires TreeShaped(s) && done <= s.Keys && c !in done && Changed(b, s, c)
    requires forall q :: Lookup(u, q) == AfterCopies(b, s, t, done, q)
    requires forall q :: Lookup(v, q) == Placed(u, c, s[c], q)
    ensures forall q :: Lookup(v, q) == AfterCopies(b, s, t, done + {c}, q)
  {
    forall q ensures Lookup(v, q) == AfterCopies(b, s, t, done + {c}, q) {
      assert Lookup(u, q) == AfterCopies(b, s, t, done, q);
      if Under(q, c) {
        assert Lookup(s, q) == Some(Dir);
        forall a | a in done && Under(a, q) ensures s[a] == Dir {
          UnderTransitive(a, q, c);
          assert Lookup(s, a) == Some(Dir);
        }
      }
      assert Under(c, q) && q in done ==> Lookup(s, c) == Some(Dir);
    }
  }

  lemma CopyBlocked(b: Tree, s: Tree, t: Tree, done: set<Path>, c: Path, u: Tree)
    requires TreeShaped(s) && done <= s.Keys && Changed(b, s, c)
    requires forall q :: Lookup(u, q) == AfterCopies(b, s, t, done, q)
    requires forall a | Under(a, c) && Changed(b, s, a) :: a in done
    requires forall a, d | d in done :: !Obstructs(b, s, t, a, d)
    requires forall d | d in done :: Changed(b, s, d)
    ensures (forall a | Under(a, c) && a in u :: u[a] == Dir) <==> forall a :: !Obstructs(b, s, t, a, c)
  {
    forall a | Under(a, c)
      ensures Lookup(u, a) == if Obstructs(b, s, t, a, c) then Some(t[a]) else if a in u then Some(Dir) else None
    {
      assert Lookup(u, a) == AfterCopies(b, s, t, done, a);
      assert Lookup(s, a) == Some(Dir);
      forall d | d in done && Under(d, a) ensures s[d] == Dir {
        assert Lookup(s, d) == Some(Dir);
      }
      if d :| d in done && Under(a, d) {
        assert !Obstructs(b, s, t, a, d);
      }
    }
    if forall a | Under(a, c) && a in u :: u[a] == Dir {
      forall a ensures !Obstructs(b, s, t, a, c) {
        assert Under(a, c) ==> a !in u || Lookup(u, a) == Some(Dir);
      }
    }
  }

  lemma AllCopied(b: Tree, s: Tree, t: Tree, done: set<Path>, u: Tree)
    requires done <= s.Keys && forall p :: p in done <==> Changed(b, s, p)
    requires forall q :: Lookup(u, q) == AfterCopies(b, s, t, done, q)
    ensures IsMerge(b, s, t, u)
  {
    forall p ensures Lookup(u, p) == MergedEntry(b, s, t, p) {
      assert Lookup(u, p) == AfterCopies(b, s, t, done, p);
    }
  }

  // ----- sorting -----

  function Key(p: Path): string {
    if p == [] then "" else Join(p)
  }

  ghost predicate TotalPreorder<T(!new)>(le: (T, T) -> bool) {
    && (forall x, y :: le(x, y) || le(y, x))
    && (forall x, y, z :: le(x, y) && le(y, z) ==> le(x, z))
  }

  /** What the merge needs of `localeCompare`: a path sorts before everything beneath it. */
  ghost predicate Collation(le: (string, string) -> bool) {
    TotalPreorder(le) && forall a, b :: a + "/" <= b ==> !le(b, a)
  }

  ghost predicate Sorted(order: seq<Path>, le: (Path, Path) -> bool) {
    forall i, j :: 0 <= i < j < |order| ==> le(order[i], order[j]) && order[i] != order[j]
  }

  function Elements(order: seq<Path>): set<Path> {
    set p | p in order
  }

  method SortPaths(ps: set<Path>, le: (Path, Path) -> bool) returns (order: seq<Path>)
    requires TotalPreorder(le)
    ensures Sorted(order, le) && forall p :: p in order <==> p in ps
  {
    order := [];
    var rest := ps;
    while rest != {}
      invariant Sorted(order, le) && Elements(order) == ps - rest && rest <= ps
      decreases rest
    {
      var p :| p in rest;
      var i := 0;
      while i < |order| && le(order[i], p)
        invariant 0 <= i <= |order|
        invariant forall k :: 0 <= k < i ==> le(order[k], p)
      {
        i := i + 1;
      }
      if i < |order| {
        forall k | i <= k < |order| ensures le(p, order[k]) {
        }
      }
      ghost var before := order;
      order := order[..i] + [p] + order[i..];
      rest := rest - {p};
      assert Elements(order) == Elements(before) + {p};
    }
    forall p ensures p in order <==> p in ps {
      assert p in order <==> p in Elements(order);
    }
  }

  lemma AncestorsSortFirst(order: seq<Path>, collate: (string, string) -> bool, i: nat)
    requires Collation(collate) && i < |order|
    requires Sorted(order, (p, q) => collate(Key(p), Key(q)))
    ensures forall a | a in order && Under(a, order[i]) :: a in order[..i]
  {
    forall a | a in order && Under(a, order[i]) ensures a in order[..i] {
      JoinUnder(a, order[i]);
      assert !collate(Key(order[i]), Key(a));
      forall k | i < k < |order| ensures order[k] != a {
        assert ((p, q) => collate(Key(p), Key(q)))(order[i], order[k]);
        assert collate(Key(order[i]), Key(order[k]));
      }
    }
  }

  lemma DescendantsSortFirst(order: seq<Path>, i: nat)
    requires i < |order| && [] !in order
    requires Sorted(order, (p, q) => |Key(p)| >= |Key(q)|)
    ensures forall q | q in order && Under(order[i], q) :: q in order[..i]
  {
    forall q | q in order && Under(order[i], q) ensures q in order[..i] {
      JoinLonger(order[i], q);
      var k :| 0 <= k < |order| && order[k] == q;
    }
  }

  lemma ByLengthIsTotal()
    ensures TotalPreorder((p: Path, q: Path) => |Key(p)| >= |Key(q)|)
  {
  }

  lemma ByCollationIsTotal(collate: (string, string) -> bool)
    requires Collation(collate)
    ensures TotalPreorder((p: Path, q: Path) => collate(Key(p), Key(q)))
  {
    var le := (p: Path, q: Path) => collate(Key(p), Key(q));
    forall p, q, r | le(p, q) && le(q, r) ensures le(p, r) {
      assert collate(Key(p), Key(q)) && collate(Key(q), Key(r));
    }
    forall p, q ensures le(p, q) || le(q, p) {
      assert collate(Key(p), Key(q)) || collate(Key(q), Key(p));
    }
  }

  /** Even a merge that stops half way leaves excluded content alone, unless a file or
      symlink of the source takes the place of a directory above it. */
  lemma ExcludedUntouched(b: Tree, exclude: seq<string>, s: Tree, t: Tree, done: set<Path>, u: Tree)
    requires IsSnapshot(b, exclude) && IsSnapshot(s, exclude)
    requires PartlyCopied(b, s, t, done, u)
    ensures forall p | Excluded(p, exclude) && !BeneathNewLeaf(b, s, p) :: Lookup(u, p) == Lookup(t, p)
  {
    forall p | Excluded(p, exclude) && !BeneathNewLeaf(b, s, p) ensures Lookup(u, p) == Lookup(t, p) {
      assert Lookup(u, p) == AfterCopies(b, s, t, done, p);
      forall c | c in done ensures !Under(p, c) {
        if Under(p, c) {
          ExcludedBelow(p, c, exclude);
        }
      }
    }
  }

  lemma RemovedIsTreeShaped(t: Tree, p: Path)
    requires TreeShaped(t)
    ensures TreeShaped(Removed(t, p))
  {
    var u := Removed(t, p);
    forall a, q | Under(a, q) && q in u ensures Lookup(u, a) == Some(Dir) {
      assert Lookup(t, a) == Some(Dir);
      assert Under(p, a) || p == a ==> Under(p, q);
    }
  }

  lemma PlacedIsTreeShaped(t: Tree, p: Path, entry: Entry, u: Tree)
    requires TreeShaped(t) && p != []
    requires forall q :: Lookup(u, q) == Placed(t, p, entry, q)
    ensures TreeShaped(u)
  {
    forall a, q | Under(a, q) && q in u ensures Lookup(u, a) == Some(Dir) {
      assert Lookup(u, q) == Placed(t, p, entry, q);
      assert Lookup(u, a) == Placed(t, p, entry, a);
      if Under(q, p) {
        UnderTransitive(a, q, p);
      } else if Under(a, p) {
      } else if a == p {
      } else if Under(p, a) {
        UnderTransitive(p, a, q);
      }
    }
    assert Lookup(u, []) == Placed(t, p, entry, []);
  }
}
