/** Directory trees, their snapshots, and what a three-way merge must produce.

A tree maps relative paths to entries; the workspace root itself is implicit.
A regular file's content stands for its sha256 digest: two files are the same
entry exactly when mode and content agree. */
module WorkspaceTree {
  import opened Paths
  import opened Optional

  datatype Entry = Dir | File(mode: nat, content: string) | Symlink(target: string)

  type Tree = map<Path, Entry>

  function Lookup(t: Tree, p: Path): Option<Entry> {
    if p in t then Some(t[p]) else None
  }

  /** Every entry hangs below directories only. */
  ghost predicate TreeShaped(t: Tree) {
    && [] !in t
    && forall p, q :: Under(p, q) && q in t ==> Lookup(t, p) == Some(Dir)
  }

  function Snapshot(t: Tree, exclude: seq<string>): Tree {
    map p | p in t && !Excluded(p, exclude) :: t[p]
  }

  /** What `captureDirectorySnapshot` can produce. */
  ghost predicate IsSnapshot(entries: Tree, exclude: seq<string>) {
    TreeShaped(entries) && forall p :: p in entries ==> !Excluded(p, exclude)
  }

  predicate EntriesMatch(left: Option<Entry>, right: Option<Entry>) {
    match (left, right)
    case (Some(Dir), Some(Dir)) => true
    case (Some(Symlink(a)), Some(Symlink(b))) => a == b
    case (Some(File(m, a)), Some(File(n, b))) => m == n && a == b
    case _ => false
  }

  lemma SameTree(t: Tree, u: Tree)
    requires forall p :: Lookup(t, p) == Lookup(u, p)
    ensures t == u
  {
    forall p ensures p in t <==> p in u {
      assert Lookup(t, p) == Lookup(u, p);
    }
    forall p | p in t ensures t[p] == u[p] {
      assert Lookup(t, p) == Lookup(u, p);
    }
  }

  lemma SnapshotIsSnapshot(t: Tree, exclude: seq<string>)
    requires TreeShaped(t)
    ensures IsSnapshot(Snapshot(t, exclude), exclude)
  {
    forall p, q | Under(p, q) && q in Snapshot(t, exclude)
      ensures Lookup(Snapshot(t, exclude), p) == Some(Dir)
    {
      if Excluded(p, exclude) {
        ExcludedBelow(p, q, exclude);
      }
      assert Lookup(t, p) == Some(Dir);
    }
  }

  // ----- what the merge must produce: b is the baseline, s the source, t the target -----

  /** The source added this entry or changed it. */
  predicate Changed(b: Tree, s: Tree, p: Path) {
    p in s && !EntriesMatch(Lookup(b, p), Lookup(s, p))
  }

  /** A baseline file or symlink the source deleted and the target left alone. */
  predicate LeafDropped(b: Tree, s: Tree, t: Tree, p: Path) {
    p in b && b[p] != Dir && p !in s && Lookup(t, p) == Some(b[p])
  }

  predicate DirDropped(b: Tree, s: Tree, p: Path) {
    p in b && b[p] == Dir && p !in s
  }

  /** Something the deletions leave in place on its own account. */
  predicate Survives(b: Tree, s: Tree, t: Tree, p: Path) {
    p in t && !LeafDropped(b, s, t, p) && !(DirDropped(b, s, p) && t[p] == Dir)
  }

  ghost predicate DirGone(b: Tree, s: Tree, t: Tree, d: Path) {
    && DirDropped(b, s, d)
    && Lookup(t, d) == Some(Dir)
    && forall q :: Under(d, q) ==> !Survives(b, s, t, q)
  }

  /** Beneath a place the source turned into a file or symlink. */
  ghost predicate BeneathNewLeaf(b: Tree, s: Tree, p: Path) {
    exists a :: Under(a, p) && Changed(b, s, a) && s[a] != Dir
  }

  ghost predicate AboveChange(b: Tree, s: Tree, p: Path) {
    exists c :: Under(p, c) && Changed(b, s, c)
  }

  ghost function MergedEntry(b: Tree, s: Tree, t: Tree, p: Path): Option<Entry> {
    if Changed(b, s, p) then Some(s[p])
    else if BeneathNewLeaf(b, s, p) then None
    else if AboveChange(b, s, p) then Some(Dir)
    else if LeafDropped(b, s, t, p) || DirGone(b, s, t, p) then None
    else Lookup(t, p)
  }

  ghost predicate IsMerge(b: Tree, s: Tree, t: Tree, result: Tree) {
    forall p :: Lookup(result, p) == MergedEntry(b, s, t, p)
  }

  /** A directory unchanged in the source is a file or symlink in the target, above a
      path the source changed: there `mkdir` throws. */
  ghost predicate Obstructed(b: Tree, s: Tree, t: Tree) {
    exists a, c :: Obstructs(b, s, t, a, c)
  }

  ghost predicate Obstructs(b: Tree, s: Tree, t: Tree, a: Path, c: Path) {
    Under(a, c) && Changed(b, s, c) && !Changed(b, s, a) && a in t && t[a] != Dir
  }
}
