/** What users rely on when a remote run's tree is merged back, for every baseline,
source and target. */
module MergeTheorems {
  import opened Paths
  import opened WorkspaceTree
  import opened Optional

  lemma MergedTreeShaped(b: Tree, s: Tree, t: Tree, u: Tree)
    requires TreeShaped(b) && TreeShaped(s) && TreeShaped(t)
    requires !Obstructed(b, s, t) && IsMerge(b, s, t, u)
    ensures TreeShaped(u)
  {
    assert Lookup(u, []) == MergedEntry(b, s, t, []);
    forall a, q | Under(a, q) && q in u ensures Lookup(u, a) == Some(Dir) {
      assert Lookup(u, q) == MergedEntry(b, s, t, q);
      assert Lookup(u, a) == MergedEntry(b, s, t, a);
      forall x | Under(x, a) ensures Under(x, q) {
        UnderTransitive(x, a, q);
      }
      if Changed(b, s, q) {
        NoLeafAbove(b, s, a, q);
      } else if AboveChange(b, s, q) {
        var c :| Under(q, c) && Changed(b, s, c);
        UnderTransitive(a, q, c);
        NoLeafAbove(b, s, a, c);
      } else {
        assert Lookup(t, a) == Some(Dir);
        assert a in s && Changed(b, s, a) ==> s[a] == Dir;
        if DirGone(b, s, t, a) {
          assert !Survives(b, s, t, q);
          forall r | Under(q, r) ensures !Survives(b, s, t, r) {
            UnderTransitive(a, q, r);
          }
          assert DirGone(b, s, t, q);
        }
      }
    }
  }

  lemma NoLeafAbove(b: Tree, s: Tree, a: Path, c: Path)
    requires TreeShaped(s) && c in s && Under(a, c)
    ensures Lookup(s, a) == Some(Dir) && !BeneathNewLeaf(b, s, a)
  {
    forall x | Under(x, a) ensures Lookup(s, x) == Some(Dir) {
      UnderTransitive(x, a, c);
    }
  }

  lemma NotInSourceBelow(s: Tree, d: Path, q: Path)
    requires TreeShaped(s) && d !in s && Under(d, q)
    ensures q !in s
  {
    assert q in s ==> Lookup(s, d) == Some(Dir);
  }

  /** Merging a source that did nothing changes nothing. */
  lemma UnchangedSource(b: Tree, t: Tree, u: Tree)
    requires IsMerge(b, b, t, u)
    ensures u == t && !Obstructed(b, b, t)
  {
    forall p ensures Lookup(u, p) == Lookup(t, p) {
      assert Lookup(u, p) == MergedEntry(b, b, t, p);
    }
    SameTree(u, t);
  }

  /** Excluded content sits in a directory the source deleted (and did not replace from above). */
  ghost predicate HoldsExcluded(b: Tree, s: Tree, t: Tree, exclude: seq<string>, d: Path, q: Path) {
    DirDropped(b, s, d) && !BeneathNewLeaf(b, s, d) && Under(d, q) && q in t && Excluded(q, exclude)
  }

  /** A target nobody touched ends as the source, exclusions aside, exactly when no deleted
      directory still holds excluded content. */
  lemma UntouchedTarget(b: Tree, s: Tree, t: Tree, exclude: seq<string>, u: Tree)
    requires TreeShaped(t) && b == Snapshot(t, exclude) && IsSnapshot(s, exclude) && IsMerge(b, s, t, u)
    ensures !Obstructed(b, s, t)
    ensures Snapshot(u, exclude) == s <==> forall d, q :: !HoldsExcluded(b, s, t, exclude, d, q)
  {
    forall a, c ensures !Obstructs(b, s, t, a, c) {
      if Under(a, c) && c in s {
        assert Lookup(s, a) == Some(Dir);
      }
    }
    if forall d, q :: !HoldsExcluded(b, s, t, exclude, d, q) {
      forall p ensures Lookup(Snapshot(u, exclude), p) == Lookup(s, p) {
        assert Lookup(u, p) == MergedEntry(b, s, t, p);
        if !Excluded(p, exclude) {
          SourceEntry(b, s, t, exclude, p);
        }
      }
      SameTree(Snapshot(u, exclude), s);
    } else {
      var d, q :| HoldsExcluded(b, s, t, exclude, d, q);
      assert Survives(b, s, t, q);
      assert !AboveChange(b, s, d) by {
        forall c | Under(d, c) ensures c !in s {
          NotInSourceBelow(s, d, c);
        }
      }
      assert Lookup(u, d) == MergedEntry(b, s, t, d) == Some(Dir);
      assert d in Snapshot(u, exclude);
    }
  }

  lemma SourceEntry(b: Tree, s: Tree, t: Tree, exclude: seq<string>, p: Path)
    requires TreeShaped(t) && b == Snapshot(t, exclude) && IsSnapshot(s, exclude)
    requires forall d, q :: !HoldsExcluded(b, s, t, exclude, d, q)
    requires !Excluded(p, exclude)
    ensures MergedEntry(b, s, t, p) == Lookup(s, p)
  {
    forall x | Under(x, p) && p in s ensures Lookup(s, x) == Some(Dir) {
    }
    forall c | Under(p, c) && c in s ensures Lookup(s, p) == Some(Dir) {
    }
    if p !in s && !BeneathNewLeaf(b, s, p) && p in t && t[p] == Dir {
      forall q | Under(p, q) ensures !Survives(b, s, t, q) {
        assert !HoldsExcluded(b, s, t, exclude, p, q);
        NotInSourceBelow(s, p, q);
      }
      assert DirGone(b, s, t, p);
    }
  }

  /** Running the same merge again changes nothing and cannot fail. */
  lemma MergeTwice(b: Tree, s: Tree, t: Tree, u: Tree)
    requires TreeShaped(s) && IsMerge(b, s, t, u)
    ensures !Obstructed(b, s, u)
    ensures IsMerge(b, s, u, u)
  {
    forall a, c ensures !Obstructs(b, s, u, a, c) {
      assert Lookup(u, a) == MergedEntry(b, s, t, a);
    }
    forall p ensures MergedEntry(b, s, u, p) == Lookup(u, p) {
      assert Lookup(u, p) == MergedEntry(b, s, t, p);
      if Lookup(u, p) == Some(Dir) && DirDropped(b, s, p) {
        StillHeld(b, s, t, u, p);
      }
    }
  }

  /** What keeps a deleted directory alive in the first merge keeps it alive in the next. */
  lemma StillHeld(b: Tree, s: Tree, t: Tree, u: Tree, d: Path)
    requires TreeShaped(s) && IsMerge(b, s, t, u)
    requires DirDropped(b, s, d) && Lookup(u, d) == Some(Dir)
    ensures exists q :: Under(d, q) && q in u && Survives(b, s, u, q)
  {
    assert Lookup(u, d) == MergedEntry(b, s, t, d);
    assert !BeneathNewLeaf(b, s, d);
    assert !AboveChange(b, s, d) by {
      forall c | Under(d, c) ensures c !in s {
        NotInSourceBelow(s, d, c);
      }
    }
    var q :| Under(d, q) && Survives(b, s, t, q);
    NotInSourceBelow(s, d, q);
    assert !BeneathNewLeaf(b, s, q) by {
      forall a | Under(a, q) && a in s && Changed(b, s, a) ensures s[a] == Dir {
        UnderComparable(a, d, q);
        if Under(d, a) {
          NotInSourceBelow(s, d, a);
        }
      }
    }
    assert !AboveChange(b, s, q) by {
      forall c | Under(q, c) ensures c !in s {
        NotInSourceBelow(s, q, c);
      }
    }
    assert Lookup(u, q) == MergedEntry(b, s, t, q) == Some(t[q]);
  }

  /** A directory the source deleted is gone from the result exactly when the result has
      nothing beneath it. */
  lemma DeletedDirGoneIffEmpty(b: Tree, s: Tree, t: Tree, u: Tree, d: Path)
    requires TreeShaped(b) && TreeShaped(s) && TreeShaped(t) && !Obstructed(b, s, t) && IsMerge(b, s, t, u)
    requires DirDropped(b, s, d) && Lookup(t, d) == Some(Dir)
    ensures d !in u <==> forall q | Under(d, q) :: q !in u
  {
    MergedTreeShaped(b, s, t, u);
    if d in u {
      assert Lookup(u, d) == MergedEntry(b, s, t, d);
      StillHeld(b, s, t, u, d);
    } else {
      forall q | Under(d, q) ensures q !in u {
        assert q in u ==> Lookup(u, d) == Some(Dir);
      }
    }
  }

  /** Where the source stayed with the baseline, the target's version is kept whatever it is. */
  lemma TargetEditKept(b: Tree, s: Tree, t: Tree, u: Tree, p: Path)
    requires TreeShaped(s) && !Obstructed(b, s, t) && IsMerge(b, s, t, u)
    requires Lookup(s, p) == Lookup(b, p) && !BeneathNewLeaf(b, s, p)
    ensures Lookup(u, p) == if p !in t && AboveChange(b, s, p) then Some(Dir) else Lookup(t, p)
  {
    assert Lookup(u, p) == MergedEntry(b, s, t, p);
    if c :| Under(p, c) && Changed(b, s, c) {
      assert Lookup(s, p) == Some(Dir);
      assert !Obstructs(b, s, t, p, c);
    }
  }

  /** Where the target stayed with the baseline, a file takes the source's version, absence included. */
  lemma SourceEditTaken(b: Tree, s: Tree, t: Tree, u: Tree, p: Path)
    requires TreeShaped(s) && IsMerge(b, s, t, u)
    requires Lookup(t, p) == Lookup(b, p) && Lookup(b, p) != Some(Dir)
    ensures Lookup(u, p) == Lookup(s, p)
  {
    assert Lookup(u, p) == MergedEntry(b, s, t, p);
    forall x | Under(x, p) && p in s ensures Lookup(s, x) == Some(Dir) {
    }
    if c :| Under(p, c) && Changed(b, s, c) {
      assert Lookup(s, p) == Some(Dir);
    }
  }

  /** Two runs restored one after the other from the same stale baseline: what the first
      changed and the second left alone survives the second. */
  lemma SequentialRestores(b: Tree, s1: Tree, s2: Tree, t: Tree, u: Tree, v: Tree, p: Path)
    requires TreeShaped(s1) && TreeShaped(s2)
    requires IsMerge(b, s1, t, u) && !Obstructed(b, s2, u) && IsMerge(b, s2, u, v)
    requires Changed(b, s1, p) && !Changed(b, s2, p) && !BeneathNewLeaf(b, s2, p)
    ensures Lookup(v, p) == Some(s1[p])
  {
    assert Lookup(u, p) == MergedEntry(b, s1, t, p);
    assert Lookup(v, p) == MergedEntry(b, s2, u, p);
    if c :| Under(p, c) && Changed(b, s2, c) {
      assert Lookup(s2, p) == Some(Dir);
      assert !Obstructs(b, s2, u, p, c);
    }
  }
}
