/** Relative paths inside a workspace, and the exclusion test of a snapshot.

A path is the sequence of its components; `Join` is the string form the program
keys its snapshots by.  The exclusion test works on the joined strings. */
module Paths {

  type Path = seq<string>

  predicate ValidName(name: string) {
    name != "" && '/' !in name
  }

  predicate ValidPath(p: Path) {
    p != [] && forall name :: name in p ==> ValidName(name)
  }

  function Join(p: Path): string
    requires p != []
  {
    if |p| == 1 then p[0] else p[0] + "/" + Join(p[1..])
  }

  /** `q` lies strictly beneath `p`. */
  predicate Under(p: Path, q: Path) {
    p != [] && |p| < |q| && q[..|p|] == p
  }

  function Parent(p: Path): Path
    requires p != []
  {
    p[..|p| - 1]
  }

  predicate IsRelativePathOrDescendant(relative: string, candidate: string) {
    relative == candidate || candidate + "/" <= relative
  }

  predicate ShouldExclude(relative: string, exclude: seq<string>) {
    exists i :: 0 <= i < |exclude| && IsRelativePathOrDescendant(relative, exclude[i])
  }

  predicate Excluded(p: Path, exclude: seq<string>) {
    p != [] && ShouldExclude(Join(p), exclude)
  }

  lemma UnderTransitive(a: Path, b: Path, c: Path)
    requires Under(a, b) && Under(b, c)
    ensures Under(a, c)
  {
    assert c[..|b|][..|a|] == c[..|a|];
  }

  lemma UnderComparable(a: Path, b: Path, c: Path)
    requires Under(a, c) && Under(b, c)
    ensures a == b || Under(a, b) || Under(b, a)
  {
    if |a| <= |b| {
      assert c[..|b|][..|a|] == c[..|a|];
    } else {
      assert c[..|a|][..|b|] == c[..|b|];
    }
  }

  /** The joined form of an ancestor, followed by a slash, starts the joined form of a descendant. */
  lemma {:induction false} JoinUnder(p: Path, q: Path)
    requires Under(p, q)
    ensures Join(p) + "/" <= Join(q)
  {
    assert q[0] == q[..|p|][0] == p[0];
    if |p| > 1 {
      assert q[1..][..|p| - 1] == q[..|p|][1..];
      JoinUnder(p[1..], q[1..]);
      assert Join(p) + "/" == p[0] + "/" + (Join(p[1..]) + "/");
    } else {
      assert p + q[1..] == q;
    }
  }

  lemma JoinLonger(p: Path, q: Path)
    requires Under(p, q)
    ensures |Join(p)| < |Join(q)|
  {
    JoinUnder(p, q);
  }

  /** Two strings that agree up to their first slash agree on the component before it. */
  lemma FirstComponent(a: string, x: string, b: string, y: string)
    requires '/' !in a && '/' !in b
    requires a + "/" + x == b + "/" + y
    ensures a == b && x == y
  {
    var l, r := a + "/" + x, b + "/" + y;
    assert l[|a|] == '/' && r[|b|] == '/';
    assert forall i :: 0 <= i < |a| ==> l[i] == a[i] != '/';
    assert forall i :: 0 <= i < |b| ==> r[i] == b[i] != '/';
    assert |a| == |b|;
    assert a == l[..|a|] && b == r[..|b|];
    assert x == l[|a| + 1..] && y == r[|b| + 1..];
  }

  lemma SingleComponent(p: Path)
    requires ValidPath(p)
    ensures '/' in Join(p) <==> |p| > 1
  {
    assert ValidName(p[0]);
    if |p| > 1 {
      assert Join(p)[|p[0]|] == '/';
    }
  }

  /** On paths made of real file names the string keys of a snapshot are unambiguous. */
  lemma {:induction false} JoinInjective(p: Path, q: Path)
    requires ValidPath(p) && ValidPath(q) && Join(p) == Join(q)
    ensures p == q
  {
    SingleComponent(p);
    SingleComponent(q);
    if |p| > 1 {
      assert ValidName(p[0]) && ValidName(q[0]);
      FirstComponent(p[0], Join(p[1..]), q[0], Join(q[1..]));
      JoinInjective(p[1..], q[1..]);
      assert p == [p[0]] + p[1..] && q == [q[0]] + q[1..];
    }
  }

  /** A string before a slash of a joined path is one of its ancestors, joined. */
  lemma {:induction false} BeforeSlash(e: string, p: Path) returns (c: Path)
    requires ValidPath(p) && e + "/" <= Join(p)
    ensures ValidPath(c) && Join(c) == e && Under(c, p)
  {
    assert ValidName(p[0]);
    assert Join(p)[|e|] == '/';
    SingleComponent(p);
    if |e| <= |p[0]| {
      assert Join(p)[|p[0]|] == '/' && forall i :: 0 <= i < |p[0]| ==> Join(p)[i] == p[0][i];
      assert p[0][..|p[0]|] == p[0];
      assert e == Join(p)[..|e|] == p[0];
      c := [p[0]];
    } else {
      var rest := e[|p[0]| + 1..];
      assert Join(p) == p[0] + "/" + Join(p[1..]);
      assert e == Join(p)[..|e|] == p[0] + "/" + Join(p[1..])[..|rest|];
      assert rest == Join(p[1..])[..|rest|] && Join(p[1..])[|rest|] == '/';
      assert rest + "/" <= Join(p[1..]);
      var below := BeforeSlash(rest, p[1..]);
      c := [p[0]] + below;
      assert c[1..] == below;
      assert p[..|c|] == [p[0]] + p[1..][..|below|];
    }
  }

  lemma JoinedPrefixIsAncestor(c: Path, p: Path)
    requires ValidPath(c) && ValidPath(p) && Join(c) + "/" <= Join(p)
    ensures Under(c, p)
  {
    var above := BeforeSlash(Join(c), p);
    JoinInjective(c, above);
  }

  /** The string test of an exclusion entry is the component-wise ancestor test:
      `a/bc` does not match the entry `a/b`. */
  lemma ExclusionIsByComponent(p: Path, c: Path)
    requires ValidPath(p) && ValidPath(c)
    ensures IsRelativePathOrDescendant(Join(p), Join(c)) <==> p == c || Under(c, p)
  {
    if Join(p) == Join(c) {
      JoinInjective(p, c);
    } else if Join(c) + "/" <= Join(p) {
      JoinedPrefixIsAncestor(c, p);
    }
    if Under(c, p) {
      JoinUnder(c, p);
    }
  }

  /** What an exclusion list is to mean: it names the path or one of its ancestors. */
  ghost predicate NamedAbove(p: Path, exclude: seq<string>) {
    exists c :: ValidPath(c) && Join(c) in exclude && (p == c || Under(c, p))
  }

  /** The test excludes exactly what the list names, or what lies beneath; whatever strings it holds. */
  lemma ExcludedIff(p: Path, exclude: seq<string>)
    requires ValidPath(p)
    ensures Excluded(p, exclude) <==> NamedAbove(p, exclude)
  {
    if Excluded(p, exclude) {
      var i :| 0 <= i < |exclude| && IsRelativePathOrDescendant(Join(p), exclude[i]);
      if Join(p) != exclude[i] {
        var c := BeforeSlash(exclude[i], p);
        assert Join(c) in exclude;
      }
    }
    if NamedAbove(p, exclude) {
      var c :| ValidPath(c) && Join(c) in exclude && (p == c || Under(c, p));
      ExclusionIsByComponent(p, c);
      var i :| 0 <= i < |exclude| && exclude[i] == Join(c);
      assert IsRelativePathOrDescendant(Join(p), exclude[i]);
    }
  }

  lemma EveryExcludedIff(exclude: seq<string>)
    ensures forall p | ValidPath(p) :: Excluded(p, exclude) <==> NamedAbove(p, exclude)
  {
    forall p | ValidPath(p) ensures Excluded(p, exclude) <==> NamedAbove(p, exclude) {
      ExcludedIff(p, exclude);
    }
  }

  /** Everything beneath an excluded path is excluded. */
  lemma ExcludedBelow(p: Path, q: Path, exclude: seq<string>)
    requires Excluded(p, exclude) && Under(p, q)
    ensures Excluded(q, exclude)
  {
    JoinUnder(p, q);
    var i :| 0 <= i < |exclude| && IsRelativePathOrDescendant(Join(p), exclude[i]);
    if Join(p) == exclude[i] {
      assert IsRelativePathOrDescendant(Join(q), exclude[i]);
    } else {
      var head := exclude[i] + "/";
      assert head == Join(p)[..|head|] == Join(q)[..|Join(p)|][..|head|] == Join(q)[..|head|];
      assert IsRelativePathOrDescendant(Join(q), exclude[i]);
    }
  }
}
