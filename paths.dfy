/** Absolute, normalised file-system paths as sequences of name components,
    with the two operations of java.nio.file.Path the watch code relies on. */
module Paths {
  import opened Wrappers

  /** The name components of an absolute path; [] is the file-system root "/". */
  type Path = seq<string>

  /** Path.getNameCount: the root has no names. */
  function NameCount(p: Path): (n: nat)
    ensures n == 0 <==> p == []
  {
    |p|
  }

  /** `a` is a strict prefix of `p`: `a` is `p`'s parent, grandparent, ... */
  predicate IsProperAncestor(a: Path, p: Path) {
    |a| < |p| && p[..|a|] == a
  }

  /** Some element of `s` is a proper ancestor of `p` (never `p` itself). */
  ghost predicate HasProperAncestorIn(p: Path, s: set<Path>) {
    exists a :: a in s && IsProperAncestor(a, p)
  }

  /** Path.getParent: drops the last name; the root has no parent (null). */
  function Parent(p: Path): (r: Option<Path>)
    ensures r.None? <==> p == []
    ensures r.Some? ==> IsProperAncestor(r.value, p) && NameCount(r.value) + 1 == NameCount(p)
    ensures r.Some? ==> forall a :: IsProperAncestor(a, p) ==> a == r.value || IsProperAncestor(a, r.value)
  {
    if p == [] then None else Some(p[..|p| - 1])
  }

  lemma ProperAncestorTransitive(a: Path, b: Path, c: Path)
    requires IsProperAncestor(a, b) && IsProperAncestor(b, c)
    ensures IsProperAncestor(a, c)
  {
    assert c[..|a|] == c[..|b|][..|a|];
  }

  /** Two proper ancestors of the same path with the same depth are equal. */
  lemma ProperAncestorByDepth(a: Path, b: Path, p: Path)
    requires IsProperAncestor(a, p) && IsProperAncestor(b, p)
    ensures |a| == |b| ==> a == b
    ensures |a| < |b| ==> IsProperAncestor(a, b)
  {
    if |a| < |b| {
      assert b[..|a|] == p[..|b|][..|a|];
    }
  }
}
