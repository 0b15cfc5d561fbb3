/** WatchRootUtil: which directories the native file watcher is asked to
    monitor. ResolveRootsToWatch drops every directory that already has an
    ancestor among the watched ones; GetDirectoriesToWatch gives the one or
    two directories whose events reveal a change to a single snapshot. */
module WatchRootUtil {
  import opened Wrappers
  import opened Paths

  datatype FileType = RegularFile | Directory | Missing

  /** CompleteFileSystemLocationSnapshot, reduced to what the watch code reads. */
  datatype Snapshot = Snapshot(absolutePath: Path, fileType: FileType)

  /** The exceptions GetDirectoriesToWatch can end in. */
  datatype WatchError =
    | IllegalState(path: Path)  // "Couldn't find existing ancestor for <path>"
    | NullPointer               // ImmutableList.of was handed the root's null parent

  // ---------------------------------------------------------------------------
  // Resolving the watch roots
  // ---------------------------------------------------------------------------

  /** The directories of `directories` none of whose proper ancestors is in
      `directories`: what ResolveRootsToWatch returns, whatever the order of
      directories of equal depth. */
  ghost function MinimalRoots(directories: set<Path>): set<Path> {
    set p | p in directories && !HasProperAncestorIn(p, directories)
  }

  /** A non-empty set of paths has an element of least depth. */
  lemma {:induction false} ShallowestExists(s: set<Path>)
    requires s != {}
    ensures exists p :: p in s && forall q :: q in s ==> NameCount(p) <= NameCount(q)
    decreases |s|
  {
    var x :| x in s;
    var rest := s - {x};
    if rest != {} {
      assert |rest| < |s|;
      ShallowestExists(rest);
      var m :| m in rest && forall q :: q in rest ==> NameCount(m) <= NameCount(q);
      var least := if NameCount(x) < NameCount(m) then x else m;
      forall q | q in s
        ensures NameCount(least) <= NameCount(q)
      {
        if q != x {
          assert q in rest;
        }
      }
      assert least in s;
    } else {
      forall q | q in s
        ensures NameCount(x) <= NameCount(q)
      {
        assert q in rest || q == x;
      }
    }
  }

  /** directories.stream().sorted(comparingInt(Path::getNameCount)): every
      directory once, by non-decreasing depth; the order among directories of
      equal depth is whatever the set's iteration gives. */
  method SortByNameCount(directories: set<Path>) returns (sorted: seq<Path>)
    ensures forall p :: p in sorted <==> p in directories
    ensures forall i, j :: 0 <= i < j < |sorted| ==> sorted[i] != sorted[j]
    ensures forall i, j :: 0 <= i < j < |sorted| ==> NameCount(sorted[i]) <= NameCount(sorted[j])
  {
    sorted := [];
    var rest := directories;
    while rest != {}
      invariant forall p :: p in directories <==> p in sorted || p in rest
      invariant forall p :: p in sorted ==> p !in rest
      invariant forall i, j :: 0 <= i < j < |sorted| ==> sorted[i] != sorted[j]
      invariant forall i, j :: 0 <= i < j < |sorted| ==> NameCount(sorted[i]) <= NameCount(sorted[j])
      invariant forall i, q :: 0 <= i < |sorted| && q in rest ==> NameCount(sorted[i]) <= NameCount(q)
      decreases rest
    {
      ShallowestExists(rest);
      var p :| p in rest && forall q :: q in rest ==> NameCount(p) <= NameCount(q);
      sorted := sorted + [p];
      rest := rest - {p};
    }
  }

  /** The filter applied to each directory: walk from its parent up to the
      root and reject it as soon as an ancestor is already accepted. The walk
      starts at the parent, so a directory never rejects itself. */
  method KeepPath(roots: set<Path>, path: Path) returns (keep: bool)
    ensures keep <==> !HasProperAncestorIn(path, roots)
  {
    var parent := path;
    while true
      invariant |parent| <= |path| && parent == path[..|parent|]
      invariant forall a :: a in roots && IsProperAncestor(a, path) ==> |a| < |parent|
      decreases |parent|
    {
      var next := Parent(parent);
      if next.None? {
        return true;
      }
      parent := next.value;
      if parent in roots {
        return false;
      }
    }
  }

  /** If `p` has a proper ancestor in `s`, it has one that itself has no
      proper ancestor in `s`. */
  lemma {:induction false} OutermostAncestorExists(p: Path, s: set<Path>, a: Path)
    requires a in s && IsProperAncestor(a, p)
    ensures exists m :: m in s && IsProperAncestor(m, p) && !HasProperAncestorIn(m, s)
    decreases |a|
  {
    if HasProperAncestorIn(a, s) {
      var b :| b in s && IsProperAncestor(b, a);
      ProperAncestorTransitive(b, a, p);
      OutermostAncestorExists(p, s, b);
    }
  }

  /** The roots accepted so far answer the ancestor question for the next
      directory exactly as the whole input would, because all its ancestors
      are shallower and were visited before it. */
  lemma AcceptedAnswersLikeInput(p: Path, directories: set<Path>, roots: set<Path>, visited: set<Path>)
    requires roots <= directories
    requires forall q :: q in directories && NameCount(q) < NameCount(p) ==> q in visited
    requires forall q :: q in roots <==> q in visited && !HasProperAncestorIn(q, directories)
    ensures HasProperAncestorIn(p, roots) <==> HasProperAncestorIn(p, directories)
  {
    if HasProperAncestorIn(p, directories) {
      var a :| a in directories && IsProperAncestor(a, p);
      OutermostAncestorExists(p, directories, a);
      var m :| m in directories && IsProperAncestor(m, p) && !HasProperAncestorIn(m, directories);
      assert m in roots;
    }
  }

  /** resolveRootsToWatch: the directories worth registering, i.e. those with
      no proper ancestor among the input. */
  method ResolveRootsToWatch(directories: set<Path>) returns (roots: set<Path>)
    ensures roots == MinimalRoots(directories)
    ensures roots <= directories
    ensures directories == {} ==> roots == {}
  {
    var sorted := SortByNameCount(directories);
    roots := {};
    for i := 0 to |sorted|
      invariant roots <= directories
      invariant forall q :: q in roots <==> q in sorted[..i] && !HasProperAncestorIn(q, directories)
    {
      var path := sorted[i];
      forall q | q in directories && NameCount(q) < NameCount(path)
        ensures q in sorted[..i]
      {
        var j :| 0 <= j < |sorted| && sorted[j] == q;
        assert j < i;
      }
      AcceptedAnswersLikeInput(path, directories, roots, set k | 0 <= k < i :: sorted[k]);
      var keep := KeepPath(roots, path);
      if keep {
        roots := roots + {path};
      }
    }
    assert sorted[..|sorted|] == sorted;
  }

  /** No root is a proper ancestor of another root. */
  lemma RootsAreAntichain(directories: set<Path>, a: Path, b: Path)
    requires a in MinimalRoots(directories) && b in MinimalRoots(directories)
    ensures !IsProperAncestor(a, b)
  {
    assert a in directories;
    assert IsProperAncestor(a, b) ==> HasProperAncestorIn(b, directories);
  }

  /** Every input directory is a root or lies below one. */
  lemma RootsCoverInput(directories: set<Path>, p: Path)
    requires p in directories
    ensures p in MinimalRoots(directories) || HasProperAncestorIn(p, MinimalRoots(directories))
  {
    if p !in MinimalRoots(directories) {
      var a :| a in directories && IsProperAncestor(a, p);
      OutermostAncestorExists(p, directories, a);
      var m :| m in directories && IsProperAncestor(m, p) && !HasProperAncestorIn(m, directories);
      assert m in MinimalRoots(directories);
    }
  }

  /** `q` is watched by some element of `s`: it is that element or below it. */
  ghost predicate CoveredBy(q: Path, s: set<Path>) {
    q in s || HasProperAncestorIn(q, s)
  }

  /** Watching the roots covers exactly what watching every input directory
      would cover. */
  lemma CoverageUnchanged(directories: set<Path>, q: Path)
    ensures CoveredBy(q, MinimalRoots(directories)) <==> CoveredBy(q, directories)
  {
    var roots := MinimalRoots(directories);
    if q in directories {
      RootsCoverInput(directories, q);
    } else if HasProperAncestorIn(q, directories) {
      var a :| a in directories && IsProperAncestor(a, q);
      RootsCoverInput(directories, a);
      if a !in roots {
        var m :| m in roots && IsProperAncestor(m, a);
        ProperAncestorTransitive(m, a, q);
      }
    }
  }

  /** Resolving an already resolved set changes nothing. */
  lemma ResolveIdempotent(directories: set<Path>)
    ensures MinimalRoots(MinimalRoots(directories)) == MinimalRoots(directories)
  {
    var roots := MinimalRoots(directories);
    forall p, a | p in roots && a in roots
      ensures !IsProperAncestor(a, p)
    {
      RootsAreAntichain(directories, a, p);
    }
  }

  /** {/a/b, /a/b/c, /a/d} resolves to {/a/b, /a/d}. */
  lemma ResolveExample()
    ensures MinimalRoots({["a", "b"], ["a", "b", "c"], ["a", "d"]}) == {["a", "b"], ["a", "d"]}
  {
    var input: set<Path> := {["a", "b"], ["a", "b", "c"], ["a", "d"]};
    assert IsProperAncestor(["a", "b"], ["a", "b", "c"]);
    // Every input directory has at least two names, so none is a proper
    // ancestor of a two-name directory.
    forall a | a in input
      ensures !IsProperAncestor(a, ["a", "b"]) && !IsProperAncestor(a, ["a", "d"])
    {
      assert |a| >= 2;
    }
  }

  // ---------------------------------------------------------------------------
  // Directories to watch for one snapshot
  // ---------------------------------------------------------------------------

  /** `a` is the nearest proper ancestor of `p` that the file system reports
      as a directory. */
  ghost predicate IsClosestExistingAncestor(isDirectory: Path -> bool, a: Path, p: Path) {
    && IsProperAncestor(a, p)
    && isDirectory(a)
    && forall b :: IsProperAncestor(b, p) && |a| < |b| ==> !isDirectory(b)
  }

  /** No proper ancestor of `p` is reported as a directory. */
  ghost predicate NoExistingAncestor(isDirectory: Path -> bool, p: Path) {
    forall a :: IsProperAncestor(a, p) ==> !isDirectory(a)
  }

  /** There is at most one closest existing ancestor. */
  lemma ClosestExistingAncestorUnique(isDirectory: Path -> bool, a: Path, b: Path, p: Path)
    requires IsClosestExistingAncestor(isDirectory, a, p)
    requires IsClosestExistingAncestor(isDirectory, b, p)
    ensures a == b
  {
    ProperAncestorByDepth(a, b, p);
    ProperAncestorByDepth(b, a, p);
  }

  /** findFirstExistingAncestor: step from parent to parent until
      Files.isDirectory (here the oracle `isDirectory`) holds; running out of
      parents is an IllegalStateException. */
  method FindFirstExistingAncestor(isDirectory: Path -> bool, path: Path) returns (r: Result<Path, WatchError>)
    ensures r.Ok? ==> IsClosestExistingAncestor(isDirectory, r.value, path)
    ensures r.Err? <==> NoExistingAncestor(isDirectory, path)
    ensures r.Err? ==> r.error == IllegalState(path)
  {
    var candidate := path;
    while true
      invariant |candidate| <= |path| && candidate == path[..|candidate|]
      invariant forall b :: IsProperAncestor(b, path) && |candidate| <= |b| ==> !isDirectory(b)
      decreases |candidate|
    {
      var parent := Parent(candidate);
      if parent.None? {
        return Err(IllegalState(path));
      }
      candidate := parent.value;
      if isDirectory(candidate) {
        return Ok(candidate);
      }
    }
  }

  /** getDirectoriesToWatch: the parent of a regular file; the parent and then
      the directory itself for a directory; the closest existing ancestor of a
      missing path. */
  method GetDirectoriesToWatch(isDirectory: Path -> bool, snapshot: Snapshot) returns (r: Result<seq<Path>, WatchError>)
    ensures r.Ok? ==> 1 <= |r.value| <= 2 && (|r.value| == 2 <==> snapshot.fileType == Directory)
    ensures r.Ok? ==> IsProperAncestor(r.value[0], snapshot.absolutePath)
    ensures snapshot.fileType == Directory && snapshot.absolutePath != [] ==>
      r == Ok([Parent(snapshot.absolutePath).value, snapshot.absolutePath])
    ensures snapshot.fileType == RegularFile && snapshot.absolutePath != [] ==>
      r == Ok([Parent(snapshot.absolutePath).value])
    ensures snapshot.fileType != Missing && snapshot.absolutePath == [] ==> r == Err(NullPointer)
    ensures snapshot.fileType == Missing && r.Ok? ==>
      IsClosestExistingAncestor(isDirectory, r.value[0], snapshot.absolutePath)
    ensures snapshot.fileType == Missing ==>
      (r.Err? <==> NoExistingAncestor(isDirectory, snapshot.absolutePath))
    ensures snapshot.fileType == Missing && r.Err? ==> r.error == IllegalState(snapshot.absolutePath)
  {
    var path := snapshot.absolutePath;
    var ancestorToWatch: Option<Path>;
    match snapshot.fileType {
      case RegularFile =>
        ancestorToWatch := Parent(path);
      case Directory =>
        ancestorToWatch := Parent(path);
      case Missing =>
        var found := FindFirstExistingAncestor(isDirectory, path);
        if found.Err? {
          return Err(found.error);
        }
        ancestorToWatch := Some(found.value);
    }
    if ancestorToWatch.None? {
      return Err(NullPointer);
    }
    if snapshot.fileType == Directory {
      r := Ok([ancestorToWatch.value, path]);
    } else {
      r := Ok([ancestorToWatch.value]);
    }
  }
}
