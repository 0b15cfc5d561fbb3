# File-watching core: watch-root resolution and the diff-capturing decorator

A Dafny model of two pieces of Gradle's file-watching subsystem.

- **WatchRootUtil** decides which directories the native file watcher is asked
  to monitor. `resolveRootsToWatch` turns a set of directories into the
  roots worth registering. It sorts them by depth and drops every directory
  whose ancestor was already accepted. `getDirectoriesToWatch` gives the
  directories that reveal a change to one snapshot:
  - the parent, for a regular file;
  - the parent and then the directory itself, for a directory;
  - the closest ancestor that exists on disk, for a missing path.
- **DelegatingDiffCapturingUpdateFunctionDecorator** wraps updates of the
  snapshot hierarchy. While no diff listener is attached, it returns the
  update unchanged, run with the no-op diff listener. While one is attached,
  it returns a wrapper that runs the update into a fresh collector. The
  wrapper then hands the new root, and a callback that publishes the
  collected diff, to the error handler.

Files:
- `wrappers.dfy` holds `Option` (a nullable reference) and `Result` (a value or an exception).
- `paths.dfy` models absolute paths as sequences of name components; `[]` is the root `/`.
  `Parent` is `Path.getParent` and `NameCount` is `Path.getNameCount`.
- `watch_root_util.dfy` models `WatchRootUtil`. Each loop or iterating stream
  step of the source is a method with a loop: the depth sort, the ancestor walk inside the filter, the
  outer filter loop, and `findFirstExistingAncestor`. They are proved against
  the ghost function `MinimalRoots` and the predicates `IsClosestExistingAncestor`
  and `NoExistingAncestor`. `Files.isDirectory` is the parameter `isDirectory`.
- `diff_capturing_decorator.dfy` models the decorator as a class with two
  `Option` fields and a constant watch filter. The closure `decorate` returns
  is the datatype `DecoratedUpdate`, and running it is the method `Apply`.
  The capturing closure in the source reads the field `errorHandler` through
  `this`, so `Capturing` keeps its owner, and `Apply` reads the handler
  from that owner when the wrapper runs.

## Behaviour of the code worth noting

- A regular file is watched through its parent, with no existence check. Only
  a missing path walks upward to an ancestor that exists.
- `setSnapshotDiffListener` accepts a null listener or handler. Listener and
  handler are present together only when both arguments are non-null.
- A capturing wrapper that runs after `stopListening` throws a
  NullPointerException, because it reads the now-null handler.
- A regular file or directory snapshot at the root `/` has a null parent.
  `ImmutableList.of` rejects null, so the call throws a NullPointerException.

## Model

| member | source | states |
|---|---|---|
| Paths.NameCount | subprojects/file-watching/src/main/java/org/gradle/internal/vfs/watch/WatchRootUtil.java:37 | the depth the sort compares is the number of names, zero at the root |
| Paths.Parent | subprojects/file-watching/src/main/java/org/gradle/internal/vfs/watch/WatchRootUtil.java:41-44 | the root has no parent; any other path's parent is the one-name-shorter prefix, and every other proper ancestor lies above that parent |
| WatchRootUtil.SortByNameCount | subprojects/file-watching/src/main/java/org/gradle/internal/vfs/watch/WatchRootUtil.java:36-37 | the sorted stream holds every input directory exactly once, in non-decreasing name count |
| WatchRootUtil.KeepPath | subprojects/file-watching/src/main/java/org/gradle/internal/vfs/watch/WatchRootUtil.java:38-50 | the filter keeps a path iff none of its proper ancestors is among the roots accepted so far; the walk starts at the parent, so a path never rejects itself |
| WatchRootUtil.AcceptedAnswersLikeInput | subprojects/file-watching/src/main/java/org/gradle/internal/vfs/watch/WatchRootUtil.java:37-48 | since shallower directories are visited first, checking against the accepted roots gives the same answer as checking against the whole input |
| WatchRootUtil.ResolveRootsToWatch | subprojects/file-watching/src/main/java/org/gradle/internal/vfs/watch/WatchRootUtil.java:34-53 | the result is exactly the input directories that have no proper ancestor in the input; it is a subset of the input, the empty set gives the empty set, and the order among equal-depth directories does not matter |
| WatchRootUtil.RootsAreAntichain | subprojects/file-watching/src/main/java/org/gradle/internal/vfs/watch/WatchRootUtil.java:37-51 | no element of the result is a proper ancestor of another element |
| WatchRootUtil.RootsCoverInput | subprojects/file-watching/src/main/java/org/gradle/internal/vfs/watch/WatchRootUtil.java:31-51 | every input directory is in the result or has a proper ancestor in it |
| WatchRootUtil.CoverageUnchanged | subprojects/file-watching/src/main/java/org/gradle/internal/vfs/watch/WatchRootUtil.java:31-51 | a path lies at or below some result root iff it lies at or below some input directory |
| WatchRootUtil.ResolveIdempotent | subprojects/file-watching/src/main/java/org/gradle/internal/vfs/watch/WatchRootUtil.java:34-53 | resolving an already resolved set returns it unchanged |
| WatchRootUtil.ResolveExample | subprojects/file-watching/src/main/java/org/gradle/internal/vfs/watch/WatchRootUtil.java:34-53 | {/a/b, /a/b/c, /a/d} resolves to {/a/b, /a/d} |
| WatchRootUtil.ClosestExistingAncestorUnique | subprojects/file-watching/src/main/java/org/gradle/internal/vfs/watch/WatchRootUtil.java:88-100 | at most one proper ancestor is the nearest one reported as a directory |
| WatchRootUtil.FindFirstExistingAncestor | subprojects/file-watching/src/main/java/org/gradle/internal/vfs/watch/WatchRootUtil.java:88-101 | the result is the nearest proper ancestor for which isDirectory holds; when no proper ancestor qualifies, and only then, it fails with IllegalState for the path |
| WatchRootUtil.GetDirectoriesToWatch | subprojects/file-watching/src/main/java/org/gradle/internal/vfs/watch/WatchRootUtil.java:63-86 | a directory gives [parent, path] and a regular file [parent]; a list of two comes back exactly for a directory; a missing path gives its closest existing ancestor or fails with IllegalState exactly when there is none; a file or directory at the root fails with NullPointer; a success is never empty |
| DiffCapturingDecorator.SnapshotCollectingDiffListener.constructor | subprojects/file-watching/src/main/java/org/gradle/internal/vfs/impl/DelegatingDiffCapturingUpdateFunctionDecorator.java:52 | each collector starts empty and keeps the watch filter it was built with |
| DiffCapturingDecorator.SnapshotCollectingDiffListener.Record | subprojects/file-watching/src/main/java/org/gradle/internal/vfs/impl/DelegatingDiffCapturingUpdateFunctionDecorator.java:54 | an update run into the collector appends, in order, the reported changes the filter accepts |
| DiffCapturingDecorator.Relevant | subprojects/file-watching/src/main/java/org/gradle/internal/vfs/impl/DelegatingDiffCapturingUpdateFunctionDecorator.java:52-54 | the collector keeps exactly the changes whose path the watch filter accepts, and never more changes than were reported |
| DiffCapturingDecorator.RelevantAppend | subprojects/file-watching/src/main/java/org/gradle/internal/vfs/impl/DelegatingDiffCapturingUpdateFunctionDecorator.java:53-54 | two runs into one collector record what one run over both change lists would record |
| DiffCapturingDecorator.Decorator.constructor | subprojects/file-watching/src/main/java/org/gradle/internal/vfs/impl/DelegatingDiffCapturingUpdateFunctionDecorator.java:27-33 | a new decorator is detached, with no listener and no handler, and keeps the watch filter it was given |
| DiffCapturingDecorator.Decorator.SetSnapshotDiffListener | subprojects/file-watching/src/main/java/org/gradle/internal/vfs/impl/DelegatingDiffCapturingUpdateFunctionDecorator.java:35-38 | overwrites listener and handler together with the given pair; with two non-null arguments the decorator is attached |
| DiffCapturingDecorator.Decorator.StopListening | subprojects/file-watching/src/main/java/org/gradle/internal/vfs/impl/DelegatingDiffCapturingUpdateFunctionDecorator.java:40-43 | clears listener and handler together, leaving the decorator detached |
| DiffCapturingDecorator.Decorator.Decorate | subprojects/file-watching/src/main/java/org/gradle/internal/vfs/impl/DelegatingDiffCapturingUpdateFunctionDecorator.java:46-57 | detached: the result is the plain update; attached: a capturing wrapper over the update, the listener read now, this decorator, and one fresh, empty collector built with the decorator's watch filter |
| DiffCapturingDecorator.Apply | subprojects/file-watching/src/main/java/org/gradle/internal/vfs/impl/DelegatingDiffCapturingUpdateFunctionDecorator.java:49-56 | the plain wrapper returns the update's root with no handler call; the capturing wrapper first records the update's changes into its collector, then returns exactly one handleErrors result for the new root and the publish-to-captured-listener callback, using the handler the decorator holds at run time; with no handler it fails with NullPointer |
| DiffCapturingDecorator.ListenerCapturedHandlerReread | subprojects/file-watching/src/main/java/org/gradle/internal/vfs/impl/DelegatingDiffCapturingUpdateFunctionDecorator.java:47-55 | re-attaching after decorate changes the handler used but not the listener published to |
| DiffCapturingDecorator.StopListeningBeforeRun | subprojects/file-watching/src/main/java/org/gradle/internal/vfs/impl/DelegatingDiffCapturingUpdateFunctionDecorator.java:53-56 | stopping after decorate leaves the wrapper capturing: the update still records its changes, then the run fails for want of a handler |
| DiffCapturingDecorator.AttachAfterDecorate | subprojects/file-watching/src/main/java/org/gradle/internal/vfs/impl/DelegatingDiffCapturingUpdateFunctionDecorator.java:47-50 | a wrapper made while detached stays the plain update after a later attach |
| DiffCapturingDecorator.RunTwiceSameCollector | subprojects/file-watching/src/main/java/org/gradle/internal/vfs/impl/DelegatingDiffCapturingUpdateFunctionDecorator.java:52-56 | every run of one wrapper records into the same collector and publishes to the same listener |

## Left out

- The file system: `Files.isDirectory` is an opaque parameter `isDirectory`. Windows drive roots, relative paths, normalisation and symbolic links are not modelled. Paths are normalised absolute component sequences compared by value.
- `HashSet` and stream mechanics: the sort is modelled as a choice among the shallowest remaining directories, so any tie order is allowed. The filter and the `forEach(roots::add)` are one loop over the sorted sequence.
- `SnapshotCollectingDiffListener` is not part of this model beyond what the decorator relies on. Its collector keeps the changes the filter accepts. How it splits them into added and removed lists, and how `publishSnapshotDiff` calls the listener, are left out.
- `ErrorHandler`: its behaviour is an opaque function from the candidate root and the publish callback to the root to adopt. Whether it runs the callback, and how it recovers from a failure, belong to the handler and are not modelled.
- Exceptions thrown by the update function or by the listener are not modelled. Each update is a total function from a root to a new root and the node changes it reports.
- `SnapshotHierarchy`, `AtomicSnapshotHierarchyReference`, `HierarchicalFileWatcherUpdater` and `DefaultFileWatcherRegistry` are not part of this model. The hierarchy is an opaque type.
- Thread visibility of the decorator's non-volatile fields is not modelled. The decorator is modelled sequentially.
- The registry factories (`AbstractFileWatcherRegistryFactory`, `DarwinFileWatcherRegistryFactory`, `WindowsFileWatcherRegistryFactory`) are not modelled. They wire native JNI watchers to a blocking queue of 4096 events, which is foreign code and cross-thread handoff.
- The build scripts `core.gradle.kts` and `soak.gradle.kts` are not modelled. They hold build configuration, not program logic.
