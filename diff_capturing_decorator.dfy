/** DelegatingDiffCapturingUpdateFunctionDecorator: wraps an update of the
    snapshot hierarchy so that, while a diff listener is attached, the node
    changes the update reports are collected and handed, through the error
    handler, to that listener. The hierarchy, the listener and the update
    function stay opaque. */
module DiffCapturingDecorator {
  import opened Wrappers

  /** SnapshotHierarchy: an immutable tree whose internals are not modelled. */
  type SnapshotHierarchy(==)

  /** SnapshotHierarchy.SnapshotDiffListener: where a published diff goes. */
  type SnapshotDiffListener(==)

  /** One change an update reports to the node diff listener it is given. */
  datatype NodeDiff = NodeAdded(path: string) | NodeRemoved(path: string)

  /** What DiffCapturingUpdateFunction.update computes from a root: the new
      root and, in order, the node changes it reports to its diff listener. */
  datatype UpdateOutcome = UpdateOutcome(newRoot: SnapshotHierarchy, diffs: seq<NodeDiff>)

  type UpdateFunction = SnapshotHierarchy -> UpdateOutcome

  /** The node changes of `diffs` whose path the watch filter accepts, in order. */
  function Relevant(watchFilter: string -> bool, diffs: seq<NodeDiff>): (r: seq<NodeDiff>)
    ensures |r| <= |diffs|
    ensures forall d :: d in r <==> d in diffs && watchFilter(d.path)
  {
    if diffs == [] then []
    else (if watchFilter(diffs[0].path) then [diffs[0]] else []) + Relevant(watchFilter, diffs[1..])
  }

  /** Filtering a run of changes in two parts is filtering the whole run. */
  lemma {:induction false} RelevantAppend(watchFilter: string -> bool, xs: seq<NodeDiff>, ys: seq<NodeDiff>)
    ensures Relevant(watchFilter, xs + ys) == Relevant(watchFilter, xs) + Relevant(watchFilter, ys)
  {
    if xs != [] {
      assert (xs + ys)[1..] == xs[1..] + ys;
      RelevantAppend(watchFilter, xs[1..], ys);
    } else {
      assert xs + ys == ys;
    }
  }

  /** SnapshotCollectingDiffListener, reduced to what the decorator relies on:
      it is built with a watch filter and keeps the node changes reported to
      it that the filter accepts. */
  class SnapshotCollectingDiffListener {
    const watchFilter: string -> bool
    var collected: seq<NodeDiff>

    constructor (watchFilter: string -> bool)
      ensures this.watchFilter == watchFilter && collected == []
    {
      this.watchFilter := watchFilter;
      collected := [];
    }

    /** Receives, in order, the node changes one update reports. */
    method Record(diffs: seq<NodeDiff>)
      modifies this
      ensures collected == old(collected) + Relevant(watchFilter, diffs)
    {
      collected := collected + Relevant(watchFilter, diffs);
    }
  }

  /** The Runnable handed to the error handler: publish what `collector`
      holds to `listener`. */
  datatype Publication = PublishSnapshotDiff(collector: SnapshotCollectingDiffListener, listener: SnapshotDiffListener)

  /** ErrorHandler.handleErrors: given the candidate root and the publishing
      callback, the root to adopt. How it runs the callback and recovers from
      failures belongs to the handler. */
  datatype ErrorHandler = ErrorHandler(handleErrors: (SnapshotHierarchy, Publication) -> SnapshotHierarchy)

  /** The UpdateFunction decorate returns. The pass-through wrapper runs the
      update with the NOOP diff listener; the capturing wrapper holds the
      listener read when decorate ran, its own collector, and the decorator
      whose error handler it reads each time it runs. */
  datatype DecoratedUpdate =
    | PassThrough(update: UpdateFunction)
    | Capturing(update: UpdateFunction, currentListener: SnapshotDiffListener,
                diffListener: SnapshotCollectingDiffListener, owner: Decorator)

  /** The outcome of running a decorated update: the new root, or the
      NullPointerException raised when a capturing wrapper finds no error
      handler on its decorator. */
  datatype ApplyError = NullPointer

  class Decorator {
    const watchFilter: string -> bool
    var snapshotDiffListener: Option<SnapshotDiffListener>
    var errorHandler: Option<ErrorHandler>

    /** Listener and error handler are present together. */
    ghost predicate Consistent()
      reads this
    {
      snapshotDiffListener.Some? <==> errorHandler.Some?
    }

    ghost predicate Detached()
      reads this
    {
      snapshotDiffListener.None? && errorHandler.None?
    }

    /** A new decorator starts detached; its watch filter never changes. */
    constructor (watchFilter: string -> bool)
      ensures this.watchFilter == watchFilter
      ensures Detached() && Consistent()
    {
      this.watchFilter := watchFilter;
      snapshotDiffListener := None;
      errorHandler := None;
    }

    /** Overwrites both fields with the given pair; either may be null. */
    method SetSnapshotDiffListener(listener: Option<SnapshotDiffListener>, handler: Option<ErrorHandler>)
      modifies this
      ensures snapshotDiffListener == listener && errorHandler == handler
      ensures listener.Some? && handler.Some? ==> Consistent() && !Detached()
    {
      snapshotDiffListener := listener;
      errorHandler := handler;
    }

    /** Clears both fields. */
    method StopListening()
      modifies this
      ensures Detached() && Consistent()
    {
      snapshotDiffListener := None;
      errorHandler := None;
    }

    /** decorate: reads the listener once; with none attached the result is
      the plain update, otherwise a capturing wrapper around one new collector
      built with this decorator's watch filter. Nothing of the decorator
      changes. */
    method Decorate(update: UpdateFunction) returns (f: DecoratedUpdate)
      ensures snapshotDiffListener.None? ==> f == PassThrough(update)
      ensures snapshotDiffListener.Some? ==>
        && f.Capturing?
        && f.update == update
        && f.currentListener == snapshotDiffListener.value
        && f.owner == this
        && fresh(f.diffListener)
        && f.diffListener.watchFilter == watchFilter
        && f.diffListener.collected == []
    {
      var currentListener := snapshotDiffListener;
      if currentListener.None? {
        return PassThrough(update);
      }
      var diffListener := new SnapshotCollectingDiffListener(watchFilter);
      f := Capturing(update, currentListener.value, diffListener, this);
    }
  }

  /** The set of objects running `f` may change: only its collector. */
  function Collectors(f: DecoratedUpdate): set<object> {
    if f.Capturing? then {f.diffListener} else {}
  }

  /** Runs a decorated update on `root`. The pass-through wrapper returns the
      update's root and consults no handler. The capturing wrapper first runs
      the update into its collector, then reads its decorator's error handler
      as it is now, and returns what exactly one handleErrors call gives for
      the new root and the callback that publishes to the listener captured
      by decorate; with no handler that step is a NullPointerException. */
  method Apply(f: DecoratedUpdate, root: SnapshotHierarchy) returns (r: Result<SnapshotHierarchy, ApplyError>)
    modifies Collectors(f)
    ensures f.PassThrough? ==> r == Ok(f.update(root).newRoot)
    ensures f.Capturing? ==>
      f.diffListener.collected == old(f.diffListener.collected) + Relevant(f.diffListener.watchFilter, f.update(root).diffs)
    ensures f.Capturing? && f.owner.errorHandler.None? ==> r == Err(NullPointer)
    ensures f.Capturing? && f.owner.errorHandler.Some? ==>
      r == Ok(f.owner.errorHandler.value.handleErrors(f.update(root).newRoot,
                                                       PublishSnapshotDiff(f.diffListener, f.currentListener)))
  {
    match f {
      case PassThrough(update) =>
        r := Ok(update(root).newRoot);
      case Capturing(update, currentListener, diffListener, owner) =>
        var outcome := update(root);
        diffListener.Record(outcome.diffs);
        var handler := owner.errorHandler;
        if handler.None? {
          return Err(NullPointer);
        }
        r := Ok(handler.value.handleErrors(outcome.newRoot, PublishSnapshotDiff(diffListener, currentListener)));
    }
  }

  // ---------------------------------------------------------------------------
  // When the listener and the error handler are read
  // ---------------------------------------------------------------------------

  /** Attach (l1, h1), decorate, re-attach (l2, h2), run: the diff goes to
      l1, captured by decorate, through h2, read when the wrapper runs. */
  method ListenerCapturedHandlerReread(watchFilter: string -> bool, update: UpdateFunction, root: SnapshotHierarchy,
                                       l1: SnapshotDiffListener, h1: ErrorHandler,
                                       l2: SnapshotDiffListener, h2: ErrorHandler)
    returns (r: Result<SnapshotHierarchy, ApplyError>, collector: SnapshotCollectingDiffListener)
    ensures r == Ok(h2.handleErrors(update(root).newRoot, PublishSnapshotDiff(collector, l1)))
    ensures collector.collected == Relevant(watchFilter, update(root).diffs)
  {
    var decorator := new Decorator(watchFilter);
    decorator.SetSnapshotDiffListener(Some(l1), Some(h1));
    var f := decorator.Decorate(update);
    decorator.SetSnapshotDiffListener(Some(l2), Some(h2));
    r := Apply(f, root);
    collector := f.diffListener;
  }

  /** Attach, decorate, stop listening, run: the update still runs into the
      collector, but the error handler is gone and the run fails. */
  method StopListeningBeforeRun(watchFilter: string -> bool, update: UpdateFunction, root: SnapshotHierarchy,
                                listener: SnapshotDiffListener, handler: ErrorHandler)
    returns (r: Result<SnapshotHierarchy, ApplyError>, collector: SnapshotCollectingDiffListener)
    ensures r == Err(NullPointer)
    ensures collector.collected == Relevant(watchFilter, update(root).diffs)
  {
    var decorator := new Decorator(watchFilter);
    decorator.SetSnapshotDiffListener(Some(listener), Some(handler));
    var f := decorator.Decorate(update);
    decorator.StopListening();
    r := Apply(f, root);
    collector := f.diffListener;
  }

  /** Decorate while detached, attach, run: the wrapper stays the plain
      update and its root comes back unchanged. */
  method AttachAfterDecorate(watchFilter: string -> bool, update: UpdateFunction, root: SnapshotHierarchy,
                             listener: SnapshotDiffListener, handler: ErrorHandler)
    returns (r: Result<SnapshotHierarchy, ApplyError>)
    ensures r == Ok(update(root).newRoot)
  {
    var decorator := new Decorator(watchFilter);
    var f := decorator.Decorate(update);
    decorator.SetSnapshotDiffListener(Some(listener), Some(handler));
    r := Apply(f, root);
  }

  /** One decorate, two runs: both record into the same collector, whose
      filter is the decorator's. */
  method RunTwiceSameCollector(watchFilter: string -> bool, update: UpdateFunction, root1: SnapshotHierarchy,
                               root2: SnapshotHierarchy, listener: SnapshotDiffListener, handler: ErrorHandler)
    returns (r1: Result<SnapshotHierarchy, ApplyError>, r2: Result<SnapshotHierarchy, ApplyError>,
             collector: SnapshotCollectingDiffListener)
    ensures r1 == Ok(handler.handleErrors(update(root1).newRoot, PublishSnapshotDiff(collector, listener)))
    ensures r2 == Ok(handler.handleErrors(update(root2).newRoot, PublishSnapshotDiff(collector, listener)))
    ensures collector.collected == Relevant(watchFilter, update(root1).diffs + update(root2).diffs)
  {
    var decorator := new Decorator(watchFilter);
    decorator.SetSnapshotDiffListener(Some(listener), Some(handler));
    var f := decorator.Decorate(update);
    collector := f.diffListener;
    r1 := Apply(f, root1);
    assert collector.collected == Relevant(watchFilter, update(root1).diffs);
    assert decorator.errorHandler == Some(handler);
    r2 := Apply(f, root2);
    RelevantAppend(watchFilter, update(root1).diffs, update(root2).diffs);
  }
}
