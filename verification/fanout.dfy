/**
 The fan-out rule: which neighbouring contexts a handled query is forwarded
 to. A context knows the workers it spawned; a page-like context (one with a
 document) also knows the frames embedded in its document and, unless it is
 the top frame, its parent frame. A worker has no document.
 */
module FanOut {

  /** A reference to another context: a worker, a frame's window, the parent window. */
  type Handle = nat

  /** What the fan-out reads of the current context. */
  datatype Context = Context(
    workers: seq<Handle>,
    hasDocument: bool,
    iframes: seq<Handle>,
    isTop: bool,
    parent: Handle
  )

  /** One `postMessage` the fan-out performs. */
  datatype Target = ToWorker(handle: Handle) | ToFrame(handle: Handle) | ToParent(handle: Handle)

  /** The workers, in registry order. */
  function WorkerTargets(workers: seq<Handle>): (ts: seq<Target>)
    ensures |ts| == |workers|
    ensures forall k :: 0 <= k < |workers| ==> ts[k] == ToWorker(workers[k])
    ensures forall t :: t in ts ==> t.ToWorker? && t.handle in workers
    decreases |workers|
  {
    if |workers| == 0 then [] else [ToWorker(workers[0])] + WorkerTargets(workers[1..])
  }

  /** The embedded frames, in document order. */
  function FrameTargets(iframes: seq<Handle>): (ts: seq<Target>)
    ensures |ts| == |iframes|
    ensures forall k :: 0 <= k < |iframes| ==> ts[k] == ToFrame(iframes[k])
    ensures forall t :: t in ts ==> t.ToFrame? && t.handle in iframes
    decreases |iframes|
  {
    if |iframes| == 0 then [] else [ToFrame(iframes[0])] + FrameTargets(iframes[1..])
  }

  /**
   `crossThreadSearch`: every worker, then (in a page-like context) every
   embedded frame, then the parent frame when the context is not the top one.
   */
  function CrossThreadSearch(ctx: Context): (ts: seq<Target>)
    ensures |ts| == |ctx.workers| +
      (if ctx.hasDocument then |ctx.iframes| + (if ctx.isTop then 0 else 1) else 0)
    ensures forall k :: 0 <= k < |ctx.workers| ==> ts[k] == ToWorker(ctx.workers[k])
    ensures ctx.hasDocument ==>
      forall k :: 0 <= k < |ctx.iframes| ==> ts[|ctx.workers| + k] == ToFrame(ctx.iframes[k])
    ensures ctx.hasDocument && !ctx.isTop ==> ts[|ts| - 1] == ToParent(ctx.parent)
  {
    WorkerTargets(ctx.workers)
      + if ctx.hasDocument then
          FrameTargets(ctx.iframes) + (if ctx.isTop then [] else [ToParent(ctx.parent)])
        else []
  }

  /** The contexts a context can reach in one hop. */
  ghost function Neighbours(ctx: Context): set<Handle> {
    (set h | h in ctx.workers)
      + (if ctx.hasDocument then set h | h in ctx.iframes else {})
      + (if ctx.hasDocument && !ctx.isTop then {ctx.parent} else {})
  }

  /** Every forwarded message goes to a neighbour. */
  lemma FanOutWithinNeighbours(ctx: Context)
    ensures forall t :: t in CrossThreadSearch(ctx) ==> t.handle in Neighbours(ctx)
  {
    var frames := if ctx.hasDocument then FrameTargets(ctx.iframes) else [];
    var parent := if ctx.hasDocument && !ctx.isTop then [ToParent(ctx.parent)] else [];
    assert CrossThreadSearch(ctx) == WorkerTargets(ctx.workers) + frames + parent;
  }

  /** Every neighbour receives a forwarded message. */
  lemma FanOutCoversNeighbours(ctx: Context)
    ensures forall h :: h in Neighbours(ctx) ==> exists t :: t in CrossThreadSearch(ctx) && t.handle == h
  {
    var frames := if ctx.hasDocument then FrameTargets(ctx.iframes) else [];
    var parent := if ctx.hasDocument && !ctx.isTop then [ToParent(ctx.parent)] else [];
    var ts := WorkerTargets(ctx.workers) + frames + parent;
    assert CrossThreadSearch(ctx) == ts;
    forall h | h in Neighbours(ctx) ensures exists t :: t in ts && t.handle == h {
      if h in ctx.workers {
        var k :| 0 <= k < |ctx.workers| && ctx.workers[k] == h;
        assert ts[k] == ToWorker(h);
      } else if ctx.hasDocument && h in ctx.iframes {
        var k :| 0 <= k < |ctx.iframes| && ctx.iframes[k] == h;
        assert frames[k] == ToFrame(h);
      } else {
        assert ToParent(h) in parent;
      }
    }
  }

  /** The fan-out reaches every neighbour and nothing else. */
  lemma FanOutReachesExactlyNeighbours(ctx: Context)
    ensures forall t :: t in CrossThreadSearch(ctx) ==> t.handle in Neighbours(ctx)
    ensures forall h :: h in Neighbours(ctx) ==> exists t :: t in CrossThreadSearch(ctx) && t.handle == h
  {
    FanOutWithinNeighbours(ctx);
    FanOutCoversNeighbours(ctx);
  }

  /** A context without a document (a worker) forwards to its workers only. */
  lemma WorkerContextForwardsToWorkersOnly(ctx: Context)
    requires !ctx.hasDocument
    ensures forall t :: t in CrossThreadSearch(ctx) ==> t.ToWorker? && t.handle in ctx.workers
  {
  }

  /** The parent is addressed exactly when the context has a document and is not the top frame. */
  lemma ParentTargetedIffEmbedded(ctx: Context)
    ensures (exists t :: t in CrossThreadSearch(ctx) && t.ToParent?) <==> ctx.hasDocument && !ctx.isTop
  {
    var ts := CrossThreadSearch(ctx);
    if ctx.hasDocument && !ctx.isTop {
      assert ts[|ts| - 1] in ts;
    } else {
      var frames := if ctx.hasDocument then FrameTargets(ctx.iframes) else [];
      assert ts == WorkerTargets(ctx.workers) + frames;
    }
  }
}
