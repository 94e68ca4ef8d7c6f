/**
 * The controller of the background line animation: the shared animation state,
 * the generation of paths from the edges of the drawing surface, the frame
 * callback with its five-second ceiling, and the resize handler.
 *
 * `Controller` is the value view of the state and `InitialPaths`, `FrameStep`
 * and `Resize` say what generation, one frame and one resize do; the class
 * `Animation` holds the state in fields and its methods are proved to follow
 * them. The host supplies what the browser would: the surface size, the
 * timestamp of a frame, the handle `requestAnimationFrame` returns, and the
 * values of `Math.random()`.
 */
module LineAnimation {

  import opened Wrappers
  import opened LinePath

  /** `Math.floor(size * 2 * densityMultiplier)`: one path per ten pixels of the edge. */
  function PathCount(size: nat): (count: nat)
    ensures count == size / 10
  {
    var q := size / 10;
    assert (size as real) * 2.0 * DensityMultiplier == (q as real) + ((size % 10) as real) / 10.0;
    ((size as real) * 2.0 * DensityMultiplier).Floor
  }

  /** The `index`-th of `count` horizontal paths: the first half start on the left edge moving right, the rest on the right edge moving left. */
  function HorizontalPath(index: nat, count: nat, width: nat, height: nat, draw: UnitReal): (r: PathState)
    requires index < count
    ensures IsHorizontal(r.direction) && r.start.x == r.current.x && r.start.y == r.current.y
    ensures r.points == [] && r.totalSegments == TotalSegments(width, draw)
  {
    if (index as real) < (count as real) / 2.0 then
      NewPath(0.0, (index as real / count as real) * 2.0 * height as real, Direction(1, 0), width, draw)
    else
      NewPath(width as real, ((index as real - count as real / 2.0) / count as real) * 2.0 * height as real,
              Direction(-1, 0), width, draw)
  }

  /** The `index`-th of `count` vertical paths: the first half start on the top edge moving down, the rest on the bottom edge moving up. */
  function VerticalPath(index: nat, count: nat, width: nat, height: nat, draw: UnitReal): (r: PathState)
    requires index < count
    ensures !IsHorizontal(r.direction) && r.start.x == r.current.x && r.start.y == r.current.y
    ensures r.points == [] && r.totalSegments == TotalSegments(width, draw)
  {
    if (index as real) < (count as real) / 2.0 then
      NewPath((index as real / count as real) * 2.0 * width as real, 0.0, Direction(0, 1), width, draw)
    else
      NewPath(((index as real - count as real / 2.0) / count as real) * 2.0 * width as real, height as real,
              Direction(0, -1), width, draw)
  }

  /** `createInitialPaths` on a surface of this size: horizontal paths first, then vertical ones; the k-th path built uses `draw(k)`. */
  function InitialPaths(width: nat, height: nat, draw: nat -> UnitReal): (r: seq<PathState>)
    ensures |r| == height / 10 + width / 10
  {
    var h := PathCount(height);
    var v := PathCount(width);
    seq(h, i requires 0 <= i < h => HorizontalPath(i, h, width, height, draw(i))) +
    seq(v, i requires 0 <= i < v => VerticalPath(i, v, width, height, draw(h + i)))
  }

  predicate AllValid(paths: seq<PathState>) {
    forall k :: 0 <= k < |paths| ==> PathValid(paths[k])
  }

  /** `isComplete` as the frame loop computes it: every path had finished before this frame's render. */
  predicate AllFinished(paths: seq<PathState>) {
    forall k :: 0 <= k < |paths| ==> paths[k].finished
  }

  /** A path as generated: valid, nothing committed, nothing in flight, not finished. */
  predicate PathFresh(s: PathState) {
    PathValid(s) && !s.finished && s.points == [] && s.progress == 0.0
  }

  lemma HorizontalPathShape(index: nat, count: nat, width: nat, height: nat, draw: UnitReal)
    requires index < count
    ensures var s := HorizontalPath(index, count, width, height, draw);
      && PathFresh(s)
      && (2 * index < count ==> s.start.x == 0.0 && s.direction == Direction(1, 0))
      && (2 * index >= count ==> s.start.x == width as real && s.direction == Direction(-1, 0))
  {
    assert (2 * index < count) == ((index as real) < (count as real) / 2.0);
  }

  lemma VerticalPathShape(index: nat, count: nat, width: nat, height: nat, draw: UnitReal)
    requires index < count
    ensures var s := VerticalPath(index, count, width, height, draw);
      && PathFresh(s)
      && (2 * index < count ==> s.start.y == 0.0 && s.direction == Direction(0, 1))
      && (2 * index >= count ==> s.start.y == height as real && s.direction == Direction(0, -1))
  {
    assert (2 * index < count) == ((index as real) < (count as real) / 2.0);
  }

  /**
   * The paths generated for a surface: H/10 horizontal ones then W/10
   * vertical ones, each on the edge and heading the way its half says, each
   * satisfying the path invariant, none finished and none with a point yet.
   */
  lemma InitialPathsShape(width: nat, height: nat, draw: nat -> UnitReal)
    ensures var ps := InitialPaths(width, height, draw);
      var h := height / 10;
      && |ps| == h + width / 10
      && (forall k :: 0 <= k < |ps| ==> PathFresh(ps[k]))
      && (forall k :: 0 <= k < h && 2 * k < h ==> ps[k].start.x == 0.0 && ps[k].direction == Direction(1, 0))
      && (forall k :: 0 <= k < h && 2 * k >= h ==> ps[k].start.x == width as real && ps[k].direction == Direction(-1, 0))
      && (forall k :: h <= k < |ps| && 2 * (k - h) < width / 10 ==>
            ps[k].start.y == 0.0 && ps[k].direction == Direction(0, 1))
      && (forall k :: h <= k < |ps| && 2 * (k - h) >= width / 10 ==>
            ps[k].start.y == height as real && ps[k].direction == Direction(0, -1))
  {
    var ps := InitialPaths(width, height, draw);
    var h := height / 10;
    var v := width / 10;
    forall k | 0 <= k < |ps|
      ensures PathFresh(ps[k])
      ensures k < h && 2 * k < h ==> ps[k].start.x == 0.0 && ps[k].direction == Direction(1, 0)
      ensures k < h && 2 * k >= h ==> ps[k].start.x == width as real && ps[k].direction == Direction(-1, 0)
      ensures h <= k && 2 * (k - h) < v ==> ps[k].start.y == 0.0 && ps[k].direction == Direction(0, 1)
      ensures h <= k && 2 * (k - h) >= v ==> ps[k].start.y == height as real && ps[k].direction == Direction(0, -1)
    {
      InitialPathAt(width, height, draw, k);
      if k < h {
        HorizontalPathShape(k, h, width, height, draw(k));
      } else {
        VerticalPathShape(k - h, v, width, height, draw(k));
      }
    }
  }

  /** The k-th generated path is the k-th horizontal one, or, past those, a vertical one. */
  lemma InitialPathAt(width: nat, height: nat, draw: nat -> UnitReal, k: nat)
    requires k < height / 10 + width / 10
    ensures var ps := InitialPaths(width, height, draw);
      var h := height / 10;
      && |ps| == h + width / 10
      && (k < h ==> ps[k] == HorizontalPath(k, h, width, height, draw(k)))
      && (k >= h ==> ps[k] == VerticalPath(k - h, width / 10, width, height, draw(k)))
  {
  }

  /** A 1000 x 800 surface gets 80 horizontal and 100 vertical paths; path 40 is the first on the right edge. */
  lemma InitialPathsExample(draw: nat -> UnitReal)
    ensures var ps := InitialPaths(1000, 800, draw);
      && |ps| == 180
      && ps[0].start == Point(0.0, 0.0) && ps[0].direction == Direction(1, 0)
      && ps[40].start == Point(1000.0, 0.0) && ps[40].direction == Direction(-1, 0)
      && ps[80].start == Point(0.0, 0.0) && ps[80].direction == Direction(0, 1)
      && ps[130].start == Point(0.0, 800.0) && ps[130].direction == Direction(0, -1)
  {
    var ps := InitialPaths(1000, 800, draw);
    assert ps[0] == HorizontalPath(0, 80, 1000, 800, draw(0));
    assert ps[40] == HorizontalPath(40, 80, 1000, 800, draw(40));
    assert ps[80] == VerticalPath(0, 100, 1000, 800, draw(80));
    assert ps[130] == VerticalPath(50, 100, 1000, 800, draw(130));
  }

  /** The animation state, together with the load handler's frame clock and the surface size. */
  datatype Controller = Controller(
    isComplete: bool,
    isRunning: bool,
    paths: seq<PathState>,
    startTimestamp: Option<real>,
    animationId: Option<nat>,
    previousFrameTime: real,
    frameDelta: real,
    width: nat,
    height: nat)

  /** The state before the load handler first sizes the surface. */
  function InitialController(width: nat, height: nat): Controller {
    Controller(false, false, [], None, None, 0.0, 0.0, width, height)
  }

  /** The frame loop is scheduled exactly while the state says it is running. */
  predicate Scheduled(c: Controller) {
    c.isRunning <==> c.animationId.Some?
  }

  /** Every path rendered once with the same delta; path k turns with `coins(k)`. */
  function RenderAll(paths: seq<PathState>, delta: real, coins: nat -> nat -> bool): (r: seq<PathState>)
    ensures |r| == |paths|
  {
    seq(|paths|, k requires 0 <= k < |paths| => RenderPathStep(paths[k], Some(delta), coins(k)))
  }

  /** The `startTimestamp` a frame at `now` works with: a missing or zero one is replaced by `now`. */
  function FrameStart(c: Controller, now: real): (r: real)
    ensures c.startTimestamp.Some? && c.startTimestamp.value != 0.0 ==> r == c.startTimestamp.value
    ensures r == 0.0 ==> now == 0.0
  {
    if c.startTimestamp.None? || c.startTimestamp.value == 0.0 then now else c.startTimestamp.value
  }

  /**
   * The part of `renderFrame` after the ceiling check: take the time since the
   * previous frame, then either render every path and reschedule, or, once the
   * animation is complete, stop the loop.
   */
  function DrawStep(c: Controller, now: real, handle: nat, coins: nat -> nat -> bool): (r: Controller)
    ensures |r.paths| == |c.paths| && r.previousFrameTime == now
    ensures r.startTimestamp == c.startTimestamp && r.width == c.width && r.height == c.height
    ensures r.isComplete ==> r.paths == c.paths || AllFinished(c.paths)
  {
    var delta := (now - c.previousFrameTime) / 1000.0;
    var c1 := c.(frameDelta := delta, previousFrameTime := now);
    if !c.isComplete then
      c1.(isComplete := AllFinished(c.paths), paths := RenderAll(c.paths, delta, coins), animationId := Some(handle))
    else
      c1.(isRunning := false, animationId := None)
  }

  /**
   * A proof step, not a property: unfolds the running branch of `DrawStep`, so
   * that `DrawFrame` can match it against the state its calls leave.
   */
  lemma DrawStepRenders(c: Controller, now: real, handle: nat, coins: nat -> nat -> bool)
    requires !c.isComplete
    ensures var c1 := c.(frameDelta := (now - c.previousFrameTime) / 1000.0, previousFrameTime := now);
      DrawStep(c, now, handle, coins) ==
        c1.(isComplete := AllFinished(c1.paths), paths := RenderAll(c1.paths, c1.frameDelta, coins), animationId := Some(handle))
  {
  }

  /** One call of `renderFrame(now)`, where `handle` is what `requestAnimationFrame` would return. */
  function FrameStep(c: Controller, now: real, handle: nat, coins: nat -> nat -> bool): (r: Controller)
    ensures |r.paths| == |c.paths| && r.width == c.width && r.height == c.height
    ensures r.startTimestamp.Some? && (r.startTimestamp.value == 0.0 ==> now == 0.0)
    ensures r.isComplete ==> c.isComplete || AllFinished(c.paths) || now - r.startTimestamp.value >= AnimationDuration
  {
    var start := FrameStart(c, now);
    var c1 := c.(startTimestamp := Some(start));
    if now - start >= AnimationDuration then
      c1.(isComplete := true, isRunning := false, animationId := None)
    else
      DrawStep(c1, now, handle, coins)
  }

  /** `updateCanvasDimensions`: new size, fresh paths, and a restart only when no loop is running. */
  function Resize(c: Controller, innerWidth: nat, innerHeight: nat, draw: nat -> UnitReal, handle: nat): (r: Controller)
    ensures r.isRunning && r.width == innerWidth && r.height == innerHeight
    ensures |r.paths| == innerHeight / 10 + innerWidth / 10
  {
    var c1 := c.(width := innerWidth, height := innerHeight, paths := InitialPaths(innerWidth, innerHeight, draw));
    if !c.isRunning then
      c1.(isRunning := true, isComplete := false, startTimestamp := None, animationId := Some(handle))
    else
      c1
  }

  /** The first frame after a (re)start records its timestamp and, with zero elapsed time, renders. */
  lemma FirstFrameStarts(c: Controller, now: real, handle: nat, coins: nat -> nat -> bool)
    requires c.startTimestamp.None? && !c.isComplete
    ensures var r := FrameStep(c, now, handle, coins);
      && r.startTimestamp == Some(now)
      && r.animationId == Some(handle)
      && r.paths == RenderAll(c.paths, (now - c.previousFrameTime) / 1000.0, coins)
  {
  }

  /** A recorded nonzero start timestamp is kept by every frame. */
  lemma StartTimestampKept(c: Controller, now: real, handle: nat, coins: nat -> nat -> bool)
    requires c.startTimestamp.Some? && c.startTimestamp.value != 0.0
    ensures FrameStep(c, now, handle, coins).startTimestamp == c.startTimestamp
  {
  }

  /**
   * The five-second ceiling: a frame at least 5000 ms after the start stops the
   * loop and reports completion whatever the paths' state, without rendering.
   */
  lemma CeilingStops(c: Controller, now: real, handle: nat, coins: nat -> nat -> bool)
    requires c.startTimestamp.Some? && c.startTimestamp.value != 0.0
    requires now - c.startTimestamp.value >= AnimationDuration
    ensures var r := FrameStep(c, now, handle, coins);
      && r.isComplete && !r.isRunning && r.animationId.None?
      && r.paths == c.paths && r.previousFrameTime == c.previousFrameTime
  {
  }

  /**
   * A frame within the ceiling of an incomplete animation renders every path
   * with the elapsed time since the previous frame, reschedules itself, and
   * sets `isComplete` from the paths' state before this render.
   */
  lemma RunningFrame(c: Controller, now: real, handle: nat, coins: nat -> nat -> bool)
    requires !c.isComplete && now - FrameStart(c, now) < AnimationDuration
    ensures var r := FrameStep(c, now, handle, coins);
      && r.isComplete == AllFinished(c.paths)
      && r.paths == RenderAll(c.paths, (now - c.previousFrameTime) / 1000.0, coins)
      && r.animationId == Some(handle) && r.isRunning == c.isRunning
      && r.previousFrameTime == now && r.frameDelta == (now - c.previousFrameTime) / 1000.0
      && r.startTimestamp == Some(FrameStart(c, now)) && r.width == c.width && r.height == c.height
  {
  }

  /** A frame after completion renders nothing and stops the loop. */
  lemma CompletedFrameStops(c: Controller, now: real, handle: nat, coins: nat -> nat -> bool)
    requires c.isComplete
    ensures var r := FrameStep(c, now, handle, coins);
      r.isComplete && !r.isRunning && r.animationId.None? && r.paths == c.paths
  {
  }

  /** Rendering keeps every path's invariant. */
  lemma RenderAllValid(paths: seq<PathState>, delta: real, coins: nat -> nat -> bool)
    requires AllValid(paths)
    ensures AllValid(RenderAll(paths, delta, coins))
  {
    var rendered := RenderAll(paths, delta, coins);
    forall k | 0 <= k < |rendered|
      ensures PathValid(rendered[k])
    {
      RenderPathValid(paths[k], Some(delta), coins(k));
    }
  }

  /** Frames keep every path's invariant and never add or remove a path. */
  lemma FrameKeepsPathsValid(c: Controller, now: real, handle: nat, coins: nat -> nat -> bool)
    requires AllValid(c.paths)
    ensures var r := FrameStep(c, now, handle, coins);
      |r.paths| == |c.paths| && AllValid(r.paths)
  {
    RenderAllValid(c.paths, (now - c.previousFrameTime) / 1000.0, coins);
  }

  /** Rendering a set of paths that have all finished changes none of them. */
  lemma RenderAllFrozen(paths: seq<PathState>, delta: real, coins: nat -> nat -> bool)
    requires AllValid(paths) && AllFinished(paths)
    ensures RenderAll(paths, delta, coins) == paths
  {
    var r := RenderAll(paths, delta, coins);
    forall k | 0 <= k < |paths|
      ensures r[k] == paths[k]
    {
      FinishedPathFrozen(paths[k], Some(delta), coins(k));
    }
  }

  /**
   * Completion lags by one frame: once every path has finished, the next frame
   * only marks the animation complete and schedules one more frame, and the
   * frame after that stops the loop; neither changes a path.
   */
  lemma CompletionTakesOneMoreFrame(c: Controller, now1: real, now2: real, h1: nat, h2: nat,
                                    coins1: nat -> nat -> bool, coins2: nat -> nat -> bool)
    requires AllValid(c.paths) && AllFinished(c.paths) && !c.isComplete && c.isRunning
    requires now1 - FrameStart(c, now1) < AnimationDuration
    ensures var r1 := FrameStep(c, now1, h1, coins1);
      var r2 := FrameStep(r1, now2, h2, coins2);
      && r1.isComplete && r1.isRunning && r1.animationId == Some(h1) && r1.paths == c.paths
      && !r2.isRunning && r2.animationId.None? && r2.paths == c.paths
  {
    RenderAllFrozen(c.paths, (now1 - c.previousFrameTime) / 1000.0, coins1);
  }

  /**
   * A path that finishes during a frame does not make that frame report
   * completion: `isComplete` is read before the path renders.
   */
  lemma UnfinishedPathDelaysCompletion(c: Controller, now: real, handle: nat, coins: nat -> nat -> bool, k: nat)
    requires k < |c.paths| && !c.paths[k].finished && !c.isComplete
    requires now - FrameStart(c, now) < AnimationDuration
    ensures !FrameStep(c, now, handle, coins).isComplete
  {
  }

  /** A frame that was requested (the loop is running) keeps the scheduling consistent. */
  lemma FrameKeepsScheduled(c: Controller, now: real, handle: nat, coins: nat -> nat -> bool)
    requires Scheduled(c) && c.isRunning
    ensures Scheduled(FrameStep(c, now, handle, coins))
  {
  }

  /**
   * A resize keeps the scheduling consistent. It regenerates the paths for the
   * new size; it starts a loop (with a fresh start time and a cleared
   * completion flag) only when none is running, and otherwise leaves the
   * running loop, its handle and its start time alone.
   */
  lemma ResizeEffect(c: Controller, innerWidth: nat, innerHeight: nat, draw: nat -> UnitReal, handle: nat)
    requires Scheduled(c)
    ensures var r := Resize(c, innerWidth, innerHeight, draw, handle);
      && Scheduled(r) && r.isRunning
      && r.paths == InitialPaths(innerWidth, innerHeight, draw) && AllValid(r.paths)
      && (c.isRunning ==> r.animationId == c.animationId && r.startTimestamp == c.startTimestamp
                          && r.isComplete == c.isComplete)
      && (!c.isRunning ==> r.animationId == Some(handle) && r.startTimestamp.None? && !r.isComplete)
  {
    InitialPathsShape(innerWidth, innerHeight, draw);
  }

  predicate Distinct(ps: seq<MeanderingPath>) {
    forall i, j :: 0 <= i < j < |ps| ==> ps[i] != ps[j]
  }

  lemma DistinctAppend(ps: seq<MeanderingPath>, p: MeanderingPath)
    requires Distinct(ps) && p !in ps
    ensures Distinct(ps + [p])
  {
    var qs := ps + [p];
    forall i, j | 0 <= i < j < |qs|
      ensures qs[i] != qs[j]
    {
      if j < |ps| {
        assert qs[i] == ps[i] && qs[j] == ps[j];
      } else {
        assert qs[i] in ps;
      }
    }
  }

  /** The load handler's state: `animationState`, the frame clock and the drawing surface's size. */
  class Animation {
    var isComplete: bool
    var isRunning: bool
    var pathCollection: seq<MeanderingPath>
    var startTimestamp: Option<real>
    var animationId: Option<nat>
    var previousFrameTime: real
    var frameDelta: real
    var width: nat
    var height: nat

    /** The states of the paths, in collection order. */
    ghost function Paths(): (r: seq<PathState>)
      reads this`pathCollection, pathCollection
      ensures |r| == |pathCollection|
      ensures forall k :: 0 <= k < |r| ==> r[k] == pathCollection[k].State()
    {
      var pc := pathCollection;
      seq(|pc|, k reads pc requires 0 <= k < |pc| => pc[k].State())
    }

    ghost function View(): Controller
      reads this, pathCollection
    {
      Controller(isComplete, isRunning, Paths(), startTimestamp, animationId, previousFrameTime,
                 frameDelta, width, height)
    }

    /**
     * The collection holds distinct path objects, so rendering one path leaves
     * the others alone. That every path keeps its invariant is proved on the
     * value view (`FrameKeepsPathsValid`, `ResizeEffect`).
     */
    ghost predicate Valid()
      reads this
    {
      Distinct(pathCollection)
    }

    /**
     * The load handler: the initial state, then `updateCanvasDimensions` for the
     * window's size, which starts the loop with frame handle `handle`.
     */
    constructor (innerWidth: nat, innerHeight: nat, draw: nat -> UnitReal, handle: nat)
      ensures Valid()
      ensures View() == Resize(InitialController(0, 0), innerWidth, innerHeight, draw, handle)
    {
      isComplete := false;
      isRunning := false;
      pathCollection := [];
      startTimestamp := None;
      animationId := None;
      previousFrameTime := 0.0;
      frameDelta := 0.0;
      width := 0;
      height := 0;
      new;
      UpdateCanvasDimensions(innerWidth, innerHeight, draw, handle);
    }

    /** The horizontal loop of `createInitialPaths`: append `count` fresh paths built with `draw(0)`, `draw(1)`, .... */
    method AddHorizontalPaths(count: nat, draw: nat -> UnitReal)
      modifies this`pathCollection
      ensures |pathCollection| == |old(pathCollection)| + count
      ensures pathCollection[..|old(pathCollection)|] == old(pathCollection)
      ensures forall k :: |old(pathCollection)| <= k < |pathCollection| ==>
        fresh(pathCollection[k]) &&
        pathCollection[k].State() == HorizontalPath(k - |old(pathCollection)|, count, width, height, draw(k - |old(pathCollection)|))
      ensures Distinct(old(pathCollection)) ==> Distinct(pathCollection)
    {
      ghost var n := |pathCollection|;
      var index := 0;
      while index < count
        invariant 0 <= index <= count
        invariant |pathCollection| == n + index
        invariant pathCollection[..n] == old(pathCollection)
        invariant forall k :: n <= k < |pathCollection| ==>
          fresh(pathCollection[k]) && pathCollection[k].State() == HorizontalPath(k - n, count, width, height, draw(k - n))
        invariant Distinct(old(pathCollection)) ==> Distinct(pathCollection)
      {
        var path;
        if (index as real) < (count as real) / 2.0 {
          var startY := (index as real / count as real) * 2.0 * height as real;
          path := new MeanderingPath(0.0, startY, Direction(1, 0), width, draw(index));
        } else {
          var startY := ((index as real - count as real / 2.0) / count as real) * 2.0 * height as real;
          path := new MeanderingPath(width as real, startY, Direction(-1, 0), width, draw(index));
        }
        assert path.State() == HorizontalPath(index, count, width, height, draw(index));
        if Distinct(old(pathCollection)) {
          DistinctAppend(pathCollection, path);
        }
        pathCollection := pathCollection + [path];
        index := index + 1;
      }
    }

    /** The vertical loop of `createInitialPaths`: append `count` fresh paths built with `draw(offset)`, `draw(offset + 1)`, .... */
    method AddVerticalPaths(count: nat, offset: nat, draw: nat -> UnitReal)
      modifies this`pathCollection
      ensures |pathCollection| == |old(pathCollection)| + count
      ensures pathCollection[..|old(pathCollection)|] == old(pathCollection)
      ensures forall k :: |old(pathCollection)| <= k < |pathCollection| ==>
        fresh(pathCollection[k]) &&
        pathCollection[k].State() ==
          VerticalPath(k - |old(pathCollection)|, count, width, height, draw(offset + k - |old(pathCollection)|))
      ensures Distinct(old(pathCollection)) ==> Distinct(pathCollection)
    {
      ghost var n := |pathCollection|;
      var index := 0;
      while index < count
        invariant 0 <= index <= count
        invariant |pathCollection| == n + index
        invariant pathCollection[..n] == old(pathCollection)
        invariant forall k :: n <= k < |pathCollection| ==>
          fresh(pathCollection[k]) &&
          pathCollection[k].State() == VerticalPath(k - n, count, width, height, draw(offset + k - n))
        invariant Distinct(old(pathCollection)) ==> Distinct(pathCollection)
      {
        var path;
        if (index as real) < (count as real) / 2.0 {
          var startX := (index as real / count as real) * 2.0 * width as real;
          path := new MeanderingPath(startX, 0.0, Direction(0, 1), width, draw(offset + index));
        } else {
          var startX := ((index as real - count as real / 2.0) / count as real) * 2.0 * width as real;
          path := new MeanderingPath(startX, height as real, Direction(0, -1), width, draw(offset + index));
        }
        assert path.State() == VerticalPath(index, count, width, height, draw(offset + index));
        if Distinct(old(pathCollection)) {
          DistinctAppend(pathCollection, path);
        }
        pathCollection := pathCollection + [path];
        index := index + 1;
      }
    }

    /** `createInitialPaths`: append freshly built paths for the current size; the k-th new path is the k-th of `InitialPaths`. */
    method CreateInitialPaths(draw: nat -> UnitReal)
      modifies this`pathCollection
      ensures |pathCollection| == |old(pathCollection)| + |InitialPaths(width, height, draw)|
      ensures pathCollection[..|old(pathCollection)|] == old(pathCollection)
      ensures forall k :: |old(pathCollection)| <= k < |pathCollection| ==>
        fresh(pathCollection[k]) &&
        pathCollection[k].State() == InitialPaths(width, height, draw)[k - |old(pathCollection)|]
      ensures Distinct(old(pathCollection)) ==> Distinct(pathCollection)
    {
      var horizontalPathCount := ((height as real) * 2.0 * DensityMultiplier).Floor;
      var verticalPathCount := ((width as real) * 2.0 * DensityMultiplier).Floor;
      assert horizontalPathCount == PathCount(height) && verticalPathCount == PathCount(width);
      ghost var n := |pathCollection|;
      AddHorizontalPaths(horizontalPathCount, draw);
      ghost var mid := pathCollection;
      AddVerticalPaths(verticalPathCount, horizontalPathCount, draw);
      forall k | n <= k < |pathCollection|
        ensures pathCollection[k].State() == InitialPaths(width, height, draw)[k - n]
      {
        if k < |mid| {
          assert pathCollection[k] == mid[k];
        }
        InitialPathAt(width, height, draw, k - n);
      }
    }

    /** `startAnimationLoop`: request the first frame. */
    method StartAnimationLoop(handle: nat)
      modifies this`animationId
      ensures animationId == Some(handle)
    {
      animationId := Some(handle);
    }

    /** The first lines of `updateCanvasDimensions`: take the window's size and regenerate the paths for it. */
    method RegeneratePaths(innerWidth: nat, innerHeight: nat, draw: nat -> UnitReal)
      modifies this`width, this`height, this`pathCollection
      ensures Valid()
      ensures View() == old(View()).(width := innerWidth, height := innerHeight,
                                     paths := InitialPaths(innerWidth, innerHeight, draw))
      ensures forall k :: 0 <= k < |pathCollection| ==> fresh(pathCollection[k])
    {
      width := innerWidth;
      height := innerHeight;
      pathCollection := [];
      CreateInitialPaths(draw);
      assert Paths() == InitialPaths(innerWidth, innerHeight, draw);
    }

    /** The restart branch of `updateCanvasDimensions`: mark the loop running, clear completion and the start time, and start the loop. */
    method Restart(handle: nat)
      modifies this`isRunning, this`isComplete, this`startTimestamp, this`animationId
      ensures View() == old(View()).(isRunning := true, isComplete := false, startTimestamp := None,
                                     animationId := Some(handle))
    {
      isRunning := true;
      isComplete := false;
      startTimestamp := None;
      StartAnimationLoop(handle);
    }

    /** `updateCanvasDimensions` for a window of `innerWidth` x `innerHeight`. */
    method UpdateCanvasDimensions(innerWidth: nat, innerHeight: nat, draw: nat -> UnitReal, handle: nat)
      modifies this
      ensures Valid()
      ensures View() == Resize(old(View()), innerWidth, innerHeight, draw, handle)
      ensures forall k :: 0 <= k < |pathCollection| ==> fresh(pathCollection[k])
    {
      ghost var c0 := View();
      RegeneratePaths(innerWidth, innerHeight, draw);
      ghost var c1 := View();
      assert c1 == c0.(width := innerWidth, height := innerHeight, paths := InitialPaths(innerWidth, innerHeight, draw));
      if !isRunning {
        Restart(handle);
        ghost var c2 := View();
        assert c2 == c1.(isRunning := true, isComplete := false, startTimestamp := None, animationId := Some(handle));
      }
    }

    /**
     * The render pass of a frame: `isComplete` becomes whether every path had
     * finished before it rendered, and every path renders once with `delta`.
     */
    method RenderPaths(delta: real, coins: nat -> nat -> bool)
      requires Distinct(pathCollection)
      modifies this`isComplete, pathCollection
      ensures isComplete == forall k :: 0 <= k < |pathCollection| ==> old(pathCollection[k].hasFinished)
      ensures forall k :: 0 <= k < |pathCollection| ==>
        pathCollection[k].State() == RenderPathStep(old(pathCollection[k].State()), Some(delta), coins(k))
    {
      isComplete := true;
      var paths := pathCollection;
      ghost var before := Paths();
      var i := 0;
      while i < |paths|
        invariant 0 <= i <= |paths|
        invariant isComplete == forall k :: 0 <= k < i ==> before[k].finished
        invariant forall k :: 0 <= k < |paths| ==>
          paths[k].State() == if k < i then RenderPathStep(before[k], Some(delta), coins(k)) else before[k]
      {
        var path := paths[i];
        assert forall k :: 0 <= k < |paths| && k != i ==> paths[k] != path;
        isComplete := isComplete && path.hasFinished;
        var _ := path.RenderPath(Some(delta), coins(i));
        i := i + 1;
      }
    }

    /** The branch of `renderFrame` for an incomplete animation: render every path, then request the next frame. */
    method RenderAndReschedule(delta: real, handle: nat, coins: nat -> nat -> bool)
      requires Valid()
      modifies this`isComplete, this`animationId, pathCollection
      ensures Valid()
      ensures View() == old(View()).(isComplete := AllFinished(old(Paths())),
                                     paths := RenderAll(old(Paths()), delta, coins), animationId := Some(handle))
    {
      ghost var states := Paths();
      RenderPaths(delta, coins);
      assert Paths() == RenderAll(states, delta, coins);
      animationId := Some(handle);
    }

    /** The branch of `renderFrame` for a completed animation: stop the loop. */
    method StopLoop()
      modifies this`isRunning, this`animationId
      ensures View() == old(View()).(isRunning := false, animationId := None)
    {
      isRunning := false;
      animationId := None;
    }

    /** The frame clock: the seconds since the previous frame, and this frame's time for the next one. */
    method Tick(currentTime: real)
      modifies this`frameDelta, this`previousFrameTime
      ensures old(Valid()) ==> Valid()
      ensures View() == old(View()).(frameDelta := (currentTime - old(previousFrameTime)) / 1000.0,
                                     previousFrameTime := currentTime)
    {
      frameDelta := (currentTime - previousFrameTime) / 1000.0;
      previousFrameTime := currentTime;
    }

    /** Lines after the ceiling check of `renderFrame`: the frame clock, then render and reschedule, or stop. */
    method DrawFrame(currentTime: real, handle: nat, coins: nat -> nat -> bool)
      requires Valid()
      modifies this, pathCollection
      ensures Valid() && pathCollection == old(pathCollection)
      ensures View() == DrawStep(old(View()), currentTime, handle, coins)
    {
      ghost var c0 := View();
      Tick(currentTime);
      ghost var c1 := View();
      if !isComplete {
        RenderAndReschedule(frameDelta, handle, coins);
        ghost var c2 := View();
        assert c2 == c1.(isComplete := AllFinished(c1.paths), paths := RenderAll(c1.paths, c1.frameDelta, coins),
                         animationId := Some(handle));
        DrawStepRenders(c0, currentTime, handle, coins);
      } else {
        StopLoop();
        ghost var c2 := View();
        assert c2 == c1.(isRunning := false, animationId := None);
      }
    }

    /**
     * `renderFrame(currentTime)`; `handle` is what `requestAnimationFrame`
     * returns if the frame reschedules itself, and path k turns with `coins(k)`.
     */
    method RenderFrame(currentTime: real, handle: nat, coins: nat -> nat -> bool)
      requires Valid()
      modifies this, pathCollection
      ensures Valid() && pathCollection == old(pathCollection)
      ensures View() == FrameStep(old(View()), currentTime, handle, coins)
    {
      ghost var c := View();
      if startTimestamp.None? || startTimestamp.value == 0.0 {
        startTimestamp := Some(currentTime);
      }
      var elapsedTime := currentTime - startTimestamp.value;
      if elapsedTime >= AnimationDuration {
        isComplete := true;
        isRunning := false;
        animationId := None;
        return;
      }
      DrawFrame(currentTime, handle, coins);
    }
  }
}
