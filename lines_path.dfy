/**
 * One meandering path of the background line animation: a polyline that grows
 * from its starting point at a fixed speed, one fixed-length segment at a time,
 * turning onto the other axis after every segment, until it has committed its
 * target number of segments.
 *
 * `PathState` is the value view of a path and the functions over it say what
 * one `renderPath` call does; the class `MeanderingPath` holds the same state
 * in mutable fields and its methods are proved to follow those functions.
 * `Math.random()` is an input: a draw in [0,1) for the target segment count,
 * and a coin per turn (`true` when the draw exceeds 0.5).
 */
module LinePath {

  import opened Wrappers

  const DensityMultiplier: real := 0.05
  const MovementVelocity: real := 45.0
  const SegmentLength: real := 10.0
  const MaxSegments: int := 70
  const SegmentVariation: real := 10.0
  const AnimationDuration: real := 5000.0

  /** A value of `Math.random()`. */
  type UnitReal = r: real | 0.0 <= r < 1.0

  datatype Point = Point(x: real, y: real)

  /** A movement vector `[dx, dy]`. */
  datatype Direction = Direction(dx: int, dy: int)

  /** Axis-aligned and of unit length: exactly one component is nonzero, and it is ±1. */
  predicate AxisUnit(d: Direction) {
    (d.dx == 0 && (d.dy == 1 || d.dy == -1)) || (d.dy == 0 && (d.dx == 1 || d.dx == -1))
  }

  /** The source's test `currentDirection[1] === 0`. */
  predicate IsHorizontal(d: Direction) {
    d.dy == 0
  }

  /** The direction chosen after a segment: the other axis, with the sign given by the coin. */
  function Turn(d: Direction, coin: bool): (r: Direction)
    ensures AxisUnit(r)
    ensures IsHorizontal(r) != IsHorizontal(d)
    ensures (if IsHorizontal(d) then r.dy else r.dx) == (if coin then 1 else -1)
  {
    var sign := if coin then 1 else -1;
    if IsHorizontal(d) then Direction(0, sign) else Direction(sign, 0)
  }

  /** JavaScript's `Math.round`: halves round up. */
  function JsRound(x: real): (n: int)
    ensures n as real - 0.5 <= x < n as real + 0.5
  {
    (x + 0.5).Floor
  }

  /** `Math.min(Math.floor(width / 14), maxSegments)`. */
  function BaseSegmentCount(width: nat): (n: int)
    ensures 0 <= n <= MaxSegments
  {
    var byWidth := ((width as real) / 14.0).Floor;
    if byWidth < MaxSegments then byWidth else MaxSegments
  }

  /** The target segment count of a new path on a surface of the given width. */
  function TotalSegments(width: nat, draw: UnitReal): (n: int)
    ensures -5 <= n <= MaxSegments + 5
  {
    BaseSegmentCount(width) + JsRound(draw * SegmentVariation - SegmentVariation / 2.0)
  }

  /** The target is the base count, at most 70 and at most width/14, moved by at most five either way. */
  lemma TotalSegmentsRange(width: nat, draw: UnitReal)
    ensures BaseSegmentCount(width) == if width / 14 < MaxSegments then width / 14 else MaxSegments
    ensures BaseSegmentCount(width) - 5 <= TotalSegments(width, draw) <= BaseSegmentCount(width) + 5
  {
    var byWidth := ((width as real) / 14.0).Floor;
    assert byWidth == width / 14 by {
      var q := width / 14;
      assert (width as real) == (q as real) * 14.0 + ((width % 14) as real);
    }
  }

  /** The state of one path: the fields of a `MeanderingPath`. */
  datatype PathState = PathState(
    start: Point,
    current: Point,
    progress: real,
    points: seq<Point>,
    direction: Direction,
    finished: bool,
    totalSegments: int)

  /** A path just created: at its start, nothing committed, nothing in flight. */
  function NewPath(x: real, y: real, direction: Direction, width: nat, draw: UnitReal): PathState {
    PathState(Point(x, y), Point(x, y), 0.0, [], direction, false, TotalSegments(width, draw))
  }

  /** `current + direction * length`. */
  function Advance(p: Point, d: Direction, length: real): Point {
    Point(p.x + d.dx as real * length, p.y + d.dy as real * length)
  }

  /** One pass of the roll-over loop: move a full segment, commit the point, turn, consume the segment. */
  function Commit(s: PathState, coin: nat -> bool): (r: PathState)
    ensures r.points == s.points + [r.current]
    ensures r.current == Advance(s.current, s.direction, SegmentLength)
    ensures r.direction == Turn(s.direction, coin(|s.points|))
    ensures r.progress == s.progress - SegmentLength
    ensures r.start == s.start && r.finished == s.finished && r.totalSegments == s.totalSegments
  {
    var c := Advance(s.current, s.direction, SegmentLength);
    s.(current := c, points := s.points + [c], direction := Turn(s.direction, coin(|s.points|)),
       progress := s.progress - SegmentLength)
  }

  /** The roll-over loop: commit segments while a full segment's worth of progress is pending. */
  function RollOver(s: PathState, coin: nat -> bool): (r: PathState)
    ensures r.progress < SegmentLength
    ensures |r.points| >= |s.points|
    ensures r.start == s.start && r.finished == s.finished && r.totalSegments == s.totalSegments
    decreases s.progress.Floor
  {
    if s.progress >= SegmentLength then RollOver(Commit(s, coin), coin) else s
  }

  /** The accumulation step: skipped for a finished path and for a `NaN` delta (`None`). */
  function Accumulate(s: PathState, timeDelta: Option<real>): (r: PathState)
    ensures r.(progress := s.progress) == s
    ensures s.finished || timeDelta.None? ==> r == s
  {
    if !s.finished && timeDelta.Some? then s.(progress := s.progress + MovementVelocity * timeDelta.value) else s
  }

  /** The check after drawing: a path with at least its target of points is finished from now on. */
  function FinishCheck(s: PathState): (r: PathState)
    ensures r.(finished := s.finished) == s
    ensures r.finished <==> s.finished || |s.points| >= s.totalSegments
  {
    if |s.points| >= s.totalSegments then s.(finished := true) else s
  }

  /** The effect of one `renderPath(timeDelta)` call on the path's state. */
  function RenderPathStep(s: PathState, timeDelta: Option<real>, coin: nat -> bool): (r: PathState)
    ensures r.start == s.start && r.totalSegments == s.totalSegments
    ensures |r.points| >= |s.points| && r.progress < SegmentLength
    ensures s.finished ==> r.finished
  {
    FinishCheck(RollOver(Accumulate(s, timeDelta), coin))
  }

  /** The polyline a render strokes: the start, every committed point, then the tip of the segment in flight. */
  function Polyline(s: PathState): (r: seq<Point>)
    ensures |r| == |s.points| + 2 && r[0] == s.start && r[1..|r| - 1] == s.points
    ensures r[|r| - 1] == Advance(s.current, s.direction, s.progress)
  {
    [s.start] + s.points + [Advance(s.current, s.direction, s.progress)]
  }

  /** A step of exactly one segment length along one axis. */
  predicate AxisStep(a: Point, b: Point) {
    (a.y == b.y && (b.x - a.x == SegmentLength || a.x - b.x == SegmentLength)) ||
    (a.x == b.x && (b.y - a.y == SegmentLength || a.y - b.y == SegmentLength))
  }

  /** The step from `a` to `b` runs along the x axis. */
  predicate HorizontalStep(a: Point, b: Point) {
    a.y == b.y
  }

  /** Every step of the trace is one segment length along one axis. */
  predicate AxisSteps(t: seq<Point>) {
    forall j :: 0 <= j < |t| - 1 ==> AxisStep(t[j], t[j + 1])
  }

  /** Consecutive steps of the trace run along different axes. */
  predicate Alternates(t: seq<Point>) {
    forall j :: 0 <= j < |t| - 2 ==> HorizontalStep(t[j], t[j + 1]) != HorizontalStep(t[j + 1], t[j + 2])
  }

  /** The next step from the end of the trace, in direction `d`, is on the other axis than the last one. */
  predicate TurnsAfter(t: seq<Point>, d: Direction) {
    |t| >= 2 ==> HorizontalStep(t[|t| - 2], t[|t| - 1]) != IsHorizontal(d)
  }

  /**
   * The geometry of a meandering path: the trace (the start followed by the
   * committed points) has every segment of the segment length along one axis,
   * consecutive segments on different axes, the path's current point at its
   * end, and the current direction is a unit vector on the axis the last
   * segment did not use.
   */
  predicate Meanders(s: PathState) {
    var t := [s.start] + s.points;
    && AxisUnit(s.direction)
    && s.current == t[|t| - 1]
    && AxisSteps(t)
    && Alternates(t)
    && TurnsAfter(t, s.direction)
  }

  /** Extending a trace by one segment in a unit direction on the other axis keeps its shape. */
  lemma ExtendTrace(t: seq<Point>, d: Direction, d': Direction)
    requires |t| >= 1 && AxisUnit(d) && AxisSteps(t) && Alternates(t) && TurnsAfter(t, d)
    requires IsHorizontal(d') != IsHorizontal(d)
    ensures var u := t + [Advance(t[|t| - 1], d, SegmentLength)];
      AxisSteps(u) && Alternates(u) && TurnsAfter(u, d')
  {
    var c := Advance(t[|t| - 1], d, SegmentLength);
    var u := t + [c];
    assert AxisStep(t[|t| - 1], c);
    assert HorizontalStep(t[|t| - 1], c) == IsHorizontal(d);
    forall j | 0 <= j < |u| - 1
      ensures AxisStep(u[j], u[j + 1])
    {
      if j < |t| - 1 {
        assert u[j] == t[j] && u[j + 1] == t[j + 1];
      }
    }
    forall j | 0 <= j < |u| - 2
      ensures HorizontalStep(u[j], u[j + 1]) != HorizontalStep(u[j + 1], u[j + 2])
    {
      if j < |t| - 2 {
        assert u[j] == t[j] && u[j + 1] == t[j + 1] && u[j + 2] == t[j + 2];
      }
    }
  }

  /** The invariant every path keeps between renders. */
  predicate PathValid(s: PathState) {
    && Meanders(s)
    && s.progress < SegmentLength
    && (s.finished ==> |s.points| >= s.totalSegments)
  }

  /** A new path with a unit direction satisfies the invariant. */
  lemma NewPathValid(x: real, y: real, direction: Direction, width: nat, draw: UnitReal)
    requires AxisUnit(direction)
    ensures PathValid(NewPath(x, y, direction, width, draw))
  {
  }

  /** A committed segment extends the meander: one axis step, on the other axis than the one before. */
  lemma CommitMeanders(s: PathState, coin: nat -> bool)
    requires Meanders(s)
    ensures Meanders(Commit(s, coin))
  {
    var r := Commit(s, coin);
    var t := [s.start] + s.points;
    ExtendTrace(t, s.direction, r.direction);
    assert [r.start] + r.points == t + [r.current];
  }

  /**
   * The roll-over loop keeps the meander, leaves less than a segment in flight,
   * only appends to the committed points, and commits `floor(progress / 10)`
   * segments when the progress it starts from is not negative.
   */
  lemma {:induction false} RollOverEffect(s: PathState, coin: nat -> bool)
    requires Meanders(s)
    ensures var r := RollOver(s, coin);
      && Meanders(r)
      && r.progress < SegmentLength
      && |r.points| >= |s.points| && r.points[..|s.points|] == s.points
      && r.start == s.start && r.finished == s.finished && r.totalSegments == s.totalSegments
      && (s.progress < SegmentLength ==> r == s)
      && (s.progress >= 0.0 ==>
            0.0 <= r.progress
            && |r.points| - |s.points| == (s.progress / SegmentLength).Floor
            && r.progress == s.progress - SegmentLength * ((|r.points| - |s.points|) as real))
    decreases s.progress.Floor
  {
    if s.progress >= SegmentLength {
      var c := Commit(s, coin);
      CommitMeanders(s, coin);
      RollOverEffect(c, coin);
      var r := RollOver(c, coin);
      assert r == RollOver(s, coin);
      assert r.points[..|c.points|] == c.points;
      assert r.points[..|s.points|] == c.points[..|s.points|];
      if s.progress >= 0.0 {
        var k := (c.progress / SegmentLength).Floor;
        assert (s.progress / SegmentLength).Floor == k + 1 by {
          assert s.progress / SegmentLength == c.progress / SegmentLength + 1.0;
        }
      }
    } else if s.progress >= 0.0 {
      assert (s.progress / SegmentLength).Floor == 0;
    }
  }

  /**
   * One `renderPath` keeps the invariant; the committed points only grow; a
   * finished path stays finished, and a path is finished afterwards exactly
   * when it was before or now has at least its target of points.
   */
  lemma RenderPathValid(s: PathState, timeDelta: Option<real>, coin: nat -> bool)
    requires PathValid(s)
    ensures var r := RenderPathStep(s, timeDelta, coin);
      && PathValid(r)
      && |r.points| >= |s.points| && r.points[..|s.points|] == s.points
      && (r.finished <==> s.finished || |r.points| >= s.totalSegments)
      && r.start == s.start && r.totalSegments == s.totalSegments
  {
    RollOverEffect(Accumulate(s, timeDelta), coin);
  }

  /** With a non-negative delta, a path with non-negative progress keeps 0 <= progress < segment length. */
  lemma RenderPathProgressBounds(s: PathState, delta: real, coin: nat -> bool)
    requires PathValid(s) && 0.0 <= s.progress && 0.0 <= delta
    ensures 0.0 <= RenderPathStep(s, Some(delta), coin).progress < SegmentLength
  {
    RollOverEffect(Accumulate(s, Some(delta)), coin);
  }

  /**
   * The number of segments one render commits: `floor(progress / 10)` once the
   * delta's distance is added, leaving the remainder in flight.
   */
  lemma RenderPathCommits(s: PathState, delta: real, coin: nat -> bool)
    requires PathValid(s) && !s.finished && 0.0 <= s.progress && 0.0 <= delta
    ensures var r := RenderPathStep(s, Some(delta), coin);
      var total := s.progress + MovementVelocity * delta;
      && |r.points| - |s.points| == (total / SegmentLength).Floor
      && r.progress == total - SegmentLength * ((|r.points| - |s.points|) as real)
  {
    RollOverEffect(Accumulate(s, Some(delta)), coin);
  }

  /** A `NaN` delta moves nothing: progress, points, tip and direction stay as they were. */
  lemma NaNDeltaMovesNothing(s: PathState, coin: nat -> bool)
    requires PathValid(s)
    ensures var r := RenderPathStep(s, None, coin);
      r.progress == s.progress && r.points == s.points && r.current == s.current && r.direction == s.direction
  {
    RollOverEffect(s, coin);
  }

  /** A finished path is frozen: rendering it again changes nothing at all. */
  lemma FinishedPathFrozen(s: PathState, timeDelta: Option<real>, coin: nat -> bool)
    requires PathValid(s) && s.finished
    ensures RenderPathStep(s, timeDelta, coin) == s
  {
    RollOverEffect(s, coin);
  }

  /**
   * The target count is a bound for the finish test only: a path whose first
   * render sees a long delta commits several segments at once and ends with
   * more points than its target.
   */
  lemma OvershootExample()
    ensures var s := NewPath(0.0, 0.0, Direction(1, 0), 14, 0.5);
      var r := RenderPathStep(s, Some(1.0), n => true);
      s.totalSegments == 1 && |r.points| == 4 && r.finished
  {
    var s := NewPath(0.0, 0.0, Direction(1, 0), 14, 0.5);
    assert BaseSegmentCount(14) == 1 by { assert (14 as real) / 14.0 == 1.0; }
    assert JsRound(0.5 * SegmentVariation - SegmentVariation / 2.0) == 0;
    var a := Accumulate(s, Some(1.0));
    assert a.progress == 45.0;
    RollOverEffect(a, n => true);
    assert (45.0 / SegmentLength).Floor == 4;
  }

  /**
   * The mutable path object of the source. `startingPoint` and `totalSegments`
   * are fixed at construction; the rest changes as the path renders.
   */
  class MeanderingPath {
    const startingPoint: Point
    const totalSegments: int
    var currentX: real
    var currentY: real
    var progressInSegment: real
    var pathPoints: seq<Point>
    var currentDirection: Direction
    var hasFinished: bool

    /** The value view of the object's fields. */
    function State(): PathState
      reads this
    {
      PathState(startingPoint, Point(currentX, currentY), progressInSegment, pathPoints,
                currentDirection, hasFinished, totalSegments)
    }

    /** `new MeanderingPath(initialX, initialY, initialDirection)` on a surface `surfaceWidth` wide. */
    constructor (initialX: real, initialY: real, initialDirection: Direction, surfaceWidth: nat, draw: UnitReal)
      ensures State() == NewPath(initialX, initialY, initialDirection, surfaceWidth, draw)
    {
      startingPoint := Point(initialX, initialY);
      currentX := initialX;
      currentY := initialY;
      progressInSegment := 0.0;
      pathPoints := [];
      currentDirection := initialDirection;
      hasFinished := false;
      totalSegments := BaseSegmentCount(surfaceWidth) + JsRound(draw * SegmentVariation - SegmentVariation / 2.0);
    }

    /** `addNewSegment`: commit the current point and turn onto the other axis. */
    method AddNewSegment(coin: nat -> bool)
      modifies this
      ensures pathPoints == old(pathPoints) + [Point(currentX, currentY)]
      ensures currentDirection == Turn(old(currentDirection), coin(|old(pathPoints)|))
      ensures currentX == old(currentX) && currentY == old(currentY)
      ensures progressInSegment == old(progressInSegment) && hasFinished == old(hasFinished)
    {
      pathPoints := pathPoints + [Point(currentX, currentY)];
      if currentDirection.dy == 0 {
        currentDirection := Direction(0, if coin(|pathPoints| - 1) then 1 else -1);
      } else {
        currentDirection := Direction(if coin(|pathPoints| - 1) then 1 else -1, 0);
      }
    }

    /**
     * `renderPath(timeDelta)`: accumulate distance, commit every full segment,
     * draw (returned here as the polyline), then check for completion.
     */
    method RenderPath(timeDelta: Option<real>, coin: nat -> bool) returns (polyline: seq<Point>)
      modifies this
      ensures State() == RenderPathStep(old(State()), timeDelta, coin)
      ensures polyline == Polyline(State())
    {
      if !hasFinished && timeDelta.Some? {
        progressInSegment := progressInSegment + MovementVelocity * timeDelta.value;
      }
      ghost var accumulated := State();
      assert accumulated == Accumulate(old(State()), timeDelta);
      while progressInSegment >= SegmentLength
        invariant RollOver(State(), coin) == RollOver(accumulated, coin)
        decreases progressInSegment.Floor
      {
        ghost var before := State();
        currentX := currentX + currentDirection.dx as real * SegmentLength;
        currentY := currentY + currentDirection.dy as real * SegmentLength;
        AddNewSegment(coin);
        progressInSegment := progressInSegment - SegmentLength;
        assert State() == Commit(before, coin);
      }
      polyline := [startingPoint] + pathPoints + [Advance(Point(currentX, currentY), currentDirection, progressInSegment)];
      if |pathPoints| >= totalSegments {
        hasFinished := true;
      }
    }
  }
}
