/// The villager of src/entities/Unit.js: a position, an optional walk target, a
/// facing direction and a selection flag, advanced once per frame by `Update`.
/// Sprites, animations and the selection ring are not part of this model;
/// `Math.sqrt` and `Math.atan2` are inputs (see `Unit.Update`).
module Units {
  import opened Options
  import opened Geometry
  import opened TileMapSystem

  datatype UnitState = Idle | Walk

  /// The eight facings, clockwise from east (screen y grows downwards).
  datatype Direction = Right | DownRight | Down | DownLeft | Left | UpLeft | Up | UpRight

  /// `Math.PI` as a double.
  const Pi: real := 3.141592653589793

  /// Walking speed in pixels per second.
  const Speed: real := 90.0

  /// A unit closer than this to its target stops.
  const ArriveRadius: real := 4.0

  /// The facing chosen by `updateDirection` for an `atan2` angle, branch by branch;
  /// some branch matches every real angle, so it is never `None`, the case in
  /// which the source would leave the facing unchanged.
  function DirectionFor(angle: real): (d: Option<Direction>)
    ensures d.Some?
  {
    if -Pi / 8.0 <= angle < Pi / 8.0 then Some(Right)
    else if Pi / 8.0 <= angle < 3.0 * Pi / 8.0 then Some(DownRight)
    else if 3.0 * Pi / 8.0 <= angle < 5.0 * Pi / 8.0 then Some(Down)
    else if 5.0 * Pi / 8.0 <= angle < 7.0 * Pi / 8.0 then Some(DownLeft)
    else if angle >= 7.0 * Pi / 8.0 || angle < -7.0 * Pi / 8.0 then Some(Left)
    else if -7.0 * Pi / 8.0 <= angle < -5.0 * Pi / 8.0 then Some(UpLeft)
    else if -5.0 * Pi / 8.0 <= angle < -3.0 * Pi / 8.0 then Some(Up)
    else if -3.0 * Pi / 8.0 <= angle < -Pi / 8.0 then Some(UpRight)
    else None
  }

  /// Test `k` of `updateDirection`'s chain, as written, for the facing `Compass[k]`.
  predicate Facing(k: int, angle: real) {
    if k == 0 then -Pi / 8.0 <= angle < Pi / 8.0
    else if k == 1 then Pi / 8.0 <= angle < 3.0 * Pi / 8.0
    else if k == 2 then 3.0 * Pi / 8.0 <= angle < 5.0 * Pi / 8.0
    else if k == 3 then 5.0 * Pi / 8.0 <= angle < 7.0 * Pi / 8.0
    else if k == 4 then angle >= 7.0 * Pi / 8.0 || angle < -7.0 * Pi / 8.0
    else if k == 5 then -7.0 * Pi / 8.0 <= angle < -5.0 * Pi / 8.0
    else if k == 6 then -5.0 * Pi / 8.0 <= angle < -3.0 * Pi / 8.0
    else if k == 7 then -3.0 * Pi / 8.0 <= angle < -Pi / 8.0
    else false
  }

  /// No angle passes two of the eight tests, so the order of the chain does not
  /// matter.
  lemma FacingsDisjoint(angle: real, i: int, j: int)
    requires 0 <= i < j < 8
    ensures !(Facing(i, angle) && Facing(j, angle))
  {
  }

  /// The chain picks facing `k` exactly when test `k` holds.
  lemma DirectionForFacing(angle: real, k: int)
    requires 0 <= k < 8
    ensures DirectionFor(angle) == Some(Compass[k]) <==> Facing(k, angle)
  {
    if Facing(k, angle) {
      forall i | 0 <= i < k ensures !Facing(i, angle) {
        FacingsDisjoint(angle, i, k);
      }
    }
  }

  /// The compass order of the facings: `Compass[k]` is centred on `k * Pi / 4`.
  const Compass: seq<Direction> := [Right, DownRight, Down, DownLeft, Left, UpLeft, Up, UpRight]

  /// An independent reference for the facing of an angle in `[-Pi, Pi]`: round the
  /// angle to the nearest multiple of `Pi / 4` (halves rounding up) and take that
  /// compass point.
  function CompassIndex(angle: real): (k: int)
    ensures 0 <= k < 8
  {
    ((angle + Pi / 8.0) / (Pi / 4.0)).Floor % 8
  }


  /// For every angle `atan2` can return, the branch chain agrees with rounding to
  /// the nearest compass point.
  lemma {:induction false} DirectionMatchesCompass(angle: real)
    requires -Pi <= angle <= Pi
    ensures DirectionFor(angle) == Some(Compass[CompassIndex(angle)])
  {
    var q := (angle + Pi / 8.0) / (Pi / 4.0);
    var f := q.Floor;
    assert q * (Pi / 4.0) == angle + Pi / 8.0;
    FloorBounds(q);
    assert -4 <= f <= 4 by {
      assert -3.5 <= q <= 4.5 by { QuotientRange(angle, q); }
    }
    Sector(angle, q, f);
  }

  lemma FloorBounds(q: real)
    ensures q.Floor as real <= q < q.Floor as real + 1.0
  {
  }

  /// `q` is `angle` measured in quarter-turns of `Pi / 4`, shifted by a half.
  lemma QuotientRange(angle: real, q: real)
    requires -Pi <= angle <= Pi
    requires q * (Pi / 4.0) == angle + Pi / 8.0
    ensures -3.5 <= q <= 4.5
  {
  }

  /// Within one rounding sector `[f - 1/2, f + 1/2)` quarter-turns the chain picks
  /// compass point `f mod 8`.
  lemma Sector(angle: real, q: real, f: int)
    requires -Pi <= angle <= Pi
    requires q * (Pi / 4.0) == angle + Pi / 8.0
    requires f as real <= q < f as real + 1.0
    requires -4 <= f <= 4
    ensures DirectionFor(angle) == Some(Compass[f % 8])
  {
    var lo := f as real * (Pi / 4.0) - Pi / 8.0;
    assert lo <= angle < lo + Pi / 4.0 by {
      assert f as real * (Pi / 4.0) <= q * (Pi / 4.0) < (f as real + 1.0) * (Pi / 4.0);
    }
  }

  class Unit {
    var x: real
    var y: real
    var target: Option<Point>
    var currentDirection: Direction
    var currentState: UnitState
    var isSelected: bool

    /// A unit walks exactly when it has a target.
    ghost predicate Valid()
      reads this`target, this`currentState
    {
      currentState == Walk <==> target.Some?
    }

    /// Everything `Update`, `MoveTo` and `Stop` may change, as one value.
    ghost function Motion(): (Point, Option<Point>, Direction, UnitState)
      reads this`x, this`y, this`target, this`currentDirection, this`currentState
    {
      (Point(x, y), target, currentDirection, currentState)
    }

    /// A new villager stands idle at `(x, y)`, facing down, not selected.
    constructor (x: real, y: real)
      ensures Valid()
      ensures this.x == x && this.y == y && target == None
      ensures currentDirection == Down && currentState == Idle && !isSelected
    {
      this.x := x;
      this.y := y;
      target := None;
      currentDirection := Down;
      currentState := Idle;
      isSelected := false;
    }

    method SetSelected(selected: bool)
      modifies this`isSelected
      ensures isSelected == selected
    {
      isSelected := selected;
    }

    /// Gives the unit a target and sets it walking.
    method MoveTo(tx: real, ty: real)
      modifies this`target, this`currentState
      ensures Valid()
      ensures target == Some(Point(tx, ty)) && currentState == Walk
    {
      target := Some(Point(tx, ty));
      currentState := Walk;
    }

    /// Drops the target; the unit stands idle where it is.
    method Stop()
      modifies this`target, this`currentState
      ensures Valid()
      ensures target == None && currentState == Idle
    {
      target := None;
      currentState := Idle;
    }

    /// Faces the unit along a movement whose `atan2` angle is `angle`.
    method UpdateDirection(angle: real)
      modifies this`currentDirection
      ensures DirectionFor(angle) == Some(currentDirection)
      ensures -Pi <= angle <= Pi ==> currentDirection == Compass[CompassIndex(angle)]
    {
      if -Pi / 8.0 <= angle < Pi / 8.0 {
        currentDirection := Right;
      } else if Pi / 8.0 <= angle < 3.0 * Pi / 8.0 {
        currentDirection := DownRight;
      } else if 3.0 * Pi / 8.0 <= angle < 5.0 * Pi / 8.0 {
        currentDirection := Down;
      } else if 5.0 * Pi / 8.0 <= angle < 7.0 * Pi / 8.0 {
        currentDirection := DownLeft;
      } else if angle >= 7.0 * Pi / 8.0 || angle < -7.0 * Pi / 8.0 {
        currentDirection := Left;
      } else if -7.0 * Pi / 8.0 <= angle < -5.0 * Pi / 8.0 {
        currentDirection := UpLeft;
      } else if -5.0 * Pi / 8.0 <= angle < -3.0 * Pi / 8.0 {
        currentDirection := Up;
      } else if -3.0 * Pi / 8.0 <= angle < -Pi / 8.0 {
        currentDirection := UpRight;
      }
      if -Pi <= angle <= Pi {
        DirectionMatchesCompass(angle);
      }
    }

    /// One frame of `delta` milliseconds. `dist` stands for `Math.sqrt` of the squared
    /// distance to the target and `angle` for `Math.atan2` of the offset to it.
    ///  - no target: the unit is idle and nothing moves;
    ///  - within `ArriveRadius` of the target: it stops where it is;
    ///  - otherwise it steps `Speed * delta / 1000` pixels towards the target, unless
    ///    the point it would step to is not walkable, in which case it stops where
    ///    it is; after a step it keeps the target, walks, and faces along `angle`.
    method Update(delta: real, tileMap: TileMap, dist: real, angle: real)
      requires Valid() && tileMap.Valid()
      requires -Pi <= angle <= Pi
      requires target.Some? ==> dist >= 0.0 && dist * dist == Dist2(target.value, Point(x, y))
      modifies this`x, this`y, this`target, this`currentState, this`currentDirection
      ensures Valid()
      ensures old(target).None? ==> Motion() == old(Motion())
      ensures old(target).Some? && Dist2(old(target).value, old(Point(x, y))) < ArriveRadius * ArriveRadius ==>
        Motion() == (old(Point(x, y)), None, old(currentDirection), Idle)
      ensures old(target).Some? && Dist2(old(target).value, old(Point(x, y))) >= ArriveRadius * ArriveRadius ==>
        var next := StepTowards(old(Point(x, y)), old(target).value, dist, delta);
        if tileMap.IsWalkableWorld(next.x, next.y) then
          Motion() == (next, old(target), Compass[CompassIndex(angle)], Walk) && DirectionFor(angle) == Some(currentDirection)
        else
          Motion() == (old(Point(x, y)), None, old(currentDirection), Idle)
      ensures tileMap.IsWalkableWorld(old(x), old(y)) ==> tileMap.IsWalkableWorld(x, y)
    {
      if target.None? {
        currentState := Idle;
        return;
      }
      var t := target.value;
      var dx := t.x - x;
      var dy := t.y - y;
      ArriveTest(dist, Dist2(t, Point(x, y)));
      if dist < ArriveRadius {
        Stop();
        return;
      }
      var step := Speed * delta / 1000.0;
      var vx := dx / dist * step;
      var vy := dy / dist * step;
      var nextX := x + vx;
      var nextY := y + vy;
      assert Point(nextX, nextY) == StepTowards(Point(x, y), t, dist, delta);
      if !tileMap.IsWalkableWorld(nextX, nextY) {
        Stop();
        return;
      }
      x := nextX;
      y := nextY;
      UpdateDirection(angle);
      currentState := Walk;
    }
  }

  /// Where a unit at `pos` walking towards `target`, `dist` away, is after
  /// `delta` milliseconds.
  function StepTowards(pos: Point, target: Point, dist: real, delta: real): (r: Point)
    requires dist != 0.0
    ensures (r.x - pos.x) * (target.y - pos.y) == (r.y - pos.y) * (target.x - pos.x)
  {
    var step := Speed * delta / 1000.0;
    Point(pos.x + (target.x - pos.x) / dist * step, pos.y + (target.y - pos.y) / dist * step)
  }

  /// With `dist` the square root of `d2`, comparing `dist` with `ArriveRadius` is
  /// comparing `d2` with its square.
  lemma ArriveTest(dist: real, d2: real)
    requires dist >= 0.0 && dist * dist == d2
    ensures dist < ArriveRadius <==> d2 < ArriveRadius * ArriveRadius
  {
    if dist < ArriveRadius {
      assert dist * dist <= dist * ArriveRadius < ArriveRadius * ArriveRadius;
    } else {
      assert dist * dist >= dist * ArriveRadius >= ArriveRadius * ArriveRadius;
    }
  }

  /// A step moves along the line to the target: the remaining offset is the old
  /// one scaled by `1 - step / dist`.
  lemma StepScalesOffset(pos: Point, target: Point, dist: real, delta: real)
    requires dist > 0.0
    ensures var next := StepTowards(pos, target, dist, delta);
      var k := 1.0 - Speed * delta / 1000.0 / dist;
      target.x - next.x == k * (target.x - pos.x) && target.y - next.y == k * (target.y - pos.y)
  {
  }

  /// A step no longer than twice the remaining distance never takes the unit
  /// farther from its target, and a positive step shorter than that brings it
  /// strictly closer.
  lemma StepApproaches(pos: Point, target: Point, dist: real, delta: real)
    requires dist > 0.0 && dist * dist == Dist2(target, pos)
    requires 0.0 <= Speed * delta / 1000.0 <= 2.0 * dist
    ensures Dist2(target, StepTowards(pos, target, dist, delta)) <= Dist2(target, pos)
    ensures 0.0 < Speed * delta / 1000.0 < 2.0 * dist ==>
      Dist2(target, StepTowards(pos, target, dist, delta)) < Dist2(target, pos)
  {
    var next := StepTowards(pos, target, dist, delta);
    var s := Speed * delta / 1000.0;
    var k := 1.0 - s / dist;
    StepScalesOffset(pos, target, dist, delta);
    ScaledDistance(target, pos, next, k);
    RatioRange(s, dist);
    SquareAtMostOne(k);
    ProductPositive(dist, dist, Dist2(target, pos));
    ShrinkBy(Sq(k), Dist2(target, pos));
    if 0.0 < s < 2.0 * dist {
      SquareBelowOne(k);
    }
  }

  /// A product `p` of two positive factors is positive.
  lemma ProductPositive(a: real, b: real, p: real)
    requires a > 0.0 && b > 0.0 && p == a * b
    ensures p > 0.0
  {
    assert a * b > 0.0 * b;
  }

  /// Scaling a positive quantity by a factor in `[0, 1]` does not grow it, and by
  /// a factor below one shrinks it.
  lemma ShrinkBy(q: real, d: real)
    requires 0.0 <= q <= 1.0 && d > 0.0
    ensures q * d <= d
    ensures q < 1.0 ==> q * d < d
  {
    assert q * d <= 1.0 * d;
    if q < 1.0 {
      assert q * d < 1.0 * d;
    }
  }

  /// Scaling the offset to `target` by `k` scales the squared distance by `k * k`.
  lemma ScaledDistance(target: Point, pos: Point, next: Point, k: real)
    requires target.x - next.x == k * (target.x - pos.x) && target.y - next.y == k * (target.y - pos.y)
    ensures Dist2(target, next) == Sq(k) * Dist2(target, pos)
  {
    var ax, ay := target.x - pos.x, target.y - pos.y;
    calc {
      Dist2(target, next);
      Sq(k * ax) + Sq(k * ay);
      { assert Sq(k * ax) == Sq(k) * Sq(ax); assert Sq(k * ay) == Sq(k) * Sq(ay); }
      Sq(k) * Sq(ax) + Sq(k) * Sq(ay);
      Sq(k) * (Sq(ax) + Sq(ay));
    }
  }

  /// A step between none and twice the distance leaves a ratio in `[-1, 1]`.
  lemma RatioRange(s: real, dist: real)
    requires dist > 0.0 && 0.0 <= s <= 2.0 * dist
    ensures -1.0 <= 1.0 - s / dist <= 1.0
    ensures 0.0 < s < 2.0 * dist ==> -1.0 < 1.0 - s / dist < 1.0
  {
    var r := s / dist;
    assert (2.0 - r) * dist == 2.0 * dist - s;
    assert r * dist == s;
    FactorSign(2.0 - r, dist);
    FactorSign(r, dist);
  }

  /// The sign of a product with a positive factor is the sign of the other factor.
  lemma FactorSign(a: real, b: real)
    requires b > 0.0
    ensures a * b >= 0.0 ==> a >= 0.0
    ensures a * b > 0.0 ==> a > 0.0
  {
  }

  lemma SquareAtMostOne(k: real)
    requires -1.0 <= k <= 1.0
    ensures 0.0 <= Sq(k) <= 1.0
  {
    if k >= 0.0 { assert k * k <= k * 1.0; } else { assert k * k <= (-k) * 1.0; }
  }

  lemma SquareBelowOne(k: real)
    requires -1.0 < k < 1.0
    ensures Sq(k) < 1.0
  {
    if k >= 0.0 { assert k * k <= k * 1.0; } else { assert k * k <= (-k) * 1.0; }
  }
}
