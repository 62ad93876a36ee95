/// World-space points and rectangles, and the two pieces of engine geometry the
/// scene relies on: point distance (`Phaser.Math.Distance.Between`) and
/// rectangle containment (`Phaser.Geom.Rectangle.contains`).
module Geometry {

  /// A position in world pixels.
  datatype Point = Point(x: real, y: real)

  /// An axis-aligned rectangle given by its top-left corner, width and height.
  datatype Rect = Rect(x: real, y: real, w: real, h: real)

  function Sq(d: real): real { d * d }

  /// Squared Euclidean distance. `Distance.Between(a, b) < r` holds exactly when
  /// `Dist2(a, b) < r * r` for `r >= 0`, so the model compares squares and needs no
  /// square root.
  function Dist2(a: Point, b: Point): real { Sq(a.x - b.x) + Sq(a.y - b.y) }

  /// Phaser's `Rectangle.contains`: a rectangle without positive width and height
  /// contains nothing; any other contains the points of its closed box.
  predicate Contains(r: Rect, p: Point) {
    r.w > 0.0 && r.h > 0.0 && r.x <= p.x <= r.x + r.w && r.y <= p.y <= r.y + r.h
  }
}
