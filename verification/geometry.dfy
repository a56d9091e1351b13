/** Axis-aligned rectangles on the drawing surface and the overlap test
    the game uses to decide that the player has hit an enemy car.
    Coordinates grow rightwards (x) and downwards (y), as on a canvas. */
module Geometry {

  /** The drawing surface. Its size is taken from the viewport once, at load. */
  datatype Canvas = Canvas(width: real, height: real)

  /** A rectangle given by its top-left corner and its size. */
  datatype Rect = Rect(x: real, y: real, width: real, height: real)

  /** The game's overlap test: four strict inequalities, so rectangles that
      only touch along an edge or at a corner do not collide. */
  predicate Collides(a: Rect, b: Rect)
  {
    && a.x < b.x + b.width
    && a.x + a.width > b.x
    && a.y < b.y + b.height
    && a.y + a.height > b.y
  }

  /** A point strictly inside a rectangle (not on its border). */
  predicate Inside(r: Rect, px: real, py: real)
  {
    r.x < px < r.x + r.width && r.y < py < r.y + r.height
  }

  /** A rectangle with a positive area; every car in the game is one. */
  predicate Proper(r: Rect)
  {
    r.width > 0.0 && r.height > 0.0
  }

  function Max(a: real, b: real): real { if a < b then b else a }
  function Min(a: real, b: real): real { if a < b then a else b }

  /** The overlap test does not depend on which rectangle is the player. */
  lemma CollidesSymmetric(a: Rect, b: Rect)
    ensures Collides(a, b) <==> Collides(b, a)
  {
  }

  /** Independent reading of the overlap test: for rectangles with a positive
      area it holds exactly when some point lies strictly inside both. */
  lemma CollidesIffCommonPoint(a: Rect, b: Rect)
    requires Proper(a) && Proper(b)
    ensures Collides(a, b) <==> exists px: real, py: real :: Inside(a, px, py) && Inside(b, px, py)
  {
    if Collides(a, b) {
      var px := (Max(a.x, b.x) + Min(a.x + a.width, b.x + b.width)) / 2.0;
      var py := (Max(a.y, b.y) + Min(a.y + a.height, b.y + b.height)) / 2.0;
      assert Inside(a, px, py) && Inside(b, px, py);
    }
  }

  /** Rectangles that share only a vertical edge do not collide. */
  lemma TouchingEdgeIsNoCollision(a: Rect, b: Rect)
    requires a.x + a.width == b.x
    ensures !Collides(a, b) && !Collides(b, a)
  {
  }

  /** Rectangles that share only a horizontal edge do not collide. */
  lemma StackedEdgeIsNoCollision(a: Rect, b: Rect)
    requires a.y + a.height == b.y
    ensures !Collides(a, b) && !Collides(b, a)
  {
  }

  /** The two worked cases of the game's overlap test: a player car at
      (100, 500) of size 50x100 hits an enemy at (120, 550) and misses one
      at (300, 550). */
  lemma WorkedCollisionCases()
    ensures Collides(Rect(100.0, 500.0, 50.0, 100.0), Rect(120.0, 550.0, 50.0, 100.0))
    ensures !Collides(Rect(100.0, 500.0, 50.0, 100.0), Rect(300.0, 550.0, 50.0, 100.0))
  {
  }
}
