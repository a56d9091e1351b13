/** The player's car and its horizontal movement.
    Held keys arrive as the set of key names currently down; the keyboard
    listeners that maintain that set are outside the model. */
module Player {
  import opened Geometry

  /** The player's car: its rectangle and the distance of one step. */
  datatype Car = Car(box: Rect, speed: real)

  /** The player's size and step, fixed for the whole session. */
  const PlayerWidth: real := 50.0
  const PlayerHeight: real := 100.0
  const PlayerSpeed: real := 7.0

  /** A left step is requested by the left arrow, `a` or `A`. */
  predicate LeftHeld(held: set<string>)
  {
    "ArrowLeft" in held || "a" in held || "A" in held
  }

  /** A right step is requested by the right arrow, `d` or `D`. */
  predicate RightHeld(held: set<string>)
  {
    "ArrowRight" in held || "d" in held || "D" in held
  }

  /** One frame of movement. A left step is taken when left is held and the
      car's left edge is right of 0; then a right step is taken when right is
      held and the (possibly already moved) car's right edge is left of the
      canvas edge. Both are guards on the position before the step, not
      clamps, so a step may carry the car past the edge. */
  function MovePlayer(p: Car, held: set<string>, canvasWidth: real): (q: Car)
    ensures q.speed == p.speed && q.box == p.box.(x := q.box.x)
    ensures q.box.x - p.box.x in {-p.speed, 0.0, p.speed}
    ensures !LeftHeld(held) && !RightHeld(held) ==> q == p
    ensures !LeftHeld(held) ==> q.box.x == p.box.x || q.box.x == p.box.x + p.speed
    ensures !RightHeld(held) ==> q.box.x == p.box.x || q.box.x == p.box.x - p.speed
    ensures LeftHeld(held) && p.box.x > 0.0 && !RightHeld(held) ==> q.box.x == p.box.x - p.speed
    ensures (RightHeld(held) && p.box.x + p.box.width < canvasWidth && (!LeftHeld(held) || p.box.x <= 0.0))
              ==> q.box.x == p.box.x + p.speed
    ensures (LeftHeld(held) && p.box.x > 0.0 && RightHeld(held) && p.box.x - p.speed + p.box.width >= canvasWidth)
              ==> q.box.x == p.box.x - p.speed
    ensures RightHeld(held) && p.box.x <= 0.0 && p.box.x + p.box.width >= canvasWidth ==> q == p
  {
    var x1 := if LeftHeld(held) && p.box.x > 0.0 then p.box.x - p.speed else p.box.x;
    var x2 := if RightHeld(held) && x1 + p.box.width < canvasWidth then x1 + p.speed else x1;
    p.(box := p.box.(x := x2))
  }

  /** A car that moves left was right of 0 with left held; one that moves
      right had its right edge left of the canvas edge with right held. */
  lemma MoveGuards(p: Car, held: set<string>, canvasWidth: real)
    requires p.speed > 0.0
    ensures MovePlayer(p, held, canvasWidth).box.x < p.box.x ==> LeftHeld(held) && p.box.x > 0.0
    ensures MovePlayer(p, held, canvasWidth).box.x > p.box.x ==>
              RightHeld(held) && p.box.x + p.box.width < canvasWidth
  {
  }

  /** With both directions held and both guards passing the two steps cancel
      out. The right guard is read after the left step has been taken. */
  lemma BothKeysCancel(p: Car, held: set<string>, canvasWidth: real)
    requires LeftHeld(held) && RightHeld(held)
    requires p.box.x > 0.0 && p.box.x - p.speed + p.box.width < canvasWidth
    ensures MovePlayer(p, held, canvasWidth) == p
  {
  }

  /** The band that movement keeps the car in: strictly more than one step
      left of 0 and strictly less than one step past the right edge. */
  predicate InBand(p: Car, canvasWidth: real)
  {
    -p.speed < p.box.x < canvasWidth - p.box.width + p.speed
  }

  /** Movement never takes a car out of the band. */
  lemma MoveKeepsBand(p: Car, held: set<string>, canvasWidth: real)
    requires p.speed >= 0.0
    requires InBand(p, canvasWidth)
    ensures InBand(MovePlayer(p, held, canvasWidth), canvasWidth)
  {
  }

  /** The guard is not a clamp: a car one unit right of 0 steps to -6, left
      of the canvas, so the car can overshoot 0 by less than one step. */
  lemma MoveCanOvershootLeftEdge()
    ensures MovePlayer(Car(Rect(1.0, 650.0, PlayerWidth, PlayerHeight), PlayerSpeed), {"ArrowLeft"}, 800.0).box.x == -6.0
  {
  }

  /** Likewise on the right: a car whose right edge is one unit short of the
      canvas edge steps six units past it. */
  lemma MoveCanOvershootRightEdge()
    ensures MovePlayer(Car(Rect(749.0, 650.0, PlayerWidth, PlayerHeight), PlayerSpeed), {"d"}, 800.0).box.x + PlayerWidth == 806.0
  {
  }
}
