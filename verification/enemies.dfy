/** The enemy cars: spawning, and the per-frame update that moves them down,
    drops the ones that left the screen and looks for a hit on the player.

    The update removes cars from the live list while walking it by index.
    When a car is removed its successor moves into the current slot and the
    walk then moves on to the next slot, so that successor is passed over in
    that frame: it is neither moved nor tested. `Walk` models the update
    literally; `Sweep` and `Hits` describe the same result car by car, and
    `SkippedAt`, `RemovedAt` and `RemovedBefore` describe it by index. */
module Enemies {
  import opened Geometry

  /** Distance an enemy car moves down per frame. */
  const EnemySpeed: real := 5.0
  /** Size of every enemy car, and the height above the screen it starts at. */
  const EnemyWidth: real := 50.0
  const EnemyHeight: real := 100.0
  const SpawnY: real := -100.0

  /** A number drawn from [0, 1), as the host's random source yields. */
  type Fraction = r: real | 0.0 <= r < 1.0

  /** Outcome of one update: the new enemy list, or a hit on the player. */
  datatype Outcome = Survived(enemies: seq<Rect>) | Crashed

  /** An enemy after one frame's move. */
  function Advance(e: Rect): (e': Rect)
    ensures e'.y == e.y + EnemySpeed && e' == e.(y := e'.y)
  {
    e.(y := e.y + EnemySpeed)
  }

  /** An enemy whose top edge is below the bottom of the canvas. */
  predicate OffScreen(e: Rect, c: Canvas)
  {
    e.y > c.height
  }

  /** The update as the game runs it: at slot `k` of the live list `a`, move
      that car down; if it is now off screen cut it out of the list; then, if
      the moved car overlaps the player, the frame ends in a crash; otherwise
      go on with slot `k + 1`. The host's loop stops at the list's length
      when the loop started, or earlier at the end of the list as it is now;
      the list only shrinks, so that is where the walk ends. */
  function Walk(player: Rect, a: seq<Rect>, k: nat, c: Canvas): Outcome
    decreases |a| + 1 - k
  {
    if k >= |a| then Survived(a)
    else
      var e := Advance(a[k]);
      var a' := if OffScreen(e, c) then a[..k] + a[k + 1..] else a[k := e];
      if Collides(player, e) then Crashed else Walk(player, a', k + 1, c)
  }

  /** One frame's enemy update for the player at `player`. It crashes
      exactly when a car it visits overlaps the player once moved; otherwise
      it leaves the car-by-car result. */
  function UpdateEnemies(player: Rect, enemies: seq<Rect>, c: Canvas): (o: Outcome)
    ensures o == if Hits(player, enemies, c, false) then Crashed else Survived(Sweep(enemies, c, false))
  {
    WalkFromSlot(player, [], enemies, c);
    assert [] + enemies == enemies;
    Walk(player, enemies, 0, c)
  }

  // ---------------------------------------------------------------------
  // A car-by-car reading of the update. `skip` says that the first car of
  // `es` has just been shifted into the slot of a removed car and will be
  // passed over.

  /** The flag for the car after `e`: it is skipped exactly when `e` was
      visited and removed. */
  function NextSkip(e: Rect, c: Canvas, skip: bool): bool
  {
    !skip && OffScreen(Advance(e), c)
  }

  /** The enemy list the update leaves when nothing is hit. */
  function Sweep(es: seq<Rect>, c: Canvas, skip: bool): seq<Rect>
  {
    if es == [] then []
    else if skip then [es[0]] + Sweep(es[1..], c, false)
    else if OffScreen(Advance(es[0]), c) then Sweep(es[1..], c, true)
    else [Advance(es[0])] + Sweep(es[1..], c, false)
  }

  /** Some car the update visits overlaps the player once it has moved. */
  predicate Hits(player: Rect, es: seq<Rect>, c: Canvas, skip: bool)
  {
    es != [] &&
    ((!skip && Collides(player, Advance(es[0]))) || Hits(player, es[1..], c, NextSkip(es[0], c, skip)))
  }

  lemma SliceShift(pre: seq<Rect>, r: seq<Rect>, e: Rect)
    requires r != []
    ensures (pre + r)[..|pre|] + (pre + r)[|pre| + 1..] == pre + r[1..]
    ensures (pre + r)[|pre| := e] == (pre + [e]) + r[1..]
  {
  }

  /** The literal walk, started at any slot with the cars before it already
      done, finishes the rest exactly as the car-by-car reading says. */
  lemma {:induction false} WalkFromSlot(player: Rect, pre: seq<Rect>, r: seq<Rect>, c: Canvas)
    ensures Walk(player, pre + r, |pre|, c)
            == if Hits(player, r, c, false) then Crashed else Survived(pre + Sweep(r, c, false))
    decreases |r|
  {
    if r == [] {
      assert pre + r == pre;
    } else {
      var e := Advance(r[0]);
      assert (pre + r)[|pre|] == r[0];
      SliceShift(pre, r, e);
      if Collides(player, e) {
      } else if OffScreen(e, c) {
        if r[1..] == [] {
          assert pre + r[1..] == pre;
        } else {
          var r' := r[1..];
          assert pre + r' == (pre + [r'[0]]) + r'[1..];
          WalkFromSlot(player, pre + [r'[0]], r'[1..], c);
          assert pre + [r'[0]] + Sweep(r'[1..], c, false) == pre + Sweep(r', c, true);
        }
      } else {
        WalkFromSlot(player, pre + [e], r[1..], c);
        assert pre + [e] + Sweep(r[1..], c, false) == pre + Sweep(r, c, false);
      }
    }
  }

  // ---------------------------------------------------------------------
  // An index-by-index reading of the same walk.

  /** Car `i` is passed over: it was shifted into the slot of car `i - 1`,
      which the walk visited and removed. */
  predicate SkippedAt(es: seq<Rect>, c: Canvas, skip: bool, i: nat)
    requires i < |es|
  {
    if i == 0 then skip
    else !SkippedAt(es, c, skip, i - 1) && OffScreen(Advance(es[i - 1]), c)
  }

  /** Car `i` is visited and, once moved, is off screen, so it is removed. */
  predicate RemovedAt(es: seq<Rect>, c: Canvas, skip: bool, i: nat)
    requires i < |es|
  {
    !SkippedAt(es, c, skip, i) && OffScreen(Advance(es[i]), c)
  }

  /** The number of cars among the first `i` that the walk removes. */
  function RemovedBefore(es: seq<Rect>, c: Canvas, skip: bool, i: nat): (n: nat)
    requires i <= |es|
    ensures n <= i
  {
    if i == 0 then 0
    else RemovedBefore(es, c, skip, i - 1) + (if RemovedAt(es, c, skip, i - 1) then 1 else 0)
  }

  lemma {:induction false} SkippedShift(es: seq<Rect>, c: Canvas, skip: bool, i: nat)
    requires i + 1 < |es|
    ensures SkippedAt(es, c, skip, i + 1) == SkippedAt(es[1..], c, NextSkip(es[0], c, skip), i)
    decreases i
  {
    if i > 0 {
      SkippedShift(es, c, skip, i - 1);
      assert es[1..][i - 1] == es[i];
    }
  }

  lemma {:induction false} RemovedBeforeShift(es: seq<Rect>, c: Canvas, skip: bool, i: nat)
    requires es != [] && i + 1 <= |es|
    ensures RemovedBefore(es, c, skip, i + 1)
            == (if RemovedAt(es, c, skip, 0) then 1 else 0) + RemovedBefore(es[1..], c, NextSkip(es[0], c, skip), i)
    decreases i
  {
    if i > 0 {
      RemovedBeforeShift(es, c, skip, i - 1);
      SkippedShift(es, c, skip, i - 1);
      assert es[1..][i - 1] == es[i];
    }
  }

  /** The update never adds cars: it keeps all of them except the removed ones. */
  lemma {:induction false} SweepLength(es: seq<Rect>, c: Canvas, skip: bool)
    ensures |Sweep(es, c, skip)| == |es| - RemovedBefore(es, c, skip, |es|)
    ensures |Sweep(es, c, skip)| <= |es|
    decreases |es|
  {
    if es != [] {
      SweepLength(es[1..], c, NextSkip(es[0], c, skip));
      RemovedBeforeShift(es, c, skip, |es| - 1);
    }
  }

  /** Between two indices at most as many cars are removed as there are
      indices, and one fewer when the first of them is kept. */
  lemma {:induction false} RemovedBetween(es: seq<Rect>, c: Canvas, skip: bool, i: nat, j: nat)
    requires i <= j <= |es|
    ensures RemovedBefore(es, c, skip, i) <= RemovedBefore(es, c, skip, j)
    ensures RemovedBefore(es, c, skip, j) - RemovedBefore(es, c, skip, i) <= j - i
    ensures i < j && !RemovedAt(es, c, skip, i) ==>
              RemovedBefore(es, c, skip, j) - RemovedBefore(es, c, skip, i) < j - i
    decreases j - i
  {
    if i < j {
      RemovedBetween(es, c, skip, i, j - 1);
      if i < j - 1 {
        RemovedBetween(es, c, skip, i + 1, j);
      }
    }
  }

  /** Where car `i` ends up: a car that is not removed sits at slot `i` less
      the number of removed cars before it, moved down one step if it was
      visited and unchanged if it was passed over. */
  lemma {:induction false} SweepAt(es: seq<Rect>, c: Canvas, skip: bool, i: nat)
    requires i < |es| && !RemovedAt(es, c, skip, i)
    ensures i - RemovedBefore(es, c, skip, i) < |Sweep(es, c, skip)|
    ensures Sweep(es, c, skip)[i - RemovedBefore(es, c, skip, i)]
            == if SkippedAt(es, c, skip, i) then es[i] else Advance(es[i])
    decreases |es|
  {
    var f := NextSkip(es[0], c, skip);
    if i > 0 {
      SkippedShift(es, c, skip, i - 1);
      RemovedBeforeShift(es, c, skip, i - 1);
      assert es[1..][i - 1] == es[i];
      SweepAt(es[1..], c, f, i - 1);
      if RemovedAt(es, c, skip, 0) {
        assert Sweep(es, c, skip) == Sweep(es[1..], c, f);
      } else {
        var h := if skip then es[0] else Advance(es[0]);
        assert Sweep(es, c, skip) == [h] + Sweep(es[1..], c, f);
      }
    }
  }

  /** The whole description of one crash-free update, by index, for the list
      the game holds: it keeps exactly the cars it does not remove, in their
      order, moves each visited one down by `EnemySpeed`, leaves each
      passed-over one as it was, and a car is passed over exactly when the
      car before it was removed. */
  lemma UpdateByIndex(player: Rect, enemies: seq<Rect>, c: Canvas)
    requires !Hits(player, enemies, c, false)
    ensures UpdateEnemies(player, enemies, c).Survived?
    ensures |UpdateEnemies(player, enemies, c).enemies|
            == |enemies| - RemovedBefore(enemies, c, false, |enemies|)
    ensures forall i :: 0 < i < |enemies| ==>
              (SkippedAt(enemies, c, false, i) <==> RemovedAt(enemies, c, false, i - 1))
    ensures forall i :: 0 <= i < |enemies| && !RemovedAt(enemies, c, false, i) ==>
              && i - RemovedBefore(enemies, c, false, i) < |UpdateEnemies(player, enemies, c).enemies|
              && UpdateEnemies(player, enemies, c).enemies[i - RemovedBefore(enemies, c, false, i)]
                 == if SkippedAt(enemies, c, false, i) then enemies[i] else Advance(enemies[i])
    ensures forall i, j :: 0 <= i < j < |enemies| && !RemovedAt(enemies, c, false, i) ==>
              i - RemovedBefore(enemies, c, false, i) < j - RemovedBefore(enemies, c, false, j)
  {
    assert UpdateEnemies(player, enemies, c) == Survived(Sweep(enemies, c, false));
    SweepLength(enemies, c, false);
    forall i | 0 <= i < |enemies| && !RemovedAt(enemies, c, false, i)
      ensures i - RemovedBefore(enemies, c, false, i) < |Sweep(enemies, c, false)|
      ensures Sweep(enemies, c, false)[i - RemovedBefore(enemies, c, false, i)]
              == if SkippedAt(enemies, c, false, i) then enemies[i] else Advance(enemies[i])
    {
      SweepAt(enemies, c, false, i);
    }
    forall i, j | 0 <= i < j < |enemies| && !RemovedAt(enemies, c, false, i)
      ensures i - RemovedBefore(enemies, c, false, i) < j - RemovedBefore(enemies, c, false, j)
    {
      RemovedBetween(enemies, c, false, i, j);
    }
  }

  /** An enemy pushed past the bottom makes the walk pass over the car behind
      it: with a 600-high canvas and two cars at y = 598, the first moves to
      603 and is removed, and the second stays at 598 for this frame. */
  lemma UpdateSkipsShiftedCar()
    ensures UpdateEnemies(Rect(100.0, 450.0, 50.0, 100.0),
                          [Rect(400.0, 598.0, 50.0, 100.0), Rect(400.0, 598.0, 50.0, 100.0)],
                          Canvas(800.0, 600.0))
            == Survived([Rect(400.0, 598.0, 50.0, 100.0)])
  {
    var a := [Rect(400.0, 598.0, 50.0, 100.0), Rect(400.0, 598.0, 50.0, 100.0)];
    assert a[..0] + a[1..] == [Rect(400.0, 598.0, 50.0, 100.0)];
  }

  // ---------------------------------------------------------------------
  // Spawning.

  lemma ScaledBounds(r: Fraction, d: real)
    ensures d > 0.0 ==> 0.0 <= r * d < d
    ensures d < 0.0 ==> d < r * d <= 0.0
    ensures d == 0.0 ==> r * d == 0.0
  {
  }

  /** The new car a spawn appends, at `r` of the way across the free width. */
  function Spawned(r: Fraction, canvasWidth: real): (e: Rect)
    ensures e.y == SpawnY && e.width == EnemyWidth && e.height == EnemyHeight
    ensures e.x == r * (canvasWidth - EnemyWidth)
    ensures canvasWidth > EnemyWidth ==> 0.0 <= e.x < canvasWidth - EnemyWidth
    ensures canvasWidth == EnemyWidth ==> e.x == 0.0
    ensures canvasWidth < EnemyWidth ==> canvasWidth - EnemyWidth < e.x <= 0.0
  {
    var d := canvasWidth - EnemyWidth;
    ScaledBounds(r, d);
    Rect(r * d, SpawnY, EnemyWidth, EnemyHeight)
  }

  /** Spawning appends exactly one car after all the others. */
  function SpawnEnemy(enemies: seq<Rect>, r: Fraction, canvasWidth: real): (es: seq<Rect>)
    ensures |es| == |enemies| + 1 && es[..|enemies|] == enemies
    ensures es[|enemies|] == Spawned(r, canvasWidth)
  {
    enemies + [Spawned(r, canvasWidth)]
  }
}
