/** The session state of the racing game and the steps that change it: one
    animation frame, one tick of the one-second score timer, the pause
    toggle and the reset after a crash. Drawing, sound, the overlay and the
    stored best score are outside the model; the host's clock, random source
    and held keys arrive as the frame's input. */
module Game {
  import opened Geometry
  import opened Player
  import opened Enemies

  /** Minimum time, in milliseconds, between two spawns (exclusive). */
  const SpawnInterval: int := 1500

  /** The whole mutable state of a session. `lastSpawn` is a clock reading
      in milliseconds. */
  datatype Game = Game(
    canvas: Canvas,
    player: Car,
    enemies: seq<Rect>,
    score: nat,
    best: nat,
    paused: bool,
    lastSpawn: int)

  /** What the host supplies to one frame: the keys held down, the clock,
      and a draw from the random source for a spawn. */
  datatype FrameInput = FrameInput(held: set<string>, now: int, r: Fraction)

  /** The host events that drive a session. */
  datatype Event = FrameEvent(input: FrameInput) | TickEvent | PauseEvent(input: FrameInput)

  /** The horizontal start of the player's car; the offset 25 is fixed, not
      half the car's width. */
  function CentreX(c: Canvas): real { c.width / 2.0 - 25.0 }

  /** The state at load: a centred car 150 above the bottom, no enemies,
      score 0, running, and the last spawn at the load time. */
  function Init(c: Canvas, now: int, storedBest: nat): (g: Game)
    ensures g.enemies == [] && g.score == 0 && g.best == storedBest && !g.paused
    ensures g.player.box == Rect(CentreX(c), c.height - 150.0, PlayerWidth, PlayerHeight)
    ensures g.player.speed == PlayerSpeed && g.lastSpawn == now && g.canvas == c
  {
    Game(c, Car(Rect(CentreX(c), c.height - 150.0, PlayerWidth, PlayerHeight), PlayerSpeed),
         [], 0, storedBest, false, now)
  }

  /** The restart after a crash: no enemies, score 0, and the car back at the
      centre but 120 (not 150) above the bottom. The car's size and speed,
      the best score, the pause flag and the last spawn time stay. */
  function Reset(g: Game): (g': Game)
    ensures g'.enemies == [] && g'.score == 0
    ensures g'.player.box.x == CentreX(g.canvas) && g'.player.box.y == g.canvas.height - 120.0
    ensures g'.player.box.width == g.player.box.width && g'.player.box.height == g.player.box.height
    ensures g'.player.speed == g.player.speed
    ensures g'.best == g.best && g'.paused == g.paused && g'.lastSpawn == g.lastSpawn
    ensures g'.canvas == g.canvas
  {
    var box := g.player.box.(x := CentreX(g.canvas), y := g.canvas.height - 120.0);
    g.(enemies := [], player := g.player.(box := box), score := 0)
  }

  /** One tick of the score timer: while running the score goes up by one
      and the best score follows it when exceeded; while paused nothing
      changes. */
  function Tick(g: Game): (g': Game)
    ensures g.paused ==> g' == g
    ensures !g.paused ==> g'.score == g.score + 1
    ensures !g.paused ==> g'.best == if g'.score > g.best then g'.score else g.best
    ensures g'.best >= g.best
    ensures g' == g.(score := g'.score, best := g'.best)
  {
    if g.paused then g
    else
      var s := g.score + 1;
      g.(score := s, best := if s > g.best then s else g.best)
  }

  /** The pause flag flip alone. */
  function FlipPause(g: Game): (g': Game)
    ensures g'.paused != g.paused && g' == g.(paused := g'.paused)
  {
    g.(paused := !g.paused)
  }

  /** A spawn is due once strictly more than the interval has passed. */
  predicate SpawnDue(now: int, lastSpawn: int)
  {
    now - lastSpawn > SpawnInterval
  }

  /** One animation frame. A paused game is left as it is. Otherwise the car
      moves, the enemies are updated; a hit resets the game and ends the
      frame; without a hit, a due spawn appends one enemy and records the
      time. */
  function Frame(g: Game, input: FrameInput): (g': Game)
    ensures g.paused ==> g' == g
    ensures g'.best == g.best && g'.paused == g.paused && g'.canvas == g.canvas
    ensures g'.score == 0 || g'.score == g.score
    ensures g'.lastSpawn == g.lastSpawn || (g'.lastSpawn == input.now && SpawnDue(input.now, g.lastSpawn))
  {
    if g.paused then g
    else
      var p := MovePlayer(g.player, input.held, g.canvas.width);
      match UpdateEnemies(p.box, g.enemies, g.canvas)
      case Crashed => Reset(g.(player := p))
      case Survived(es) =>
        if SpawnDue(input.now, g.lastSpawn) then
          g.(player := p, enemies := SpawnEnemy(es, input.r, g.canvas.width), lastSpawn := input.now)
        else
          g.(player := p, enemies := es)
  }

  /** The pause key or the resume button: flip the flag, and when that
      resumes the game run one frame straight away. */
  function TogglePause(g: Game, input: FrameInput): (g': Game)
    ensures g'.paused == !g.paused
    ensures !g.paused ==> g' == g.(paused := true)
  {
    var f := FlipPause(g);
    if f.paused then f else Frame(f, input)
  }

  /** One host event. */
  function Step(g: Game, e: Event): Game
  {
    match e
    case FrameEvent(input) => Frame(g, input)
    case TickEvent => Tick(g)
    case PauseEvent(input) => TogglePause(g, input)
  }

  /** A sequence of host events, in order. */
  function Run(g: Game, events: seq<Event>): Game
    decreases |events|
  {
    if events == [] then g else Run(Step(g, events[0]), events[1..])
  }

  /** `n` ticks of the score timer with no other event in between. */
  function Ticks(g: Game, n: nat): Game
    decreases n
  {
    if n == 0 then g else Ticks(Tick(g), n - 1)
  }

  // ---------------------------------------------------------------------
  // Properties.

  /** The score never exceeds the best score. */
  predicate ScoreInv(g: Game)
  {
    g.score <= g.best
  }

  /** Two flips restore the flag and everything else. */
  lemma FlipPauseTwice(g: Game)
    ensures FlipPause(FlipPause(g)) == g
  {
  }

  /** Pausing and then resuming a running game amounts to exactly one frame:
      none is lost and none is run twice. */
  lemma PauseResumeIsOneFrame(g: Game, i0: FrameInput, i1: FrameInput)
    requires !g.paused
    ensures TogglePause(TogglePause(g, i0), i1) == Frame(g, i1)
  {
  }

  /** While paused neither a frame nor a tick changes anything. */
  lemma PausedIsFrozen(g: Game, input: FrameInput)
    requires g.paused
    ensures Step(g, FrameEvent(input)) == g && Step(g, TickEvent) == g
  {
  }

  /** Resetting twice is the same as resetting once. */
  lemma ResetIdempotent(g: Game)
    ensures Reset(Reset(g)) == Reset(g)
  {
  }

  /** `n` ticks while running add exactly `n` to the score and leave the best
      score at the larger of the old best and the new score; while paused
      they change nothing. */
  lemma {:induction false} TicksCount(g: Game, n: nat)
    ensures g.paused ==> Ticks(g, n) == g
    ensures !g.paused ==> Ticks(g, n).score == g.score + n
    ensures !g.paused && n > 0 ==> Ticks(g, n).best == if g.score + n > g.best then g.score + n else g.best
    ensures Ticks(g, n).paused == g.paused && Ticks(g, n).enemies == g.enemies && Ticks(g, n).player == g.player
    decreases n
  {
    if n > 0 {
      TicksCount(Tick(g), n - 1);
    }
  }

  /** Five seconds of ticks while running add five to the score. */
  lemma FiveSecondsAddFive(g: Game)
    requires !g.paused
    ensures Ticks(g, 5).score == g.score + 5
  {
    TicksCount(g, 5);
  }

  /** Every step keeps the score at or below the best score. */
  lemma StepKeepsScoreInv(g: Game, e: Event)
    requires ScoreInv(g)
    ensures ScoreInv(Step(g, e))
  {
  }

  /** Over any run the best score never goes down, the canvas stays, and the
      score stays at or below the best score. */
  lemma {:induction false} RunKeepsBest(g: Game, events: seq<Event>)
    requires ScoreInv(g)
    ensures Run(g, events).best >= g.best
    ensures Run(g, events).canvas == g.canvas
    ensures ScoreInv(Run(g, events))
    decreases |events|
  {
    if events != [] {
      StepKeepsScoreInv(g, events[0]);
      RunKeepsBest(Step(g, events[0]), events[1..]);
    }
  }

  /** A crash-free running frame keeps the enemies as the update leaves
      them and, exactly when a spawn is due, appends one new car at the end
      and records the time; otherwise the spawn time stays. */
  lemma FrameSpawn(g: Game, input: FrameInput)
    requires !g.paused
    requires !Hits(MovePlayer(g.player, input.held, g.canvas.width).box, g.enemies, g.canvas, false)
    ensures Frame(g, input).enemies
            == Sweep(g.enemies, g.canvas, false)
               + (if SpawnDue(input.now, g.lastSpawn) then [Spawned(input.r, g.canvas.width)] else [])
    ensures Frame(g, input).lastSpawn == if SpawnDue(input.now, g.lastSpawn) then input.now else g.lastSpawn
    ensures Frame(g, input).score == g.score
    ensures Frame(g, input).player == MovePlayer(g.player, input.held, g.canvas.width)
  {
  }

  /** A frame whose moved car is hit by a visited enemy resets the game. */
  lemma FrameCrash(g: Game, input: FrameInput)
    requires !g.paused
    requires Hits(MovePlayer(g.player, input.held, g.canvas.width).box, g.enemies, g.canvas, false)
    ensures Frame(g, input) == Reset(g.(player := MovePlayer(g.player, input.held, g.canvas.width)))
  {
  }

  /** After a spawn at time `t`, no frame spawns again until the clock is
      strictly more than the interval past `t`. */
  lemma NoSpawnWithinInterval(g: Game, input: FrameInput)
    requires input.now - g.lastSpawn <= SpawnInterval
    ensures Frame(g, input).lastSpawn == g.lastSpawn
    ensures |Frame(g, input).enemies| <= |g.enemies|
  {
    if !g.paused {
      var p := MovePlayer(g.player, input.held, g.canvas.width);
      SweepLength(g.enemies, g.canvas, false);
    }
  }

  /** Frames, crashing or not, keep the car's size and speed. */
  lemma FrameKeepsCarShape(g: Game, input: FrameInput)
    ensures Frame(g, input).player.box.width == g.player.box.width
    ensures Frame(g, input).player.box.height == g.player.box.height
    ensures Frame(g, input).player.speed == g.player.speed
  {
  }
}
