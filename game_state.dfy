/** Pure model of the rain-dodging game: the state MainWindow keeps and one
    transition function per event that changes it (reset, start, key press,
    mouse move, one timer tick and its three phases). The imperative class in
    main_window.dfy is proved to compute exactly these transitions. */
module GameState {

  /** A grid cell (QPoint). */
  datatype Point = Point(x: int, y: int)

  /** The keys keyPressEvent distinguishes; every other key is KeyOther. */
  datatype Key = KeyP | KeyLeft | KeyA | KeyRight | KeyD | KeyOther

  /** The game fields of MainWindow, plus what the game timer holds:
      whether it is active and the interval it was last started with. */
  datatype Game = Game(
    running: bool,
    worldWidth: int,
    worldHeight: int,
    health: int,
    maxHealth: int,
    score: int,
    kills: int,
    spawnChance: int,
    tick: int,
    player: Point,
    drops: seq<Point>,
    timerActive: bool,
    timerInterval: int)

  /** Health at the start of a session. */
  const StartHealth: int := 5

  /** The state before the first reset: every field zero, the timer idle
      with QTimer's default interval of 0 ms. */
  function Blank(): Game {
    Game(false, 0, 0, 0, 0, 0, 0, 0, 0, Point(0, 0), [], false, 0)
  }

  /** Integer division as C++ performs it: truncation toward zero
      (Dafny's own `/` is Euclidean). */
  function CDiv(a: int, b: int): int
    requires b > 0
  {
    if a >= 0 then a / b else -((-a) / b)
  }

  function Min(a: int, b: int): int { if a <= b then a else b }
  function Max(a: int, b: int): int { if a >= b then a else b }

  // ---------------------------------------------------------------------
  // Difficulty tables

  /** Per-tick spawn percentage for a difficulty index; any index other
      than 0..3 keeps the default of 5. */
  function SpawnChanceFor(difficulty: int): int {
    match difficulty
    case 0 => 5
    case 1 => 8
    case 2 => 12
    case 3 => 16
    case _ => 5
  }

  /** Timer interval in milliseconds for a difficulty index; any index
      other than 0..3 keeps the default of 100. */
  function TickIntervalFor(difficulty: int): int {
    match difficulty
    case 0 => 120
    case 1 => 100
    case 2 => 80
    case 3 => 60
    case _ => 100
  }

  // ---------------------------------------------------------------------
  // Reset and start

  /** resetGame: stops the game and the timer; with a positive grid size it
      derives the world from the frame and starts a fresh session. */
  function Reset(g: Game, gridSize: int, frameWidth: nat, frameHeight: nat, difficulty: int): Game {
    if gridSize <= 0 then
      g.(running := false, timerActive := false)
    else
      var w := frameWidth / gridSize;
      var h := frameHeight / gridSize;
      g.(running := false, timerActive := false,
         worldWidth := w, worldHeight := h,
         health := StartHealth, maxHealth := StartHealth,
         spawnChance := SpawnChanceFor(difficulty),
         score := 0, kills := 0, drops := [],
         player := Point(w / 2, h - 2), tick := 0)
  }

  /** on_startGame_button_clicked: when not running, resets an ended game
      first, then runs and starts the timer with the difficulty's interval. */
  function StartClicked(g: Game, gridSize: int, frameWidth: nat, frameHeight: nat, difficulty: int): Game {
    if g.running then g
    else
      var g1 := if g.health <= 0 then Reset(g, gridSize, frameWidth, frameHeight, difficulty) else g;
      g1.(running := true, timerActive := true, timerInterval := TickIntervalFor(difficulty))
  }

  // ---------------------------------------------------------------------
  // The player

  /** getPlayerManCells: the "+"-shaped sprite, head first, feet last. */
  function PlayerManCells(p: Point): (cells: seq<Point>)
    ensures |cells| == 9
  {
    [Point(p.x, p.y - 4),
     Point(p.x - 2, p.y - 3), Point(p.x - 1, p.y - 3), Point(p.x, p.y - 3),
     Point(p.x + 1, p.y - 3), Point(p.x + 2, p.y - 3),
     Point(p.x, p.y - 2),
     Point(p.x, p.y - 1),
     Point(p.x, p.y)]
  }

  /** keyPressEvent: P toggles running (and the timer with it) in every
      state; the movement keys act only while running, one cell at a time. */
  function KeyPress(g: Game, key: Key): Game {
    if key == KeyP then
      g.(running := !g.running, timerActive := !g.running)
    else if !g.running then g
    else
      match key
      case KeyLeft | KeyA =>
        if g.player.x - 1 > 0 then g.(player := g.player.(x := g.player.x - 1)) else g
      case KeyRight | KeyD =>
        if g.player.x + 1 < g.worldWidth - 1 then g.(player := g.player.(x := g.player.x + 1)) else g
      case _ => g
  }

  /** The mouse-move branch of eventFilter: while running and with a
      positive grid size, the column under the pointer, clamped to the world. */
  function MouseMove(g: Game, mouseX: int, gridSize: int): Game {
    if g.running && gridSize > 0 then
      var newX := CDiv(mouseX, gridSize);
      g.(player := g.player.(x := Max(0, Min(newX, g.worldWidth - 1))))
    else g
  }

  // ---------------------------------------------------------------------
  // Drops: advancing

  /** The column clamp of updatePositions, in its order: first below 0,
      then at or beyond the width. */
  function ClampX(v: int, width: int): (r: int)
    ensures width >= 1 ==> 0 <= r < width
    ensures 0 <= v < width ==> r == v
    ensures width >= 1 ==> r == Max(0, Min(v, width - 1))
    ensures width <= 0 ==> r == width - 1
  {
    var a := if v < 0 then 0 else v;
    if a >= width then width - 1 else a
  }

  /** One drop one row down, drifted by dx and clamped to the world. */
  function Move(p: Point, dx: int, width: int): Point {
    Point(ClampX(p.x + dx, width), p.y + 1)
  }

  /** Every drop moved, the k-th by the k-th drift draw. */
  function Moves(s: seq<Point>, drift: seq<int>, width: int): (m: seq<Point>)
    requires |drift| == |s|
    ensures |m| == |s|
  {
    seq(|s|, k requires 0 <= k < |s| => Move(s[k], drift[k], width))
  }

  /** The moved drops still inside the world, in their order. */
  function Survivors(m: seq<Point>, height: int): seq<Point> {
    if m == [] then []
    else if m[0].y < height then [m[0]] + Survivors(m[1..], height)
    else Survivors(m[1..], height)
  }

  /** How many moved drops have left the world at the bottom. */
  function Exited(m: seq<Point>, height: int): nat {
    if m == [] then 0
    else (if m[0].y >= height then 1 else 0) + Exited(m[1..], height)
  }

  /** A drift draw per drop, each in {-1, 0, 1} (bounded(3) - 1). */
  predicate ValidDrift(drift: seq<int>) {
    forall k :: 0 <= k < |drift| ==> -1 <= drift[k] <= 1
  }

  /** updatePositions: all drops advance; those that leave the bottom are
      removed and each one adds a point to the score and the kill count. */
  function UpdatePositions(g: Game, drift: seq<int>): Game
    requires |drift| == |g.drops|
  {
    var m := Moves(g.drops, drift, g.worldWidth);
    var e := Exited(m, g.worldHeight);
    g.(drops := Survivors(m, g.worldHeight), score := g.score + e, kills := g.kills + e)
  }

  // ---------------------------------------------------------------------
  // Drops: spawning

  /** The spawn draws: roll in [0, 100), and a column in [0, worldWidth)
      whenever the roll asks for a drop. */
  predicate ValidSpawn(g: Game, roll: int, spawnX: int) {
    0 <= roll < 100 && (roll < g.spawnChance ==> 0 <= spawnX < g.worldWidth)
  }

  /** spawnRain: at most one new drop, on row 0, at the end of the list. */
  function Spawn(g: Game, roll: int, spawnX: int): Game {
    if roll < g.spawnChance then g.(drops := g.drops + [Point(spawnX, 0)]) else g
  }

  // ---------------------------------------------------------------------
  // Drops: collisions

  /** A drop hits the player when its cell or the cell above it is one of
      the player's cells. */
  predicate Hit(p: Point, cells: seq<Point>) {
    p in cells || Point(p.x, p.y - 1) in cells
  }

  /** What the collision scan leaves: the drops kept and the health. */
  datatype Sweep = Sweep(drops: seq<Point>, health: int)

  /** The scan of checkCollisions from the front: a hit drop is removed
      and costs one health point; once the game is no longer running after
      a hit (health at or below 0, or it was not running), the scan stops
      and the remaining drops are left as they are. */
  function Collide(s: seq<Point>, cells: seq<Point>, health: int, running: bool): Sweep
    decreases |s|
  {
    if s == [] then Sweep([], health)
    else if Hit(s[0], cells) then
      var h := health - 1;
      if h <= 0 || !running then Sweep(s[1..], h)
      else Collide(s[1..], cells, h, running)
    else
      var r := Collide(s[1..], cells, health, running);
      Sweep([s[0]] + r.drops, r.health)
  }

  /** The scan's outcome once the first i drops are known to be kept. */
  function ScanFrom(s: seq<Point>, i: nat, cells: seq<Point>, health: int, running: bool): Sweep
    requires i <= |s|
  {
    var r := Collide(s[i..], cells, health, running);
    Sweep(s[..i] + r.drops, r.health)
  }

  /** handlePlayerHit: one health point less; at or below 0 the game and
      the timer stop. */
  function PlayerHit(g: Game): Game {
    var h := g.health - 1;
    if h <= 0 then g.(health := h, running := false, timerActive := false)
    else g.(health := h)
  }

  /** checkCollisions: the scan against the current footprint; the game
      and the timer stop when some hit brought health to 0 or below. */
  function CheckCollisions(g: Game): Game {
    var r := Collide(g.drops, PlayerManCells(g.player), g.health, g.running);
    var fatal := r.health < g.health && r.health <= 0;
    g.(drops := r.drops, health := r.health,
       running := g.running && !fatal, timerActive := g.timerActive && !fatal)
  }

  // ---------------------------------------------------------------------
  // One tick

  /** gameLoop: nothing when not running; otherwise advance, spawn, collide
      (in this order) and count the tick, even when the collisions ended it. */
  function Tick(g: Game, drift: seq<int>, roll: int, spawnX: int): Game
    requires g.running ==> |drift| == |g.drops|
  {
    if !g.running then g
    else
      var g1 := UpdatePositions(g, drift);
      var g2 := Spawn(g1, roll, spawnX);
      var g3 := CheckCollisions(g2);
      g3.(tick := g3.tick + 1)
  }

  // ---------------------------------------------------------------------
  // Relations used to state properties

  /** a is obtained from b by deleting elements (order preserved). */
  ghost predicate IsSubsequence(a: seq<Point>, b: seq<Point>)
    decreases |b|
  {
    if a == [] then true
    else if b == [] then false
    else (a[0] == b[0] && IsSubsequence(a[1..], b[1..])) || IsSubsequence(a, b[1..])
  }

  /** Every drop inside the world. */
  predicate DropsInside(g: Game) {
    forall p :: p in g.drops ==> 0 <= p.x < g.worldWidth && 0 <= p.y < g.worldHeight
  }

  /** The timer runs exactly while the game runs. */
  predicate TimerInStep(g: Game) {
    g.timerActive == g.running
  }
}
