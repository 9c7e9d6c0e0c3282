/** MainWindow's game logic as the source runs it: fields updated in place,
    the drop list edited inside the loops of updatePositions and
    checkCollisions. Each method is proved to compute the pure transition of
    module GameState; what those transitions guarantee is proved in
    GameProperties. Values the source reads from widgets (the grid-size spin
    box, the difficulty combo box, the frame size) and from the random
    generator are parameters. */
module MainWindowModel {
  import opened GameState
  import GameProperties

  class MainWindow {
    var gameRunning: bool
    var worldWidth: int
    var worldHeight: int
    var playerHealth: int
    var maxPlayerHealth: int
    var playerScore: int
    var killCount: int
    var spawnChance: int
    var gameTickCounter: int
    var playerPosition: Point
    var raindrops: seq<Point>
    // the game timer: whether it is started, and its interval in ms
    var timerActive: bool
    var timerInterval: int

    /** The abstract value of the window's game state. */
    function State(): Game
      reads this
    {
      Game(gameRunning, worldWidth, worldHeight, playerHealth, maxPlayerHealth,
           playerScore, killCount, spawnChance, gameTickCounter, playerPosition,
           raindrops, timerActive, timerInterval)
    }

    /** The constructor's game part: a fresh timer, then resetGame. */
    constructor (gridSize: int, frameWidth: nat, frameHeight: nat, difficulty: int)
      ensures State() == Reset(Blank(), gridSize, frameWidth, frameHeight, difficulty)
    {
      gameRunning, worldWidth, worldHeight := false, 0, 0;
      playerHealth, maxPlayerHealth, playerScore, killCount := 0, 0, 0, 0;
      spawnChance, gameTickCounter := 0, 0;
      playerPosition, raindrops := Point(0, 0), [];
      timerActive, timerInterval := false, 0;
      new;
      ResetGame(gridSize, frameWidth, frameHeight, difficulty);
    }

    method ResetGame(gridSize: int, frameWidth: nat, frameHeight: nat, difficulty: int)
      modifies this
      ensures State() == Reset(old(State()), gridSize, frameWidth, frameHeight, difficulty)
    {
      gameRunning := false;
      timerActive := false;
      if gridSize <= 0 {
        return;
      }
      worldWidth := frameWidth / gridSize;
      worldHeight := frameHeight / gridSize;
      playerHealth := 5;
      maxPlayerHealth := 5;
      var chance := 5;
      match difficulty {
        case 0 => chance := 5;
        case 1 => chance := 8;
        case 2 => chance := 12;
        case 3 => chance := 16;
        case _ =>
      }
      spawnChance := chance;
      playerScore := 0;
      killCount := 0;
      raindrops := [];
      playerPosition := Point(worldWidth / 2, worldHeight - 2);
      gameTickCounter := 0;
      // Solver hints: restating the fields the reset derives keeps the
      // final comparison with Reset cheap.
      assert worldWidth == frameWidth / gridSize && worldHeight == frameHeight / gridSize;
      assert spawnChance == SpawnChanceFor(difficulty);
    }

    method StartGameClicked(gridSize: int, frameWidth: nat, frameHeight: nat, difficulty: int)
      modifies this
      ensures State() == StartClicked(old(State()), gridSize, frameWidth, frameHeight, difficulty)
    {
      if !gameRunning {
        if playerHealth <= 0 {
          ResetGame(gridSize, frameWidth, frameHeight, difficulty);
        }
        gameRunning := true;
        var gameSpeed := 100;
        match difficulty {
          case 0 => gameSpeed := 120;
          case 1 => gameSpeed := 100;
          case 2 => gameSpeed := 80;
          case 3 => gameSpeed := 60;
          case _ =>
        }
        assert gameSpeed == TickIntervalFor(difficulty);
        timerInterval := gameSpeed;
        timerActive := true;
      }
    }

    method KeyPressEvent(key: Key)
      modifies this`gameRunning, this`timerActive, this`playerPosition
      ensures State() == KeyPress(old(State()), key)
    {
      if key == KeyP {
        gameRunning := !gameRunning;
        // start() resumes with the last interval, stop() pauses
        timerActive := gameRunning;
        return;
      }
      if !gameRunning {
        return;
      }
      match key {
        case KeyLeft | KeyA =>
          if playerPosition.x - 1 > 0 {
            playerPosition := playerPosition.(x := playerPosition.x - 1);
          }
        case KeyRight | KeyD =>
          if playerPosition.x + 1 < worldWidth - 1 {
            playerPosition := playerPosition.(x := playerPosition.x + 1);
          }
        case _ =>
      }
    }

    /** The mouse-move branch of eventFilter for the game frame. */
    method MouseMoveEvent(mouseX: int, gridSize: int)
      modifies this`playerPosition
      ensures State() == MouseMove(old(State()), mouseX, gridSize)
    {
      if gameRunning {
        if gridSize > 0 {
          var newX := CDiv(mouseX, gridSize);
          playerPosition := playerPosition.(x := Max(0, Min(newX, worldWidth - 1)));
        }
      }
    }

    /** One timer tick. The random draws are supplied: one drift per drop
        present at the start of the tick, the spawn roll and column. */
    method GameLoop(drift: seq<int>, roll: int, spawnX: int)
      requires gameRunning ==> |drift| == |raindrops| && ValidDrift(drift)
      requires gameRunning ==> ValidSpawn(State(), roll, spawnX)
      modifies this
      ensures State() == Tick(old(State()), drift, roll, spawnX)
    {
      if !gameRunning {
        return;
      }
      UpdatePositions(drift);
      SpawnRain(roll, spawnX);
      CheckCollisions();
      gameTickCounter := gameTickCounter + 1;
    }

    method UpdatePositions(drift: seq<int>)
      requires |drift| == |raindrops| && ValidDrift(drift)
      modifies this`raindrops, this`playerScore, this`killCount
      ensures State() == GameState.UpdatePositions(old(State()), drift)
    {
      ghost var orig := raindrops;
      var i := 0;
      var n := 0;  // drops visited, i.e. drift values drawn
      while i < |raindrops|
        invariant 0 <= i <= |raindrops| && i <= n <= |orig|
        invariant raindrops[..i] == Survivors(Moves(orig[..n], drift[..n], worldWidth), worldHeight)
        invariant raindrops[i..] == orig[n..]
        invariant playerScore == old(playerScore) + Exited(Moves(orig[..n], drift[..n], worldWidth), worldHeight)
        invariant killCount - old(killCount) == playerScore - old(playerScore)
        decreases |raindrops| - i
      {
        GameProperties.AdvanceStep(orig, drift, worldWidth, worldHeight, raindrops, i, n);

        var rain := raindrops[i].(y := raindrops[i].y + 1);
        var newX := rain.x + drift[n];
        if newX < 0 { newX := 0; }
        if newX >= worldWidth { newX := worldWidth - 1; }
        rain := rain.(x := newX);
        assert rain == Move(orig[n], drift[n], worldWidth);
        raindrops := raindrops[i := rain];
        if rain.y >= worldHeight {
          killCount := killCount + 1;
          playerScore := playerScore + 1;
          raindrops := raindrops[..i] + raindrops[i + 1..];
        } else {
          i := i + 1;
        }
        n := n + 1;
      }
      assert orig[..n] == orig && drift[..n] == drift;
    }

    method SpawnRain(roll: int, spawnX: int)
      requires ValidSpawn(State(), roll, spawnX)
      modifies this`raindrops
      ensures State() == Spawn(old(State()), roll, spawnX)
    {
      if roll < spawnChance {
        raindrops := raindrops + [Point(spawnX, 0)];
      }
    }

    /** QVector::remove(i) on the drop list. */
    method RemoveRaindrop(i: nat)
      requires i < |raindrops|
      modifies this`raindrops
      ensures raindrops == old(raindrops[..i] + raindrops[i + 1..])
      ensures State() == old(State()).(drops := raindrops)
    {
      raindrops := raindrops[..i] + raindrops[i + 1..];
    }

    method HandlePlayerHit()
      modifies this`playerHealth, this`gameRunning, this`timerActive
      ensures playerHealth == old(playerHealth) - 1
      ensures gameRunning == (old(gameRunning) && playerHealth > 0)
      ensures timerActive == (old(timerActive) && playerHealth > 0)
      ensures State() == PlayerHit(old(State()))
    {
      playerHealth := playerHealth - 1;
      if playerHealth <= 0 {
        gameRunning := false;
        timerActive := false;
      }
    }

    method CheckCollisions()
      modifies this
      ensures State() == GameState.CheckCollisions(old(State()))
    {
      var playerCells := PlayerManCells(playerPosition);
      ghost var g0 := State();
      ghost var goal := Collide(raindrops, playerCells, playerHealth, gameRunning);
      var i := 0;
      while i < |raindrops|
        invariant 0 <= i <= |raindrops|
        invariant gameRunning == g0.running && timerActive == g0.timerActive
        invariant worldWidth == g0.worldWidth && worldHeight == g0.worldHeight
        invariant maxPlayerHealth == g0.maxHealth && spawnChance == g0.spawnChance
        invariant playerScore == g0.score && killCount == g0.kills
        invariant gameTickCounter == g0.tick && playerPosition == g0.player
        invariant timerInterval == g0.timerInterval
        invariant playerHealth <= old(playerHealth)
        invariant playerHealth < old(playerHealth) ==> playerHealth > 0
        invariant goal == ScanFrom(raindrops, i, playerCells, playerHealth, gameRunning)
        decreases |raindrops| - i
      {
        var rainPos := raindrops[i];
        if Hit(rainPos, playerCells) {
          GameProperties.ScanFromHit(raindrops, i, playerCells, playerHealth, gameRunning);
          RemoveRaindrop(i);
          HandlePlayerHit();
          if !gameRunning {
            return;
          }
        } else {
          GameProperties.ScanFromMiss(raindrops, i, playerCells, playerHealth, gameRunning);
          i := i + 1;
        }
      }
      assert raindrops[i..] == [];
      assert goal == Sweep(raindrops, playerHealth);
    }
  }
}
