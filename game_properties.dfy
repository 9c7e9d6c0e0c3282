/** What the game's transitions guarantee: the difficulty tables, the
    session a reset starts, the player's footprint, the movement rules, and
    for one tick the exact fate of every drop (advanced, spawned, removed at
    the bottom or by a hit) with the score and health bookkeeping. */
module GameProperties {
  import opened GameState

  // ---------------------------------------------------------------------
  // Truncating division

  lemma CDivOnNonNegative(a: int, b: int)
    requires b > 0 && a >= 0
    ensures CDiv(a, b) == a / b
  {
  }

  /** Truncation is symmetric around zero, unlike Euclidean division. */
  lemma CDivIsOdd(a: int, b: int)
    requires b > 0
    ensures CDiv(-a, b) == -CDiv(a, b)
  {
  }

  // ---------------------------------------------------------------------
  // Difficulty

  lemma DifficultyTable()
    ensures SpawnChanceFor(0) == 5 && TickIntervalFor(0) == 120
    ensures SpawnChanceFor(1) == 8 && TickIntervalFor(1) == 100
    ensures SpawnChanceFor(2) == 12 && TickIntervalFor(2) == 80
    ensures SpawnChanceFor(3) == 16 && TickIntervalFor(3) == 60
  {
  }

  /** An index outside the combo box's four entries keeps the defaults. */
  lemma DifficultyDefaults(d: int)
    requires d < 0 || d > 3
    ensures SpawnChanceFor(d) == 5 && TickIntervalFor(d) == 100
  {
  }

  /** A harder level spawns more often and ticks faster. */
  lemma HarderIsWetterAndFaster(d1: int, d2: int)
    requires 0 <= d1 < d2 <= 3
    ensures SpawnChanceFor(d1) < SpawnChanceFor(d2)
    ensures TickIntervalFor(d1) > TickIntervalFor(d2)
  {
  }

  // ---------------------------------------------------------------------
  // The player's footprint

  /** The "+" sprite described by its geometry: the centre column from the
      head (py - 4) to the feet (py), and the arms across row py - 3. */
  predicate InFootprint(p: Point, c: Point) {
    || (c.x == p.x && p.y - 4 <= c.y <= p.y)
    || (c.y == p.y - 3 && p.x - 2 <= c.x <= p.x + 2)
  }

  lemma FootprintShape(p: Point)
    ensures forall c :: c in PlayerManCells(p) <==> InFootprint(p, c)
    ensures forall i, j :: 0 <= i < j < |PlayerManCells(p)| ==> PlayerManCells(p)[i] != PlayerManCells(p)[j]
    ensures forall c :: c in PlayerManCells(p) ==> p.y - 4 <= c.y <= p.y && p.x - 2 <= c.x <= p.x + 2
  {
    var cells := PlayerManCells(p);
    forall c | InFootprint(p, c) ensures c in cells {
      if c.x == p.x && p.y - 4 <= c.y <= p.y {
        assert c == cells[if c.y == p.y - 4 then 0 else if c.y == p.y - 3 then 3 else c.y - p.y + 8];
      } else {
        assert c == cells[c.x - p.x + 3];
      }
    }
  }

  // ---------------------------------------------------------------------
  // Reset and start

  lemma ResetStopsTheGame(g: Game, gridSize: int, frameWidth: nat, frameHeight: nat, difficulty: int)
    ensures var r := Reset(g, gridSize, frameWidth, frameHeight, difficulty);
      !r.running && !r.timerActive && TimerInStep(r)
    ensures gridSize <= 0 ==>
      Reset(g, gridSize, frameWidth, frameHeight, difficulty) == g.(running := false, timerActive := false)
  {
  }

  lemma ResetStartsSession(g: Game, gridSize: int, frameWidth: nat, frameHeight: nat, difficulty: int)
    requires gridSize > 0
    ensures var r := Reset(g, gridSize, frameWidth, frameHeight, difficulty);
      && r.worldWidth == frameWidth / gridSize && r.worldHeight == frameHeight / gridSize
      && r.health == 5 && r.maxHealth == 5 && r.score == 0 && r.kills == 0 && r.tick == 0
      && r.drops == [] && r.spawnChance == SpawnChanceFor(difficulty)
      && r.player == Point(r.worldWidth / 2, r.worldHeight - 2)
      && r.timerInterval == g.timerInterval
  {
  }

  /** In a world at least 5 wide and 6 high, a reset puts the player inside
      the keyboard's range and the whole sprite inside the world. */
  lemma ResetPlacesPlayerInside(g: Game, gridSize: int, frameWidth: nat, frameHeight: nat, difficulty: int)
    requires gridSize > 0 && frameWidth / gridSize >= 5 && frameHeight / gridSize >= 6
    ensures var r := Reset(g, gridSize, frameWidth, frameHeight, difficulty);
      && 1 <= r.player.x <= r.worldWidth - 2
      && (forall c :: c in PlayerManCells(r.player) ==> 0 <= c.x < r.worldWidth && 0 <= c.y < r.worldHeight)
      && DropsInside(r)
  {
    var r := Reset(g, gridSize, frameWidth, frameHeight, difficulty);
    FootprintShape(r.player);
  }

  /** A 400 x 300 frame with 10-pixel cells. */
  lemma ResetScenario(g: Game, difficulty: int)
    ensures var r := Reset(g, 10, 400, 300, difficulty);
      r.worldWidth == 40 && r.worldHeight == 30 && r.player == Point(20, 28)
  {
  }

  lemma StartRunsTheGame(g: Game, gridSize: int, frameWidth: nat, frameHeight: nat, difficulty: int)
    ensures var r := StartClicked(g, gridSize, frameWidth, frameHeight, difficulty);
      && (g.running ==> r == g)
      && (!g.running ==> r.running && r.timerActive && r.timerInterval == TickIntervalFor(difficulty))
      && (!g.running && g.health > 0 ==>
            r == g.(running := true, timerActive := true, timerInterval := TickIntervalFor(difficulty)))
      && (!g.running && g.health <= 0 && gridSize > 0 ==>
            r.health == 5 && r.score == 0 && r.kills == 0 && r.tick == 0 && r.drops == [])
  {
  }

  /** With no usable grid size, restarting an ended game skips the reset:
      the game runs on with its health still at or below 0. */
  lemma StartWithoutGridKeepsEndedSession(g: Game, gridSize: int, frameWidth: nat, frameHeight: nat, difficulty: int)
    requires !g.running && g.health <= 0 && gridSize <= 0
    ensures var r := StartClicked(g, gridSize, frameWidth, frameHeight, difficulty);
      r.running && r.health == g.health && r.drops == g.drops
  {
  }

  // ---------------------------------------------------------------------
  // Keyboard and mouse

  lemma KeysIgnoredWhenStopped(g: Game, key: Key)
    requires !g.running && key != KeyP
    ensures KeyPress(g, key) == g
  {
  }

  /** A key other than P and the four movement keys changes nothing, in
      every state. */
  lemma OtherKeysIgnored(g: Game)
    ensures KeyPress(g, KeyOther) == g
  {
  }

  /** P flips running and the timer in every state, whatever the health. */
  lemma PauseToggles(g: Game)
    ensures var r := KeyPress(g, KeyP);
      && r.running != g.running && TimerInStep(r)
      && r.(running := g.running, timerActive := g.timerActive) == g
  {
  }

  lemma PauseTwiceRestores(g: Game)
    requires TimerInStep(g)
    ensures KeyPress(KeyPress(g, KeyP), KeyP) == g
  {
  }

  /** Left or A: one column left exactly when the new column is at least 1. */
  lemma MoveLeft(g: Game, key: Key)
    requires g.running && (key == KeyLeft || key == KeyA)
    ensures var r := KeyPress(g, key);
      && r == g.(player := r.player)
      && r.player.y == g.player.y
      && (r.player.x == g.player.x - 1 <==> g.player.x - 1 >= 1)
      && (r.player.x != g.player.x - 1 ==> r.player.x == g.player.x)
  {
  }

  /** Right or D: one column right exactly when the new column is at most
      worldWidth - 2. */
  lemma MoveRight(g: Game, key: Key)
    requires g.running && (key == KeyRight || key == KeyD)
    ensures var r := KeyPress(g, key);
      && r == g.(player := r.player)
      && r.player.y == g.player.y
      && (r.player.x == g.player.x + 1 <==> g.player.x + 1 <= g.worldWidth - 2)
      && (r.player.x != g.player.x + 1 ==> r.player.x == g.player.x)
  {
  }

  /** The keyboard never takes the player out of [1, worldWidth - 2]. */
  lemma KeysKeepKeyboardRange(g: Game, key: Key)
    requires 1 <= g.player.x <= g.worldWidth - 2
    ensures var r := KeyPress(g, key);
      1 <= r.player.x <= r.worldWidth - 2 && r.player.y == g.player.y
      && g.player.x - 1 <= r.player.x <= g.player.x + 1
  {
  }

  /** The strict bound: at column 1, Left does not move. */
  lemma LeftStopsAtColumnOne(g: Game)
    requires g.running && g.player.x == 1
    ensures KeyPress(g, KeyLeft) == g
  {
  }

  lemma MouseSetsColumn(g: Game, mouseX: int, gridSize: int)
    ensures !g.running || gridSize <= 0 ==> MouseMove(g, mouseX, gridSize) == g
    ensures g.running && gridSize > 0 && g.worldWidth >= 1 ==>
      var r := MouseMove(g, mouseX, gridSize);
      && r == g.(player := r.player)
      && r.player.y == g.player.y
      && 0 <= r.player.x < g.worldWidth
      && (0 <= mouseX ==>
            r.player.x == if mouseX / gridSize < g.worldWidth then mouseX / gridSize else g.worldWidth - 1)
      && (mouseX < 0 ==> r.player.x == 0)
    ensures g.running && gridSize > 0 && g.worldWidth <= 0 ==>
      MouseMove(g, mouseX, gridSize) == g.(player := g.player.(x := 0))
  {
    if g.running && gridSize > 0 && g.worldWidth >= 1 {
      if mouseX >= 0 {
        assert CDiv(mouseX, gridSize) == mouseX / gridSize >= 0;
      } else {
        assert (-mouseX) / gridSize >= 0;
        assert CDiv(mouseX, gridSize) <= 0;
      }
    } else if g.running && gridSize > 0 {
      assert Min(CDiv(mouseX, gridSize), g.worldWidth - 1) < 0;
    }
  }

  /** Pixels that far right fill at least that many whole cells. */
  lemma CellsCovered(mouseX: int, gridSize: int, n: int)
    requires gridSize > 0 && n >= 0 && mouseX >= n * gridSize
    ensures mouseX / gridSize >= n
  {
    var q, r := mouseX / gridSize, mouseX % gridSize;
    assert mouseX == q * gridSize + r && r < gridSize;
    var d := q - n + 1;
    assert d * gridSize == q * gridSize - n * gridSize + gridSize;
    assert d * gridSize > 0;
  }

  /** The mouse reaches the edge columns 0 and worldWidth - 1, which the
      keyboard never enters: the left pixel column, and every pixel from
      the start of the last cell on. */
  lemma MouseReachesEdges(g: Game, mouseX: int, gridSize: int)
    requires g.running && g.worldWidth >= 1 && gridSize > 0
    ensures MouseMove(g, 0, gridSize).player.x == 0
    ensures mouseX >= (g.worldWidth - 1) * gridSize ==> MouseMove(g, mouseX, gridSize).player.x == g.worldWidth - 1
  {
    if mouseX >= (g.worldWidth - 1) * gridSize {
      CellsCovered(mouseX, gridSize, g.worldWidth - 1);
      assert CDiv(mouseX, gridSize) == mouseX / gridSize;
    }
  }

  // ---------------------------------------------------------------------
  // Advancing drops

  lemma MovesShape(s: seq<Point>, drift: seq<int>, width: int)
    requires |drift| == |s| && ValidDrift(drift)
    ensures forall k :: 0 <= k < |s| ==>
      var m := Moves(s, drift, width)[k];
      && m.y == s[k].y + 1
      && m.x == ClampX(s[k].x + drift[k], width)
      && (width >= 1 ==> 0 <= m.x < width)
      && (0 <= s[k].x < width ==> s[k].x - 1 <= m.x <= s[k].x + 1)
  {
  }

  lemma {:induction false} SurvivorsAppend(m: seq<Point>, p: Point, height: int)
    ensures Survivors(m + [p], height) == Survivors(m, height) + (if p.y < height then [p] else [])
    decreases |m|
  {
    if m == [] {
      assert [p][1..] == [];
    } else {
      assert (m + [p])[0] == m[0];
      assert (m + [p])[1..] == m[1..] + [p];
      SurvivorsAppend(m[1..], p, height);
    }
  }

  lemma {:induction false} ExitedAppend(m: seq<Point>, p: Point, height: int)
    ensures Exited(m + [p], height) == Exited(m, height) + (if p.y >= height then 1 else 0)
    decreases |m|
  {
    if m == [] {
      assert [p][1..] == [];
    } else {
      assert (m + [p])[0] == m[0];
      assert (m + [p])[1..] == m[1..] + [p];
      ExitedAppend(m[1..], p, height);
    }
  }

  /** Advancing one more drop extends the survivors by that drop, if it
      stays inside, or the exit count by one. */
  lemma AdvanceOneMore(s: seq<Point>, drift: seq<int>, n: nat, width: int, height: int)
    requires |drift| == |s| && n < |s|
    ensures var drop := Move(s[n], drift[n], width);
      var moved := Moves(s[..n], drift[..n], width);
      var moved' := Moves(s[..n + 1], drift[..n + 1], width);
      && Survivors(moved', height) == Survivors(moved, height) + (if drop.y < height then [drop] else [])
      && Exited(moved', height) == Exited(moved, height) + (if drop.y >= height then 1 else 0)
  {
    var drop := Move(s[n], drift[n], width);
    var moved := Moves(s[..n], drift[..n], width);
    assert Moves(s[..n + 1], drift[..n + 1], width) == moved + [drop];
    SurvivorsAppend(moved, drop, height);
    ExitedAppend(moved, drop, height);
  }

  /** One pass of updatePositions' loop on a list whose first i entries
      are the survivors of the first n drops and whose rest is still the
      unvisited drops: the n-th drop is overwritten with its moved value at
      index i, then either removed there (it left the world) or kept, and
      the same split holds for n + 1. */
  lemma AdvanceStep(orig: seq<Point>, drift: seq<int>, width: int, height: int,
                    list: seq<Point>, i: nat, n: nat)
    requires |drift| == |orig| && i <= n < |orig| && i < |list|
    requires list[..i] == Survivors(Moves(orig[..n], drift[..n], width), height)
    requires list[i..] == orig[n..]
    ensures var drop := Move(orig[n], drift[n], width);
      var moved' := Moves(orig[..n + 1], drift[..n + 1], width);
      var updated := list[i := drop];
      && Exited(moved', height) == Exited(Moves(orig[..n], drift[..n], width), height) + (if drop.y >= height then 1 else 0)
      && (drop.y >= height ==>
            (updated[..i] + updated[i + 1..])[..i] == Survivors(moved', height)
            && (updated[..i] + updated[i + 1..])[i..] == orig[n + 1..])
      && (drop.y < height ==>
            updated[..i + 1] == Survivors(moved', height) && updated[i + 1..] == orig[n + 1..])
  {
    var drop := Move(orig[n], drift[n], width);
    var updated := list[i := drop];
    AdvanceOneMore(orig, drift, n, width, height);
    assert list[i + 1..] == orig[n + 1..] by {
      assert list[i + 1..] == list[i..][1..];
      assert orig[n + 1..] == orig[n..][1..];
    }
    assert updated[..i] == list[..i];
    assert updated[i + 1..] == list[i + 1..];
    if drop.y >= height {
      var rest := updated[..i] + updated[i + 1..];
      assert rest[..i] == list[..i];
      assert rest[i..] == list[i + 1..];
    } else {
      assert updated[..i + 1] == list[..i] + [drop];
    }
  }

  /** Each moved drop either survives or counts as exited. */
  lemma {:induction false} SurvivorsCount(m: seq<Point>, height: int)
    ensures |Survivors(m, height)| + Exited(m, height) == |m|
    decreases |m|
  {
    if m != [] {
      SurvivorsCount(m[1..], height);
    }
  }

  lemma {:induction false} SubsequenceReflexive(s: seq<Point>)
    ensures IsSubsequence(s, s)
    decreases |s|
  {
    if s != [] {
      SubsequenceReflexive(s[1..]);
    }
  }

  /** Exactly the drops at or beyond the bottom row are removed, and the
      others keep their order and multiplicity. */
  lemma {:induction false} SurvivorsExact(m: seq<Point>, height: int)
    ensures IsSubsequence(Survivors(m, height), m)
    ensures forall p :: p in Survivors(m, height) ==> p.y < height
    ensures forall p: Point :: p.y < height ==> multiset(Survivors(m, height))[p] == multiset(m)[p]
    ensures forall p: Point :: p.y >= height ==> multiset(Survivors(m, height))[p] == 0
    decreases |m|
  {
    if m != [] {
      SurvivorsExact(m[1..], height);
      var rest := Survivors(m[1..], height);
      assert m == [m[0]] + m[1..];
      assert multiset(m) == multiset{m[0]} + multiset(m[1..]);
      if m[0].y < height {
        assert ([m[0]] + rest)[1..] == rest;
      } else if rest != [] {
        assert rest[0] in rest;
      }
    }
  }

  /** updatePositions: score and kill count each rise by the number of
      drops removed; nothing but the drops, score and kills changes. */
  lemma UpdateScoresExits(g: Game, drift: seq<int>)
    requires |drift| == |g.drops|
    ensures var r := UpdatePositions(g, drift);
      && r.score - g.score == r.kills - g.kills == |g.drops| - |r.drops| >= 0
      && r == g.(drops := r.drops, score := r.score, kills := r.kills)
  {
    SurvivorsCount(Moves(g.drops, drift, g.worldWidth), g.worldHeight);
  }

  // ---------------------------------------------------------------------
  // Spawning

  lemma SpawnAddsAtMostOne(g: Game, roll: int, spawnX: int)
    requires ValidSpawn(g, roll, spawnX)
    ensures var r := Spawn(g, roll, spawnX);
      && r == g.(drops := r.drops)
      && (roll < g.spawnChance ==> r.drops == g.drops + [Point(spawnX, 0)] && 0 <= spawnX < g.worldWidth)
      && (roll >= g.spawnChance ==> r == g)
  {
  }

  // ---------------------------------------------------------------------
  // Collisions

  /** The collision scan stopped inside the drops it was given: a hit
      happened and, after it, the game was no longer running. */
  predicate Ended(before: int, after: int, running: bool) {
    after < before && (after <= 0 || !running)
  }

  /** One health point per removed drop. */
  lemma {:induction false} CollideCount(s: seq<Point>, cells: seq<Point>, health: int, running: bool)
    ensures var r := Collide(s, cells, health, running);
      r.health <= health && |s| - |r.drops| == health - r.health
    decreases |s|
  {
    if s != [] {
      if Hit(s[0], cells) {
        if !(health - 1 <= 0 || !running) {
          CollideCount(s[1..], cells, health - 1, running);
        }
      } else {
        CollideCount(s[1..], cells, health, running);
      }
    }
  }

  /** The kept drops are the original ones in their original order. */
  lemma {:induction false} CollideKeepsOrder(s: seq<Point>, cells: seq<Point>, health: int, running: bool)
    ensures IsSubsequence(Collide(s, cells, health, running).drops, s)
    decreases |s|
  {
    if s != [] {
      var r := Collide(s, cells, health, running);
      if Hit(s[0], cells) {
        if health - 1 <= 0 || !running {
          SubsequenceReflexive(s[1..]);
        } else {
          CollideKeepsOrder(s[1..], cells, health - 1, running);
        }
        if r.drops != [] {
          assert r.drops[0] in r.drops;
        }
      } else {
        CollideKeepsOrder(s[1..], cells, health, running);
        assert r.drops[1..] == Collide(s[1..], cells, health, running).drops;
      }
    }
  }

  /** The scan only removes drops. */
  lemma {:induction false} CollideOnlyRemoves(s: seq<Point>, cells: seq<Point>, health: int, running: bool)
    ensures multiset(Collide(s, cells, health, running).drops) <= multiset(s)
    decreases |s|
  {
    if s != [] {
      var r := Collide(s, cells, health, running);
      assert s == [s[0]] + s[1..];
      assert multiset(s) == multiset{s[0]} + multiset(s[1..]);
      if Hit(s[0], cells) {
        if health - 1 <= 0 || !running {
          assert r.drops == s[1..];
        } else {
          CollideOnlyRemoves(s[1..], cells, health - 1, running);
          assert r == Collide(s[1..], cells, health - 1, running);
        }
      } else {
        var r1 := Collide(s[1..], cells, health, running);
        CollideOnlyRemoves(s[1..], cells, health, running);
        assert r.drops == [s[0]] + r1.drops;
        assert multiset(r.drops) == multiset{s[0]} + multiset(r1.drops);
      }
    }
  }

  /** A drop that is not hit keeps its multiplicity. */
  lemma {:induction false} CollideKeepsMiss(s: seq<Point>, cells: seq<Point>, health: int, running: bool, p: Point)
    requires !Hit(p, cells)
    ensures multiset(Collide(s, cells, health, running).drops)[p] == multiset(s)[p]
    decreases |s|
  {
    if s != [] {
      var r := Collide(s, cells, health, running);
      assert s == [s[0]] + s[1..];
      assert multiset(s)[p] == multiset{s[0]}[p] + multiset(s[1..])[p];
      if Hit(s[0], cells) {
        assert s[0] != p;
        if health - 1 <= 0 || !running {
          assert r.drops == s[1..];
        } else {
          CollideKeepsMiss(s[1..], cells, health - 1, running, p);
          assert r == Collide(s[1..], cells, health - 1, running);
        }
      } else {
        var r1 := Collide(s[1..], cells, health, running);
        CollideKeepsMiss(s[1..], cells, health, running, p);
        assert r.drops == [s[0]] + r1.drops;
        assert multiset(r.drops)[p] == multiset{s[0]}[p] + multiset(r1.drops)[p];
      }
    }
  }

  /** Only hit drops are removed: a drop that is not hit keeps its
      multiplicity, and nothing is added. */
  lemma CollideRemovesOnlyHits(s: seq<Point>, cells: seq<Point>, health: int, running: bool)
    ensures var r := Collide(s, cells, health, running);
      && multiset(r.drops) <= multiset(s)
      && forall p :: !Hit(p, cells) ==> multiset(r.drops)[p] == multiset(s)[p]
  {
    CollideOnlyRemoves(s, cells, health, running);
    forall p | !Hit(p, cells)
      ensures multiset(Collide(s, cells, health, running).drops)[p] == multiset(s)[p]
    {
      CollideKeepsMiss(s, cells, health, running, p);
    }
  }

  /** Unless the scan ended the game, no kept drop touches the footprint. */
  lemma {:induction false} CollideRemovesAllHitsUnlessEnded(s: seq<Point>, cells: seq<Point>, health: int, running: bool)
    ensures var r := Collide(s, cells, health, running);
      !Ended(health, r.health, running) ==> forall p :: p in r.drops ==> !Hit(p, cells)
    decreases |s|
  {
    if s != [] {
      if Hit(s[0], cells) {
        if !(health - 1 <= 0 || !running) {
          CollideRemovesAllHitsUnlessEnded(s[1..], cells, health - 1, running);
          CollideCount(s[1..], cells, health - 1, running);
        }
      } else {
        CollideRemovesAllHitsUnlessEnded(s[1..], cells, health, running);
      }
    }
  }

  /** From positive health the scan stops exactly at 0, never below. */
  lemma {:induction false} CollideHealthFloor(s: seq<Point>, cells: seq<Point>, health: int, running: bool)
    requires health >= 1
    ensures var r := Collide(s, cells, health, running);
      r.health >= 0 && (running && Ended(health, r.health, running) ==> r.health == 0)
    decreases |s|
  {
    if s != [] {
      if Hit(s[0], cells) {
        if !(health - 1 <= 0 || !running) {
          CollideHealthFloor(s[1..], cells, health - 1, running);
        }
      } else {
        CollideHealthFloor(s[1..], cells, health, running);
      }
    }
  }

  /** The scan over a + b is the scan over a followed, unless it ended the
      game, by the scan over b; once it ends, b is left untouched. */
  lemma {:induction false} CollideAppend(a: seq<Point>, b: seq<Point>, cells: seq<Point>, health: int, running: bool)
    ensures var ra := Collide(a, cells, health, running);
      Ended(health, ra.health, running) ==>
        Collide(a + b, cells, health, running) == Sweep(ra.drops + b, ra.health)
    ensures var ra := Collide(a, cells, health, running);
      var rb := Collide(b, cells, ra.health, running);
      !Ended(health, ra.health, running) ==>
        Collide(a + b, cells, health, running) == Sweep(ra.drops + rb.drops, rb.health)
    decreases |a|
  {
    if a != [] {
      assert (a + b)[0] == a[0];
      assert (a + b)[1..] == a[1..] + b;
      if Hit(a[0], cells) {
        if !(health - 1 <= 0 || !running) {
          CollideAppend(a[1..], b, cells, health - 1, running);
          CollideCount(a[1..], cells, health - 1, running);
        }
      } else {
        CollideAppend(a[1..], b, cells, health, running);
        var r1 := Collide(a[1..], cells, health, running);
        assert [a[0]] + (r1.drops + b) == ([a[0]] + r1.drops) + b;
        var rb := Collide(b, cells, r1.health, running);
        assert [a[0]] + (r1.drops + rb.drops) == ([a[0]] + r1.drops) + rb.drops;
      }
    } else {
      assert a + b == b;
    }
  }

  /** A drop that is not hit joins the kept prefix. */
  lemma ScanFromMiss(s: seq<Point>, i: nat, cells: seq<Point>, health: int, running: bool)
    requires i < |s| && !Hit(s[i], cells)
    ensures ScanFrom(s, i, cells, health, running) == ScanFrom(s, i + 1, cells, health, running)
  {
    assert s[i..][0] == s[i] && s[i..][1..] == s[i + 1..];
    var r := Collide(s[i + 1..], cells, health, running);
    assert s[..i] + ([s[i]] + r.drops) == s[..i + 1] + r.drops;
  }

  /** A hit drop is removed at a cost of one health point; the scan then
      either stops there or goes on over the rest. */
  lemma ScanFromHit(s: seq<Point>, i: nat, cells: seq<Point>, health: int, running: bool)
    requires i < |s| && Hit(s[i], cells)
    ensures var s' := s[..i] + s[i + 1..];
      ScanFrom(s, i, cells, health, running) ==
        if health - 1 <= 0 || !running then Sweep(s', health - 1)
        else ScanFrom(s', i, cells, health - 1, running)
  {
    var s' := s[..i] + s[i + 1..];
    assert s[i..][0] == s[i] && s[i..][1..] == s[i + 1..];
    assert s'[..i] == s[..i] && s'[i..] == s[i + 1..];
    assert s' == s[..i] + s'[i..];
  }

  /** A fatal hit leaves the rest of the list alone, even drops that would
      also hit. */
  lemma FatalHitStopsScan(d: Point, rest: seq<Point>, cells: seq<Point>, health: int, running: bool)
    requires Hit(d, cells) && (health <= 1 || !running)
    ensures Collide([d] + rest, cells, health, running) == Sweep(rest, health - 1)
  {
    assert ([d] + rest)[1..] == rest;
  }

  lemma CheckCollisionsEffect(g: Game)
    ensures var r := CheckCollisions(g);
      && r == g.(drops := r.drops, health := r.health, running := r.running, timerActive := r.timerActive)
      && r.health <= g.health
      && g.health - r.health == |g.drops| - |r.drops|
      && (r.health < g.health && r.health <= 0 ==> !r.running && !r.timerActive)
      && (!(r.health < g.health && r.health <= 0) ==> r.running == g.running && r.timerActive == g.timerActive)
      && (TimerInStep(g) ==> TimerInStep(r))
  {
    CollideCount(g.drops, PlayerManCells(g.player), g.health, g.running);
  }

  // ---------------------------------------------------------------------
  // One tick

  lemma TickWhenStopped(g: Game, drift: seq<int>, roll: int, spawnX: int)
    requires !g.running
    ensures Tick(g, drift, roll, spawnX) == g
  {
  }

  /** Every drop present before the tick or spawned in it is afterwards
      either still in the list, scored (left at the bottom) or paid for
      with one health point (hit). */
  lemma TickAccountsForEveryDrop(g: Game, drift: seq<int>, roll: int, spawnX: int)
    requires g.running && |drift| == |g.drops|
    ensures var r := Tick(g, drift, roll, spawnX);
      |r.drops| + (r.score - g.score) + (g.health - r.health)
        == |g.drops| + (if roll < g.spawnChance then 1 else 0)
  {
    var g1 := UpdatePositions(g, drift);
    UpdateScoresExits(g, drift);
    CheckCollisionsEffect(Spawn(g1, roll, spawnX));
  }

  lemma TickProgress(g: Game, drift: seq<int>, roll: int, spawnX: int)
    requires g.running && |drift| == |g.drops|
    ensures var r := Tick(g, drift, roll, spawnX);
      && r.tick == g.tick + 1
      && r.score >= g.score && r.score - g.score == r.kills - g.kills
      && r.health <= g.health
      && r.player == g.player && r.worldWidth == g.worldWidth && r.worldHeight == g.worldHeight
      && r.spawnChance == g.spawnChance && r.timerInterval == g.timerInterval
      && (r.health < g.health && r.health <= 0 ==> !r.running)
      && (!(r.health < g.health && r.health <= 0) ==> r.running)
      && (g.health >= 1 ==> r.health >= 0)
      && (TimerInStep(g) ==> TimerInStep(r))
  {
    var g1 := UpdatePositions(g, drift);
    UpdateScoresExits(g, drift);
    var g2 := Spawn(g1, roll, spawnX);
    CheckCollisionsEffect(g2);
    if g.health >= 1 {
      CollideHealthFloor(g2.drops, PlayerManCells(g2.player), g2.health, g2.running);
    }
  }

  /** Once a tick has ended the game, later ticks change nothing. */
  lemma GameOverFreezes(g: Game, drift: seq<int>, roll: int, spawnX: int,
                        drift': seq<int>, roll': int, spawnX': int)
    requires g.running && |drift| == |g.drops|
    requires !Tick(g, drift, roll, spawnX).running
    ensures Tick(Tick(g, drift, roll, spawnX), drift', roll', spawnX') == Tick(g, drift, roll, spawnX)
  {
  }

  /** Advancing keeps the drops inside the world: each survivor is some
      drop moved one row down and clamped. */
  lemma UpdateKeepsDropsInside(g: Game, drift: seq<int>)
    requires |drift| == |g.drops| && ValidDrift(drift) && DropsInside(g)
    ensures DropsInside(UpdatePositions(g, drift))
  {
    var m := Moves(g.drops, drift, g.worldWidth);
    SurvivorsExact(m, g.worldHeight);
    MovesShape(g.drops, drift, g.worldWidth);
    forall p | p in Survivors(m, g.worldHeight) ensures 0 <= p.x < g.worldWidth && 0 <= p.y < g.worldHeight {
      assert multiset(Survivors(m, g.worldHeight))[p] > 0;
      assert p in multiset(m);
      var k :| 0 <= k < |m| && m[k] == p;
      assert g.drops[k] in g.drops;
    }
  }

  /** The collision check only removes drops. */
  lemma CheckCollisionsKeepsDropsInside(g: Game)
    requires DropsInside(g)
    ensures DropsInside(CheckCollisions(g))
  {
    var cells := PlayerManCells(g.player);
    var r := Collide(g.drops, cells, g.health, g.running);
    CollideRemovesOnlyHits(g.drops, cells, g.health, g.running);
    forall p | p in r.drops ensures p in g.drops {
      assert multiset(r.drops)[p] > 0;
    }
  }

  /** The drops stay inside the world from tick to tick. */
  lemma TickKeepsDropsInside(g: Game, drift: seq<int>, roll: int, spawnX: int)
    requires g.running && |drift| == |g.drops| && ValidDrift(drift) && ValidSpawn(g, roll, spawnX)
    requires g.worldHeight >= 1 && DropsInside(g)
    ensures DropsInside(Tick(g, drift, roll, spawnX))
  {
    var g1 := UpdatePositions(g, drift);
    UpdateKeepsDropsInside(g, drift);
    var g2 := Spawn(g1, roll, spawnX);
    assert DropsInside(g2);
    CheckCollisionsKeepsDropsInside(g2);
  }

  /** The timer runs exactly while the game runs, from the first reset on,
      whatever happens. */
  lemma TimerFollowsGame(g: Game, key: Key, mouseX: int, gridSize: int, frameWidth: nat, frameHeight: nat,
                         difficulty: int, drift: seq<int>, roll: int, spawnX: int)
    requires TimerInStep(g)
    ensures TimerInStep(Reset(Blank(), gridSize, frameWidth, frameHeight, difficulty))
    ensures TimerInStep(Reset(g, gridSize, frameWidth, frameHeight, difficulty))
    ensures TimerInStep(StartClicked(g, gridSize, frameWidth, frameHeight, difficulty))
    ensures TimerInStep(KeyPress(g, key))
    ensures TimerInStep(MouseMove(g, mouseX, gridSize))
    ensures g.running && |drift| == |g.drops| ==> TimerInStep(Tick(g, drift, roll, spawnX))
  {
    if g.running && |drift| == |g.drops| {
      TickProgress(g, drift, roll, spawnX);
    }
  }

  /** P works after the game has ended, so a later hit takes health below
      0: "health >= 0" is not an invariant of the game. */
  lemma HealthCanGoNegative()
    ensures var g := Game(false, 10, 10, 0, 5, 3, 3, 5, 7, Point(5, 8), [Point(5, 3)], false, 120);
      var resumed := KeyPress(g, KeyP);
      resumed.running && Tick(resumed, [0], 99, 0).health == -1
  {
    var g := Game(false, 10, 10, 0, 5, 3, 3, 5, 7, Point(5, 8), [Point(5, 3)], false, 120);
    var resumed := KeyPress(g, KeyP);
    var m := Moves(resumed.drops, [0], 10);
    assert m == [Point(5, 4)];
    assert Survivors(m, 10) == [Point(5, 4)];
    assert Point(5, 4) == PlayerManCells(Point(5, 8))[0];
  }
}
