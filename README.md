# Rain-dodging game: a verified model of MainWindow's game logic

The program is a small Qt game. A "+"-shaped player stands near the bottom
of a grid world and dodges raindrops that fall one row per timer tick and
drift sideways at random. A drop that leaves the bottom scores a point. A
drop that touches the player (at its own cell or the cell above it) costs a
health point. At zero health the game stops and an "END" banner is painted
in a blocky bitmap font.

The model has four modules:

- `GameState` (game_state.dfy): the window's game fields as a `Game` value.
  It has one pure transition per event: reset, start button, key press,
  mouse move, one timer tick and the tick's three phases (advance, spawn,
  collide). It also holds the player's footprint and the clamp helpers.
- `MainWindowModel` (main_window.dfy): class `MainWindow` with the
  source's fields. Its methods update them in place as the source does:
  the drop list is edited inside the `updatePositions` and
  `checkCollisions` loops, with an index that stays put after a removal.
  Each method is proved to compute exactly the matching `GameState`
  transition, so everything proved about the transitions holds for the
  class.
- `GameProperties` (game_properties.dfy): what the transitions guarantee.
  This covers the difficulty tables, the session a reset starts, the
  footprint, the keyboard and mouse ranges and the fate of every drop in a
  tick (moved, removed at the bottom and scored, spawned, removed by a hit
  and paid for). It also covers the timer following the game and the game
  freezing once it has ended.
- `BlockyText` (blocky_text.dfy): `drawBlockyText` as a layout function.
  Painting a cell is read as "emit this cell", so a text and a start cell
  give the painted cells in order plus the final cursor column. The module
  also holds the end banner that `drawGame` paints.

Inputs the source reads from widgets or the random generator are
parameters:

- the grid-size spin box and the frame's pixel size;
- the difficulty combo box index;
- the drift draw for each visited drop, in {-1, 0, 1};
- the spawn roll, in [0, 100);
- the spawn column, in [0, worldWidth) whenever the roll asks for a drop.

The game timer (`QTimer`) is two fields: whether it is active, and the
interval it was last started with. The initial interval is 0 ms, which is
QTimer's default.

Two behaviours of the code are kept as written:

- `P` flips `gameRunning` even after the game has ended (mainwindow.cpp:144-150).
  The next tick can then take health below 0. `GameProperties.HealthCanGoNegative`
  exhibits this, so "health >= 0" is not an invariant of the game.
- The keyboard keeps the player in columns [1, worldWidth - 2]. The mouse
  allows [0, worldWidth - 1].

## Model

| member | source | states |
|---|---|---|
| MainWindowModel.MainWindow.constructor | mainwindow.cpp:21-23 | the window starts in the state a reset of the all-zero game gives |
| MainWindowModel.MainWindow.ResetGame | mainwindow.cpp:31-66 | the new fields are exactly the reset transition of the old ones (stop, world from frame / grid, fresh session) |
| MainWindowModel.MainWindow.StartGameClicked | mainwindow.cpp:96-115 | when stopped: resets an ended game, then runs and starts the timer with the difficulty's interval; when running, nothing changes |
| MainWindowModel.MainWindow.KeyPressEvent | mainwindow.cpp:139-176 | P toggles running and the timer; the movement keys move one column within the strict bounds while running; only the player, running and timer change |
| MainWindowModel.MainWindow.MouseMoveEvent | mainwindow.cpp:381-395 | while running with a positive grid size the player's column becomes the truncated pointer column clamped to the world; only the player changes |
| MainWindowModel.MainWindow.GameLoop | mainwindow.cpp:178-186 | nothing when stopped; otherwise advance, spawn, collide in this order and count the tick |
| MainWindowModel.MainWindow.UpdatePositions | mainwindow.cpp:188-204 | the in-place loop leaves the survivors of the moved drops, and score and kills rise by the number that exited; nothing else changes |
| MainWindowModel.MainWindow.SpawnRain | mainwindow.cpp:206-212 | appends (spawnX, 0) exactly when the roll is below the spawn chance; only the drop list changes |
| MainWindowModel.MainWindow.RemoveRaindrop | mainwindow.cpp:238 | the drop at index i is deleted and the other drops keep their order; nothing else changes |
| MainWindowModel.MainWindow.HandlePlayerHit | mainwindow.cpp:221-229 | health drops by one; at or below 0 the game and the timer stop |
| MainWindowModel.MainWindow.CheckCollisions | mainwindow.cpp:231-243 | the in-place scan removes hit drops front to back at one health each and returns at the first hit that stops the game |
| GameState.PlayerManCells | mainwindow.cpp:68-94 | the footprint has exactly 9 cells |
| GameState.ClampX | mainwindow.cpp:194-195 | the column becomes max(0, min(v, width-1)) for a positive width (so it lands in [0, width) and a column already inside is unchanged), and width-1 otherwise, as the two ifs in their order give |
| GameState.Moves | mainwindow.cpp:190-196 | one moved drop per drop |
| GameState.CDiv | mainwindow.cpp:388 | C++ division truncating toward zero; its meaning is pinned by CDivOnNonNegative and CDivIsOdd |
| GameState.SpawnChanceFor | mainwindow.cpp:42-56 | the spawn-chance switch; values in DifficultyTable and DifficultyDefaults |
| GameState.TickIntervalFor | mainwindow.cpp:105-111 | the tick-interval switch; values in DifficultyTable and DifficultyDefaults |
| GameState.Reset | mainwindow.cpp:31-66 | the reset transition; its effect is stated by ResetStopsTheGame and ResetStartsSession and computed in place by MainWindow.ResetGame |
| GameState.StartClicked | mainwindow.cpp:96-115 | the start-button transition; stated by StartRunsTheGame and StartWithoutGridKeepsEndedSession |
| GameState.KeyPress | mainwindow.cpp:139-176 | the key transition; stated by PauseToggles, MoveLeft, MoveRight, KeysIgnoredWhenStopped, OtherKeysIgnored and KeysKeepKeyboardRange |
| GameState.MouseMove | mainwindow.cpp:381-395 | the mouse transition; stated by MouseSetsColumn and MouseReachesEdges |
| GameState.Move | mainwindow.cpp:191-196 | one drop one row down, drifted and clamped; stated per drop by MovesShape |
| GameState.Survivors | mainwindow.cpp:197-201 | the moved drops still inside the world; stated by SurvivorsExact and SurvivorsCount |
| GameState.Exited | mainwindow.cpp:197-199 | the number of moved drops past the bottom; stated by SurvivorsCount |
| GameState.UpdatePositions | mainwindow.cpp:188-204 | the advance phase; stated by UpdateScoresExits and UpdateKeepsDropsInside |
| GameState.Spawn | mainwindow.cpp:206-212 | the spawn phase; stated by SpawnAddsAtMostOne |
| GameState.Hit | mainwindow.cpp:235-237 | a drop hits when its cell or the cell above is in the footprint |
| GameState.Collide | mainwindow.cpp:234-242 | the front-to-back collision scan; stated by the Collide lemmas below |
| GameState.PlayerHit | mainwindow.cpp:221-229 | one hit's effect; computed in place by MainWindow.HandlePlayerHit |
| GameState.CheckCollisions | mainwindow.cpp:231-243 | the collision phase; stated by CheckCollisionsEffect and CheckCollisionsKeepsDropsInside |
| GameState.Tick | mainwindow.cpp:178-186 | one tick; stated by TickProgress, TickAccountsForEveryDrop, TickKeepsDropsInside and GameOverFreezes |
| GameProperties.CDivOnNonNegative | mainwindow.cpp:388 | C++ division of a non-negative pixel coordinate equals floor division |
| GameProperties.CDivIsOdd | mainwindow.cpp:264 | C++ division truncates symmetrically around zero |
| GameProperties.DifficultyTable | mainwindow.cpp:42-56 | difficulties 0..3 give spawn chances 5/8/12/16 and tick intervals 120/100/80/60 ms |
| GameProperties.DifficultyDefaults | mainwindow.cpp:105-111 | any other index keeps spawn chance 5 and interval 100 ms |
| GameProperties.HarderIsWetterAndFaster | mainwindow.cpp:42-111 | a harder level spawns strictly more often (the switch at lines 42-56) and ticks strictly faster (the switch at lines 104-111) |
| GameProperties.FootprintShape | mainwindow.cpp:68-94 | the cells are exactly the centre column py-4..py plus the arms px-2..px+2 on row py-3, all distinct, within rows py-4..py |
| GameProperties.ResetStopsTheGame | mainwindow.cpp:31-36 | every reset stops the game and the timer; with grid size <= 0 nothing else changes |
| GameProperties.ResetStartsSession | mainwindow.cpp:37-64 | with a positive grid size: world = frame / grid, health 5, score, kills and tick 0, no drops, player at (w/2, h-2), spawn chance from the table |
| GameProperties.ResetPlacesPlayerInside | mainwindow.cpp:63 | in a world at least 5 by 6, the reset player is within the keyboard range and its whole sprite inside the world |
| GameProperties.ResetScenario | mainwindow.cpp:37-38 | a 400 by 300 frame with 10-pixel cells gives a 40 by 30 world with the player at (20, 28) |
| GameProperties.StartRunsTheGame | mainwindow.cpp:96-115 | running: unchanged; stopped with health: only running, timer and interval change; stopped without health and with a positive grid size: health 5, score, kills and tick 0, no drops |
| GameProperties.StartWithoutGridKeepsEndedSession | mainwindow.cpp:99-103 | with grid size <= 0 the skipped reset leaves an ended game running with its old health and drops |
| GameProperties.KeysIgnoredWhenStopped | mainwindow.cpp:156 | when stopped, every key but P changes nothing |
| GameProperties.OtherKeysIgnored | mainwindow.cpp:173-174 | a key other than P, Left, A, Right and D changes nothing, running or not |
| GameProperties.PauseToggles | mainwindow.cpp:144-150 | P flips running in every state, the timer follows, and nothing else changes |
| GameProperties.PauseTwiceRestores | mainwindow.cpp:144-150 | pressing P twice restores the state |
| GameProperties.MoveLeft | mainwindow.cpp:159-164 | Left/A moves one column left exactly when the new column is >= 1; y and every other field stay |
| GameProperties.MoveRight | mainwindow.cpp:166-171 | Right/D moves one column right exactly when the new column is <= worldWidth-2; y and every other field stay |
| GameProperties.KeysKeepKeyboardRange | mainwindow.cpp:156-171 | a column inside [1, worldWidth-2] stays inside it and moves by at most one |
| GameProperties.LeftStopsAtColumnOne | mainwindow.cpp:161 | at column 1 Left does not move (the bound is strict) |
| GameProperties.MouseSetsColumn | mainwindow.cpp:385-390 | stopped or grid <= 0: no change; otherwise only the column changes: in a world at least one column wide it is min(mouseX / grid, worldWidth-1) for mouseX >= 0 and 0 for mouseX < 0, and in a world with no column it is 0 |
| GameProperties.CellsCovered | mainwindow.cpp:388 | a pointer at least n cells from the left edge divides to a column of at least n |
| GameProperties.MouseReachesEdges | mainwindow.cpp:388-389 | in any world at least one column wide, pixel 0 gives column 0 and every pixel from (worldWidth-1)*grid on gives column worldWidth-1 |
| GameProperties.MovesShape | mainwindow.cpp:191-196 | each moved drop is one row lower, its column the clamped drifted column, inside the world and within one of the old column |
| GameProperties.AdvanceStep | mainwindow.cpp:191-201 | one pass of the loop overwrites the drop at i with its moved value and, if it exited, removes it there; either way the list splits into survivors and unvisited drops again |
| GameProperties.SurvivorsCount | mainwindow.cpp:197-201 | every moved drop either survives or counts as exited |
| GameProperties.SurvivorsExact | mainwindow.cpp:197-201 | exactly the drops at or below the bottom are removed; the rest keep order and multiplicity |
| GameProperties.UpdateScoresExits | mainwindow.cpp:188-204 | score and kills each rise by the number of removed drops; only drops, score and kills change |
| GameProperties.SpawnAddsAtMostOne | mainwindow.cpp:206-212 | below the spawn chance the list gains (spawnX, 0) at the end, with spawnX in the world; otherwise nothing changes |
| GameProperties.CollideCount | mainwindow.cpp:234-241 | health falls by exactly the number of drops removed |
| GameProperties.CollideKeepsOrder | mainwindow.cpp:238 | the kept drops are a subsequence of the drops scanned |
| GameProperties.CollideOnlyRemoves | mainwindow.cpp:238 | the kept drops are a sub-multiset of the scanned ones |
| GameProperties.CollideKeepsMiss | mainwindow.cpp:235-238 | a drop that is not hit keeps its multiplicity |
| GameProperties.CollideRemovesOnlyHits | mainwindow.cpp:235-238 | only hit drops are removed: a drop not hit keeps its multiplicity and nothing is added |
| GameProperties.CollideRemovesAllHitsUnlessEnded | mainwindow.cpp:234-242 | unless a hit stopped the scan, no kept drop touches the footprint |
| GameProperties.CollideHealthFloor | mainwindow.cpp:223-227 | from positive health the scan never goes below 0, and a running game that ends stops at exactly 0 |
| GameProperties.CollideAppend | mainwindow.cpp:234-242 | scanning a + b scans a, then b unless the game ended in a, in which case b is left untouched |
| GameProperties.ScanFromMiss | mainwindow.cpp:234-237 | a drop that is not hit joins the kept prefix and the index advances |
| GameProperties.ScanFromHit | mainwindow.cpp:237-240 | a hit drop is removed at its index for one health, then the scan stops or goes on from the same index |
| GameProperties.FatalHitStopsScan | mainwindow.cpp:239-240 | a hit that stops the game leaves the rest of the list as it is, even drops that would also hit |
| GameProperties.CheckCollisionsEffect | mainwindow.cpp:231-243 | health falls by the number removed; a fatal hit stops the game and timer, and otherwise running and timer keep their values; nothing else changes |
| GameProperties.TickWhenStopped | mainwindow.cpp:180 | a tick does nothing when the game is stopped |
| GameProperties.TickAccountsForEveryDrop | mainwindow.cpp:178-186 | drops before plus the spawned one = drops after + points scored + health lost |
| GameProperties.TickProgress | mainwindow.cpp:178-186 | the tick counter rises by one; score never falls; health never rises; the game stops exactly on a fatal hit; from positive health, health stays >= 0 |
| GameProperties.GameOverFreezes | mainwindow.cpp:180 | once a tick has ended the game, later ticks change nothing |
| GameProperties.UpdateKeepsDropsInside | mainwindow.cpp:190-202 | advancing keeps every drop inside the world |
| GameProperties.CheckCollisionsKeepsDropsInside | mainwindow.cpp:231-243 | the collision check keeps every drop inside the world |
| GameProperties.TickKeepsDropsInside | mainwindow.cpp:178-186 | all drops stay inside the world from tick to tick |
| GameProperties.TimerFollowsGame | mainwindow.cpp:33-34 | the timer is active exactly while the game runs, after every event |
| GameProperties.HealthCanGoNegative | mainwindow.cpp:144-150 | resuming an ended game with P lets the next hit take health to -1 |
| BlockyText.ToUpper | mainwindow.cpp:300 | upper-casing of a character (ASCII letters) |
| BlockyText.Glyph | mainwindow.cpp:302-367 | the cells of each of the nine glyphs in painting order; stated by GlyphBox |
| BlockyText.DrawChar | mainwindow.cpp:300-376 | one pass of the character loop; stated by DrawCharCases and DrawCharBox |
| BlockyText.DrawText | mainwindow.cpp:294-379 | the whole routine as cells plus final cursor; stated by DrawTextBounds, DrawTextAppend and DrawTextCaseInsensitive |
| BlockyText.BannerOrigin | mainwindow.cpp:262-264 | the banner's origin: centred for a 15-column text with C++ division, five rows above the middle row |
| BlockyText.EndBanner | mainwindow.cpp:261-267 | the cells of both banner lines when the game is over; stated by EndBannerShown and EndBannerInsideWorld |
| BlockyText.UpperString | mainwindow.cpp:300 | upper-casing keeps the length and upper-cases each character in place |
| BlockyText.GlyphBox | mainwindow.cpp:302-367 | each of G, A, M, E, O, V, R, N, D paints at least one cell, all in columns x..x+2 and rows y..y+4 |
| BlockyText.DrawCharCases | mainwindow.cpp:300-376 | a glyph letter in either case steps 4 inside its box; '.' paints (x, y+2) and steps 2; anything else paints nothing and steps 4 |
| BlockyText.DrawCharCaseInsensitive | mainwindow.cpp:300 | a character and its upper-case form paint the same |
| BlockyText.DrawTextCaseInsensitive | mainwindow.cpp:298-300 | a text and its upper-cased form lay out the same |
| BlockyText.DrawCharBox | mainwindow.cpp:300-376 | one character steps 2 to 4 columns and paints only in the columns before the next cursor but one, rows y..y+4 |
| BlockyText.DrawTextBounds | mainwindow.cpp:297-378 | the cursor advances 2 to 4 columns per character; all cells lie between the start column and the final cursor, in rows y..y+4 |
| BlockyText.DrawTextAppend | mainwindow.cpp:297-378 | drawing a + b draws a, then b from the cursor a ended on |
| BlockyText.EndLine | mainwindow.cpp:265 | "END" ends 12 columns right of its start and stays in a 12 by 5 box |
| BlockyText.DotsLine | mainwindow.cpp:266 | "..." paints exactly (x, y+2), (x+2, y+2), (x+4, y+2) and ends 6 columns right |
| BlockyText.EndBannerShown | mainwindow.cpp:261 | the banner is painted exactly when the game has stopped with health <= 0 and the grid size is positive |
| BlockyText.BannerFits | mainwindow.cpp:265-266 | both banner lines fit when 12 columns and 9 rows from the origin fit in the world |
| BlockyText.EndBannerInsideWorld | mainwindow.cpp:261-267 | in a world at least 14 wide and 10 high every banner cell is inside the world |

## Left out

- Pixel rendering is not modelled: `drawGame`, `drawCell`, `clearCanvas`
  and `drawGrid` (mainwindow.cpp:245-292). `drawBlockyText` is kept as the
  list of cells it paints, and `drawGame` as the banner cells and origin.
  The player sprite and drops are painted as their cell lists already.
- Qt wiring is left out: widget setup in the constructor, the destructor,
  the label `setText` calls, `setFocus` and the instructions label. The
  slot one-liners (mainwindow.cpp:117-121) are left out too; they only
  call `resetGame`, which is modelled.
- The empty leaderboard slot and the instructions dialog are not modelled;
  they have no game logic.
- `updateScore` (mainwindow.cpp:214-219) is not modelled; nothing calls it.
- my_label.cpp and my_label.h are not part of this model: they only
  forward mouse events.
- MainWindowModel.MainWindow.constructor: C++ leaves the game fields
  uninitialised until the constructor's `resetGame`. The model starts them
  at zero, which matters only when that reset sees a grid size <= 0.
- Randomness: `QRandomGenerator` draws are caller-supplied values with the
  ranges `bounded` guarantees. `bounded(0)` for a world 0 columns wide is
  excluded: SpawnRain and GameLoop require a spawn column inside the world
  whenever the roll asks for a drop.
- `QTimer` is its active flag and interval. Firing is modelled as calls of
  `GameLoop`; event-loop timing and re-entrancy are left out.
- Integers are unbounded. The 32-bit `int` counters (score, kills, tick)
  and coordinates are not wrapped; overflow needs over 2^31 ticks or drops.
- BlockyText.ToUpper upper-cases the ASCII letters only. `QChar::toUpper`
  also maps other scripts, but no non-ASCII character upper-cases to one of
  the nine glyph letters or to '.', so the layout is the same.
- BlockyText.DrawText walks a text by Unicode scalar values, while the
  source's loop visits UTF-16 code units. A character outside the Basic
  Multilingual Plane is one step of 4 columns in the model but two
  surrogate units of 4 columns each in the source. The game itself only
  draws "END" and "...", where the two agree.
- Drop identity across ticks is not tracked: a drop is its cell, as
  `QPoint` is in the source.
