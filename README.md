# Banggucha game core in Dafny

Banggucha ("방구차") is a browser maze game. The player drives a small car through a generated
maze. The goal is to collect every flag, then reach the open exit in the bottom-right corner.
Enemies wander by random walk, and the player can shoot them. Touching an enemy costs a life
unless the player is still invincible from the previous hit.

This project models the game logic of `game.js` and proves properties of it:

- **`Board`**: board constants, tile kinds and directions.
- **`Utility`**:
  - `randInt`;
  - the Fisher–Yates `shuffle`, in place on an array;
  - a `RandomSource` class that stands in for `Math.random`.
- **`Maze`**: `generateMaze`.
  - The recursive `carve` works on the shared `grid` and `visited` arrays.
  - The perforation loop follows it.
- **`Entities`**:
  - the player, enemy, flag and bullet records;
  - the specification functions for one bullet's frame (`Strike`), one pass of `updateBullets` (`BulletsAfter`) and flag pickup (`Collect`).
- **`Stage`**:
  - the rejection-sampling loops of `initStage`;
  - one enemy's turn of `updateEnemies`;
  - the loops of `updateBullets` and `checkCollisions`, each proved equal to its specification function.
- **`Game`**: the class `BangguchaGame`.
  - Its fields are the game's fields.
  - Its methods are `start`, `nextStage`, `initStage`, `loop`, `update`, `updatePlayer`, `shoot`, `updateBullets`, `updateEnemies`, `checkCollisions`, `playerHit`, `stageClear` and `gameOver`.
  - The invariant `Valid()`:
    - the maze shape;
    - player, enemies and bullets on open cells;
    - flag counters that agree with the flags;
    - the exit open exactly when every flag of a stage with flags is collected;
    - a positive stage, a non-negative score, and lives left while running.
  - Every method called on a valid game leaves it valid, except `GameOver`, which only stops the game and is called by `PlayerHit` on its way to a valid state.
  - One update is stated exactly except for the enemies' steps: the player's turn (`PlayerTurn`), the bullets' pass against the enemies as they were before the call (`BulletsAfter`), and the collisions and countdown on the moved player (`Settled`). The enemies' steps are only bounded at this level (`EnemiesStepped`: at most one orthogonal step each, on open cells, with the same move delay). The exact step of one enemy is the contract of `Stage.StepEnemy`.
  - It is also summarised by the two-state predicate `Stepped`:
    - the score never decreases;
    - flags stay collected;
    - enemies are only ever removed;
    - at most one life is lost, and only when not invincible;
    - a game stops without losing a life only on the open exit.

Modelling conventions:

- **Randomness.** `Math.random` is an arbitrary stream `draw: nat -> UnitInterval` of reals in [0, 1), read through a cursor. `randInt(lo, hi)` is `floor(u * (hi - lo + 1)) + lo` of the next draw. Every property holds for every stream. Only the draws that affect game state are taken from the stream (see "Left out").
- **Time.** Time is integer milliseconds. The frame step is `dt = min(timestamp - lastTime, 50)`. All timers are in ms: move timers, the shoot cooldown, invincibility, the enemy change timer and bullet life.
- **Bullet positions.** These are integer milli-pixels. Advancing a bullet by (pixels per second) × (milliseconds) is then exact. The hit test `hypot(dx, dy) < TILE * 0.7` becomes `dx² + dy² < 22400²` over milli-pixels.
- **Grid indexing.** The grid is an `array2<Tile>` indexed `[row, column]`, as `grid[y][x]` is in the source.
- **Entities.** The player, enemies, flags and bullets are datatype values held in `seq` fields, and the methods reassign those fields. The source never aliases these records.

## Model

| member | source | states |
|---|---|---|
| Utility.RandInt | game.js:91-93 | for lo <= hi the result lies in [lo, hi] |
| Utility.RandIntCovers | game.js:91-93 | every integer of [lo, hi] is the result of some draw, so "for every draw" covers every choice |
| Utility.RandomSource.Int | game.js:91-93 | one randInt call consumes exactly one draw and returns RandInt of it |
| Utility.ShuffleFrom | game.js:84-87 | the swaps from index i down to 1, the partner of index i being randInt(0, i) of the next draw, keep the length (ShuffleFromIsPermutation: and the elements) |
| Utility.Shuffled | game.js:83-89 | shuffle of a sequence for draws starting at a given index keeps its length (ShuffledIsPermutation: and its elements) |
| Utility.ShuffleFromIsPermutation | game.js:84-87 | the swaps from index i down to 1 only rearrange the elements (multiset preserved), whatever the draws |
| Utility.SwapIsPermutation | game.js:86 | one swap of two positions keeps the multiset of the elements |
| Utility.ShuffledIsPermutation | game.js:83-89 | the result of shuffle is a permutation of its input for every draw stream |
| Utility.Shuffle | game.js:83-89 | the in-place Fisher–Yates loop leaves the array equal to Shuffled of its old contents, a permutation of them, after length - 1 draws |
| Maze.ShuffledDirections | game.js:41-46 | the direction list carve walks is a permutation of Up, Down, Left, Right costing three draws |
| Maze.OpenCell | game.js:39-52 | one cell write of carve: the cell becomes Empty, every other cell keeps its tile, and every Empty cell is still a junction or an opened passage inside the carve region |
| Maze.Visit | game.js:38-39 | carve's first two lines: (cx, cy) leaves the unvisited set, which shrinks by exactly one; its junction (2·cy+1, 2·cx+1) is open and every other grid cell keeps its tile |
| Maze.Carve | game.js:37-56 | carve(cx, cy) marks (cx, cy) and only more cells visited; every Empty cell is then a junction or one of the passages it opened, at most one per cell it newly visited, all inside the carve region; it turns no Empty cell back to Wall, joins every cell it newly visits to (cx, cy) by a walk through opened passages, takes three draws per cell visited, and when it returns every cell it visited has no unvisited neighbour; it terminates because the unvisited set shrinks |
| Maze.CarveDirections | game.js:48-55 | after the direction loop no neighbour of (cx, cy) in any listed direction is unvisited, every cell visited meanwhile is closed and joined to (cx, cy) through passages, at most one passage was opened and three draws taken per cell visited, and no Empty cell turned Wall |
| Maze.DirectionTurn | game.js:48-55 | one turn of the direction loop keeps the loop's account (closed cells, walks, passages and draws per visited cell) with one more direction done |
| Maze.CarveToward | game.js:49-54 | when the neighbour in direction d is in the lattice and unvisited, the cell between the two junctions is Empty afterwards (a passage) and the neighbour has been carved; either way that neighbour ends visited, no Empty cell turns Wall, each newly visited cell adds at most one passage, and every newly visited cell is joined to (cx, cy) |
| Maze.CarveThrough | game.js:51-53 | the step into an unvisited neighbour opens the wall cell between the two junctions, which stays a passage, then carves from the neighbour; every cell so visited is joined to (cx, cy) through it |
| Maze.DirectionDone | game.js:48-55 | the cells closed before a direction turn and those closed during it together stay closed, and earlier directions stay done |
| Maze.CarveClosed | game.js:48-56 | once no direction of the shuffled four leads to an unvisited cell, (cx, cy) joins the cells the loop closed |
| Maze.StartJoined | game.js:37-39 | the one-cell walk joins carve's own cell to itself |
| Maze.ReachedFromOrigin | game.js:58 | when the visited cells are closed under neighbourhood and contain (0, 0), the cell (y, x) is visited |
| Maze.CarveVisitsAll | game.js:58 | after carve(0, 0) no coarse cell is left unvisited |
| Maze.AllCellsSize | game.js:31-35 | the mRows × mCols visited table has mRows·mCols coarse cells |
| Maze.AllCellsSplit | game.js:35 | the lattice is the one a row shorter plus its last row, the two disjoint |
| Maze.RowCellsSize | game.js:35 | a row of the visited table has one cell per column |
| Maze.PrependJoins | game.js:52-53 | a passage from a to n followed by a walk from n to b is a walk from a to b |
| Maze.PrependedJoins | game.js:52-53 | when a and n are joined by a passage, every cell reached from n is reached from a by the walk with a in front |
| Maze.SpanningIsConnected | game.js:58 | walks from (0, 0) to every coarse cell make the maze one connected region: every junction is reached from the start through passages |
| Maze.EmptyNeighbours | game.js:64-69 | at most 4 neighbours count, and 4 means all four are in bounds and open |
| Maze.PerforationAttempts | game.js:61 | floor(mCols·mRows·0.15): the largest n with 100·n <= 15·mCols·mRows |
| Maze.PerforationSample | game.js:62-63 | attempt i draws the column first and then the row, two draws per attempt, each in [1, dim-2] |
| Maze.PerforatedHoles | game.js:61-73 | the cells that attempts at the given cells open, in order, on the given tiles: an attempt opens its cell when it is a Wall not opened earlier with at least two neighbours Empty or opened earlier; there are at most as many as attempts |
| Maze.PerforatedHolesWalls | game.js:64-73 | every cell the pass opens is a Wall of the tiles it starts on |
| Maze.PerforatedHolesSampled | game.js:62-73 | every cell the pass opens is the cell of one of its attempts |
| Maze.PerforatedNext | game.js:61-73 | one attempt more adds its cell to PerforatedHoles exactly when the cell is a Wall not opened yet with two neighbours Empty or opened |
| Maze.HoledCounts | game.js:65-71 | on a grid that is the tiles g with holes opened, the Empty neighbours of a cell are those Empty in g or opened |
| Maze.HoledTest | game.js:64-73 | on such a grid the source's test, a Wall with at least two Empty neighbours, is PerforatedHoles' test on g |
| Maze.TryOpen | game.js:64-73 | a Wall cell with at least 2 Empty in-bounds neighbours at that moment becomes Empty, and the result says whether it did; nothing else in the grid changes |
| Maze.Attempt | game.js:62-73 | one attempt samples PerforationSample of the next two draws and opens that cell exactly when it is a Wall with two Empty neighbours; no cell loses an Empty neighbour |
| Maze.PerforationTurn | game.js:61-75 | attempt n samples its own cell and opens it exactly when, in the grid as it stands, it is a Wall with at least two Empty neighbours; it adds the cell to the holes exactly then, keeps every hole sampled and supported by two Empty neighbours, and leaves no eligible earlier attempt unopened |
| Maze.PerforationStep | game.js:61-73 | attempt n on a grid that is the starting tiles with the earlier holes opened leaves it the starting tiles with the holes of n + 1 attempts opened, the holes being PerforatedHoles of the first n + 1 cells |
| Maze.PerforationLoop | game.js:61-75 | the holes are exactly PerforatedHoles of the grid before the loop and the attempts' cells, and the grid is that grid with exactly those cells opened (HoledFrom); every hole is the cell of one of the attempts, lies in [1, dim-2] and keeps two Empty neighbours; every cell that was eligible before the loop is open |
| Maze.Perforate | game.js:61-75 | the holes are exactly PerforatedHoles of the grid before the pass and the cells of its floor(mCols·mRows·0.15) attempts (PerforationSamples), and the grid is the old grid with exactly those cells opened (HoledFrom); every attempt whose cell was a Wall with 2 Empty neighbours before the pass opens it; each hole lies in [1, dim-2] for dim >= 3 and ends with at least 2 Empty in-bounds neighbours; no Empty cell turns Wall; a Wall border stays Wall; exactly two draws per attempt |
| Maze.CarveFromOrigin | game.js:35-58 | after carve(0, 0) on an all-false visited table every junction (2c+1, 2r+1) is Empty, every other Empty cell is one of fewer than mCols·mRows passages inside the carve region, every coarse cell is joined to (0, 0) by a walk through passages, and 3·mCols·mRows draws were taken |
| Maze.ShapeBorder | game.js:29-35 | with odd dimensions the carve region leaves out the outer ring, so the ring stays Wall |
| Maze.PerforateCarved | game.js:58-75 | the perforation after carve(0, 0): carved is the grid before it, whose Empty cells are junctions or carve passages; the holes are exactly those the pass opens on carved (PerforatedBy) and the grid is carved with exactly those cells opened; every walk of the carve is kept, so the maze stays spanning and connected; junctions stay open; every Empty cell is a junction, a passage or a hole (CarvedBy, CarvedWithin); two draws per attempt |
| Maze.GenerateMaze | game.js:29-78 | a rows × cols grid of only Wall and Empty, every junction open, for odd cols and rows the outer ring Wall, every junction reached from (0, 0) through passages; the grid is the carved tiles (every Empty one a junction or one of fewer than mCols·mRows carve passages) with exactly the holes the perforation opens on them for the draws from cursor = old cursor + 3·mCols·mRows on (PerforatedBy, HoledFrom), at most floor(mCols·mRows·0.15) of them (CarvedWithin); exactly 3·mCols·mRows + 2·floor(mCols·mRows·0.15) draws (MazeDraws) |
| Board.DirOf | game.js:19-24 | index 0..3 picks UP, DOWN, LEFT, RIGHT in the order of the direction table, each index exactly one direction |
| Entities.HeldDir | game.js:264-267 | up beats down beats left beats right; no key gives no direction (each case an if-and-only-if) |
| Entities.EnemyMoveDelay | game.js:212 | 0.4 - 0.02·stage s in ms: at most 380 from stage 1 on, positive exactly before stage 20 |
| Entities.FlagCount | game.js:178 | 4 + 2·stage: even, and at least 6 from stage 1 on |
| Entities.EnemyCount | game.js:195 | min(1 + stage, 8): the smaller of the two, 8 exactly from stage 7 on |
| Entities.LaterStagesAreHarder | game.js:178-212 | a later stage has strictly faster enemies, two more flags per stage and no fewer enemies |
| Entities.CellOf | game.js:350-351 | the floor of a coordinate divided by TILE: the cell whose span of TILE pixels holds it |
| Entities.CentreOf | game.js:312-313 | the centre pixel of a cell lies in that cell |
| Entities.ShotFrom | game.js:311-320 | a new bullet starts in the player's cell with 2 s of life |
| Entities.Advance | game.js:343-345 | a bullet keeps its velocity in flight, and zero time leaves it unchanged |
| Entities.AdvanceAdds | game.js:343-345 | flying s and then t milliseconds is flying s + t |
| Entities.WithinHit | game.js:373-377 | hypot(dx, dy) < TILE·0.7 as a squared comparison: a bullet at the enemy's cell centre hits it, and a hit is only ever on the enemy's cell or one orthogonally adjacent (WithinOneStep) |
| Entities.OffCentreIsFar | game.js:373-377 | a coordinate outside cell c is at least half a tile from that cell's centre, and one two or more cells away at least one and a half tiles; squared, these are the distances WithinHit compares with the hit radius |
| Entities.LastHit | game.js:371-377 | the index found is in range and a hit, and no higher index is a hit; -1 means none of them is |
| Entities.Without | game.js:403 | removing one enemy shortens the list by one and keeps the others in order |
| Entities.Strike | game.js:350-408 | a bullet off the grid or in a wall is dropped with the enemies untouched; otherwise the highest-indexed enemy in range is removed along with the bullet; otherwise the bullet survives exactly when its life is positive |
| Entities.Fly | game.js:343-408 | a bullet that flies on is the advanced bullet; the enemies change only when the bullet destroys one, which removes exactly one enemy and the bullet |
| Entities.PassFrom | game.js:338-409 | each kill removes exactly one enemy; survivors are never more than the bullets minus the kills; enemies only ever disappear; surviving bullets are in open cells with life left |
| Entities.BulletsAfter | game.js:338-409 | one pass: \|enemies after\| + kills = \|enemies before\|, \|bullets after\| + kills <= \|bullets before\|, and survivors are all live and in open cells |
| Entities.Collect | game.js:459-461 | pickup keeps the number of flags |
| Entities.CollectIsMonotone | game.js:459-461 | no flag moves; a collected flag stays collected; a flag is collected afterwards exactly when it was before or it lies on the player's cell |
| Entities.CollectCounts | game.js:462 | the collected count rises by exactly the number of flags picked up |
| Entities.CollectLeavesNothing | game.js:460 | a flag is collected only once: after pickup nothing on the cell is pickable, and a second pickup changes nothing |
| Entities.CollectedPlusPickableBound | game.js:459-462 | collected and pickable flags are disjoint, so they number at most the flags |
| Entities.CollectSnoc | game.js:459-461 | pickup and its count over a list extended by one flag |
| Stage.PlaceFlags | game.js:178-192 | the flags are exactly the FlagSpot samples among the first `attempts` draw pairs (FlagsPlaced), two draws per attempt; no attempt runs once 4 + 2·stage flags are placed, and fewer are placed only after all 1000 attempts; each flag is on an Empty cell other than the start and the exit, uncollected |
| Stage.FlagSample | game.js:184-185 | a flag attempt samples a cell of [1, COLS-2] × [1, ROWS-2] |
| Stage.DrawCell | game.js:184-185 | two randInt calls, the column first, give the cell of the next two draws (as in the flag loop here and the enemy loop at game.js:200-201) |
| Stage.FlagsPlaced | game.js:183-191 | n attempts place at most n flags, each on a FlagSpot and uncollected |
| Stage.EnemySample | game.js:200-201 | an enemy attempt samples a cell of [3, COLS-3] × [3, ROWS-3] |
| Stage.SampleFrom | game.js:199-203 | the do-while loop from attempt a makes between a and 500 attempts |
| Stage.SampleFromEnds | game.js:199-203 | the loop ends on the sample of its last attempt, which is an Empty cell at distance >= 5 from the start unless the 500-attempt budget ran out |
| Stage.SampleFromRejects | game.js:199-203 | every attempt before the last one sampled a cell that was a wall or closer than 5 to the start |
| Stage.SampleStep | game.js:199-203 | a rejected attempt before the budget hands over: the loop from it ends where the loop from the next attempt ends |
| Stage.SampleStop | game.js:199-203 | an accepted attempt, or the 500th, ends the loop on its own sample |
| Stage.SampleEnemyCell | game.js:197-203 | the cell and the attempt count are those SampleFrom gives for the draws (so the cell is the last pair drawn and every earlier pair was rejected), two draws per attempt; the cell lies in [3, COLS-3] × [3, ROWS-3] after 1..500 attempts, and before the budget runs out it is Empty and at Manhattan distance >= 5 from the start |
| Stage.CloseSpawnIsCorner | game.js:203-205 | inside the spawn rectangle only (3, 3) is closer than 5 to the start, so it is the one cell the Empty-only test after the loop can let through |
| Stage.PlaceEnemies | game.js:195-216 | the enemies are exactly those that min(1 + stage, 8) tries spawn for the draws (Spawns); at most that many, each on an Empty cell of the spawn rectangle with move timer 0, the stage's move delay and a change timer of 2..5 s |
| Stage.TryEnemy | game.js:197-215 | one try of the enemy loop returns the enemy EnemyTry selects for the draws and uses the draws it counts |
| Stage.EnemyTry | game.js:197-215 | one try of the enemy loop with its draws starting at a given index: a spawned enemy has move timer 0, the stage's move delay and a change timer of 2..5 s, and the try then uses at least two draws (EnemyTrySpawns: which enemy and how many draws) |
| Stage.Spawns | game.js:196-216 | the enemies that n tries spawn for the draws, at most n of them (SpawnsAreSpawned: each a fresh enemy of the stage on an Empty cell) |
| Stage.EnemyTrySpawns | game.js:197-215 | a try spawns exactly when the cell its sampling loop ends on is Empty, on that cell, facing DirOf of the next draw, as a fresh enemy of the stage; it uses two draws per attempt and two more when it spawns |
| Stage.SpawnsAreSpawned | game.js:196-216 | n tries spawn at most n enemies, each a fresh enemy of the stage on an Empty cell |
| Stage.StepEnemy | game.js:413-435 | an expired change timer forces DirOf of the next draw and a new timer of RandInt(2, 5) of the draw after it, in seconds (so 2..5 s); an expired move timer moves one cell if it is open, otherwise the enemy stays and draws a new direction; the move timer restarts either way; the draws used are counted; the enemy moves at most one orthogonal step and stays on open cells |
| Stage.FlyBullet | game.js:343-408 | the filter callback for one bullet computes exactly Fly (Advance, then Strike) |
| Stage.PassBullets | game.js:338-409 | the filter over all bullets, with enemies spliced out along the way, computes exactly BulletsAfter |
| Stage.PickUpFlags | game.js:459-493 | the flag loop yields Collect of the flags, raises the count by the number picked up, and opens the exit exactly when it was open or a pickup brought the count to the total |
| Stage.FindHitEnemy | game.js:371-407 | the downward scan returns LastHit, and -1 exactly when no enemy is in range |
| Stage.TouchingEnemy | game.js:503-508 | true exactly when some enemy stands on the player's cell |
| Game.StageMaze | game.js:152-174 | a fresh ROWS × COLS maze with the maze properties (connected, CarvedWithin) and the start and exit cells Empty, using exactly MazeDraws(COLS, ROWS) draws |
| Game.PlaceItems | game.js:177-216 | the flag loop and then the enemy loop: the flags are FlagsPlaced of the first attempts draw pairs with no attempt after 4 + 2·stage flags and all 1000 attempts when fewer, the enemies the Spawns of the draws after them (ItemsDrawn); at most 4 + 2·stage flags on FlagSpots, uncollected, at most min(1 + stage, 8) fresh enemies on Empty cells |
| Game.BuildStage | game.js:152-216 | the maze of StageMaze from the first MazeDraws draws, then the flags and enemies PlaceItems draws on it from the draws after them |
| Game.Reward | game.js:541-544 | points times stage times events (as for the 500·stage bonus here and the per-flag and per-kill scores): non-negative for non-negative inputs, and zero events score nothing |
| Game.NoneCollected | game.js:187 | freshly placed flags give a collected count of 0 |
| Game.ClearJunction | game.js:170-174 | clearing a junction of the finished maze changes no cell, so every maze property (shape, connectivity, CarvedWithin) is kept |
| Game.BangguchaGame.constructor | game.js:99-113 | stage 1, score 0, 3 lives, not running, lastTime 0 |
| Game.BangguchaGame.InitStage | game.js:151-219 | Valid; a fresh connected maze within CarvedWithin from the first MazeDraws draws; flags and enemies exactly those the draws after the maze place (ItemsDrawn); player on (1, 1) facing right with timers expired; no bullets; exit closed; totalFlags = number placed <= 4 + 2·stage, none collected; at most min(1 + stage, 8) spawned enemies; stage, score, lives, running and lastTime unchanged |
| Game.BangguchaGame.Install | game.js:152-192 | the stage's fields take the new maze, flags and enemies, and the invariant holds |
| Game.BangguchaGame.Resume | game.js:142-143 | the game runs from the given time and stays valid (the same two lines end nextStage, game.js:224-225) |
| Game.BangguchaGame.Start | game.js:133-145 | stage 1, score 0, 3 lives, a new valid stage on a connected maze within CarvedWithin, running from the given time |
| Game.BangguchaGame.NextStage | game.js:221-228 | the stage number rises by one, score and lives carry over, a new valid stage on a connected maze within CarvedWithin runs from the given time |
| Game.BangguchaGame.Frame | game.js:230-240 | a stopped game ignores the frame entirely; a running one records the timestamp and then steps by min(elapsed, 50) ms exactly as Update states (Stepped, PlayerTurn, BulletsAfter against the old enemies, EnemiesStepped, Settled); Valid is kept |
| Game.BangguchaGame.Update | game.js:245-256 | the player takes its turn (PlayerTurn, with the shot in shot); the bullets become BulletsAfter of shot against the enemies before the call; the surviving enemies each take one step (EnemiesStepped); then collisions and the countdown happen on the moved player as Settled states, with the score raised by the kills first; Valid and Stepped(dt) hold |
| Game.BangguchaGame.Settle | game.js:250-255 | checkCollisions and then the invincibility countdown: flags on the player's cell collected, the exit bonus and stop, or the hit rule, then the timer down by dt, as Settled states; Stepped(dt) from its own start |
| Game.BangguchaGame.CountDownInvincibility | game.js:253-255 | a positive invincibility timer decreases by dt; otherwise the player is unchanged |
| Game.BangguchaGame.Move | game.js:246-248 | the player takes its turn (PlayerTurn), the bullets, shot included, become BulletsAfter against the enemies as they stood before it, paying 200·stage per kill, and the surviving enemies each take one step (EnemiesStepped); Valid is kept |
| Game.BangguchaGame.UpdatePlayer | game.js:258-299 | PlayerTurn: both timers run down; a move is honoured only with the move timer expired, in key priority order, onto an open neighbour, restarting the move timer; when blocked only dir changes; fire with an expired cooldown appends ShotFrom of the moved player and sets the cooldown to 400 ms |
| Game.BangguchaGame.Steer | game.js:258-288 | Steered: the move half of updatePlayer, with the shot cooldown run down by dt |
| Game.BangguchaGame.Shoot | game.js:301-320 | exactly one bullet, ShotFrom(player), is appended |
| Game.BangguchaGame.UpdateBullets | game.js:337-410 | bullets and enemies become BulletsAfter of the old ones, and the score rises by 200·stage per enemy destroyed |
| Game.BangguchaGame.UpdateEnemies | game.js:412-437 | EnemiesStepped: the same number of enemies, each moved at most one orthogonal step, keeping its move delay, all on open cells |
| Game.BangguchaGame.CollectFlags | game.js:459-493 | flags become Collect of the old ones; the count and the score (100·stage each) rise by the number picked up; the exit opens when the count reaches the total |
| Game.BangguchaGame.CheckCollisions | game.js:455-510 | pickup as in CollectFlags; on the open exit the stage bonus is paid and the game stops with no enemy check; otherwise, when not invincible and an enemy shares the cell, exactly one life is lost, stopping the game at 0 and otherwise sending the player to (1, 1) with 2 s of invincibility; otherwise lives, running and the player are unchanged |
| Game.BangguchaGame.PlayerHit | game.js:512-539 | one life less; with none left the game stops and the player stays; otherwise the player is back on (1, 1) with 2 s of invincibility |
| Game.BangguchaGame.StageClear | game.js:541-549 | the game stops and the score rises by exactly 500·stage |
| Game.BangguchaGame.GameOver | game.js:551-555 | the game stops |

## Left out

- Rendering (`render*`), the HUD (`updateHUD`), the DOM overlays, `setupInput` and the key map: presentation and I/O. Input is a snapshot of four direction booleans and fire, with the arrow keys and their WASD aliases merged.
- `requestAnimationFrame` and `performance.now`: the frame loop is the `Frame` method called with a timestamp in ms.
- `restart`: it only calls `start`.
- Cosmetic state: particles (`updateParticles` and the recoil, wall-hit, explosion, sparkle and hit spawns), exhaust puffs, bullet trail, wobble and size, `flagCollectAnim` with `updateAnimations`, and the flags' `bobPhase`.
  - The `Math.random` calls made only for these values are not taken from the random stream.
  - The stream therefore models the subsequence of `Math.random` results that affect the game state, in the source's order.
- Floating point:
  - the source's dt, timers and bullet coordinates are doubles, while the model uses integer milliseconds and milli-pixels;
  - `Math.hypot` is replaced by the exact squared-distance comparison;
  - a frame whose elapsed time is not a whole number of milliseconds is not modelled.
- Maze.GenerateMaze: requires cols >= 2 and rows >= 2.
  - With fewer than two rows the source indexes an empty visited table.
  - With fewer than two columns it writes past the end of a row.
  - The game calls it only with 25 × 19.
- Game.BangguchaGame.NextStage: requires lives > 0. The source offers it only on the stage-clear screen, which a running game reaches with lives left.
- Game.BangguchaGame.UpdateEnemies: its contract states only per-enemy bounds (at most one orthogonal step, same move delay, open cells). The exact per-enemy outcome is the contract of Stage.StepEnemy, which the loop calls in index order.
- Game.BangguchaGame.Move: the enemies after the step are stated only through EnemiesStepped, the same per-enemy bounds as UpdateEnemies. The bullets, the player and the score are stated exactly.
- Game.BangguchaGame.Update: as for Move, the enemies are stated only through EnemiesStepped. Everything else is stated exactly, as Settled and PlayerTurn give it.
- Game.BangguchaGame.Frame: the same as Update, for the step of a running game.
- Maze.Carve: every Empty cell it opens is a junction or one of its passages, at most one passage per newly visited cell, all inside the carve region. That each passage lies exactly between a new cell's junction and the junction it was reached from is proved for each step (CarveThrough) but not carried into the set of passages.
- Maze.CarveFromOrigin: for the same reason, the carve is proved connected with fewer than mCols·mRows passages, but not proved to be a tree.
- Maze.GenerateMaze: CarvedWithin bounds the Empty cells as junctions, fewer than mCols·mRows carve passages and at most floor(mCols·mRows·0.15) holes. It does not state that the carve alone is a tree.
- Game.BangguchaGame.constructor:
  - The source leaves the grid, player, flags and exit undefined until the first `initStage`.
  - The model gives them placeholder values: an empty grid and the start player.
  - No method reads them before `Start`.

Where the behaviour described for the game differs from the code, the model follows the code:

- **Enemy spawn distance.** The spawn test after the sampling loop (game.js:205) checks only that the cell is Empty. Once the 500-attempt budget runs out, an enemy can therefore spawn at (3, 3), at Manhattan distance 4 from the start (Stage.CloseSpawnIsCorner).
- **The exit with no flags.** The exit opens only inside a flag pickup (game.js:487-488). A stage where no flag was placed therefore never opens its exit; `Valid()` records this as exitOpen == (totalFlags > 0 && collectedFlags == totalFlags).
- **Enemy move delay.** It is 0.4 - 0.02·stage seconds with no clamp (game.js:212). From stage 20 on it is zero or negative, and the enemies then move on every frame.
