/** The BangguchaGame object: the state of a stage, the step methods the animation loop calls
    once per frame, and the invariant every one of them keeps. */
module Game {
  import opened Board
  import opened Utility
  import opened Entities
  import opened Stage
  import Maze

  const START_LIVES: int := 3
  /** Points per flag, per enemy destroyed and per stage cleared, each multiplied by the stage. */
  const FLAG_SCORE: int := 100
  const ENEMY_SCORE: int := 200
  const CLEAR_BONUS: int := 500

  /** The player as initStage places it: on (1, 1), facing right, every timer expired. */
  const START_PLAYER: Player := Player(1, 1, Right, 0, PLAYER_MOVE_DELAY, 0, 0)

  /** One `grid[y][x] = 0` of initStage, on the junction (y, x) = (2r + 1, 2c + 1) of a generated
      maze. The junction is open already, so every cell keeps its value and the maze keeps all that
      was proved of it. */
  method ClearJunction(grid: array2<Tile>, y: int, x: int, ghost r: int, ghost c: int,
                       ghost paths: map<(int, int), seq<(int, int)>>)
    requires 0 <= r < grid.Length0 / 2 && 0 <= c < grid.Length1 / 2 && y == 2 * r + 1 && x == 2 * c + 1
    requires OnlyWallOrEmpty(grid) && BorderIsWall(grid) && JunctionsOpen(grid)
    requires Maze.Spanning(grid, paths) && Maze.CarvedWithin(grid)
    modifies grid
    ensures grid[y, x] == Empty
    ensures forall i, j :: 0 <= i < grid.Length0 && 0 <= j < grid.Length1 ==> grid[i, j] == old(grid[i, j])
    ensures OnlyWallOrEmpty(grid) && BorderIsWall(grid) && JunctionsOpen(grid)
    ensures Maze.Spanning(grid, paths) && Maze.CarvedWithin(grid)
  {
    ghost var links, holes :| Maze.CarvedBy(grid, links, holes) &&
      |links| < (grid.Length0 / 2) * (grid.Length1 / 2) &&
      |holes| <= Maze.PerforationAttempts(grid.Length1 / 2, grid.Length0 / 2);
    assert grid[2 * r + 1, 2 * c + 1] == Empty;
    grid[y, x] := Empty;
    forall a, i | a in paths && 0 <= i < |paths[a]| - 1 ensures Maze.Passage(grid, paths[a][i], paths[a][i + 1]) {
      assert old(Maze.Passage(grid, paths[a][i], paths[a][i + 1]));
    }
    assert Maze.CarvedBy(grid, links, holes);
  }

  /** The maze part of initStage: a generated maze with the start (1, 1) and the exit cell
      (COLS - 2, ROWS - 2) set Empty. Both are junctions, so the account of what the carve and the
      perforation opened still covers every Empty cell. */
  method StageMaze(rng: RandomSource) returns (grid: array2<Tile>)
    modifies rng
    ensures fresh(grid) && grid.Length0 == ROWS && grid.Length1 == COLS
    ensures OnlyWallOrEmpty(grid) && BorderIsWall(grid) && JunctionsOpen(grid)
    ensures grid[1, 1] == Empty && grid[ROWS - 2, COLS - 2] == Empty
    ensures Maze.Connected(grid) && Maze.CarvedWithin(grid)
    ensures rng.used == old(rng.used) + Maze.MazeDraws(COLS, ROWS)
  {
    ghost var paths, links, holes, carved, cursor;
    grid, paths, links, holes, carved, cursor := Maze.GenerateMaze(COLS, ROWS, rng);
    ClearJunction(grid, 1, 1, 0, 0, paths);
    assert ROWS - 2 == 2 * 8 + 1 && COLS - 2 == 2 * 11 + 1;
    ClearJunction(grid, ROWS - 2, COLS - 2, 8, 11, paths);
    Maze.SpanningIsConnected(grid, paths);
  }

  /** What the draws of initStage's flag loop and enemy loop place on a finished maze, the flag
      loop starting at draw k: the flags are the ones the first attempts draw pairs select, with
      no attempt after FlagCount flags are placed and every attempt spent when fewer were, and
      the enemies are the spawns of the draws that follow. */
  ghost predicate ItemsDrawn(grid: array2<Tile>, stage: int, draw: nat -> UnitInterval, k: nat, attempts: int,
                             flags: seq<FlagItem>, enemies: seq<Enemy>)
    reads grid
  {
    FlagsDrawn(grid, stage, draw, k, attempts, flags) &&
    enemies == Spawns(grid, stage, draw, k + 2 * attempts, EnemyCount(stage))
  }

  /** The flag half of ItemsDrawn: the flags of the first attempts draw pairs from k on. */
  ghost predicate FlagsDrawn(grid: array2<Tile>, stage: int, draw: nat -> UnitInterval, k: nat, attempts: int,
                             flags: seq<FlagItem>)
    reads grid
  {
    && 0 <= attempts <= FLAG_ATTEMPTS
    && flags == FlagsPlaced(grid, draw, k, attempts)
    && (forall n :: 0 <= n < attempts ==> |FlagsPlaced(grid, draw, k, n)| < FlagCount(stage))
    && (|flags| < FlagCount(stage) ==> attempts == FLAG_ATTEMPTS)
  }

  /** The flag loop and then the enemy loop of initStage on a finished maze. */
  method PlaceItems(grid: array2<Tile>, stage: int, rng: RandomSource)
    returns (flags: seq<FlagItem>, enemies: seq<Enemy>, ghost attempts: int)
    requires grid.Length0 == ROWS && grid.Length1 == COLS
    modifies rng
    ensures ItemsDrawn(grid, stage, rng.draw, old(rng.used), attempts, flags, enemies)
    ensures |flags| <= FlagCount(stage) || flags == []
    ensures forall f :: f in flags ==> FlagSpot(grid, f.x, f.y) && !f.collected
    ensures |enemies| <= EnemyCount(stage) || enemies == []
    ensures forall e :: e in enemies ==> Spawned(grid, e, stage)
  {
    ghost var k, draw := rng.used, rng.draw;
    flags, attempts := PlaceFlags(grid, stage, rng);
    ghost var j := k + 2 * attempts;
    assert rng.used == j;
    assert FlagsDrawn(grid, stage, draw, k, attempts, flags);
    enemies := PlaceEnemies(grid, stage, rng);
    assert enemies == Spawns(grid, stage, draw, j, EnemyCount(stage));
    assert FlagsDrawn(grid, stage, draw, k, attempts, flags);
    BothDrawn(grid, stage, draw, k, attempts, flags, j, enemies);
  }

  lemma BothDrawn(grid: array2<Tile>, stage: int, draw: nat -> UnitInterval, k: nat, attempts: int,
                  flags: seq<FlagItem>, j: nat, enemies: seq<Enemy>)
    requires FlagsDrawn(grid, stage, draw, k, attempts, flags)
    requires j == k + 2 * attempts && enemies == Spawns(grid, stage, draw, j, EnemyCount(stage))
    ensures ItemsDrawn(grid, stage, draw, k, attempts, flags, enemies)
  { }

  /** The stage initStage builds, before it is installed: the maze of StageMaze and the flags
      and enemies PlaceItems draws on it, from draw cursor on. */
  method BuildStage(stage: int, rng: RandomSource)
    returns (grid: array2<Tile>, flags: seq<FlagItem>, enemies: seq<Enemy>, ghost cursor: int, ghost attempts: int)
    requires stage >= 1
    modifies rng
    ensures fresh(grid) && grid.Length0 == ROWS && grid.Length1 == COLS
    ensures OnlyWallOrEmpty(grid) && BorderIsWall(grid) && JunctionsOpen(grid)
    ensures grid[1, 1] == Empty && grid[ROWS - 2, COLS - 2] == Empty
    ensures Maze.Connected(grid) && Maze.CarvedWithin(grid)
    ensures cursor == old(rng.used) + Maze.MazeDraws(COLS, ROWS)
    ensures ItemsDrawn(grid, stage, rng.draw, cursor, attempts, flags, enemies)
    ensures |flags| <= FlagCount(stage) && |enemies| <= EnemyCount(stage)
    ensures forall f :: f in flags ==> FlagSpot(grid, f.x, f.y) && !f.collected
    ensures forall e :: e in enemies ==> Spawned(grid, e, stage)
  {
    // the draws are taken in the source's order: maze, flags, enemies
    grid := StageMaze(rng);
    cursor := rng.used;
    flags, enemies, attempts := PlaceItems(grid, stage, rng);
  }

  /** updatePlayer's rule, for the player p before the call and q after it, the bullets bs0
      before and bs after: both timers run down by dt; once the move timer has expired, a held
      direction turns the player and moves it one cell if that cell is open, restarting the move
      timer; fire with the cooldown expired adds one bullet from the player's new cell and
      restarts the cooldown. */
  predicate PlayerTurn(grid: array2<Tile>, p: Player, input: Input, dt: int, q: Player, bs0: seq<Bullet>, bs: seq<Bullet>)
    reads grid
  {
    var fires := input.fire && p.shootCooldown - dt <= 0;
    && Steered(grid, p, input, dt, q)
    && q.shootCooldown == (if fires then SHOOT_COOLDOWN else p.shootCooldown - dt)
    && bs == (if fires then bs0 + [ShotFrom(q)] else bs0)
  }

  /** The movement half of updatePlayer's rule: every field of the player but the shot cooldown. */
  predicate Steered(grid: array2<Tile>, p: Player, input: Input, dt: int, q: Player)
    reads grid
  {
    var d := HeldDir(input);
    var due := p.moveTimer - dt <= 0;
    var moves := due && d.Some? && Open(grid, p.x + DX(d.value), p.y + DY(d.value));
    && q.x == (if moves then p.x + DX(d.value) else p.x)
    && q.y == (if moves then p.y + DY(d.value) else p.y)
    && q.dir == (if due && d.Some? then d.value else p.dir)
    && q.moveTimer == (if moves then p.moveDelay else p.moveTimer - dt)
    && q.moveDelay == p.moveDelay && q.invincible == p.invincible
  }

  /** updateEnemies' rule: the same enemies in the same order, each moved at most one cell and
      keeping its pace. */
  predicate EnemiesStepped(before: seq<Enemy>, after: seq<Enemy>)
  {
    |after| == |before| &&
    forall i :: 0 <= i < |after| ==>
      WithinOneStep(before[i].x, before[i].y, after[i].x, after[i].y) && after[i].moveDelay == before[i].moveDelay
  }

  /** The points for n scoring events of the given kind on the given stage. */
  function Reward(points: int, stage: int, n: int): (r: int)
    ensures points >= 0 && stage >= 0 && n >= 0 ==> r >= 0
    ensures n == 0 ==> r == 0
  {
    points * stage * n
  }

  function Min(a: int, b: int): int
  {
    if a < b then a else b
  }

  /** The fields of the game that one update is judged against, as they stood before it. */
  datatype StepMark = StepMark(stage: int, score: int, lives: int, running: bool, player: Player,
                               flags: seq<FlagItem>, totalFlags: int, collectedFlags: int, exitOpen: bool,
                               enemyCount: nat, exitPos: Pos)

  class BangguchaGame {
    var stage: int
    var score: int
    var lives: int
    var running: bool
    /** Timestamp of the previous frame, in milliseconds. */
    var lastTime: int
    var grid: array2<Tile>
    var player: Player
    var flags: seq<FlagItem>
    var enemies: seq<Enemy>
    var bullets: seq<Bullet>
    var exitPos: Pos
    var exitOpen: bool
    var totalFlags: int
    var collectedFlags: int

    /** The maze of the stage: a generated ROWS x COLS maze with the start and the exit cleared. */
    ghost predicate MazeOk()
      reads this`grid, grid
    {
      grid.Length0 == ROWS && grid.Length1 == COLS &&
      OnlyWallOrEmpty(grid) && BorderIsWall(grid) && JunctionsOpen(grid) &&
      grid[1, 1] == Empty && grid[ROWS - 2, COLS - 2] == Empty
    }

    /** The player stands on an open cell and moves at the fixed player pace. */
    ghost predicate PlayerOk()
      reads this`grid, grid, this`player
    {
      player.moveDelay == PLAYER_MOVE_DELAY && Open(grid, player.x, player.y)
    }

    /** Every enemy stands on an open cell and moves at its stage's pace. */
    ghost predicate EnemiesOk()
      reads this`grid, grid, this`enemies, this`stage
    {
      forall e :: e in enemies ==> Open(grid, e.x, e.y) && e.moveDelay == EnemyMoveDelay(stage)
    }

    /** Every bullet in flight is in an open cell and has life left. */
    ghost predicate BulletsOk()
      reads this`grid, grid, this`bullets
    {
      forall b :: b in bullets ==> InOpenCell(grid, b) && b.life > 0
    }

    /** The flag counters agree with the flags, and the exit is open exactly when every flag of
        a stage that has flags has been collected. */
    ghost predicate FlagsOk()
      reads this`grid, grid, this`flags, this`totalFlags, this`collectedFlags, this`exitOpen
    {
      (forall f :: f in flags ==> FlagSpot(grid, f.x, f.y)) &&
      totalFlags == |flags| && collectedFlags == CountCollected(flags) &&
      exitOpen == (totalFlags > 0 && collectedFlags == totalFlags)
    }

    /** The stage is positive, the score is not negative, a running game has lives left, and the
        exit is the bottom-right interior cell. */
    ghost predicate ProgressOk()
      reads this`stage, this`score, this`lives, this`running, this`exitPos
    {
      stage >= 1 && score >= 0 && (running ==> lives > 0) && exitPos == Pos(COLS - 2, ROWS - 2)
    }

    ghost predicate Valid()
      reads this, grid
    {
      MazeOk() && PlayerOk() && EnemiesOk() && BulletsOk() && FlagsOk() && ProgressOk()
    }

    /** The fields one update is judged against, as they stand now. */
    ghost function Mark(): StepMark
      reads this`stage, this`score, this`lives, this`running, this`player, this`flags,
        this`totalFlags, this`collectedFlags, this`exitOpen, this`enemies, this`exitPos
    {
      StepMark(stage, score, lives, running, player, flags, totalFlags, collectedFlags, exitOpen, |enemies|, exitPos)
    }

    /** What one call of update(dt) promises, comparing the state after it with the state m before. */
    ghost predicate SteppedFrom(m: StepMark, dt: int)
      reads this`stage, this`score, this`lives, this`running, this`player, this`flags,
        this`totalFlags, this`collectedFlags, this`exitOpen, this`enemies, this`exitPos
    {
      stage == m.stage && totalFlags == m.totalFlags && exitPos == m.exitPos &&
      // the score never goes down
      m.score <= score &&
      // flags stay where they are and stay collected; the exit, once open, stays open
      |flags| == |m.flags| &&
      (forall i :: 0 <= i < |flags| ==>
        flags[i].x == m.flags[i].x && flags[i].y == m.flags[i].y &&
        (m.flags[i].collected ==> flags[i].collected)) &&
      m.collectedFlags <= collectedFlags && (m.exitOpen ==> exitOpen) &&
      // enemies are only ever destroyed
      |enemies| <= m.enemyCount &&
      // a stopped game stays stopped
      (running ==> m.running) &&
      // at most one life is lost, and only while not invincible
      (lives == m.lives || (lives == m.lives - 1 && m.player.invincible <= 0)) &&
      (m.player.invincible > 0 ==> lives == m.lives && player.invincible == m.player.invincible - dt) &&
      (lives < m.lives && lives > 0 ==> player.x == 1 && player.y == 1 && player.invincible == INVINCIBLE_TIME - dt) &&
      (lives < m.lives && lives <= 0 ==> !running) &&
      // the game stops without a lost life only on the open exit, with the stage bonus paid
      (m.running && !running && lives == m.lives ==>
        exitOpen && player.x == exitPos.x && player.y == exitPos.y && score >= m.score + Reward(CLEAR_BONUS, stage, 1))
    }

    /** What one call of update(dt) promises, comparing the state after it with the state before. */
    twostate predicate Stepped(dt: int)
      reads this`stage, this`score, this`lives, this`running, this`player, this`flags,
        this`totalFlags, this`collectedFlags, this`exitOpen, this`enemies, this`exitPos
    {
      SteppedFrom(old(Mark()), dt)
    }

    /** A settling step after a move that changed none of the counters, kept the invincibility,
        did not lower the score and only destroyed enemies, is a step from before the move. */
    lemma SteppedAfterMove(m0: StepMark, m1: StepMark, dt: int)
      requires SteppedFrom(m1, dt)
      requires m1.stage == m0.stage && m1.totalFlags == m0.totalFlags && m1.exitPos == m0.exitPos
      requires m1.flags == m0.flags && m1.collectedFlags == m0.collectedFlags && m1.exitOpen == m0.exitOpen
      requires m1.lives == m0.lives && m1.running == m0.running && m1.player.invincible == m0.player.invincible
      requires m0.score <= m1.score && m1.enemyCount <= m0.enemyCount
      ensures SteppedFrom(m0, dt)
    {
    }

    /** The counters the constructor sets; the maze and the entities come with the first stage. */
    constructor ()
      ensures stage == 1 && score == 0 && lives == START_LIVES && !running && lastTime == 0
    {
      stage, score, lives, running, lastTime := 1, 0, START_LIVES, false, 0;
      grid := new Tile[0, 0];
      player := START_PLAYER;
      flags, enemies, bullets := [], [], [];
      exitPos, exitOpen, totalFlags, collectedFlags := Pos(COLS - 2, ROWS - 2), false, 0, 0;
    }

    /** initStage: a fresh maze with the start and the exit cleared, the player on the start, no
        bullets, the flags and enemies of the stage placed with the draws of rng that follow the
        maze's. */
    method InitStage(rng: RandomSource) returns (ghost cursor: int, ghost attempts: int)
      requires stage >= 1 && score >= 0 && (running ==> lives > 0)
      modifies this, rng
      ensures Valid() && fresh(grid) && Maze.Connected(grid) && Maze.CarvedWithin(grid)
      ensures stage == old(stage) && score == old(score) && lives == old(lives)
      ensures running == old(running) && lastTime == old(lastTime)
      ensures player == START_PLAYER && bullets == [] && !exitOpen && collectedFlags == 0
      ensures cursor == old(rng.used) + Maze.MazeDraws(COLS, ROWS)
      ensures ItemsDrawn(grid, stage, rng.draw, cursor, attempts, flags, enemies)
      ensures totalFlags == |flags| <= FlagCount(stage)
      ensures forall f :: f in flags ==> !f.collected
      ensures |enemies| <= EnemyCount(stage)
      ensures forall e :: e in enemies ==> Spawned(grid, e, stage)
    {
      var g, placed, spawned;
      g, placed, spawned, cursor, attempts := BuildStage(stage, rng);
      Install(g, placed, spawned);
    }

    /** The assignments of initStage: the new maze, flags and enemies, the player on the start,
        no bullets, the exit closed and nothing collected. */
    method Install(g: array2<Tile>, placed: seq<FlagItem>, spawned: seq<Enemy>)
      requires g.Length0 == ROWS && g.Length1 == COLS
      requires OnlyWallOrEmpty(g) && BorderIsWall(g) && JunctionsOpen(g)
      requires g[1, 1] == Empty && g[ROWS - 2, COLS - 2] == Empty
      requires forall f :: f in placed ==> FlagSpot(g, f.x, f.y) && !f.collected
      requires forall e :: e in spawned ==> Spawned(g, e, stage)
      requires stage >= 1 && score >= 0 && (running ==> lives > 0)
      modifies this`grid, this`player, this`bullets, this`exitPos, this`exitOpen, this`flags,
        this`totalFlags, this`collectedFlags, this`enemies
      ensures Valid()
      ensures grid == g && flags == placed && enemies == spawned
      ensures player == START_PLAYER && bullets == [] && !exitOpen && collectedFlags == 0 && totalFlags == |flags|
    {
      NoneCollected(placed);
      grid, player, bullets := g, START_PLAYER, [];
      exitPos, exitOpen := Pos(COLS - 2, ROWS - 2), false;
      flags, totalFlags, collectedFlags := placed, |placed|, 0;
      enemies := spawned;
    }

    /** The last two assignments of start and nextStage: the game runs from time now. */
    method Resume(now: int)
      requires Valid() && lives > 0
      modifies this`running, this`lastTime
      ensures Valid() && running && lastTime == now
    {
      running := true;
      lastTime := now;
    }

    /** start: stage 1, score 0, three lives, a new stage, and the game running from time now. */
    method Start(now: int, rng: RandomSource)
      modifies this, rng
      ensures Valid() && fresh(grid) && Maze.Connected(grid) && Maze.CarvedWithin(grid)
      ensures stage == 1 && score == 0 && lives == START_LIVES && running && lastTime == now
      ensures player == START_PLAYER && bullets == [] && collectedFlags == 0 && !exitOpen
    {
      stage, score, lives := 1, 0, START_LIVES;
      ghost var cursor, attempts := InitStage(rng);
      Resume(now);
    }

    /** nextStage: the stage number goes up by one, score and lives carry over, and a new stage
        starts running from time now. It is offered only on the stage-clear screen, which a
        running game reaches with lives left. */
    method NextStage(now: int, rng: RandomSource)
      requires stage >= 1 && score >= 0 && lives > 0
      modifies this, rng
      ensures Valid() && fresh(grid) && Maze.Connected(grid) && Maze.CarvedWithin(grid)
      ensures stage == old(stage) + 1 && score == old(score) && lives == old(lives)
      ensures running && lastTime == now
      ensures player == START_PLAYER && bullets == [] && collectedFlags == 0 && !exitOpen
    {
      stage := stage + 1;
      ghost var cursor, attempts := InitStage(rng);
      Resume(now);
    }

    /** loop: a stopped game ignores the frame; a running one advances by the time since the
        previous frame, capped at MAX_DT, as Update describes. */
    method Frame(timestamp: int, input: Input, rng: RandomSource) returns (ghost moved: Player, ghost shot: seq<Bullet>)
      requires Valid()
      modifies this`player, this`bullets, this`enemies, this`score, this`flags, this`collectedFlags,
        this`exitOpen, this`lives, this`running, this`lastTime, rng
      ensures Valid()
      ensures !old(running) ==> unchanged(this) && unchanged(rng)
      ensures old(running) ==> var dt := Min(timestamp - old(lastTime), MAX_DT);
        lastTime == timestamp && Stepped(dt) &&
        PlayerTurn(grid, old(player), input, dt, moved, old(bullets), shot) &&
        var v := BulletsAfter(grid, shot, old(enemies), dt);
        bullets == v.bullets && EnemiesStepped(v.enemies, enemies) &&
        Settled(moved, old(flags), old(score) + Reward(ENEMY_SCORE, stage, v.kills), old(collectedFlags),
          old(exitOpen), old(lives), old(running), dt)
    {
      moved, shot := player, bullets;
      if !running {
        return;
      }
      var dt := Min(timestamp - lastTime, MAX_DT);
      lastTime := timestamp;
      moved, shot := Update(dt, input, rng);
    }

    /** update: the movement part, then the collisions and the invincibility countdown. moved is
        the player after its turn and shot the bullets after it; the bullets fly against the
        enemies as they stood before the call, and the surviving enemies take one step each. */
    method Update(dt: int, input: Input, rng: RandomSource) returns (ghost moved: Player, ghost shot: seq<Bullet>)
      requires Valid()
      modifies this`player, this`bullets, this`enemies, this`score, this`flags, this`collectedFlags,
        this`exitOpen, this`lives, this`running, rng
      ensures Valid() && Stepped(dt)
      ensures PlayerTurn(grid, old(player), input, dt, moved, old(bullets), shot)
      ensures var v := BulletsAfter(grid, shot, old(enemies), dt);
        bullets == v.bullets && EnemiesStepped(v.enemies, enemies) &&
        Settled(moved, old(flags), old(score) + Reward(ENEMY_SCORE, stage, v.kills), old(collectedFlags),
          old(exitOpen), old(lives), old(running), dt)
    {
      ghost var m0 := Mark();
      shot := Move(dt, input, rng);
      moved := player;
      FinishUpdate(dt, input, m0, old(bullets), old(enemies), shot);
    }

    /** The rest of update once the player, the bullets and the enemies have moved: Settle, judged
        against the state the update started from (m0, with its bullets bs0 and enemies es0), given
        what the moves did to it, which is Move's contract. */
    method FinishUpdate(dt: int, ghost input: Input, ghost m0: StepMark, ghost bs0: seq<Bullet>, ghost es0: seq<Enemy>,
                        ghost shot: seq<Bullet>)
      requires Valid() && |es0| == m0.enemyCount
      requires stage == m0.stage && totalFlags == m0.totalFlags && exitPos == m0.exitPos
      requires flags == m0.flags && collectedFlags == m0.collectedFlags && exitOpen == m0.exitOpen
      requires lives == m0.lives && running == m0.running
      requires PlayerTurn(grid, m0.player, input, dt, player, bs0, shot)
      requires var v := BulletsAfter(grid, shot, es0, dt);
        bullets == v.bullets && score == m0.score + Reward(ENEMY_SCORE, stage, v.kills) &&
        EnemiesStepped(v.enemies, enemies)
      modifies this`flags, this`collectedFlags, this`score, this`exitOpen, this`running, this`lives, this`player
      ensures Valid() && SteppedFrom(m0, dt)
      ensures PlayerTurn(grid, m0.player, input, dt, old(player), bs0, shot)
      ensures var v := BulletsAfter(grid, shot, es0, dt);
        bullets == v.bullets && EnemiesStepped(v.enemies, enemies) &&
        Settled(old(player), m0.flags, m0.score + Reward(ENEMY_SCORE, stage, v.kills), m0.collectedFlags,
          m0.exitOpen, m0.lives, m0.running, dt)
    {
      ghost var v := BulletsAfter(grid, shot, es0, dt);
      ghost var bs, es, sc, m1 := bullets, enemies, score, Mark();
      Settle(dt);
      SteppedAfterMove(m0, m1, dt);
      assert bullets == bs && enemies == es;
    }

    /** The state after the collision step and the invincibility countdown of update, for a
        player p who stood on its cell with the flags fs, the score score0, the counters and the
        lives and running flag before them: the flags on p's cell are collected; on the open exit
        the stage is cleared and the game stops; otherwise a player who is not invincible and
        meets an enemy loses a life, and goes back to the start, invincible, if any are left;
        finally a positive invincibility timer runs down by dt. */
    ghost predicate Settled(p: Player, fs: seq<FlagItem>, score0: int, collected0: int, exitOpen0: bool,
                            lives0: int, running0: bool, dt: int)
      reads this`stage, this`score, this`lives, this`running, this`player, this`flags,
        this`totalFlags, this`collectedFlags, this`exitOpen, this`enemies, this`exitPos
    {
      var k := CountPickable(fs, p.x, p.y);
      var atExit := exitOpen && p.x == exitPos.x && p.y == exitPos.y;
      var hit := !atExit && p.invincible <= 0 && EnemyAt(enemies, p.x, p.y);
      var placed := if hit && lives > 0 then p.(x := 1, y := 1, invincible := INVINCIBLE_TIME) else p;
      && flags == Collect(fs, p.x, p.y)
      && collectedFlags == collected0 + k
      && exitOpen == (exitOpen0 || (k > 0 && collectedFlags >= totalFlags))
      && score == score0 + Reward(FLAG_SCORE, stage, k) + (if atExit then Reward(CLEAR_BONUS, stage, 1) else 0)
      && lives == (if hit then lives0 - 1 else lives0)
      && running == (running0 && !atExit && !(hit && lives <= 0))
      && player == (if placed.invincible > 0 then placed.(invincible := placed.invincible - dt) else placed)
    }

    /** The last two steps of update: checkCollisions, then the invincibility countdown. */
    method Settle(dt: int)
      requires Valid()
      modifies this`flags, this`collectedFlags, this`score, this`exitOpen, this`running, this`lives, this`player
      ensures Valid()
      ensures Stepped(dt)
      ensures Settled(old(player), old(flags), old(score), old(collectedFlags), old(exitOpen), old(lives), old(running), dt)
    {
      ghost var fs, px, py := flags, player.x, player.y;
      CheckCollisions();
      CollectIsMonotone(fs, px, py);
      CountDownInvincibility(dt);
    }

    /** The last step of update: a positive invincibility timer runs down by dt. */
    method CountDownInvincibility(dt: int)
      requires Valid()
      modifies this`player
      ensures Valid()
      ensures player == if old(player).invincible > 0 then old(player).(invincible := old(player).invincible - dt) else old(player)
    {
      if player.invincible > 0 {
        player := player.(invincible := player.invincible - dt);
      }
    }

    /** The movement part of update: the player, then the bullets, then the enemies. The bullets,
        the player's shot included, fly against the enemies as they stood before they move; shot
        is the bullet list after the player's turn. */
    method Move(dt: int, input: Input, rng: RandomSource) returns (ghost shot: seq<Bullet>)
      requires Valid()
      modifies this`player, this`bullets, this`enemies, this`score, rng
      ensures Valid()
      ensures PlayerTurn(grid, old(player), input, dt, player, old(bullets), shot)
      ensures var v := BulletsAfter(grid, shot, old(enemies), dt);
        bullets == v.bullets && score == old(score) + Reward(ENEMY_SCORE, stage, v.kills) &&
        EnemiesStepped(v.enemies, enemies)
    {
      UpdatePlayer(dt, input);
      shot := bullets;
      UpdateBullets(dt);
      UpdateEnemies(dt, rng);
    }

    /** updatePlayer: the player steers, then fire with the cooldown expired shoots and restarts
        the cooldown. */
    method UpdatePlayer(dt: int, input: Input)
      requires Valid()
      modifies this`player, this`bullets
      ensures Valid()
      ensures PlayerTurn(grid, old(player), input, dt, player, old(bullets), bullets)
    {
      Steer(dt, input);
      if input.fire && player.shootCooldown <= 0 {
        Shoot();
        player := player.(shootCooldown := SHOOT_COOLDOWN);
      }
    }

    /** The movement half of updatePlayer: both timers run down by dt; once the move timer has
        expired, a held direction turns the player and moves it one cell if that cell is open,
        restarting the move timer. */
    method Steer(dt: int, input: Input)
      requires Valid()
      modifies this`player
      ensures Valid()
      ensures Steered(grid, old(player), input, dt, player) && player.shootCooldown == old(player).shootCooldown - dt
    {
      var p := player.(moveTimer := player.moveTimer - dt, shootCooldown := player.shootCooldown - dt);
      if p.moveTimer <= 0 {
        var d := HeldDir(input);
        if d.Some? {
          p := p.(dir := d.value);
          var nx, ny := p.x + DX(d.value), p.y + DY(d.value);
          if Open(grid, nx, ny) {
            p := p.(x := nx, y := ny, moveTimer := p.moveDelay);
          }
        }
      }
      player := p;
    }

    /** shoot: one new bullet from the centre of the player's cell in the player's direction. */
    method Shoot()
      requires Valid()
      modifies this`bullets
      ensures Valid()
      ensures bullets == old(bullets) + [ShotFrom(player)]
    {
      bullets := bullets + [ShotFrom(player)];
    }

    /** updateBullets: one pass over the bullets in order, as BulletsAfter describes, paying
        ENEMY_SCORE times the stage for every enemy destroyed. */
    method UpdateBullets(dt: int)
      requires Valid()
      modifies this`bullets, this`enemies, this`score
      ensures Valid()
      ensures var v := old(BulletsAfter(grid, bullets, enemies, dt));
        bullets == v.bullets && enemies == v.enemies && score == old(score) + Reward(ENEMY_SCORE, stage, v.kills)
    {
      var kept, es, kills := PassBullets(grid, bullets, enemies, dt);
      // each destroyed enemy pays ENEMY_SCORE times the stage
      bullets, enemies, score := kept, es, score + Reward(ENEMY_SCORE, stage, kills);
      assert forall e :: e in enemies ==> e in old(enemies);
    }

    /** updateEnemies: every enemy, in index order, takes its StepEnemy turn. */
    method UpdateEnemies(dt: int, rng: RandomSource)
      requires Valid()
      modifies this`enemies, rng
      ensures Valid()
      ensures EnemiesStepped(old(enemies), enemies)
    {
      var i := 0;
      while i < |enemies|
        invariant 0 <= i <= |enemies| == |old(enemies)|
        invariant EnemiesOk()
        invariant forall j :: 0 <= j < i ==>
          WithinOneStep(old(enemies)[j].x, old(enemies)[j].y, enemies[j].x, enemies[j].y) &&
          enemies[j].moveDelay == old(enemies)[j].moveDelay
        invariant forall j :: i <= j < |enemies| ==> enemies[j] == old(enemies)[j]
      {
        var e := StepEnemy(grid, enemies[i], dt, rng);
        enemies := enemies[i := e];
        i := i + 1;
      }
    }

    /** The flag loop of checkCollisions: every uncollected flag on the player's cell is collected,
        each adding one to the count and FLAG_SCORE times the stage to the score, and the exit
        opens once the count reaches the total. */
    method CollectFlags()
      requires FlagsOk() && ProgressOk()
      modifies this`flags, this`collectedFlags, this`score, this`exitOpen
      ensures FlagsOk() && ProgressOk()
      ensures var k := CountPickable(old(flags), player.x, player.y);
        flags == Collect(old(flags), player.x, player.y) &&
        collectedFlags == old(collectedFlags) + k &&
        score == old(score) + Reward(FLAG_SCORE, stage, k) &&
        exitOpen == (old(exitOpen) || (k > 0 && collectedFlags >= totalFlags))
    {
      var px, py := player.x, player.y;
      var fs := flags;
      var k;
      flags, collectedFlags, exitOpen, k := PickUpFlags(fs, px, py, collectedFlags, totalFlags, exitOpen);
      // each collected flag pays FLAG_SCORE times the stage
      score := score + Reward(FLAG_SCORE, stage, k);
      CollectIsMonotone(fs, px, py);
      CollectCounts(fs, px, py);
      CollectedPlusPickableBound(fs, px, py);
    }

    /** checkCollisions: collect flags; on the open exit clear the stage and stop; otherwise,
        unless invincible, lose a life when an enemy shares the player's cell. */
    method CheckCollisions()
      requires Valid()
      modifies this`flags, this`collectedFlags, this`score, this`exitOpen, this`running, this`lives, this`player
      ensures Valid()
      ensures var p := old(player);
        var k := CountPickable(old(flags), p.x, p.y);
        var atExit := exitOpen && p.x == exitPos.x && p.y == exitPos.y;
        var hit := !atExit && p.invincible <= 0 && EnemyAt(enemies, p.x, p.y);
        flags == Collect(old(flags), p.x, p.y) &&
        collectedFlags == old(collectedFlags) + k &&
        exitOpen == (old(exitOpen) || (k > 0 && collectedFlags >= totalFlags)) &&
        (atExit ==>
          score == old(score) + Reward(FLAG_SCORE, stage, k) + Reward(CLEAR_BONUS, stage, 1) &&
          !running && lives == old(lives) && player == p) &&
        (!atExit ==> score == old(score) + Reward(FLAG_SCORE, stage, k)) &&
        (hit ==>
          lives == old(lives) - 1 &&
          (lives <= 0 ==> !running && player == p) &&
          (lives > 0 ==> running == old(running) && player == p.(x := 1, y := 1, invincible := INVINCIBLE_TIME))) &&
        (!atExit && !hit ==> lives == old(lives) && running == old(running) && player == p)
    {
      CollectFlags();
      if exitOpen && player.x == exitPos.x && player.y == exitPos.y {
        StageClear();
        return;
      }
      if player.invincible <= 0 {
        var hit := TouchingEnemy(enemies, player.x, player.y);
        if hit {
          PlayerHit();
        }
      }
    }

    /** playerHit: one life less; with none left the game is over, otherwise the player goes back
        to the start, invincible for INVINCIBLE_TIME. */
    method PlayerHit()
      requires Valid()
      modifies this`lives, this`running, this`player
      ensures Valid()
      ensures lives == old(lives) - 1
      ensures lives <= 0 ==> !running && player == old(player)
      ensures lives > 0 ==> running == old(running) && player == old(player).(x := 1, y := 1, invincible := INVINCIBLE_TIME)
    {
      lives := lives - 1;
      if lives <= 0 {
        GameOver();
      } else {
        player := player.(x := 1, y := 1, invincible := INVINCIBLE_TIME);
      }
    }

    /** stageClear: the game stops and the stage bonus is paid. */
    method StageClear()
      requires Valid()
      modifies this`running, this`score
      ensures Valid()
      ensures !running && score == old(score) + Reward(CLEAR_BONUS, stage, 1)
    {
      running := false;
      score := score + Reward(CLEAR_BONUS, stage, 1);
    }

    /** gameOver: the game stops. */
    method GameOver()
      modifies this`running
      ensures !running
    {
      running := false;
    }
  }

  /** Freshly placed flags are all uncollected, so none count as collected. */
  lemma {:induction false} NoneCollected(fs: seq<FlagItem>)
    requires forall f :: f in fs ==> !f.collected
    ensures CountCollected(fs) == 0
  {
    if |fs| > 0 {
      assert forall f :: f in fs[..|fs| - 1] ==> f in fs;
      NoneCollected(fs[..|fs| - 1]);
    }
  }
}
