/** The per-entity steps of the game: the rejection sampling of flag and enemy cells in
    initStage, the random walk of one enemy in updateEnemies, one bullet's frame in updateBullets
    and the enemy scans of updateBullets and checkCollisions. */
module Stage {
  import opened Board
  import opened Utility
  import opened Entities

  /** Attempts allowed for placing all flags of a stage. */
  const FLAG_ATTEMPTS: int := 1000
  /** Attempts allowed for placing one enemy. */
  const ENEMY_ATTEMPTS: int := 500

  /** A cell a flag may be placed on: Empty, and neither the start (1, 1) nor the exit. */
  predicate FlagSpot(grid: array2<Tile>, x: int, y: int)
    reads grid
  {
    InBounds(grid, x, y) && grid[y, x] == Empty && !(x == 1 && y == 1) && !(x == COLS - 2 && y == ROWS - 2)
  }

  /** Manhattan distance from the player start (1, 1). */
  function DistanceFromStart(x: int, y: int): nat
  {
    (if x >= 1 then x - 1 else 1 - x) + (if y >= 1 then y - 1 else 1 - y)
  }

  /** A freshly spawned enemy of the given stage. */
  ghost predicate Spawned(grid: array2<Tile>, e: Enemy, stage: int)
    reads grid
  {
    3 <= e.x <= COLS - 3 && 3 <= e.y <= ROWS - 3 && InBounds(grid, e.x, e.y) && grid[e.y, e.x] == Empty &&
    e.moveTimer == 0 && e.moveDelay == EnemyMoveDelay(stage) && 2000 <= e.changeTimer <= 5000
  }

  /** The cell that the flag attempt drawing draw(k) and draw(k + 1) samples. */
  function FlagSample(draw: nat -> UnitInterval, k: nat): (p: Pos)
    ensures 1 <= p.x <= COLS - 2 && 1 <= p.y <= ROWS - 2
  {
    Pos(RandInt(1, COLS - 2, draw(k)), RandInt(1, ROWS - 2, draw(k + 1)))
  }

  /** The flags that the first n attempts of the flag loop place when its draws start at draw(k):
      attempt a samples with draw(k + 2a) and draw(k + 2a + 1) and keeps its cell when that is a
      FlagSpot. */
  function FlagsPlaced(grid: array2<Tile>, draw: nat -> UnitInterval, k: nat, n: nat): (r: seq<FlagItem>)
    reads grid
    ensures |r| <= n
    ensures forall f :: f in r ==> FlagSpot(grid, f.x, f.y) && !f.collected
    decreases n
  {
    if n == 0 then []
    else
      var placed := FlagsPlaced(grid, draw, k, n - 1);
      var p := FlagSample(draw, k + 2 * (n - 1));
      if FlagSpot(grid, p.x, p.y) then placed + [FlagItem(p.x, p.y, false)] else placed
  }

  /** The flag loop of initStage: up to FLAG_ATTEMPTS random interior cells, keeping those that
      are FlagSpots, until the stage's flag count is reached. The flags are those the attempts'
      draws select, no attempt ran after the count was reached, and fewer flags are placed only
      when the budget ran out. */
  method PlaceFlags(grid: array2<Tile>, stage: int, rng: RandomSource) returns (flags: seq<FlagItem>, attempts: int)
    requires grid.Length0 == ROWS && grid.Length1 == COLS
    modifies rng
    ensures 0 <= attempts <= FLAG_ATTEMPTS
    ensures flags == FlagsPlaced(grid, rng.draw, old(rng.used), attempts)
    ensures rng.used == old(rng.used) + 2 * attempts
    ensures forall n :: 0 <= n < attempts ==> |FlagsPlaced(grid, rng.draw, old(rng.used), n)| < FlagCount(stage)
    ensures |flags| <= FlagCount(stage) || flags == []
    ensures |flags| < FlagCount(stage) ==> attempts == FLAG_ATTEMPTS
    ensures forall f :: f in flags ==> FlagSpot(grid, f.x, f.y) && !f.collected
  {
    ghost var k0, draw := rng.used, rng.draw;
    flags, attempts := [], 0;
    var placed := 0;
    while placed < FlagCount(stage) && attempts < FLAG_ATTEMPTS
      invariant placed == |flags| && 0 <= attempts <= FLAG_ATTEMPTS
      invariant placed <= FlagCount(stage) || placed == 0
      invariant flags == old(FlagsPlaced(grid, draw, k0, attempts))
      invariant rng.used == k0 + 2 * attempts
      invariant forall n :: 0 <= n < attempts ==> old(|FlagsPlaced(grid, draw, k0, n)|) < FlagCount(stage)
    {
      ghost var j := rng.used;
      var fx, fy := DrawCell(1, COLS - 2, 1, ROWS - 2, rng);
      assert Pos(fx, fy) == FlagSample(draw, j);
      if grid[fy, fx] == Empty && !(fx == 1 && fy == 1) && !(fx == COLS - 2 && fy == ROWS - 2) {
        flags := flags + [FlagItem(fx, fy, false)];
        placed := placed + 1;
      }
      attempts := attempts + 1;
    }
  }

  /** Two draws, a column in [x0, x1] then a row in [y0, y1]. */
  method DrawCell(x0: int, x1: int, y0: int, y1: int, rng: RandomSource) returns (x: int, y: int)
    modifies rng
    ensures x == RandInt(x0, x1, rng.draw(old(rng.used))) && y == RandInt(y0, y1, rng.draw(old(rng.used) + 1))
    ensures rng.used == old(rng.used) + 2
  {
    x := rng.Int(x0, x1);
    y := rng.Int(y0, y1);
  }

  /** The cell that the enemy sampling attempt drawing draw(k) and draw(k + 1) samples. */
  function EnemySample(draw: nat -> UnitInterval, k: nat): (p: Pos)
    ensures 3 <= p.x <= COLS - 3 && 3 <= p.y <= ROWS - 3
  {
    Pos(RandInt(3, COLS - 3, draw(k)), RandInt(3, ROWS - 3, draw(k + 1)))
  }

  /** A sample the enemy placement keeps: an Empty cell at least 5 steps from the start. */
  predicate Accepted(grid: array2<Tile>, p: Pos)
    reads grid
  {
    InBounds(grid, p.x, p.y) && grid[p.y, p.x] == Empty && DistanceFromStart(p.x, p.y) >= 5
  }

  /** The do-while sampling loop from its a-th attempt on, that attempt drawing draw(k) and
      draw(k + 1) and each later one the next two draws: the last cell sampled and the number of
      attempts made. SampleFromEnds and SampleFromRejects state what the result means. */
  function SampleFrom(grid: array2<Tile>, draw: nat -> UnitInterval, k: nat, a: nat): (r: (Pos, nat))
    reads grid
    requires 1 <= a <= ENEMY_ATTEMPTS
    ensures a <= r.1 <= ENEMY_ATTEMPTS
    decreases ENEMY_ATTEMPTS - a
  {
    var p := EnemySample(draw, k);
    if Accepted(grid, p) || a == ENEMY_ATTEMPTS then (p, a) else SampleFrom(grid, draw, k + 2, a + 1)
  }

  /** The loop ends on the sample of its last attempt, which is Accepted unless the budget ran out. */
  lemma {:induction false} SampleFromEnds(grid: array2<Tile>, draw: nat -> UnitInterval, k: nat, a: nat)
    requires 1 <= a <= ENEMY_ATTEMPTS
    ensures var r := SampleFrom(grid, draw, k, a);
      r.0 == EnemySample(draw, k + 2 * (r.1 - a)) && (r.1 < ENEMY_ATTEMPTS ==> Accepted(grid, r.0))
    decreases ENEMY_ATTEMPTS - a
  {
    var p := EnemySample(draw, k);
    if !(Accepted(grid, p) || a == ENEMY_ATTEMPTS) {
      SampleFromEnds(grid, draw, k + 2, a + 1);
      var r := SampleFrom(grid, draw, k + 2, a + 1);
      assert k + 2 + 2 * (r.1 - (a + 1)) == k + 2 * (r.1 - a);
    }
  }

  /** Every attempt before the last one sampled a cell that was not Accepted. */
  lemma {:induction false} SampleFromRejects(grid: array2<Tile>, draw: nat -> UnitInterval, k: nat, a: nat, b: nat)
    requires 1 <= a <= ENEMY_ATTEMPTS && a <= b < SampleFrom(grid, draw, k, a).1
    ensures !Accepted(grid, EnemySample(draw, k + 2 * (b - a)))
    decreases b - a
  {
    if b > a {
      SampleFromRejects(grid, draw, k + 2, a + 1, b);
      assert k + 2 + 2 * (b - (a + 1)) == k + 2 * (b - a);
    }
  }

  /** A rejected attempt short of the budget hands over to the next one. */
  lemma SampleStep(grid: array2<Tile>, draw: nat -> UnitInterval, k: nat, a: nat, k': nat, a': nat)
    requires 1 <= a < ENEMY_ATTEMPTS && !Accepted(grid, EnemySample(draw, k))
    requires k' == k + 2 && a' == a + 1
    ensures SampleFrom(grid, draw, k, a) == SampleFrom(grid, draw, k', a')
  {
  }

  /** An accepted attempt, or the last one, ends the sampling. */
  lemma SampleStop(grid: array2<Tile>, draw: nat -> UnitInterval, k: nat, a: nat)
    requires 1 <= a <= ENEMY_ATTEMPTS && (Accepted(grid, EnemySample(draw, k)) || a == ENEMY_ATTEMPTS)
    ensures SampleFrom(grid, draw, k, a) == (EnemySample(draw, k), a)
  {
  }

  /** The do-while loop of the enemy placement: sample cells of [3, COLS-3] x [3, ROWS-3] until one
      is Empty and at Manhattan distance at least 5 from the start, or ENEMY_ATTEMPTS samples were
      drawn. When the budget runs out the last sample is returned whatever it is. */
  method SampleEnemyCell(grid: array2<Tile>, rng: RandomSource) returns (ex: int, ey: int, attempts: int)
    requires grid.Length0 == ROWS && grid.Length1 == COLS
    modifies rng
    ensures (Pos(ex, ey), attempts) == old(SampleFrom(grid, rng.draw, rng.used, 1))
    ensures rng.used == old(rng.used) + 2 * attempts
    ensures 3 <= ex <= COLS - 3 && 3 <= ey <= ROWS - 3
    ensures 1 <= attempts <= ENEMY_ATTEMPTS
    ensures attempts < ENEMY_ATTEMPTS ==> grid[ey, ex] == Empty && DistanceFromStart(ex, ey) >= 5
  {
    ghost var k0, draw := rng.used, rng.draw;
    ex, ey := DrawCell(3, COLS - 3, 3, ROWS - 3, rng);
    assert Pos(ex, ey) == EnemySample(draw, k0);
    attempts := 1;
    ghost var j := k0;
    while (grid[ey, ex] != Empty || DistanceFromStart(ex, ey) < 5) && attempts < ENEMY_ATTEMPTS
      invariant 1 <= attempts <= ENEMY_ATTEMPTS
      invariant rng.used == j + 2 == k0 + 2 * attempts
      invariant Pos(ex, ey) == EnemySample(draw, j)
      invariant old(SampleFrom(grid, draw, j, attempts)) == old(SampleFrom(grid, draw, k0, 1))
    {
      assert !Accepted(grid, EnemySample(draw, j));
      ghost var j', a' := j + 2, attempts + 1;
      SampleStep(grid, draw, j, attempts, j', a');
      assert old(SampleFrom(grid, draw, j, attempts)) == SampleFrom(grid, draw, j, attempts);
      assert old(SampleFrom(grid, draw, j', a')) == SampleFrom(grid, draw, j', a');
      ex, ey := DrawCell(3, COLS - 3, 3, ROWS - 3, rng);
      assert Pos(ex, ey) == EnemySample(draw, j');
      attempts, j := attempts + 1, j';
    }
    SampleStop(grid, draw, j, attempts);
  }

  /** Inside the spawn rectangle the only cell closer than 5 to the start is (3, 3); the spawn
      test after the sampling loop checks only that the cell is Empty, so an enemy can appear there. */
  lemma CloseSpawnIsCorner(x: int, y: int)
    requires 3 <= x <= COLS - 3 && 3 <= y <= ROWS - 3 && DistanceFromStart(x, y) < 5
    ensures x == 3 && y == 3
  {
  }

  /** One try of the enemy loop with its draws starting at draw(k): the enemy it spawns, if any,
      and the number of draws it uses; EnemyTrySpawns states what it is. */
  function EnemyTry(grid: array2<Tile>, stage: int, draw: nat -> UnitInterval, k: nat): (r: (Option<Enemy>, nat))
    reads grid
    ensures r.0.Some? ==> r.1 >= 2 && r.0.value.moveTimer == 0 && r.0.value.moveDelay == EnemyMoveDelay(stage)
    ensures r.0.Some? ==> 2000 <= r.0.value.changeTimer <= 5000
  {
    var (p, a) := SampleFrom(grid, draw, k, 1);
    if InBounds(grid, p.x, p.y) && grid[p.y, p.x] == Empty then
      var seconds := RandInt(2, 5, draw(k + 2 * a + 1));
      (Some(Enemy(p.x, p.y, DirOf(RandInt(0, 3, draw(k + 2 * a))), 0, EnemyMoveDelay(stage), seconds * 1000)), 2 * a + 2)
    else
      (None, 2 * a)
  }

  /** A try spawns exactly when the cell its sampling loop ends on is Empty, there, facing the
      direction of the next draw, as a fresh enemy of the stage; it uses the two draws of each
      sampling attempt and two more when it spawns. */
  lemma EnemyTrySpawns(grid: array2<Tile>, stage: int, draw: nat -> UnitInterval, k: nat)
    ensures var (p, a) := SampleFrom(grid, draw, k, 1);
      var r := EnemyTry(grid, stage, draw, k);
      (r.0.Some? <==> InBounds(grid, p.x, p.y) && grid[p.y, p.x] == Empty) &&
      (r.0.Some? ==> r.0.value.x == p.x && r.0.value.y == p.y && r.0.value.dir == DirOf(RandInt(0, 3, draw(k + 2 * a)))) &&
      r.1 == 2 * a + (if r.0.Some? then 2 else 0) &&
      (r.0.Some? ==> Spawned(grid, r.0.value, stage))
  {
    SampleFromEnds(grid, draw, k, 1);
  }

  /** The enemies that n tries of the enemy loop spawn when their draws start at draw(k). */
  function Spawns(grid: array2<Tile>, stage: int, draw: nat -> UnitInterval, k: nat, n: int): (r: seq<Enemy>)
    reads grid
    ensures |r| <= if n > 0 then n else 0
    decreases n
  {
    if n <= 0 then []
    else
      var t := EnemyTry(grid, stage, draw, k);
      (if t.0.Some? then [t.0.value] else []) + Spawns(grid, stage, draw, k + t.1, n - 1)
  }

  /** Spawns with its first try t peeled off: the enemy t spawns, then the later tries' rest. */
  lemma SpawnsUnfold(grid: array2<Tile>, stage: int, draw: nat -> UnitInterval, k: nat, n: int,
                     t: (Option<Enemy>, nat), rest: seq<Enemy>)
    requires n > 0 && t == EnemyTry(grid, stage, draw, k) && rest == Spawns(grid, stage, draw, k + t.1, n - 1)
    ensures Spawns(grid, stage, draw, k, n) == (if t.0.Some? then [t.0.value] else []) + rest
  {
  }

  /** One more try of the enemy loop: the enemies so far, then the one the try t spawns, then
      the later tries' spawns rest, still make up all the enemies. */
  lemma SpawnsStep(grid: array2<Tile>, stage: int, draw: nat -> UnitInterval, k: nat, n: int,
                   done: seq<Enemy>, all: seq<Enemy>, t: (Option<Enemy>, nat), rest: seq<Enemy>)
    requires n > 0 && done + Spawns(grid, stage, draw, k, n) == all
    requires t == EnemyTry(grid, stage, draw, k) && rest == Spawns(grid, stage, draw, k + t.1, n - 1)
    ensures (if t.0.Some? then done + [t.0.value] else done) + rest == all
  {
    SpawnsUnfold(grid, stage, draw, k, n, t, rest);
    PushThenRest(done, t.0, rest, Spawns(grid, stage, draw, k, n), all);
  }

  /** The sequence arithmetic of one try: done, then what o holds, then rest. */
  lemma PushThenRest(done: seq<Enemy>, o: Option<Enemy>, rest: seq<Enemy>, todo: seq<Enemy>, all: seq<Enemy>)
    requires done + todo == all && todo == (if o.Some? then [o.value] else []) + rest
    ensures (if o.Some? then done + [o.value] else done) + rest == all
  {
    AppendAssociates(done, if o.Some? then [o.value] else [], rest);
  }

  /** n tries spawn at most n enemies, each a fresh enemy of the stage on an Empty cell. */
  lemma {:induction false} SpawnsAreSpawned(grid: array2<Tile>, stage: int, draw: nat -> UnitInterval, k: nat, n: int)
    ensures |Spawns(grid, stage, draw, k, n)| <= if n > 0 then n else 0
    ensures forall e :: e in Spawns(grid, stage, draw, k, n) ==> Spawned(grid, e, stage)
    decreases n
  {
    if n > 0 {
      EnemyTrySpawns(grid, stage, draw, k);
      SpawnsAreSpawned(grid, stage, draw, k + EnemyTry(grid, stage, draw, k).1, n - 1);
    }
  }

  /** The enemy loop of initStage: min(1 + stage, 8) tries, each spawning an enemy on the sampled
      cell if it is Empty, with a random direction and a change timer of 2..5 whole seconds. The
      enemies are the ones the tries' draws select. */
  method PlaceEnemies(grid: array2<Tile>, stage: int, rng: RandomSource) returns (enemies: seq<Enemy>)
    requires grid.Length0 == ROWS && grid.Length1 == COLS
    modifies rng
    ensures enemies == old(Spawns(grid, stage, rng.draw, rng.used, EnemyCount(stage)))
    ensures |enemies| <= EnemyCount(stage) || enemies == []
    ensures forall e :: e in enemies ==> Spawned(grid, e, stage)
  {
    ghost var n, j := EnemyCount(stage), rng.used;
    ghost var all := Spawns(grid, stage, rng.draw, j, n);
    SpawnsAreSpawned(grid, stage, rng.draw, j, n);
    enemies := [];
    var i := 0;
    while i < EnemyCount(stage)
      invariant rng.used == j
      invariant enemies + old(Spawns(grid, stage, rng.draw, j, n - i)) == all
    {
      assert old(Spawns(grid, stage, rng.draw, j, n - i)) == Spawns(grid, stage, rng.draw, j, n - i);
      label Try:
      ghost var j';
      enemies, j' := PlaceEnemy(grid, stage, rng, enemies, n - i, all);
      assert old(Spawns(grid, stage, rng.draw, j', n - (i + 1))) == old@Try(Spawns(grid, stage, rng.draw, j', n - (i + 1)));
      i, j := i + 1, j';
    }
  }

  /** One turn of the enemy loop with the push: the enemies so far and those the tries still to
      come spawn, their draws starting at the new cursor k', keep making up all the enemies. */
  method PlaceEnemy(grid: array2<Tile>, stage: int, rng: RandomSource, enemies: seq<Enemy>,
                    ghost m: int, ghost all: seq<Enemy>) returns (enemies': seq<Enemy>, ghost k': nat)
    requires grid.Length0 == ROWS && grid.Length1 == COLS
    requires m > 0 && enemies + Spawns(grid, stage, rng.draw, rng.used, m) == all
    modifies rng
    ensures rng.used == k'
    ensures enemies' + old(Spawns(grid, stage, rng.draw, k', m - 1)) == all
  {
    ghost var t := EnemyTry(grid, stage, rng.draw, rng.used);
    k' := rng.used + t.1;
    ghost var rest := Spawns(grid, stage, rng.draw, k', m - 1);
    SpawnsStep(grid, stage, rng.draw, rng.used, m, enemies, all, t, rest);
    var e := TryEnemy(grid, stage, rng);
    assert rng.used == k' && e == t.0;
    enemies' := enemies;
    if e.Some? {
      enemies' := enemies + [e.value];
    }
  }

  /** One turn of the enemy loop: sample a cell and, if it is Empty, spawn an enemy there with a
      random direction and change timer. */
  method TryEnemy(grid: array2<Tile>, stage: int, rng: RandomSource) returns (e: Option<Enemy>)
    requires grid.Length0 == ROWS && grid.Length1 == COLS
    modifies rng
    ensures e == old(EnemyTry(grid, stage, rng.draw, rng.used)).0
    ensures rng.used == old(rng.used) + old(EnemyTry(grid, stage, rng.draw, rng.used)).1
  {
    var ex, ey, attempts := SampleEnemyCell(grid, rng);
    if grid[ey, ex] == Empty {
      var d := rng.Int(0, 3);
      var seconds := rng.Int(2, 5);
      e := Some(Enemy(ex, ey, DirOf(d), 0, EnemyMoveDelay(stage), seconds * 1000));
    } else {
      e := None;
    }
  }

  /** One enemy's turn in updateEnemies. Both timers run down by dt; an expired change timer
      forces a random direction and a new timer of 2..5 s; an expired move timer makes the enemy
      step one cell in its direction if that cell is Open, and otherwise pick a random direction
      without moving, and restarts the move timer. */
  method StepEnemy(grid: array2<Tile>, e: Enemy, dt: int, rng: RandomSource) returns (r: Enemy)
    modifies rng
    ensures r.moveDelay == e.moveDelay
    ensures e.changeTimer - dt <= 0 ==> 2000 <= r.changeTimer <= 5000
    ensures e.changeTimer - dt <= 0 ==> r.changeTimer == RandInt(2, 5, rng.draw(old(rng.used) + 1)) * 1000
    ensures e.changeTimer - dt > 0 ==> r.changeTimer == e.changeTimer - dt
    ensures var k0 := old(rng.used);
      var turns := e.changeTimer - dt <= 0;
      var d := if turns then DirOf(RandInt(0, 3, rng.draw(k0))) else e.dir;
      if e.moveTimer - dt > 0 then
        r.x == e.x && r.y == e.y && r.dir == d && r.moveTimer == e.moveTimer - dt
      else if Open(grid, e.x + DX(d), e.y + DY(d)) then
        r.x == e.x + DX(d) && r.y == e.y + DY(d) && r.dir == d && r.moveTimer == e.moveDelay
      else
        r.x == e.x && r.y == e.y && r.dir == DirOf(RandInt(0, 3, rng.draw(k0 + if turns then 2 else 0))) && r.moveTimer == e.moveDelay
    ensures rng.used == old(rng.used) + (if e.changeTimer - dt <= 0 then 2 else 0)
      + (if e.moveTimer - dt <= 0 && r.x == e.x && r.y == e.y then 1 else 0)
    ensures WithinOneStep(e.x, e.y, r.x, r.y)
    ensures Open(grid, e.x, e.y) ==> Open(grid, r.x, r.y)
  {
    var moveTimer, changeTimer, dir := e.moveTimer - dt, e.changeTimer - dt, e.dir;
    if changeTimer <= 0 {
      var k := rng.Int(0, 3);
      dir := DirOf(k);
      var seconds := rng.Int(2, 5);
      changeTimer := seconds * 1000;
    }
    var x, y := e.x, e.y;
    if moveTimer <= 0 {
      var nx, ny := x + DX(dir), y + DY(dir);
      if Open(grid, nx, ny) {
        x, y := nx, ny;
      } else {
        var k := rng.Int(0, 3);
        dir := DirOf(k);
      }
      moveTimer := e.moveDelay;
    }
    r := Enemy(x, y, dir, moveTimer, e.moveDelay, changeTimer);
  }

  /** The body of updateBullets' filter callback for one bullet: advance it, drop it on a wall,
      trade it for the enemy it hits, or keep it while it has life. It is a method beside Fly,
      not a call of it, because the hit search in the callback is the backward loop that
      FindHitEnemy models; the function Fly cannot run that loop, so it uses LastHit, and the
      ensures proves the two agree. */
  method FlyBullet(grid: array2<Tile>, b: Bullet, es: seq<Enemy>, dt: int) returns (r: Impact)
    requires grid.Length0 == ROWS && grid.Length1 == COLS
    ensures r == Fly(grid, b, es, dt)
  {
    var moved := Advance(b, dt);
    if !InOpenCell(grid, moved) {
      return Impact(None, es, false);
    }
    var idx := FindHitEnemy(es, moved.x, moved.y);
    if idx >= 0 {
      return Impact(None, Without(es, idx), true);
    }
    if moved.life > 0 {
      return Impact(Some(moved), es, false);
    }
    return Impact(None, es, false);
  }

  /** The filter of updateBullets: every bullet, front to back, takes its FlyBullet step
      against the enemies the earlier ones left. */
  method PassBullets(grid: array2<Tile>, bs: seq<Bullet>, enemies: seq<Enemy>, dt: int)
    returns (kept: seq<Bullet>, es: seq<Enemy>, kills: nat)
    requires grid.Length0 == ROWS && grid.Length1 == COLS
    ensures BulletsAfter(grid, bs, enemies, dt) == Volley(kept, es, kills)
  {
    es, kept, kills := enemies, [], 0;
    var i := 0;
    while i < |bs|
      invariant 0 <= i <= |bs|
      invariant BulletsAfter(grid, bs, enemies, dt) == PassFrom(grid, bs[i..], es, dt, kept, kills)
    {
      assert bs[i..][0] == bs[i] && bs[i..][1..] == bs[i + 1..];
      var r := FlyBullet(grid, bs[i], es, dt);
      kept := kept + (if r.bullet.Some? then [r.bullet.value] else []);
      es := r.enemies;
      if r.kill {
        kills := kills + 1;
      }
      i := i + 1;
    }
    assert bs[i..] == [];
  }

  /** The flag loop of checkCollisions for a player on (x, y): every uncollected flag there is
      collected, adding one to the count, and the exit opens once the count reaches the total.
      k is the number of flags collected. */
  method PickUpFlags(fs: seq<FlagItem>, x: int, y: int, collected: int, total: int, exitOpen: bool)
    returns (r: seq<FlagItem>, count: int, open: bool, k: nat)
    ensures r == Collect(fs, x, y)
    ensures k == CountPickable(fs, x, y) && count == collected + k
    ensures open == (exitOpen || (k > 0 && count >= total))
  {
    r, count, open, k := fs, collected, exitOpen, 0;
    var i := 0;
    while i < |fs|
      invariant 0 <= i <= |fs| && |r| == |fs|
      invariant forall j :: 0 <= j < |fs| ==> r[j] == if j < i then Collect(fs, x, y)[j] else fs[j]
      invariant k == CountPickable(fs[..i], x, y) && count == collected + k
      invariant open == (exitOpen || (k > 0 && count >= total))
    {
      var f := r[i];
      CollectSnoc(fs[..i], fs[i], x, y);
      assert fs[..i + 1] == fs[..i] + [fs[i]];
      if !f.collected && f.x == x && f.y == y {
        r := r[i := f.(collected := true)];
        count := count + 1;
        k := k + 1;
        if count >= total {
          open := true;
        }
      }
      i := i + 1;
    }
    assert fs[..i] == fs;
  }

  /** The enemy-hit scan of updateBullets: from the highest index down, the first enemy within
      HIT_RADIUS of the bullet at (mx, my), or -1. */
  method FindHitEnemy(enemies: seq<Enemy>, mx: int, my: int) returns (idx: int)
    ensures idx == LastHit(enemies, mx, my)
    ensures idx == -1 <==> forall j :: 0 <= j < |enemies| ==> !WithinHit(mx, my, enemies[j])
  {
    var i := |enemies| - 1;
    while i >= 0
      invariant -1 <= i < |enemies|
      invariant LastHit(enemies, mx, my) == LastHit(enemies[..i + 1], mx, my)
    {
      if WithinHit(mx, my, enemies[i]) {
        return i;
      }
      assert enemies[..i + 1][..i] == enemies[..i];
      i := i - 1;
    }
    return -1;
  }

  /** The contact scan of checkCollisions: is some enemy on cell (x, y)? */
  method TouchingEnemy(enemies: seq<Enemy>, x: int, y: int) returns (hit: bool)
    ensures hit <==> EnemyAt(enemies, x, y)
  {
    hit := false;
    var i := 0;
    while i < |enemies|
      invariant 0 <= i <= |enemies|
      invariant forall j :: 0 <= j < i ==> !(enemies[j].x == x && enemies[j].y == y)
    {
      if enemies[i].x == x && enemies[i].y == y {
        hit := true;
        break;
      }
      i := i + 1;
    }
  }
}
