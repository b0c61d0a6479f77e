/** The plain records the game keeps for its player, enemies, flags and bullets, and the
    specification of flag pickup. Time is in integer milliseconds; a bullet's position is in
    milli-pixels, so that advancing it by (pixels per second) x (milliseconds) is exact. */
module Entities {
  import opened Board
  import opened Utility

  /** player.moveDelay: 0.12 s. */
  const PLAYER_MOVE_DELAY: int := 120
  /** The shoot cooldown set after firing: 0.4 s. */
  const SHOOT_COOLDOWN: int := 400
  /** The invincibility granted after a hit: 2.0 s. */
  const INVINCIBLE_TIME: int := 2000
  /** A bullet's lifetime: 2.0 s. */
  const BULLET_LIFE: int := 2000
  /** A bullet's speed in pixels per second. */
  const BULLET_SPEED: int := 280
  /** The largest time step the frame loop passes on: 0.05 s. */
  const MAX_DT: int := 50
  /** Milli-pixels per pixel. */
  const MILLI: int := 1000
  /** A bullet hits an enemy closer than TILE * 0.7 = 22.4 pixels, i.e. 22400 milli-pixels. */
  const HIT_RADIUS: int := 22400

  /** The state of the player's vehicle; exhaust puffs are cosmetic and not kept. */
  datatype Player = Player(x: int, y: int, dir: Dir, moveTimer: int, moveDelay: int, invincible: int, shootCooldown: int)

  /** A patrolling enemy. */
  datatype Enemy = Enemy(x: int, y: int, dir: Dir, moveTimer: int, moveDelay: int, changeTimer: int)

  /** A flag; its bobbing phase is cosmetic and not kept. */
  datatype FlagItem = FlagItem(x: int, y: int, collected: bool)

  /** A bullet: position in milli-pixels, velocity in pixels per second, remaining life in ms.
      Its trail, wobble and size are cosmetic and not kept. */
  datatype Bullet = Bullet(x: int, y: int, vx: int, vy: int, life: int)

  /** The exit cell. */
  datatype Pos = Pos(x: int, y: int)

  /** The keys held at the start of a step: arrow keys and their WASD aliases collapsed into
      four booleans, and the fire key (space or F). */
  datatype Input = Input(up: bool, down: bool, left: bool, right: bool, fire: bool)

  /** The enemy move delay of a stage, 0.4 - 0.02 * stage seconds; not clamped, so it is zero or
      negative from stage 20 on. */
  function EnemyMoveDelay(stage: int): (d: int)
    ensures stage >= 1 ==> d <= 380
    ensures d > 0 <==> stage < 20
  {
    400 - 20 * stage
  }

  /** The number of flags a stage asks for. */
  function FlagCount(stage: int): (n: int)
    ensures stage >= 1 ==> n >= 6
    ensures n % 2 == 0
  {
    4 + 2 * stage
  }

  /** The number of enemies a stage asks for: min(1 + stage, 8). */
  function EnemyCount(stage: int): (n: int)
    ensures n <= 8 && n <= 1 + stage && (n == 8 || n == 1 + stage)
    ensures n == 8 <==> stage >= 7
  {
    if 1 + stage < 8 then 1 + stage else 8
  }

  /** Each later stage has faster enemies, two more flags and no fewer enemies. */
  lemma LaterStagesAreHarder(s: int, t: int)
    requires s < t
    ensures EnemyMoveDelay(t) < EnemyMoveDelay(s)
    ensures FlagCount(t) == FlagCount(s) + 2 * (t - s)
    ensures EnemyCount(s) <= EnemyCount(t)
  {
  }

  /** The movement key honoured this step: up, then down, then left, then right. */
  function HeldDir(input: Input): (d: Option<Dir>)
    ensures d == None <==> !input.up && !input.down && !input.left && !input.right
    ensures d == Some(Up) <==> input.up
    ensures d == Some(Down) <==> !input.up && input.down
    ensures d == Some(Left) <==> !input.up && !input.down && input.left
    ensures d == Some(Right) <==> !input.up && !input.down && !input.left && input.right
  {
    if input.up then Some(Up)
    else if input.down then Some(Down)
    else if input.left then Some(Left)
    else if input.right then Some(Right)
    else None
  }

  /** The grid cell a milli-pixel coordinate lies in: floor(coordinate / TILE). */
  function CellOf(m: int): (c: int)
    ensures c * (TILE * MILLI) <= m < (c + 1) * (TILE * MILLI)
  {
    m / (TILE * MILLI)
  }

  /** The centre of grid cell c in milli-pixels: c * TILE + TILE / 2. */
  function CentreOf(c: int): (m: int)
    ensures CellOf(m) == c
  {
    (c * TILE + TILE / 2) * MILLI
  }

  /** The bullet's cell is inside the grid and not a wall. */
  predicate InOpenCell(grid: array2<Tile>, b: Bullet)
    reads grid
  {
    Open(grid, CellOf(b.x), CellOf(b.y))
  }

  /** Flying s and then t milliseconds is flying s + t. */
  lemma AdvanceAdds(b: Bullet, s: int, t: int)
    ensures Advance(Advance(b, s), t) == Advance(b, s + t)
  {
  }

  /** A position outside cell c is at least half a tile from its centre, and one two or more cells
      away at least one and a half tiles. */
  lemma OffCentreIsFar(m: int, c: int)
    ensures var d := m - CentreOf(c); d * d >= 0 && (CellOf(m) != c ==> d * d >= 256_000_000)
    ensures var d := m - CentreOf(c); (CellOf(m) - c > 1 || CellOf(m) - c < -1) ==> d * d >= 2_304_000_000
  {
    var d := m - CentreOf(c);
    if CellOf(m) > c {
      assert d >= 16_000;
      SquareAtLeast(d, 16_000);
      if CellOf(m) > c + 1 {
        assert d >= 48_000;
        SquareAtLeast(d, 48_000);
      }
    } else if CellOf(m) < c {
      assert -d > 16_000;
      SquareAtLeast(-d, 16_000);
      if CellOf(m) < c - 1 {
        assert -d > 48_000;
        SquareAtLeast(-d, 48_000);
      }
    } else {
      SquareAtLeast(if d < 0 then -d else d, 0);
    }
  }

  lemma SquareAtLeast(a: int, b: int)
    requires 0 <= b <= a
    ensures b * b <= a * a
  {
  }

  /** The bullet at milli-pixel position (mx, my) is closer than HIT_RADIUS to the centre of the enemy's cell.
      Since 2 * 16000^2 >= HIT_RADIUS^2, a hit is on the enemy's own cell or one orthogonal neighbour. */
  predicate WithinHit(mx: int, my: int, e: Enemy): (hit: bool)
    ensures mx == CentreOf(e.x) && my == CentreOf(e.y) ==> hit
    ensures hit ==> WithinOneStep(e.x, e.y, CellOf(mx), CellOf(my))
  {
    var dx, dy := mx - CentreOf(e.x), my - CentreOf(e.y);
    OffCentreIsFar(mx, e.x);
    OffCentreIsFar(my, e.y);
    dx * dx + dy * dy < HIT_RADIUS * HIT_RADIUS
  }

  /** The index of the enemy a bullet at (mx, my) hits, scanning from the highest index down,
      or -1 when it is in range of none. */
  function LastHit(es: seq<Enemy>, mx: int, my: int): (i: int)
    ensures -1 <= i < |es|
    ensures i >= 0 ==> WithinHit(mx, my, es[i])
    ensures forall j :: i < j < |es| ==> !WithinHit(mx, my, es[j])
  {
    if |es| == 0 then -1
    else if WithinHit(mx, my, es[|es| - 1]) then |es| - 1
    else LastHit(es[..|es| - 1], mx, my)
  }

  /** The bullet shoot() fires: from the centre of the player's cell, in the player's direction. */
  function ShotFrom(p: Player): (b: Bullet)
    ensures CellOf(b.x) == p.x && CellOf(b.y) == p.y && b.life == BULLET_LIFE
  {
    Bullet(CentreOf(p.x), CentreOf(p.y), DX(p.dir) * BULLET_SPEED, DY(p.dir) * BULLET_SPEED, BULLET_LIFE)
  }

  /** The bullet after dt milliseconds of flight: it keeps its velocity and moves by it. */
  function Advance(b: Bullet, dt: int): (r: Bullet)
    ensures r.vx == b.vx && r.vy == b.vy
    ensures dt == 0 ==> r == b
  {
    b.(x := b.x + b.vx * dt, y := b.y + b.vy * dt, life := b.life - dt)
  }

  /** What one bullet's frame leaves: the bullet if it flies on, the enemies, and whether it
      destroyed one of them. */
  datatype Impact = Impact(bullet: Option<Bullet>, enemies: seq<Enemy>, kill: bool)

  /** es with the enemy at index i taken out, the others keeping their order. */
  function Without(es: seq<Enemy>, i: int): (r: seq<Enemy>)
    requires 0 <= i < |es|
    ensures |r| == |es| - 1
    ensures forall j :: 0 <= j < |r| ==> r[j] == if j < i then es[j] else es[j + 1]
    ensures forall e :: e in r ==> e in es
  {
    es[..i] + es[i + 1..]
  }

  /** What a bullet already advanced to m does in updateBullets: it is dropped if its cell is
      outside the grid or a wall; otherwise, if it is within HIT_RADIUS of an enemy, the
      highest-indexed such enemy is removed and so is the bullet; otherwise it flies on while it
      has life left. */
  function Strike(grid: array2<Tile>, m: Bullet, es: seq<Enemy>): (r: Impact)
    reads grid
    ensures var i := LastHit(es, m.x, m.y);
      // a bullet whose new cell is off the grid or a wall is removed before any enemy is looked at
      (!InOpenCell(grid, m) ==> r == Impact(None, es, false)) &&
      // otherwise the in-range enemy found first from the highest index down goes, with the bullet
      (InOpenCell(grid, m) && i >= 0 ==> r == Impact(None, Without(es, i), true)) &&
      // and a bullet that hit nothing flies on exactly while it has life left
      (InOpenCell(grid, m) && i < 0 ==> r == Impact(if m.life > 0 then Some(m) else None, es, false))
    ensures r.bullet.Some? ==> InOpenCell(grid, r.bullet.value) && r.bullet.value.life > 0
    ensures r.kill ==> |r.enemies| == |es| - 1
    ensures forall e :: e in r.enemies ==> e in es
  {
    if !InOpenCell(grid, m) then Impact(None, es, false)
    else
      var i := LastHit(es, m.x, m.y);
      if i >= 0 then Impact(None, Without(es, i), true)
      else if m.life > 0 then Impact(Some(m), es, false)
      else Impact(None, es, false)
  }

  /** One bullet's frame in updateBullets: it is advanced by dt and then strikes. A bullet that
      flies on is the advanced one; the enemies change only when it destroys one, which uses it up. */
  function Fly(grid: array2<Tile>, b: Bullet, es: seq<Enemy>, dt: int): (r: Impact)
    reads grid
    ensures r.bullet.Some? ==> r.bullet.value == Advance(b, dt)
    ensures !r.kill ==> r.enemies == es
    ensures r.kill ==> r.bullet.None? && |r.enemies| == |es| - 1
  {
    Strike(grid, Advance(b, dt), es)
  }

  /** What one pass of updateBullets leaves: the surviving bullets, the surviving enemies and
      the number of enemies destroyed. */
  datatype Volley = Volley(bullets: seq<Bullet>, enemies: seq<Enemy>, kills: nat)

  /** The rest of a pass of updateBullets: the bullets bs still to fly, front to back, each
      taking its Fly step against the enemies the earlier ones left, after the pass has already
      kept the bullets in kept and destroyed kills enemies. */
  function PassFrom(grid: array2<Tile>, bs: seq<Bullet>, es: seq<Enemy>, dt: int, kept: seq<Bullet>, kills: nat): (v: Volley)
    reads grid
    decreases |bs|
    ensures |v.bullets| + v.kills <= |kept| + kills + |bs|
    ensures |v.enemies| + v.kills == |es| + kills
    ensures forall e :: e in v.enemies ==> e in es
    ensures (forall b :: b in kept ==> InOpenCell(grid, b) && b.life > 0) ==>
      forall b :: b in v.bullets ==> InOpenCell(grid, b) && b.life > 0
  {
    if |bs| == 0 then Volley(kept, es, kills)
    else
      var r := Fly(grid, bs[0], es, dt);
      PassFrom(grid, bs[1..], r.enemies, dt, kept + (if r.bullet.Some? then [r.bullet.value] else []), kills + if r.kill then 1 else 0)
  }

  /** One pass of updateBullets over all of bs against the enemies es. */
  function BulletsAfter(grid: array2<Tile>, bs: seq<Bullet>, es: seq<Enemy>, dt: int): (v: Volley)
    reads grid
    ensures |v.bullets| + v.kills <= |bs|
    ensures |v.enemies| + v.kills == |es|
    ensures forall e :: e in v.enemies ==> e in es
    ensures forall b :: b in v.bullets ==> InOpenCell(grid, b) && b.life > 0
  {
    PassFrom(grid, bs, es, dt, [], 0)
  }

  /** Some enemy stands on cell (x, y). */
  ghost predicate EnemyAt(es: seq<Enemy>, x: int, y: int)
  {
    exists i :: 0 <= i < |es| && es[i].x == x && es[i].y == y
  }

  /** The number of collected flags. */
  function CountCollected(fs: seq<FlagItem>): nat
  {
    if |fs| == 0 then 0
    else CountCollected(fs[..|fs| - 1]) + (if fs[|fs| - 1].collected then 1 else 0)
  }

  /** A flag the player standing on (x, y) picks up. */
  predicate Pickable(f: FlagItem, x: int, y: int)
  {
    !f.collected && f.x == x && f.y == y
  }

  /** The number of uncollected flags on cell (x, y). */
  function CountPickable(fs: seq<FlagItem>, x: int, y: int): nat
  {
    if |fs| == 0 then 0
    else CountPickable(fs[..|fs| - 1], x, y) + (if Pickable(fs[|fs| - 1], x, y) then 1 else 0)
  }

  /** The flags after the player on (x, y) picked up every uncollected flag there. */
  function Collect(fs: seq<FlagItem>, x: int, y: int): (r: seq<FlagItem>)
    ensures |r| == |fs|
  {
    seq(|fs|, i requires 0 <= i < |fs| => if Pickable(fs[i], x, y) then fs[i].(collected := true) else fs[i])
  }

  /** Pickup only ever sets collected, never clears it, and moves no flag. */
  lemma CollectIsMonotone(fs: seq<FlagItem>, x: int, y: int)
    ensures forall i :: 0 <= i < |fs| ==>
      Collect(fs, x, y)[i].x == fs[i].x && Collect(fs, x, y)[i].y == fs[i].y &&
      (fs[i].collected ==> Collect(fs, x, y)[i].collected) &&
      (Collect(fs, x, y)[i].collected <==> fs[i].collected || (fs[i].x == x && fs[i].y == y))
  {
  }

  /** Collected and pickable flags are disjoint, so together they number at most |fs|. */
  lemma {:induction false} CollectedPlusPickableBound(fs: seq<FlagItem>, x: int, y: int)
    ensures CountCollected(fs) + CountPickable(fs, x, y) <= |fs|
  {
    if |fs| > 0 {
      CollectedPlusPickableBound(fs[..|fs| - 1], x, y);
    }
  }

  /** Each pickup adds exactly one to the collected count. */
  lemma {:induction false} CollectCounts(fs: seq<FlagItem>, x: int, y: int)
    ensures CountCollected(Collect(fs, x, y)) == CountCollected(fs) + CountPickable(fs, x, y)
  {
    if |fs| > 0 {
      var n := |fs| - 1;
      assert Collect(fs, x, y)[..n] == Collect(fs[..n], x, y);
      CollectCounts(fs[..n], x, y);
    }
  }

  /** A flag is picked up only once: after pickup nothing on (x, y) is left to collect. */
  lemma {:induction false} CollectLeavesNothing(fs: seq<FlagItem>, x: int, y: int)
    ensures CountPickable(Collect(fs, x, y), x, y) == 0
    ensures Collect(Collect(fs, x, y), x, y) == Collect(fs, x, y)
  {
    if |fs| > 0 {
      var n := |fs| - 1;
      assert Collect(fs, x, y)[..n] == Collect(fs[..n], x, y);
      CollectLeavesNothing(fs[..n], x, y);
    }
  }

  /** Pickup over a prefix extended by one flag. */
  lemma CollectSnoc(fs: seq<FlagItem>, f: FlagItem, x: int, y: int)
    ensures Collect(fs + [f], x, y) == Collect(fs, x, y) + Collect([f], x, y)
    ensures CountPickable(fs + [f], x, y) == CountPickable(fs, x, y) + (if Pickable(f, x, y) then 1 else 0)
  {
  }
}
