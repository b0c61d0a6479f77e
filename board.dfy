/** Board constants, tile kinds and directions shared by the maze generator and the game. */
module Board {

  /** Size of one tile in pixels. */
  const TILE: int := 32
  /** Width and height of the play field in tiles; both are odd. */
  const COLS: int := 25
  const ROWS: int := 19

  /** The tile kinds the game declares. Only Empty and Wall are ever stored in a grid;
      flags, the start and the exit are kept beside the grid. */
  datatype Tile = Empty | Wall | Flag | PlayerStart | Exit

  /** The four cardinal directions, in the order in which the game lists them. */
  datatype Dir = Up | Down | Left | Right

  function DX(d: Dir): int
  {
    match d
    case Left => -1
    case Right => 1
    case _ => 0
  }

  function DY(d: Dir): int
  {
    match d
    case Up => -1
    case Down => 1
    case _ => 0
  }

  /** The k-th entry of the direction table (UP, DOWN, LEFT, RIGHT), as picked by a random index 0..3. */
  function DirOf(k: int): (d: Dir)
    requires 0 <= k <= 3
    ensures k == 0 <==> d == Up
    ensures k == 1 <==> d == Down
    ensures k == 2 <==> d == Left
    ensures k == 3 <==> d == Right
  {
    if k == 0 then Up else if k == 1 then Down else if k == 2 then Left else Right
  }

  /** A grid is indexed grid[row, column], i.e. grid[y, x]. */
  predicate InBounds(grid: array2<Tile>, x: int, y: int)
  {
    0 <= x < grid.Length1 && 0 <= y < grid.Length0
  }

  /** A cell an entity may move onto: inside the grid and not a wall. */
  predicate Open(grid: array2<Tile>, x: int, y: int)
    reads grid
  {
    InBounds(grid, x, y) && grid[y, x] != Wall
  }

  /** Every cell of the grid is Empty or Wall. */
  ghost predicate OnlyWallOrEmpty(grid: array2<Tile>)
    reads grid
  {
    forall y, x :: 0 <= y < grid.Length0 && 0 <= x < grid.Length1 ==> grid[y, x] == Empty || grid[y, x] == Wall
  }

  /** The outer ring of the grid is entirely wall. */
  ghost predicate BorderIsWall(grid: array2<Tile>)
    reads grid
  {
    forall y, x ::
      0 <= y < grid.Length0 && 0 <= x < grid.Length1 && (y == 0 || y == grid.Length0 - 1 || x == 0 || x == grid.Length1 - 1)
      ==> grid[y, x] == Wall
  }

  /** Every junction (2c+1, 2r+1) of the coarse maze lattice is Empty. */
  ghost predicate JunctionsOpen(grid: array2<Tile>)
    reads grid
  {
    forall r, c {:trigger grid[2 * r + 1, 2 * c + 1]} ::
      0 <= r < grid.Length0 / 2 && 0 <= c < grid.Length1 / 2 ==> grid[2 * r + 1, 2 * c + 1] == Empty
  }

  /** (x1, y1) is (x0, y0) itself or one of its four neighbours. */
  predicate WithinOneStep(x0: int, y0: int, x1: int, y1: int)
  {
    (if x1 >= x0 then x1 - x0 else x0 - x1) + (if y1 >= y0 then y1 - y0 else y0 - y1) <= 1
  }
}
