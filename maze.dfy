/** generateMaze: a randomised recursive-backtracking carve over the coarse lattice of
    floor(cols/2) x floor(rows/2) junctions, followed by a best-effort perforation pass. */
module Maze {
  import opened Board
  import opened Utility

  /** The coarse lattice has one cell per junction (2c+1, 2r+1) of the fine grid. */
  ghost predicate Lattice(grid: array2<Tile>, visited: array2<bool>)
  {
    visited.Length0 == grid.Length0 / 2 && visited.Length1 == grid.Length1 / 2
  }

  /** The coarse cells (row, column) that are not yet visited; the carve's termination measure. */
  ghost function Unvisited(visited: array2<bool>): set<(int, int)>
    reads visited
  {
    set p | p in AllCells(visited.Length0, visited.Length1) && !visited[p.0, p.1]
  }

  /** Every coarse cell of an h x w lattice. */
  ghost function AllCells(h: int, w: int): set<(int, int)>
  {
    set y, x | 0 <= y < h && 0 <= x < w :: (y, x)
  }

  /** The neighbour of coarse cell (cx, cy) in direction d lies outside the h x w lattice or is
      not in the unvisited set u. */
  ghost predicate NeighbourDone(u: set<(int, int)>, h: int, w: int, cx: int, cy: int, d: Dir)
  {
    var nx, ny := cx + DX(d), cy + DY(d);
    0 <= nx < w && 0 <= ny < h ==> (ny, nx) !in u
  }

  ghost predicate NeighboursDone(u: set<(int, int)>, h: int, w: int, cx: int, cy: int)
  {
    NeighbourDone(u, h, w, cx, cy, Up) && NeighbourDone(u, h, w, cx, cy, Down) &&
    NeighbourDone(u, h, w, cx, cy, Left) && NeighbourDone(u, h, w, cx, cy, Right)
  }

  /** Every cell of s has all its neighbours visited. */
  ghost predicate ClosedOn(u: set<(int, int)>, h: int, w: int, s: set<(int, int)>)
  {
    forall p {:trigger NeighboursDone(u, h, w, p.1, p.0)} :: p in s ==> NeighboursDone(u, h, w, p.1, p.0)
  }

  /** Every visited coarse cell has its junction carved. */
  ghost predicate JunctionsOfVisited(grid: array2<Tile>, visited: array2<bool>)
    reads grid, visited
    requires Lattice(grid, visited)
  {
    forall y, x :: 0 <= y < visited.Length0 && 0 <= x < visited.Length1 && visited[y, x] ==>
      grid[2 * y + 1, 2 * x + 1] == Empty
  }

  /** The fine cells the carve can write: rows 1..2*floor(rows/2)-1, columns 1..2*floor(cols/2)-1. */
  ghost predicate InCarveRegion(grid: array2<Tile>, y: int, x: int)
  {
    1 <= y <= 2 * (grid.Length0 / 2) - 1 && 1 <= x <= 2 * (grid.Length1 / 2) - 1
  }

  /** Every cell is Empty or Wall, every cell outside the carve region is Wall, and every Empty
      cell is one of open: cells allowed to be Empty from the start, and the passages opened so far. */
  ghost predicate CarveShape(grid: array2<Tile>, base: set<(int, int)>, links: set<(int, int)>)
    reads grid
  {
    forall y, x :: 0 <= y < grid.Length0 && 0 <= x < grid.Length1 ==>
      (grid[y, x] == Empty || grid[y, x] == Wall) && (!InCarveRegion(grid, y, x) ==> grid[y, x] == Wall) &&
      (grid[y, x] == Empty ==> (y, x) in base || (y, x) in links)
  }

  /** What every step of the carve keeps: the lattice fits the grid, every visited coarse cell
      has its junction open, and every Empty cell is allowed in base, which holds the junctions,
      or one of links. */
  ghost predicate CarveFrame(grid: array2<Tile>, visited: array2<bool>, base: set<(int, int)>, links: set<(int, int)>)
    reads grid, visited
  {
    Lattice(grid, visited) && JunctionsOfVisited(grid, visited) && CarveShape(grid, base, links) && Junctions(grid) <= base
  }

  /** Between the two states only Empty was written: every cell that was Empty still is. */
  twostate predicate EmptyKept(grid: array2<Tile>)
    reads grid
  {
    forall y, x {:trigger grid[y, x]} ::
      0 <= y < grid.Length0 && 0 <= x < grid.Length1 && old(grid[y, x]) == Empty ==> grid[y, x] == Empty
  }

  /** The junctions (2 r + 1, 2 c + 1) of the coarse cells: the fine cells carve visits. */
  ghost function Junctions(grid: array2<Tile>): set<(int, int)>
  {
    set r, c | 0 <= r < grid.Length0 / 2 && 0 <= c < grid.Length1 / 2 :: (2 * r + 1, 2 * c + 1)
  }

  /** Every Empty cell is a junction, one of the passages in links or one of the perforation
      holes. */
  ghost predicate CarvedBy(grid: array2<Tile>, links: set<(int, int)>, holes: set<(int, int)>)
    reads grid
  {
    forall y, x {:trigger grid[y, x]} :: (0 <= y < grid.Length0 && 0 <= x < grid.Length1 && grid[y, x] == Empty) ==>
      (y, x) in Junctions(grid) || (y, x) in links || (y, x) in holes
  }

  /** What the carve and the perforation can have opened: every Empty cell is a junction, one of
      fewer than floor(rows/2) * floor(cols/2) passages (a spanning tree of the coarse lattice has
      one fewer edge than it has cells) or one of at most PerforationAttempts holes. */
  ghost predicate CarvedWithin(grid: array2<Tile>)
    reads grid
  {
    exists links: set<(int, int)>, holes: set<(int, int)> {:trigger CarvedBy(grid, links, holes)} ::
      CarvedBy(grid, links, holes) &&
      |links| < (grid.Length0 / 2) * (grid.Length1 / 2) &&
      |holes| <= PerforationAttempts(grid.Length1 / 2, grid.Length0 / 2)
  }

  /** Coarse cell c = (row, column) lies in the lattice of the grid. */
  ghost predicate InLattice(grid: array2<Tile>, c: (int, int))
  {
    0 <= c.0 < grid.Length0 / 2 && 0 <= c.1 < grid.Length1 / 2
  }

  /** Coarse cells a and b are orthogonal neighbours and the fine cell between their junctions
      is Empty. */
  ghost predicate Passage(grid: array2<Tile>, a: (int, int), b: (int, int))
    reads grid
  {
    Adjacent(grid, a, b) && grid[a.0 + b.0 + 1, a.1 + b.1 + 1] == Empty
  }

  /** Coarse cells a and b are orthogonal neighbours in the lattice. */
  ghost predicate Adjacent(grid: array2<Tile>, a: (int, int), b: (int, int))
  {
    InLattice(grid, a) && InLattice(grid, b) &&
    ((a.0 == b.0 && (a.1 - b.1 == 1 || b.1 - a.1 == 1)) || (a.1 == b.1 && (a.0 - b.0 == 1 || b.0 - a.0 == 1)))
  }

  /** The walk p over coarse cells goes from a to b, every step through a passage. */
  ghost predicate Joins(grid: array2<Tile>, p: seq<(int, int)>, a: (int, int), b: (int, int))
    reads grid
  {
    |p| >= 1 && p[0] == a && p[|p| - 1] == b &&
    forall i {:trigger Passage(grid, p[i], p[i + 1])} :: 0 <= i < |p| - 1 ==> Passage(grid, p[i], p[i + 1])
  }

  /** Each coarse cell c that paths names is reached from a by the walk paths[c]. */
  ghost predicate JoinedFrom(grid: array2<Tile>, paths: map<(int, int), seq<(int, int)>>, a: (int, int))
    reads grid
  {
    forall c {:trigger paths[c]} :: c in paths ==> Joins(grid, paths[c], a, c)
  }

  /** Every coarse cell is reached from (0, 0) through passages: with every junction open, the
      maze is one connected region. */
  ghost predicate Connected(grid: array2<Tile>)
    reads grid
  {
    forall c :: InLattice(grid, c) ==> exists p :: Joins(grid, p, (0, 0), c)
  }

  /** paths holds, for every coarse cell, a walk to it from (0, 0). */
  ghost predicate Spanning(grid: array2<Tile>, paths: map<(int, int), seq<(int, int)>>)
    reads grid
  {
    (forall c :: InLattice(grid, c) ==> c in paths) && JoinedFrom(grid, paths, (0, 0))
  }

  /** A walk to every coarse cell makes the maze connected. */
  lemma SpanningIsConnected(grid: array2<Tile>, paths: map<(int, int), seq<(int, int)>>)
    requires Spanning(grid, paths)
    ensures Connected(grid)
  {
    forall c | InLattice(grid, c) ensures exists p :: Joins(grid, p, (0, 0), c) {
      assert Joins(grid, paths[c], (0, 0), c);
    }
  }

  /** A passage from a to the start of a walk extends the walk by one step. */
  lemma PrependJoins(grid: array2<Tile>, p: seq<(int, int)>, a: (int, int), n: (int, int), b: (int, int))
    requires Passage(grid, a, n) && Joins(grid, p, n, b)
    ensures Joins(grid, [a] + p, a, b)
  {
    var q := [a] + p;
    forall i | 0 <= i < |q| - 1 ensures Passage(grid, q[i], q[i + 1]) {
      if i > 0 {
        var j := i - 1;
        assert q[i] == p[j] && q[i + 1] == p[j + 1];
        assert Passage(grid, p[j], p[j + 1]);
      }
    }
  }

  /** Every walk of paths, started one step earlier at a. */
  function Prepended(paths: map<(int, int), seq<(int, int)>>, a: (int, int)): (r: map<(int, int), seq<(int, int)>>)
    ensures r.Keys == paths.Keys
    ensures forall c :: c in paths ==> r[c] == [a] + paths[c]
  {
    map c | c in paths :: [a] + paths[c]
  }

  /** Walks from a neighbour n of a, each with one passage from a put in front, are walks from a. */
  lemma PrependedJoins(grid: array2<Tile>, paths: map<(int, int), seq<(int, int)>>, a: (int, int), n: (int, int))
    requires Passage(grid, a, n) && JoinedFrom(grid, paths, n)
    ensures JoinedFrom(grid, Prepended(paths, a), a)
  {
    forall c | c in paths ensures Joins(grid, [a] + paths[c], a, c) {
      PrependJoins(grid, paths[c], a, n, c);
    }
  }

  /** One more direction of carve's loop is done: the cells visited before the turn and those
      visited during it are closed together, and no earlier direction reopens. */
  lemma DirectionDone(u0: set<(int, int)>, u1: set<(int, int)>, u2: set<(int, int)>, h: int, w: int,
                      cx: int, cy: int, ds: seq<Dir>, k: int)
    requires 0 <= k < |ds| && u2 <= u1 <= u0
    requires ClosedOn(u1, h, w, u0 - u1) && ClosedOn(u2, h, w, u1 - u2)
    requires forall i :: 0 <= i < k ==> NeighbourDone(u1, h, w, cx, cy, ds[i])
    requires NeighbourDone(u2, h, w, cx, cy, ds[k])
    ensures ClosedOn(u2, h, w, u0 - u2)
    ensures forall i :: 0 <= i <= k ==> NeighbourDone(u2, h, w, cx, cy, ds[i])
  {
    forall p | p in u0 - u2 ensures NeighboursDone(u2, h, w, p.1, p.0) {
      if p in u0 - u1 {
        assert NeighboursDone(u1, h, w, p.1, p.0);
      }
    }
  }

  /** The shuffled list of the four directions that carve walks through. */
  method ShuffledDirections(rng: RandomSource) returns (ds: seq<Dir>)
    modifies rng
    ensures |ds| == 4 && multiset(ds) == multiset([Up, Down, Left, Right])
    ensures Up in ds && Down in ds && Left in ds && Right in ds
    ensures ds == Shuffled([Up, Down, Left, Right], rng.draw, old(rng.used))
    ensures rng.used == old(rng.used) + 3
  {
    var dirs := new Dir[4];
    dirs[0], dirs[1], dirs[2], dirs[3] := Up, Down, Left, Right;
    assert dirs[..] == [Up, Down, Left, Right];
    Shuffle(dirs, rng);
    ds := dirs[..];
    assert Up in multiset(ds) && Down in multiset(ds) && Left in multiset(ds) && Right in multiset(ds);
  }

  /** A further cell can join the passages. */
  lemma CarveShapeMore(grid: array2<Tile>, base: set<(int, int)>, links: set<(int, int)>, l: (int, int))
    requires CarveShape(grid, base, links)
    ensures CarveShape(grid, base, links + {l})
  {
  }

  /** One cell write of the carve: the cell (y, x) of the carve region, allowed from the start or
      one of the passages, becomes Empty. */
  method OpenCell(grid: array2<Tile>, y: int, x: int, ghost base: set<(int, int)>, ghost links: set<(int, int)>)
    requires 0 <= y < grid.Length0 && 0 <= x < grid.Length1 && InCarveRegion(grid, y, x)
    requires CarveShape(grid, base, links)
    requires (y, x) in base || (y, x) in links
    modifies grid
    ensures grid[y, x] == Empty && EmptyKept(grid)
    ensures forall i, j :: 0 <= i < grid.Length0 && 0 <= j < grid.Length1 && (i, j) != (y, x) ==> grid[i, j] == old(grid[i, j])
    ensures CarveShape(grid, base, links)
  {
    grid[y, x] := Empty;
  }

  /** Once carve's direction loop has left (cx, cy) without an unvisited neighbour, the cell
      itself joins the cells the loop closed. */
  lemma CarveClosed(u0: set<(int, int)>, u1: set<(int, int)>, u2: set<(int, int)>, h: int, w: int,
                    cx: int, cy: int, ds: seq<Dir>)
    requires (cy, cx) in u0 && u1 == u0 - {(cy, cx)} && u2 <= u1
    requires ClosedOn(u2, h, w, u1 - u2)
    requires Up in ds && Down in ds && Left in ds && Right in ds
    requires forall i :: 0 <= i < |ds| ==> NeighbourDone(u2, h, w, cx, cy, ds[i])
    ensures ClosedOn(u2, h, w, u0 - u2)
  {
    forall p | p in u0 - u2 ensures NeighboursDone(u2, h, w, p.1, p.0) {
      if p != (cy, cx) {
        assert p in u1 - u2;
      }
    }
  }

  /** The one-cell walk [a] joins a to itself. */
  lemma StartJoined(grid: array2<Tile>, paths: map<(int, int), seq<(int, int)>>, a: (int, int))
    requires JoinedFrom(grid, paths, a)
    ensures JoinedFrom(grid, paths[a := [a]], a)
  {
  }

  /** The start of carve(cx, cy): mark the coarse cell visited and open its junction. */
  method Visit(grid: array2<Tile>, visited: array2<bool>, cx: int, cy: int, ghost base: set<(int, int)>, ghost links: set<(int, int)>)
    requires CarveFrame(grid, visited, base, links)
    requires 0 <= cy < visited.Length0 && 0 <= cx < visited.Length1 && !visited[cy, cx]
    modifies grid, visited
    ensures Unvisited(visited) == old(Unvisited(visited)) - {(cy, cx)} && (cy, cx) in old(Unvisited(visited))
    ensures |Unvisited(visited)| == |old(Unvisited(visited))| - 1
    ensures visited[cy, cx] && CarveFrame(grid, visited, base, links) && EmptyKept(grid)
    ensures grid[2 * cy + 1, 2 * cx + 1] == Empty
    ensures forall i, j :: 0 <= i < grid.Length0 && 0 <= j < grid.Length1 && (i, j) != (2 * cy + 1, 2 * cx + 1) ==> grid[i, j] == old(grid[i, j])
  {
    ghost var u0 := Unvisited(visited);
    visited[cy, cx] := true;
    assert Unvisited(visited) == u0 - {(cy, cx)};
    assert (2 * cy + 1, 2 * cx + 1) in Junctions(grid);
    OpenCell(grid, 2 * cy + 1, 2 * cx + 1, base, links);
  }

  /** carve(cx, cy): visit coarse cell (cx, cy), open its junction, and try the four directions
      in shuffled order. When it returns, every cell it visited, (cx, cy) included, has all its
      neighbours visited, and paths gives for each a walk to it from (cx, cy) through opened
      passages. */
  method Carve(grid: array2<Tile>, visited: array2<bool>, cx: int, cy: int, rng: RandomSource,
               ghost base: set<(int, int)>, ghost links: set<(int, int)>)
    returns (ghost paths: map<(int, int), seq<(int, int)>>, ghost links': set<(int, int)>)
    requires CarveFrame(grid, visited, base, links)
    requires 0 <= cy < visited.Length0 && 0 <= cx < visited.Length1 && !visited[cy, cx]
    modifies grid, visited, rng
    decreases Unvisited(visited), 0
    ensures Unvisited(visited) <= old(Unvisited(visited)) - {(cy, cx)}
    ensures ClosedOn(Unvisited(visited), visited.Length0, visited.Length1, old(Unvisited(visited)) - Unvisited(visited))
    ensures CarveFrame(grid, visited, base, links') && EmptyKept(grid)
    ensures (forall c :: c in old(Unvisited(visited)) && c !in Unvisited(visited) ==> c in paths) && JoinedFrom(grid, paths, (cy, cx))
    ensures links <= links'
    ensures |links'| + |Unvisited(visited)| < |links| + |old(Unvisited(visited))|
    ensures rng.used == old(rng.used) + 3 * (|old(Unvisited(visited))| - |Unvisited(visited)|)
  {
    ghost var h, w := visited.Length0, visited.Length1;
    ghost var u0 := Unvisited(visited);
    ghost var used0 := rng.used;
    Visit(grid, visited, cx, cy, base, links);
    ghost var u1 := Unvisited(visited);
    var ds := ShuffledDirections(rng);
    assert (cy, cx) in u0 && u1 == u0 - {(cy, cx)} && rng.used == used0 + 3;
    ghost var dpaths;
    dpaths, links' := CarveDirections(grid, visited, cx, cy, ds, rng, base, links);
    ghost var u2 := Unvisited(visited);
    CarveClosed(u0, u1, u2, h, w, cx, cy, ds);
    StartJoined(grid, dpaths, (cy, cx));
    paths := dpaths[(cy, cx) := [(cy, cx)]];
  }

  /** Where carve's direction loop stands after the first k directions of ds, started when u0 was
      unvisited and links opened: (cx, cy) has no unvisited neighbour in those directions, every
      cell visited since has all its neighbours visited and a walk in paths from (cx, cy), and at
      most one passage was opened and three draws, from used0 on, were taken per cell visited. */
  ghost predicate DirectionsDone(grid: array2<Tile>, visited: array2<bool>, cx: int, cy: int, ds: seq<Dir>, k: int,
                                 base: set<(int, int)>, links: set<(int, int)>, links': set<(int, int)>,
                                 u0: set<(int, int)>, paths: map<(int, int), seq<(int, int)>>, used: int, used0: int)
    reads grid, visited
  {
    CarveFrame(grid, visited, base, links') &&
    0 <= k <= |ds| && 0 <= cy < visited.Length0 && 0 <= cx < visited.Length1 && visited[cy, cx] &&
    Unvisited(visited) <= u0 &&
    ClosedOn(Unvisited(visited), visited.Length0, visited.Length1, u0 - Unvisited(visited)) &&
    (forall i :: 0 <= i < k ==> NeighbourDone(Unvisited(visited), visited.Length0, visited.Length1, cx, cy, ds[i])) &&
    (forall c :: c in u0 && c !in Unvisited(visited) ==> c in paths) && JoinedFrom(grid, paths, (cy, cx)) &&
    links <= links' && |links'| + |Unvisited(visited)| <= |links| + |u0| &&
    used == used0 + 3 * (|u0| - |Unvisited(visited)|)
  }

  /** carve's direction loop: one CarveToward turn per direction of ds, in order. When it
      returns, (cx, cy) has no unvisited neighbour in any direction of ds, and every cell the loop
      visited has all its neighbours visited. */
  method CarveDirections(grid: array2<Tile>, visited: array2<bool>, cx: int, cy: int, ds: seq<Dir>, rng: RandomSource,
                         ghost base: set<(int, int)>, ghost links: set<(int, int)>)
    returns (ghost paths: map<(int, int), seq<(int, int)>>, ghost links': set<(int, int)>)
    requires CarveFrame(grid, visited, base, links)
    requires 0 <= cy < visited.Length0 && 0 <= cx < visited.Length1 && visited[cy, cx]
    modifies grid, visited, rng
    decreases Unvisited(visited), 4
    ensures Unvisited(visited) <= old(Unvisited(visited))
    ensures ClosedOn(Unvisited(visited), visited.Length0, visited.Length1, old(Unvisited(visited)) - Unvisited(visited))
    ensures forall i :: 0 <= i < |ds| ==> NeighbourDone(Unvisited(visited), visited.Length0, visited.Length1, cx, cy, ds[i])
    ensures CarveFrame(grid, visited, base, links') && EmptyKept(grid)
    ensures (forall c :: c in old(Unvisited(visited)) && c !in Unvisited(visited) ==> c in paths) && JoinedFrom(grid, paths, (cy, cx))
    ensures links <= links'
    ensures |links'| + |Unvisited(visited)| <= |links| + |old(Unvisited(visited))|
    ensures rng.used == old(rng.used) + 3 * (|old(Unvisited(visited))| - |Unvisited(visited)|)
  {
    ghost var u0, used0 := Unvisited(visited), rng.used;
    paths, links' := map[], links;
    var k := 0;
    while k < |ds|
      invariant DirectionsDone(grid, visited, cx, cy, ds, k, base, links, links', u0, paths, rng.used, used0) && EmptyKept(grid)
    {
      paths, links' := DirectionTurn(grid, visited, cx, cy, ds, k, rng, base, links, links', u0, paths, used0);
      k := k + 1;
    }
  }

  /** Turn k of carve's direction loop: the CarveToward step in direction ds[k] keeps the loop's
      account with one more direction done. */
  method DirectionTurn(grid: array2<Tile>, visited: array2<bool>, cx: int, cy: int, ds: seq<Dir>, k: int, rng: RandomSource,
                       ghost base: set<(int, int)>, ghost links: set<(int, int)>, ghost links': set<(int, int)>,
                       ghost u0: set<(int, int)>, ghost paths: map<(int, int), seq<(int, int)>>, ghost used0: int)
    returns (ghost paths': map<(int, int), seq<(int, int)>>, ghost links'': set<(int, int)>)
    requires k < |ds| && DirectionsDone(grid, visited, cx, cy, ds, k, base, links, links', u0, paths, rng.used, used0)
    modifies grid, visited, rng
    decreases Unvisited(visited), 3
    ensures DirectionsDone(grid, visited, cx, cy, ds, k + 1, base, links, links'', u0, paths', rng.used, used0) && EmptyKept(grid)
  {
    ghost var h, w := visited.Length0, visited.Length1;
    ghost var u1 := Unvisited(visited);
    assert (cy, cx) !in u1;
    ghost var more;
    more, links'' := CarveToward(grid, visited, cx, cy, ds[k], rng, base, links');
    DirectionDone(u0, u1, Unvisited(visited), h, w, cx, cy, ds, k);
    assert (cy, cx) !in Unvisited(visited);
    forall c, i | c in paths && 0 <= i < |paths[c]| - 1 ensures Passage(grid, paths[c][i], paths[c][i + 1]) {
      assert old(Passage(grid, paths[c][i], paths[c][i + 1]));
    }
    assert u0 - Unvisited(visited) == (u0 - u1) + (u1 - Unvisited(visited));
    assert (u0 - u1) * (u1 - Unvisited(visited)) == {};
    paths' := paths + more;
  }

  /** One turn of carve's direction loop: if the neighbour of (cx, cy) in direction d is inside the
      lattice and unvisited, open the wall between them and carve from the neighbour. */
  method CarveToward(grid: array2<Tile>, visited: array2<bool>, cx: int, cy: int, d: Dir, rng: RandomSource,
                     ghost base: set<(int, int)>, ghost links: set<(int, int)>)
    returns (ghost paths: map<(int, int), seq<(int, int)>>, ghost links': set<(int, int)>)
    requires CarveFrame(grid, visited, base, links)
    requires 0 <= cy < visited.Length0 && 0 <= cx < visited.Length1 && visited[cy, cx]
    modifies grid, visited, rng
    decreases Unvisited(visited), 2
    ensures Unvisited(visited) <= old(Unvisited(visited))
    ensures ClosedOn(Unvisited(visited), visited.Length0, visited.Length1, old(Unvisited(visited)) - Unvisited(visited))
    ensures NeighbourDone(Unvisited(visited), visited.Length0, visited.Length1, cx, cy, d)
    ensures CarveFrame(grid, visited, base, links') && EmptyKept(grid)
    ensures old(0 <= cx + DX(d) < visited.Length1 && 0 <= cy + DY(d) < visited.Length0 && !visited[cy + DY(d), cx + DX(d)]) ==>
      Passage(grid, (cy, cx), (cy + DY(d), cx + DX(d)))
    ensures (forall c :: c in old(Unvisited(visited)) && c !in Unvisited(visited) ==> c in paths) && JoinedFrom(grid, paths, (cy, cx))
    ensures links <= links'
    ensures |links'| + |Unvisited(visited)| <= |links| + |old(Unvisited(visited))|
    ensures rng.used == old(rng.used) + 3 * (|old(Unvisited(visited))| - |Unvisited(visited)|)
  {
    var nx, ny := cx + DX(d), cy + DY(d);
    if 0 <= nx < visited.Length1 && 0 <= ny < visited.Length0 && !visited[ny, nx] {
      assert Adjacent(grid, (cy, cx), (ny, nx));
      paths, links' := CarveThrough(grid, visited, cx, cy, nx, ny, rng, base, links);
    } else {
      assert 0 <= nx < visited.Length1 && 0 <= ny < visited.Length0 ==> (ny, nx) !in Unvisited(visited);
      paths, links' := map[], links;
    }
  }

  /** The step of carve's direction loop into the unvisited neighbour (nx, ny) of (cx, cy): open
      the wall cell between their junctions, then carve from the neighbour. */
  method CarveThrough(grid: array2<Tile>, visited: array2<bool>, cx: int, cy: int, nx: int, ny: int, rng: RandomSource,
                      ghost base: set<(int, int)>, ghost links: set<(int, int)>)
    returns (ghost paths: map<(int, int), seq<(int, int)>>, ghost links': set<(int, int)>)
    requires CarveFrame(grid, visited, base, links) && Adjacent(grid, (cy, cx), (ny, nx))
    requires visited[cy, cx] && !visited[ny, nx]
    modifies grid, visited, rng
    decreases Unvisited(visited), 1
    ensures Unvisited(visited) <= old(Unvisited(visited)) - {(ny, nx)}
    ensures ClosedOn(Unvisited(visited), visited.Length0, visited.Length1, old(Unvisited(visited)) - Unvisited(visited))
    ensures CarveFrame(grid, visited, base, links') && EmptyKept(grid)
    ensures Passage(grid, (cy, cx), (ny, nx))
    ensures (forall c :: c in old(Unvisited(visited)) && c !in Unvisited(visited) ==> c in paths) && JoinedFrom(grid, paths, (cy, cx))
    ensures links <= links'
    ensures |links'| + |Unvisited(visited)| <= |links| + |old(Unvisited(visited))|
    ensures rng.used == old(rng.used) + 3 * (|old(Unvisited(visited))| - |Unvisited(visited)|)
  {
    // the wall cell (2 cy + 1 + dy, 2 cx + 1 + dx), between the two junctions
    var wy, wx := cy + ny + 1, cx + nx + 1;
    assert InCarveRegion(grid, wy, wx);
    ghost var u0 := Unvisited(visited);
    CarveShapeMore(grid, base, links, (wy, wx));
    OpenCell(grid, wy, wx, base, links + {(wy, wx)});
    assert grid[wy, wx] == Empty && Unvisited(visited) == u0;
    ghost var from;
    from, links' := Carve(grid, visited, nx, ny, rng, base, links + {(wy, wx)});
    assert grid[wy, wx] == Empty;
    assert Passage(grid, (cy, cx), (ny, nx));
    PrependedJoins(grid, from, (cy, cx), (ny, nx));
    paths := Prepended(from, (cy, cx));
  }

  /** Every visited cell of the h x w lattice has all its neighbours visited. */
  ghost predicate VisitedClosed(u: set<(int, int)>, h: int, w: int)
  {
    forall y, x {:trigger NeighboursDone(u, h, w, x, y)} ::
      0 <= y < h && 0 <= x < w && (y, x) !in u ==> NeighboursDone(u, h, w, x, y)
  }

  /** When the visited cells are closed and include the origin (0, 0), every cell is visited:
      (y, x) is reached along row 0 and then down column x. */
  lemma {:induction false} ReachedFromOrigin(u: set<(int, int)>, h: int, w: int, y: int, x: int)
    requires (0, 0) !in u && VisitedClosed(u, h, w)
    requires 0 <= y < h && 0 <= x < w
    ensures (y, x) !in u
    decreases y, x
  {
    if y > 0 {
      ReachedFromOrigin(u, h, w, y - 1, x);
      assert NeighboursDone(u, h, w, x, y - 1);
    } else if x > 0 {
      ReachedFromOrigin(u, h, w, y, x - 1);
      assert NeighboursDone(u, h, w, x - 1, y);
    }
  }

  /** The coarse cells of row y of a lattice w cells wide. */
  ghost function RowCells(y: int, w: int): set<(int, int)>
  {
    set x | 0 <= x < w :: (y, x)
  }

  lemma {:induction false} RowCellsSize(y: int, w: nat)
    ensures |RowCells(y, w)| == w
  {
    if w > 0 {
      RowCellsSize(y, w - 1);
      assert RowCells(y, w) == RowCells(y, w - 1) + {(y, w - 1)};
    }
  }

  /** The lattice h rows high is the one a row lower plus its last row. */
  lemma AllCellsSplit(h: int, w: int)
    requires h > 0
    ensures AllCells(h, w) == AllCells(h - 1, w) + RowCells(h - 1, w)
    ensures AllCells(h - 1, w) * RowCells(h - 1, w) == {}
  {
    forall p | p in AllCells(h, w) ensures p in AllCells(h - 1, w) + RowCells(h - 1, w) {
      if p.0 < h - 1 {
        assert p in AllCells(h - 1, w);
      } else {
        assert p in RowCells(h - 1, w);
      }
    }
  }

  /** An h x w lattice has h * w coarse cells. */
  lemma {:induction false} AllCellsSize(h: nat, w: nat)
    ensures |AllCells(h, w)| == h * w
  {
    if h > 0 {
      AllCellsSize(h - 1, w);
      RowCellsSize(h - 1, w);
      AllCellsSplit(h, w);
      assert (h - 1) * w + w == h * w;
    }
  }

  /** Once the carve from (0, 0) is over, no coarse cell is left unvisited. */
  lemma CarveVisitsAll(u: set<(int, int)>, h: int, w: int)
    requires (0, 0) !in u && u <= AllCells(h, w)
    requires ClosedOn(u, h, w, AllCells(h, w) - u)
    ensures u == {}
  {
    forall y, x | 0 <= y < h && 0 <= x < w && (y, x) !in u ensures NeighboursDone(u, h, w, x, y) {
      assert (y, x) in AllCells(h, w) - u;
    }
    forall p | p in u ensures false {
      ReachedFromOrigin(u, h, w, p.0, p.1);
    }
  }

  /** floor(mCols * mRows * 0.15): the number of perforation attempts. */
  function PerforationAttempts(mCols: int, mRows: int): (n: int)
    ensures mCols >= 0 && mRows >= 0 ==> 0 <= n && 100 * n <= 15 * mCols * mRows < 100 * (n + 1)
  {
    mCols * mRows * 15 / 100
  }

  /** The largest coordinate randInt(1, dim - 2) can return: dim - 2, or 1 when dim is 2. */
  function SampleMax(dim: int): int
  {
    if dim >= 3 then dim - 2 else 1
  }

  /** The cells perforation can pick. */
  ghost predicate InSampleRange(grid: array2<Tile>, y: int, x: int)
  {
    1 <= y <= SampleMax(grid.Length0) && 1 <= x <= SampleMax(grid.Length1)
  }

  /** How many of the four orthogonal neighbours of (x, y) lie inside the grid and are Empty;
      a neighbour outside the grid reads as undefined in the source and is not counted. */
  function EmptyNeighbours(grid: array2<Tile>, x: int, y: int): (n: nat)
    reads grid
    ensures n <= 4
    ensures n == 4 ==> Open(grid, x, y - 1) && Open(grid, x, y + 1) && Open(grid, x - 1, y) && Open(grid, x + 1, y)
  {
    (if InBounds(grid, x, y - 1) && grid[y - 1, x] == Empty then 1 else 0) +
    (if InBounds(grid, x, y + 1) && grid[y + 1, x] == Empty then 1 else 0) +
    (if InBounds(grid, x - 1, y) && grid[y, x - 1] == Empty then 1 else 0) +
    (if InBounds(grid, x + 1, y) && grid[y, x + 1] == Empty then 1 else 0)
  }

  /** The cell (row, column) the i-th perforation attempt picks when the pass starts drawing at
      draw(k): the column is drawn first, then the row. */
  function PerforationSample(draw: nat -> UnitInterval, k: nat, i: nat, rows: int, cols: int): (s: (int, int))
    ensures rows >= 2 && cols >= 2 ==> 1 <= s.0 <= SampleMax(rows) && 1 <= s.1 <= SampleMax(cols)
  {
    (RandInt(1, rows - 2, draw(k + 2 * i + 1)), RandInt(1, cols - 2, draw(k + 2 * i)))
  }

  /** One perforation attempt at (rx, ry): a Wall cell with at least two Empty neighbours at this
      moment is opened; anything else is left as it is. */
  method TryOpen(grid: array2<Tile>, rx: int, ry: int) returns (done: bool)
    requires InBounds(grid, rx, ry)
    modifies grid
    ensures done == (old(grid[ry, rx]) == Wall && old(EmptyNeighbours(grid, rx, ry)) >= 2)
    ensures forall y, x :: 0 <= y < grid.Length0 && 0 <= x < grid.Length1 ==>
      grid[y, x] == if done && y == ry && x == rx then Empty else old(grid[y, x])
  {
    done := false;
    if grid[ry, rx] == Wall {
      if EmptyNeighbours(grid, rx, ry) >= 2 {
        grid[ry, rx] := Empty;
        done := true;
      }
    }
  }

  /** One perforation attempt: draw the column, then the row, of a cell in [1, dim - 2] and try
      to open it. */
  method Attempt(grid: array2<Tile>, rng: RandomSource) returns (ry: int, rx: int, o: bool)
    requires grid.Length0 >= 2 && grid.Length1 >= 2
    modifies grid, rng
    ensures (ry, rx) == PerforationSample(rng.draw, old(rng.used), 0, grid.Length0, grid.Length1)
    ensures rng.used == old(rng.used) + 2
    ensures o == (old(grid[ry, rx]) == Wall && old(EmptyNeighbours(grid, rx, ry)) >= 2)
    ensures forall y, x :: 0 <= y < grid.Length0 && 0 <= x < grid.Length1 ==>
      grid[y, x] == if o && y == ry && x == rx then Empty else old(grid[y, x])
    ensures forall p: (int, int) {:trigger EmptyNeighbours(grid, p.1, p.0)} ::
      old(EmptyNeighbours(grid, p.1, p.0)) <= EmptyNeighbours(grid, p.1, p.0)
  {
    rx := rng.Int(1, grid.Length1 - 2);
    ry := rng.Int(1, grid.Length0 - 2);
    o := TryOpen(grid, rx, ry);
  }

  /** The first n attempts, drawing from draw(k) on, whose cell is a Wall with two Empty
      neighbours in grid as it stands. */
  ghost function Eligible(grid: array2<Tile>, draw: nat -> UnitInterval, k: nat, n: nat): (e: set<nat>)
    reads grid
    requires grid.Length0 >= 2 && grid.Length1 >= 2
    ensures forall j: nat :: j in e <==> (j < n &&
      var s := PerforationSample(draw, k, j, grid.Length0, grid.Length1);
      grid[s.0, s.1] == Wall && EmptyNeighbours(grid, s.1, s.0) >= 2)
  {
    set j: nat | j < n &&
      var s := PerforationSample(draw, k, j, grid.Length0, grid.Length1);
      grid[s.0, s.1] == Wall && EmptyNeighbours(grid, s.1, s.0) >= 2
  }

  /** Every hole is the cell of one of the first n attempts. */
  ghost predicate HolesSampled(holes: set<(int, int)>, draw: nat -> UnitInterval, k: nat, n: nat, rows: int, cols: int)
  {
    forall p :: p in holes ==> exists j :: 0 <= j < n && p == PerforationSample(draw, k, j, rows, cols)
  }

  /** Every attempt in eligible has its cell open already, or is still to come (from attempt n on)
      with its cell a Wall with two Empty neighbours. */
  ghost predicate EligiblePending(grid: array2<Tile>, eligible: set<nat>, draw: nat -> UnitInterval, k: nat, n: nat)
    reads grid
    requires grid.Length0 >= 2 && grid.Length1 >= 2
  {
    forall j :: j in eligible ==> var s := PerforationSample(draw, k, j, grid.Length0, grid.Length1);
      grid[s.0, s.1] == Empty || (j >= n && grid[s.0, s.1] == Wall && EmptyNeighbours(grid, s.1, s.0) >= 2)
  }

  /** Every hole has at least two Empty neighbours. */
  ghost predicate HolesSupported(grid: array2<Tile>, holes: set<(int, int)>)
    reads grid
  {
    forall p {:trigger EmptyNeighbours(grid, p.1, p.0)} :: p in holes ==> EmptyNeighbours(grid, p.1, p.0) >= 2
  }

  /** g holds the tiles of grid, row by row. */
  ghost predicate Depicts(g: seq<seq<Tile>>, grid: array2<Tile>)
    reads grid
  {
    |g| == grid.Length0 &&
    forall i :: 0 <= i < |g| ==> |g[i]| == grid.Length1 && forall j :: 0 <= j < |g[i]| ==> g[i][j] == grid[i, j]
  }

  /** The tiles of grid as they stand, as a value that later states of the grid can be compared
      with. */
  ghost function Snapshot(grid: array2<Tile>): (g: seq<seq<Tile>>)
    reads grid
    ensures Depicts(g, grid)
  {
    seq(grid.Length0, i reads grid requires 0 <= i < grid.Length0 =>
      seq(grid.Length1, j reads grid requires 0 <= j < grid.Length1 => grid[i, j]))
  }

  /** Whether (y, x) is a cell of g that is Empty there or is one of holes. */
  predicate OpenedIn(g: seq<seq<Tile>>, holes: set<(int, int)>, y: int, x: int)
  {
    0 <= y < |g| && 0 <= x < |g[y]| && (g[y][x] == Empty || (y, x) in holes)
  }

  /** EmptyNeighbours of (x, y) in the tiles g once the cells of holes are opened as well. */
  function HoledNeighbours(g: seq<seq<Tile>>, holes: set<(int, int)>, x: int, y: int): (n: nat)
    ensures n <= 4
  {
    (if OpenedIn(g, holes, y - 1, x) then 1 else 0) +
    (if OpenedIn(g, holes, y + 1, x) then 1 else 0) +
    (if OpenedIn(g, holes, y, x - 1) then 1 else 0) +
    (if OpenedIn(g, holes, y, x + 1) then 1 else 0)
  }

  /** The cells of the first n perforation attempts when the pass starts drawing at draw(k). */
  function PerforationSamples(draw: nat -> UnitInterval, k: nat, n: nat, rows: int, cols: int): seq<(int, int)>
  {
    seq(n, i requires 0 <= i < n => PerforationSample(draw, k, i, rows, cols))
  }

  /** The cells that attempts at the cells samples, in order, open when the pass starts on the
      tiles g. An attempt opens its cell when that is a Wall of g that no earlier attempt opened
      and has at least two neighbours that are Empty in g or were opened by an earlier attempt. */
  function PerforatedHoles(g: seq<seq<Tile>>, samples: seq<(int, int)>): (h: set<(int, int)>)
    ensures |h| <= |samples|
    decreases |samples|
  {
    if |samples| == 0 then {}
    else
      var h := PerforatedHoles(g, samples[..|samples| - 1]);
      var s := samples[|samples| - 1];
      if 0 <= s.0 < |g| && 0 <= s.1 < |g[s.0]| && g[s.0][s.1] == Wall && s !in h && HoledNeighbours(g, h, s.1, s.0) >= 2
      then h + {s}
      else h
  }

  /** holes are the cells the perforation pass of generateMaze opens on the tiles g, a grid of
      rows x cols, when it starts drawing at draw(k). */
  predicate PerforatedBy(g: seq<seq<Tile>>, rows: nat, cols: nat, draw: nat -> UnitInterval, k: nat, holes: set<(int, int)>)
  {
    holes == PerforatedHoles(g, PerforationSamples(draw, k, PerforationAttempts(cols / 2, rows / 2), rows, cols))
  }

  /** Every cell the pass opens is a Wall of the tiles it starts on. */
  lemma {:induction false} PerforatedHolesWalls(g: seq<seq<Tile>>, samples: seq<(int, int)>)
    ensures forall p :: p in PerforatedHoles(g, samples) ==> 0 <= p.0 < |g| && 0 <= p.1 < |g[p.0]| && g[p.0][p.1] == Wall
    decreases |samples|
  {
    if |samples| > 0 {
      PerforatedHolesWalls(g, samples[..|samples| - 1]);
    }
  }

  /** Every cell the pass opens is the cell of one of its attempts. */
  lemma {:induction false} PerforatedHolesSampled(g: seq<seq<Tile>>, samples: seq<(int, int)>)
    ensures forall p :: p in PerforatedHoles(g, samples) ==> p in samples
    decreases |samples|
  {
    if |samples| > 0 {
      var init := samples[..|samples| - 1];
      PerforatedHolesSampled(g, init);
      forall p | p in PerforatedHoles(g, samples) ensures p in samples {
        if p in init {
          var j :| 0 <= j < |init| && init[j] == p;
          assert samples[j] == p;
        }
      }
    }
  }

  /** grid is the tiles g with the cells of holes opened and nothing else changed. */
  ghost predicate HoledFrom(grid: array2<Tile>, g: seq<seq<Tile>>, holes: set<(int, int)>)
    reads grid
  {
    |g| == grid.Length0 && (forall i :: 0 <= i < |g| ==> |g[i]| == grid.Length1) &&
    forall y, x :: 0 <= y < grid.Length0 && 0 <= x < grid.Length1 ==>
      grid[y, x] == if (y, x) in holes then Empty else g[y][x]
  }

  /** Opening holes that are inside g makes the grid's Empty neighbours those that HoledNeighbours
      counts. */
  lemma HoledCounts(grid: array2<Tile>, g: seq<seq<Tile>>, holes: set<(int, int)>, x: int, y: int)
    requires HoledFrom(grid, g, holes)
    requires forall p :: p in holes ==> 0 <= p.0 < grid.Length0 && 0 <= p.1 < grid.Length1
    ensures EmptyNeighbours(grid, x, y) == HoledNeighbours(g, holes, x, y)
  {
    assert InBounds(grid, x, y - 1) && grid[y - 1, x] == Empty <==> OpenedIn(g, holes, y - 1, x);
    assert InBounds(grid, x, y + 1) && grid[y + 1, x] == Empty <==> OpenedIn(g, holes, y + 1, x);
    assert InBounds(grid, x - 1, y) && grid[y, x - 1] == Empty <==> OpenedIn(g, holes, y, x - 1);
    assert InBounds(grid, x + 1, y) && grid[y, x + 1] == Empty <==> OpenedIn(g, holes, y, x + 1);
  }

  /** On a grid that is g with the holes opened, the source's test for a cell inside the grid is
      the test PerforatedHoles makes on g. */
  lemma HoledTest(grid: array2<Tile>, g: seq<seq<Tile>>, holes: set<(int, int)>, y: int, x: int)
    requires HoledFrom(grid, g, holes) && 0 <= y < grid.Length0 && 0 <= x < grid.Length1
    requires forall p :: p in holes ==> 0 <= p.0 < |g| && 0 <= p.1 < |g[p.0]| && g[p.0][p.1] == Wall
    ensures (grid[y, x] == Wall && EmptyNeighbours(grid, x, y) >= 2) ==
      (g[y][x] == Wall && (y, x) !in holes && HoledNeighbours(g, holes, x, y) >= 2)
  {
    forall p | p in holes ensures 0 <= p.0 < grid.Length0 && 0 <= p.1 < grid.Length1 {
    }
    HoledCounts(grid, g, holes, x, y);
  }

  /** One attempt more: the pass opens the sample of attempt i exactly when, in g with the
      earlier holes opened, the cell is a Wall with at least two Empty neighbours. */
  lemma PerforatedNext(g: seq<seq<Tile>>, samples: seq<(int, int)>, i: nat, holes: set<(int, int)>, o: bool)
    requires i < |samples| && holes == PerforatedHoles(g, samples[..i])
    requires var s := samples[i];
      0 <= s.0 < |g| && 0 <= s.1 < |g[s.0]| &&
      o == (g[s.0][s.1] == Wall && s !in holes && HoledNeighbours(g, holes, s.1, s.0) >= 2)
    ensures PerforatedHoles(g, samples[..i + 1]) == if o then holes + {samples[i]} else holes
  {
    assert samples[..i + 1][..i] == samples[..i];
  }

  /** The tiles g with no cell changed, the grid as snapshot: the Empty cells of g are those
      CarveShape allows. */
  lemma SnapshotShape(grid: array2<Tile>, base: set<(int, int)>, links: set<(int, int)>, g: seq<seq<Tile>>)
    requires CarveShape(grid, base, links) && Depicts(g, grid)
    ensures forall y, x :: 0 <= y < |g| && 0 <= x < |g[y]| ==>
      (g[y][x] == Empty || g[y][x] == Wall) && (g[y][x] == Empty ==> (y, x) in base || (y, x) in links)
  {
  }

  /** A grid that is the carved tiles with the holes opened is made of Wall and Empty, and every
      Empty cell is a junction, a link or a hole. */
  lemma HoledCarvedBy(grid: array2<Tile>, g: seq<seq<Tile>>, links: set<(int, int)>, holes: set<(int, int)>)
    requires HoledFrom(grid, g, holes)
    requires forall y, x :: 0 <= y < |g| && 0 <= x < |g[y]| ==>
      (g[y][x] == Empty || g[y][x] == Wall) && (g[y][x] == Empty ==> (y, x) in Junctions(grid) || (y, x) in links)
    ensures OnlyWallOrEmpty(grid) && CarvedBy(grid, links, holes)
  {
    forall y, x | 0 <= y < grid.Length0 && 0 <= x < grid.Length1 ensures grid[y, x] == Empty || grid[y, x] == Wall {
      assert |g[y]| == grid.Length1;
    }
    forall y, x | 0 <= y < grid.Length0 && 0 <= x < grid.Length1 && grid[y, x] == Empty
      ensures (y, x) in Junctions(grid) || (y, x) in links || (y, x) in holes
    {
      assert |g[y]| == grid.Length1;
    }
  }

  /** Attempt number n of the pass, together with what it does to the holes opened so far. */
  method PerforationTurn(grid: array2<Tile>, rng: RandomSource, n: nat, ghost k: nat, ghost eligible: set<nat>,
                         ghost holes: set<(int, int)>)
    returns (ry: int, rx: int, o: bool, ghost holes': set<(int, int)>)
    requires grid.Length0 >= 2 && grid.Length1 >= 2 && rng.used == k + 2 * n
    requires HolesSampled(holes, rng.draw, k, n, grid.Length0, grid.Length1)
    requires EligiblePending(grid, eligible, rng.draw, k, n) && HolesSupported(grid, holes)
    modifies grid, rng
    ensures (ry, rx) == PerforationSample(rng.draw, k, n, grid.Length0, grid.Length1)
    ensures rng.used == old(rng.used) + 2
    ensures holes' == if o then holes + {(ry, rx)} else holes
    ensures o == (old(grid[ry, rx]) == Wall && old(EmptyNeighbours(grid, rx, ry)) >= 2)
    ensures forall y, x :: 0 <= y < grid.Length0 && 0 <= x < grid.Length1 ==>
      grid[y, x] == if o && y == ry && x == rx then Empty else old(grid[y, x])
    ensures HolesSampled(holes', rng.draw, k, n + 1, grid.Length0, grid.Length1)
    ensures EligiblePending(grid, eligible, rng.draw, k, n + 1) && HolesSupported(grid, holes')
  {
    ghost var draw := rng.draw;
    ry, rx, o := Attempt(grid, rng);
    assert (ry, rx) == PerforationSample(draw, k, n, grid.Length0, grid.Length1);
    holes' := if o then holes + {(ry, rx)} else holes;
    forall j | j in eligible ensures var s := PerforationSample(draw, k, j, grid.Length0, grid.Length1);
      grid[s.0, s.1] == Empty || (j >= n + 1 && grid[s.0, s.1] == Wall && EmptyNeighbours(grid, s.1, s.0) >= 2)
    {
      var s := PerforationSample(draw, k, j, grid.Length0, grid.Length1);
      if j == n {
        assert s == (ry, rx);
      } else if old(grid[s.0, s.1]) != Empty {
        assert old(EmptyNeighbours(grid, s.1, s.0)) >= 2;
      }
    }
    forall p | p in holes' ensures EmptyNeighbours(grid, p.1, p.0) >= 2 {
      assert old(EmptyNeighbours(grid, p.1, p.0)) >= 2;
    }
  }

  /** Where the perforation loop stands after n attempts on the cells samples, the draws of the
      attempts starting at k: the holes are exactly PerforatedHoles of the first n cells, each
      one of the n attempts' cells with two Empty neighbours, the grid is the starting tiles g0
      with exactly those holes opened, and every eligible attempt from n on is still pending. */
  ghost predicate PerforatedUpTo(grid: array2<Tile>, eligible: set<nat>, draw: nat -> UnitInterval, k: nat, n: nat,
                                 g0: seq<seq<Tile>>, samples: seq<(int, int)>, holes: set<(int, int)>)
    reads grid
    requires grid.Length0 >= 2 && grid.Length1 >= 2
  {
    && n <= |samples|
    && holes == PerforatedHoles(g0, samples[..n]) && HoledFrom(grid, g0, holes)
    && HolesSampled(holes, draw, k, n, grid.Length0, grid.Length1)
    && EligiblePending(grid, eligible, draw, k, n) && HolesSupported(grid, holes)
  }

  /** Attempt number n of the pass on a grid that is the tiles g0 with the earlier attempts' holes
      opened: afterwards it is g0 with the holes of n + 1 attempts opened. */
  method PerforationStep(grid: array2<Tile>, rng: RandomSource, n: nat, ghost k: nat, ghost eligible: set<nat>,
                         ghost g0: seq<seq<Tile>>, ghost samples: seq<(int, int)>, ghost holes: set<(int, int)>)
    returns (ghost holes': set<(int, int)>)
    requires grid.Length0 >= 2 && grid.Length1 >= 2 && rng.used == k + 2 * n
    requires HolesSampled(holes, rng.draw, k, n, grid.Length0, grid.Length1)
    requires EligiblePending(grid, eligible, rng.draw, k, n) && HolesSupported(grid, holes)
    requires n < |samples| && samples[n] == PerforationSample(rng.draw, k, n, grid.Length0, grid.Length1)
    requires holes == PerforatedHoles(g0, samples[..n]) && HoledFrom(grid, g0, holes)
    modifies grid, rng
    ensures rng.used == old(rng.used) + 2
    ensures holes' == PerforatedHoles(g0, samples[..n + 1]) && HoledFrom(grid, g0, holes')
    ensures HolesSampled(holes', rng.draw, k, n + 1, grid.Length0, grid.Length1)
    ensures EligiblePending(grid, eligible, rng.draw, k, n + 1) && HolesSupported(grid, holes')
  {
    ghost var s := samples[n];
    PerforatedHolesWalls(g0, samples[..n]);
    HoledTest(grid, g0, holes, s.0, s.1);
    var ry, rx, o;
    ry, rx, o, holes' := PerforationTurn(grid, rng, n, k, eligible, holes);
    PerforatedNext(g0, samples, n, holes, o);
    forall y, x | 0 <= y < grid.Length0 && 0 <= x < grid.Length1
      ensures grid[y, x] == if (y, x) in holes' then Empty else g0[y][x]
    {
      assert old(grid[y, x]) == if (y, x) in holes then Empty else g0[y][x];
      if o && y == ry && x == rx {
        assert (y, x) in holes';
      } else {
        assert grid[y, x] == old(grid[y, x]);
        assert (y, x) in holes' <==> (y, x) in holes;
      }
    }
  }

  /** PerforationStep on the loop's state PerforatedUpTo: n attempts become n + 1. */
  method PerforationAdvance(grid: array2<Tile>, rng: RandomSource, n: nat, ghost k: nat, ghost eligible: set<nat>,
                            ghost g0: seq<seq<Tile>>, ghost samples: seq<(int, int)>, ghost holes: set<(int, int)>)
    returns (ghost holes': set<(int, int)>)
    requires grid.Length0 >= 2 && grid.Length1 >= 2 && rng.used == k + 2 * n
    requires n < |samples| && samples[n] == PerforationSample(rng.draw, k, n, grid.Length0, grid.Length1)
    requires PerforatedUpTo(grid, eligible, rng.draw, k, n, g0, samples, holes)
    modifies grid, rng
    ensures rng.used == old(rng.used) + 2
    ensures PerforatedUpTo(grid, eligible, rng.draw, k, n + 1, g0, samples, holes')
  {
    holes' := PerforationStep(grid, rng, n, k, eligible, g0, samples, holes);
  }

  /** The loop of the perforation pass: attempts turns of PerforationStep, each on the next
      sample of samples. */
  method PerforationTurns(grid: array2<Tile>, rng: RandomSource, attempts: nat, ghost eligible: set<nat>,
                          ghost g0: seq<seq<Tile>>, ghost samples: seq<(int, int)>)
    returns (ghost holes: set<(int, int)>)
    requires grid.Length0 >= 2 && grid.Length1 >= 2
    requires EligiblePending(grid, eligible, rng.draw, rng.used, 0) && Depicts(g0, grid)
    requires samples == PerforationSamples(rng.draw, rng.used, attempts, grid.Length0, grid.Length1)
    modifies grid, rng
    ensures rng.used == old(rng.used) + 2 * attempts && |holes| <= attempts
    ensures HolesSampled(holes, rng.draw, old(rng.used), attempts, grid.Length0, grid.Length1)
    ensures EligiblePending(grid, eligible, rng.draw, old(rng.used), attempts) && HolesSupported(grid, holes)
    ensures holes == PerforatedHoles(g0, samples) && HoledFrom(grid, g0, holes)
  {
    holes := {};
    ghost var k0 := rng.used;
    var i := 0;
    assert HoledFrom(grid, g0, holes) && samples[..0] == [];
    while i < attempts
      invariant 0 <= i <= attempts && rng.used == k0 + 2 * i
      invariant PerforatedUpTo(grid, eligible, rng.draw, k0, i, g0, samples, holes)
    {
      holes := PerforationAdvance(grid, rng, i, k0, eligible, g0, samples, holes);
      i := i + 1;
    }
    assert samples[..attempts] == samples;
  }

  /** The loop of the perforation pass, from attempt 0 to attempts - 1, given the attempts whose
      cells qualify before it starts. */
  method PerforationLoop(grid: array2<Tile>, rng: RandomSource, attempts: nat, ghost eligible: set<nat>,
                         ghost g0: seq<seq<Tile>>)
    returns (ghost holes: set<(int, int)>)
    requires grid.Length0 >= 2 && grid.Length1 >= 2
    requires EligiblePending(grid, eligible, rng.draw, rng.used, 0) && Depicts(g0, grid)
    modifies grid, rng
    ensures holes == PerforatedHoles(g0, PerforationSamples(rng.draw, old(rng.used), attempts, grid.Length0, grid.Length1))
    ensures HoledFrom(grid, g0, holes)
    ensures |holes| <= attempts
    ensures HolesSampled(holes, rng.draw, old(rng.used), attempts, grid.Length0, grid.Length1)
    ensures EligiblePending(grid, eligible, rng.draw, old(rng.used), attempts) && HolesSupported(grid, holes)
    ensures forall y, x :: 0 <= y < grid.Length0 && 0 <= x < grid.Length1 ==>
      grid[y, x] == old(grid[y, x]) || ((y, x) in holes && old(grid[y, x]) == Wall && grid[y, x] == Empty)
    ensures forall p :: p in holes ==> InSampleRange(grid, p.0, p.1)
    ensures EmptyKept(grid)
    ensures grid.Length0 >= 3 && grid.Length1 >= 3 && old(BorderIsWall(grid)) ==> BorderIsWall(grid)
    ensures rng.used == old(rng.used) + 2 * attempts
  {
    ghost var k0 := rng.used;
    ghost var samples := PerforationSamples(rng.draw, k0, attempts, grid.Length0, grid.Length1);
    holes := PerforationTurns(grid, rng, attempts, eligible, g0, samples);
    forall p | p in holes ensures InSampleRange(grid, p.0, p.1) {
      var j :| 0 <= j < attempts && p == PerforationSample(rng.draw, k0, j, grid.Length0, grid.Length1);
    }
    PerforatedHolesWalls(g0, samples);
    forall y, x | 0 <= y < grid.Length0 && 0 <= x < grid.Length1
      ensures grid[y, x] == old(grid[y, x]) || ((y, x) in holes && old(grid[y, x]) == Wall && grid[y, x] == Empty)
    {
      assert g0[y][x] == old(grid[y, x]);
    }
  }

  /** The perforation pass: floor(mCols * mRows * 0.15) attempts at random interior cells. It only
      ever turns Wall into Empty, only at the sampled cells, and opens at most one cell per
      attempt; holes collects the cells it opened. Every sampled cell that was already a Wall with
      two Empty neighbours before the pass is opened, and every opened cell has two Empty
      neighbours afterwards. */
  method Perforate(grid: array2<Tile>, rng: RandomSource) returns (ghost holes: set<(int, int)>)
    requires grid.Length0 >= 2 && grid.Length1 >= 2
    modifies grid, rng
    ensures holes == PerforatedHoles(old(Snapshot(grid)),
      PerforationSamples(rng.draw, old(rng.used), PerforationAttempts(grid.Length1 / 2, grid.Length0 / 2), grid.Length0, grid.Length1))
    ensures HoledFrom(grid, old(Snapshot(grid)), holes)
    ensures |holes| <= PerforationAttempts(grid.Length1 / 2, grid.Length0 / 2)
    ensures forall p :: p in holes ==> InSampleRange(grid, p.0, p.1)
    ensures HolesSampled(holes, rng.draw, old(rng.used), PerforationAttempts(grid.Length1 / 2, grid.Length0 / 2), grid.Length0, grid.Length1)
    ensures forall i :: 0 <= i < PerforationAttempts(grid.Length1 / 2, grid.Length0 / 2) ==>
      var s := PerforationSample(rng.draw, old(rng.used), i, grid.Length0, grid.Length1);
      old(grid[s.0, s.1]) == Wall && old(EmptyNeighbours(grid, s.1, s.0)) >= 2 ==> s in holes && grid[s.0, s.1] == Empty
    ensures HolesSupported(grid, holes)
    ensures forall y, x :: 0 <= y < grid.Length0 && 0 <= x < grid.Length1 ==>
      grid[y, x] == old(grid[y, x]) || ((y, x) in holes && old(grid[y, x]) == Wall && grid[y, x] == Empty)
    ensures EmptyKept(grid)
    ensures grid.Length0 >= 3 && grid.Length1 >= 3 && old(BorderIsWall(grid)) ==> BorderIsWall(grid)
    ensures rng.used == old(rng.used) + 2 * PerforationAttempts(grid.Length1 / 2, grid.Length0 / 2)
  {
    var cols, rows := grid.Length1, grid.Length0;
    var attempts := PerforationAttempts(cols / 2, rows / 2);
    ghost var k0, draw := rng.used, rng.draw;
    ghost var eligible := Eligible(grid, draw, k0, attempts);
    ghost var g0 := Snapshot(grid);
    holes := PerforationLoop(grid, rng, attempts, eligible, g0);
    forall j | 0 <= j < attempts
      ensures var s := PerforationSample(draw, k0, j, rows, cols);
        old(grid[s.0, s.1]) == Wall && old(EmptyNeighbours(grid, s.1, s.0)) >= 2 ==> s in holes && grid[s.0, s.1] == Empty
    {
      var s := PerforationSample(draw, k0, j, rows, cols);
      if old(grid[s.0, s.1]) == Wall && old(EmptyNeighbours(grid, s.1, s.0)) >= 2 {
        assert j in eligible;
        assert grid[s.0, s.1] == Empty;
        assert g0[s.0][s.1] == Wall;
      }
    }
  }

  /** carve(0, 0) on a fresh all-false visited table: afterwards every junction is open, and
      every cell is Empty or Wall with the Empty ones inside the carve region, and every coarse
      cell is reached from (0, 0) through opened passages. */
  method CarveFromOrigin(grid: array2<Tile>, rng: RandomSource, ghost base: set<(int, int)>)
    returns (ghost paths: map<(int, int), seq<(int, int)>>, ghost links: set<(int, int)>)
    requires grid.Length0 >= 2 && grid.Length1 >= 2 && CarveShape(grid, base, {}) && Junctions(grid) <= base
    modifies grid, rng
    ensures CarveShape(grid, base, links) && JunctionsOpen(grid) && Spanning(grid, paths)
    ensures grid.Length0 % 2 == 1 && grid.Length1 % 2 == 1 ==> BorderIsWall(grid)
    ensures |links| < (grid.Length0 / 2) * (grid.Length1 / 2)
    ensures rng.used == old(rng.used) + 3 * ((grid.Length0 / 2) * (grid.Length1 / 2))
  {
    var mCols, mRows := grid.Length1 / 2, grid.Length0 / 2;
    var visited := new bool[mRows, mCols]((_, _) => false);
    assert Unvisited(visited) == AllCells(mRows, mCols);
    assert JunctionsOfVisited(grid, visited);
    paths, links := Carve(grid, visited, 0, 0, rng, base, {});
    AllCellsSize(mRows, mCols);
    CarveVisitsAll(Unvisited(visited), mRows, mCols);
    forall r, c | 0 <= r < mRows && 0 <= c < mCols ensures grid[2 * r + 1, 2 * c + 1] == Empty {
      assert (r, c) !in Unvisited(visited);
    }
    forall c | InLattice(grid, c) ensures c in paths {
      assert c in AllCells(mRows, mCols);
    }
    if grid.Length0 % 2 == 1 && grid.Length1 % 2 == 1 {
      ShapeBorder(grid, base, links);
    }
  }

  /** With odd dimensions the carve region leaves out the outer ring, so a grid of the carve's
      shape has a Wall border. */
  lemma ShapeBorder(grid: array2<Tile>, base: set<(int, int)>, links: set<(int, int)>)
    requires CarveShape(grid, base, links) && grid.Length0 % 2 == 1 && grid.Length1 % 2 == 1
    ensures BorderIsWall(grid)
  {
    assert 2 * (grid.Length0 / 2) - 1 == grid.Length0 - 2 && 2 * (grid.Length1 / 2) - 1 == grid.Length1 - 2;
  }

  /** The perforation pass on a carved grid, whose tiles before the pass are carved: it opens
      only its holes, keeps every walk of the carve, and leaves every Empty cell a junction, a
      link or a hole. */
  method PerforateCarved(grid: array2<Tile>, rng: RandomSource, ghost paths: map<(int, int), seq<(int, int)>>,
                         ghost links: set<(int, int)>)
    returns (ghost holes: set<(int, int)>, ghost carved: seq<seq<Tile>>)
    requires grid.Length0 >= 2 && grid.Length1 >= 2 && Spanning(grid, paths)
    requires CarveShape(grid, Junctions(grid), links) && JunctionsOpen(grid)
    requires |links| < (grid.Length0 / 2) * (grid.Length1 / 2)
    modifies grid, rng
    ensures carved == old(Snapshot(grid))
    ensures forall y, x :: 0 <= y < grid.Length0 && 0 <= x < grid.Length1 && carved[y][x] == Empty ==>
      (y, x) in Junctions(grid) || (y, x) in links
    ensures OnlyWallOrEmpty(grid) && CarvedBy(grid, links, holes)
    ensures Spanning(grid, paths) && Connected(grid)
    ensures PerforatedBy(carved, grid.Length0, grid.Length1, rng.draw, old(rng.used), holes)
    ensures HoledFrom(grid, carved, holes)
    ensures |holes| <= PerforationAttempts(grid.Length1 / 2, grid.Length0 / 2) && CarvedWithin(grid)
    ensures JunctionsOpen(grid)
    ensures grid.Length0 >= 3 && grid.Length1 >= 3 && old(BorderIsWall(grid)) ==> BorderIsWall(grid)
    ensures rng.used == old(rng.used) + 2 * PerforationAttempts(grid.Length1 / 2, grid.Length0 / 2)
  {
    carved := Snapshot(grid);
    SnapshotShape(grid, Junctions(grid), links, carved);
    holes := Perforate(grid, rng);
    HoledCarvedBy(grid, carved, links, holes);
    forall c, i | c in paths && 0 <= i < |paths[c]| - 1 ensures Passage(grid, paths[c][i], paths[c][i + 1]) {
      assert old(Passage(grid, paths[c][i], paths[c][i + 1]));
    }
    SpanningIsConnected(grid, paths);
  }

  /** The draws generateMaze takes: three for the shuffle of each coarse cell carve visits, then
      two for each perforation attempt. */
  function MazeDraws(cols: int, rows: int): int
  {
    3 * ((rows / 2) * (cols / 2)) + 2 * PerforationAttempts(cols / 2, rows / 2)
  }

  /** generateMaze(cols, rows): a rows x cols grid of Wall and Empty in which every junction is
      open; for odd dimensions the outer ring is still wall. The source cannot run with fewer than
      two rows (its visited table would be empty) and writes past the end of a row when cols < 2. */
  method GenerateMaze(cols: int, rows: int, rng: RandomSource)
    returns (grid: array2<Tile>, ghost paths: map<(int, int), seq<(int, int)>>,
             ghost links: set<(int, int)>, ghost holes: set<(int, int)>, ghost carved: seq<seq<Tile>>,
             ghost cursor: nat)
    requires cols >= 2 && rows >= 2
    modifies rng
    ensures fresh(grid) && grid.Length0 == rows && grid.Length1 == cols
    ensures cursor == old(rng.used) + 3 * ((rows / 2) * (cols / 2))
    ensures PerforatedBy(carved, rows, cols, rng.draw, cursor, holes)
    ensures HoledFrom(grid, carved, holes)
    ensures forall y, x :: 0 <= y < rows && 0 <= x < cols && carved[y][x] == Empty ==> (y, x) in Junctions(grid) || (y, x) in links
    ensures OnlyWallOrEmpty(grid)
    ensures JunctionsOpen(grid)
    ensures cols % 2 == 1 && rows % 2 == 1 ==> BorderIsWall(grid)
    ensures Spanning(grid, paths) && Connected(grid)
    ensures CarvedBy(grid, links, holes)
    ensures |links| < (rows / 2) * (cols / 2) && |holes| <= PerforationAttempts(cols / 2, rows / 2)
    ensures CarvedWithin(grid)
    ensures rng.used == old(rng.used) + MazeDraws(cols, rows)
  {
    assert rows % 2 == 1 && cols % 2 == 1 ==> rows >= 3 && cols >= 3;
    grid := new Tile[rows, cols]((_, _) => Wall);
    paths, links := CarveFromOrigin(grid, rng, Junctions(grid));
    cursor := rng.used;
    holes, carved := PerforateCarved(grid, rng, paths, links);
  }
}
