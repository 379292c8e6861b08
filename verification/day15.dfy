/** Day 15: a robot pushes boxes around a walled warehouse. A move into an
    empty cell moves the robot, a move into a wall does nothing, and a move
    into a box pushes the whole line of boxes behind it when there is an
    empty cell at the end of the line. The score sums 100 * y + x over the
    boxes. This module holds the narrow warehouse of part 1 and the grid
    helpers both parts share. */
module Day15 {
  import opened Common

  /** (x, y): x is the column, y the row. */
  type Pos = (int, int)

  datatype Tile = Empty | Box | Wall

  /** The map as read: at least one row, every row as wide as the first. */
  predicate Rect<T>(grid: seq<seq<T>>)
  {
    |grid| > 0 && forall y :: 0 <= y < |grid| ==> |grid[y]| == |grid[0]|
  }

  predicate InGrid<T>(grid: seq<seq<T>>, p: Pos)
  {
    0 <= p.1 < |grid| && 0 <= p.0 < |grid[p.1]|
  }

  /** get_tile. Off the map it yields outside; the warehouse is walled in,
      so the robot never looks there. */
  function Get<T>(grid: seq<seq<T>>, p: Pos, outside: T): (t: T)
    ensures InGrid(grid, p) ==> t == grid[p.1][p.0]
  {
    if InGrid(grid, p) then grid[p.1][p.0] else outside
  }

  /** A write through get_tile_mut. */
  function Put<T>(grid: seq<seq<T>>, p: Pos, t: T): (g: seq<seq<T>>)
    ensures |g| == |grid|
  {
    if InGrid(grid, p) then grid[p.1 := grid[p.1][p.0 := t]] else grid
  }

  /** A write changes cell p only and keeps every row's width. */
  lemma PutCells<T>(grid: seq<seq<T>>, p: Pos, t: T)
    ensures forall y :: 0 <= y < |grid| ==> |Put(grid, p, t)[y]| == |grid[y]|
    ensures forall q :: InGrid(Put(grid, p, t), q) <==> InGrid(grid, q)
    ensures forall q :: InGrid(grid, q) ==> Put(grid, p, t)[q.1][q.0] == if q == p then t else grid[q.1][q.0]
  {
  }

  function At(grid: seq<seq<Tile>>, p: Pos): Tile
  {
    Get(grid, p, Wall)
  }

  /** k steps from p in direction dir: 0 up, 1 right, 2 down, 3 left. */
  function Ray(p: Pos, dir: nat, k: int): Pos
    requires dir < 4
  {
    if dir == 0 then (p.0, p.1 - k)
    else if dir == 1 then (p.0 + k, p.1)
    else if dir == 2 then (p.0, p.1 + k)
    else (p.0 - k, p.1)
  }

  /** The step vector table of move_robot. */
  function Step(p: Pos, dir: nat): (q: Pos)
    requires dir < 4
    ensures q == Ray(p, dir, 1)
    ensures q != p && (q.0 == p.0 || q.1 == p.1)
  {
    var v := [(0, -1), (1, 0), (0, 1), (-1, 0)][dir];
    (p.0 + v.0, p.1 + v.1)
  }

  /** Steps left before p leaves the map in direction dir. */
  function Dist<T>(grid: seq<seq<T>>, p: Pos, dir: nat): nat
    requires Rect(grid) && InGrid(grid, p) && dir < 4
  {
    if dir == 0 then p.1
    else if dir == 1 then |grid[0]| - 1 - p.0
    else if dir == 2 then |grid| - 1 - p.1
    else p.0
  }

  lemma DistStep<T>(grid: seq<seq<T>>, p: Pos, dir: nat)
    requires Rect(grid) && InGrid(grid, p) && dir < 4 && InGrid(grid, Step(p, dir))
    ensures Dist(grid, Step(p, dir), dir) < Dist(grid, p, dir)
  {
  }

  lemma RayShift(pos: Pos, dir: nat)
    requires dir < 4
    ensures forall j :: Ray(pos, dir, j) == Ray(Step(pos, dir), dir, j - 1)
  {
  }

  /** Reference for can_move: the number of steps from pos to the first
      cell that is not a box. */
  ghost function RunEnd(grid: seq<seq<Tile>>, pos: Pos, dir: nat): (k: nat)
    requires Rect(grid) && InGrid(grid, pos) && dir < 4
    ensures k >= 1 && At(grid, Ray(pos, dir, k)) != Box
    ensures forall j :: 1 <= j < k ==> At(grid, Ray(pos, dir, j)) == Box
    decreases Dist(grid, pos, dir)
  {
    var next := Step(pos, dir);
    if At(grid, next) != Box then 1
    else
      DistStep(grid, pos, dir);
      var k := RunEnd(grid, next, dir);
      RayShift(pos, dir);
      1 + k
  }

  /** Map::can_move: follow the boxes from pos; the first empty cell is
      where the line can move to, and a wall first means it cannot move. */
  function CanMove(grid: seq<seq<Tile>>, pos: Pos, dir: nat): (r: Option<Pos>)
    requires Rect(grid) && InGrid(grid, pos) && dir < 4
    ensures var e := Ray(pos, dir, RunEnd(grid, pos, dir));
      r == if At(grid, e) == Empty then Some(e) else None
    decreases Dist(grid, pos, dir)
  {
    var next := Step(pos, dir);
    match At(grid, next)
    case Empty => Some(next)
    case Wall => None
    case Box =>
      DistStep(grid, pos, dir);
      CanMove(grid, next, dir)
  }

  // ---- Sums over the cells ----

  function RowSum<T>(row: seq<T>, y: int, f: (Pos, T) -> int, n: nat): int
    requires n <= |row|
  {
    if n == 0 then 0 else RowSum(row, y, f, n - 1) + f((n - 1, y), row[n - 1])
  }

  function RowsSum<T>(grid: seq<seq<T>>, f: (Pos, T) -> int, m: nat): int
    requires m <= |grid|
  {
    if m == 0 then 0 else RowsSum(grid, f, m - 1) + RowSum(grid[m - 1], m - 1, f, |grid[m - 1]|)
  }

  /** The sum of f over every cell of the map. */
  function CellSum<T>(grid: seq<seq<T>>, f: (Pos, T) -> int): int
  {
    RowsSum(grid, f, |grid|)
  }

  lemma {:induction false} RowSumPut<T>(row: seq<T>, y: int, f: (Pos, T) -> int, n: nat, x: nat, t: T)
    requires n <= |row| && x < |row|
    ensures RowSum(row[x := t], y, f, n) ==
      RowSum(row, y, f, n) + (if x < n then f((x, y), t) - f((x, y), row[x]) else 0)
  {
    if n > 0 {
      RowSumPut(row, y, f, n - 1, x, t);
    }
  }

  lemma {:induction false} RowsSumPut<T>(grid: seq<seq<T>>, f: (Pos, T) -> int, m: nat, p: Pos, t: T)
    requires m <= |grid| && InGrid(grid, p)
    ensures RowsSum(Put(grid, p, t), f, m) ==
      RowsSum(grid, f, m) + (if p.1 < m then f(p, t) - f(p, grid[p.1][p.0]) else 0)
  {
    if m > 0 {
      RowsSumPut(grid, f, m - 1, p, t);
      var g := Put(grid, p, t);
      if m - 1 == p.1 {
        assert g[m - 1] == grid[m - 1][p.0 := t];
        RowSumPut(grid[m - 1], m - 1, f, |grid[m - 1]|, p.0, t);
      } else {
        assert g[m - 1] == grid[m - 1];
      }
    }
  }

  /** A write changes the sum by the change in its own cell's term. */
  lemma PutSum<T>(grid: seq<seq<T>>, f: (Pos, T) -> int, p: Pos, t: T)
    requires InGrid(grid, p)
    ensures CellSum(Put(grid, p, t), f) == CellSum(grid, f) + f(p, t) - f(p, grid[p.1][p.0])
  {
    RowsSumPut(grid, f, |grid|, p, t);
  }

  function CountTerm(t: Tile): (Pos, Tile) -> int
  {
    (q: Pos, u: Tile) => if u == t then 1 else 0
  }

  /** The number of cells holding t. */
  function TileCount(grid: seq<seq<Tile>>, t: Tile): int
  {
    CellSum(grid, CountTerm(t))
  }

  function GpsTerm(): (Pos, Tile) -> int
  {
    (q: Pos, u: Tile) => if u == Box then 100 * q.1 + q.0 else 0
  }

  /** The score of part_1: 100 * y + x summed over the boxes. */
  function Gps(grid: seq<seq<Tile>>): int
  {
    CellSum(grid, GpsTerm())
  }

  // ---- The narrow warehouse ----

  /** The walls of two maps are the same cells. */
  ghost predicate SameWalls(g: seq<seq<Tile>>, h: seq<seq<Tile>>)
  {
    forall q :: At(g, q) == Wall <==> At(h, q) == Wall
  }

  /** The state a move leads to, as Map::move_robot computes it. */
  function Moved(grid: seq<seq<Tile>>, robot: Pos, dir: nat): (seq<seq<Tile>>, Pos)
    requires Rect(grid) && dir < 4
  {
    var next := Step(robot, dir);
    match At(grid, next)
    case Empty => (grid, next)
    case Wall => (grid, robot)
    case Box =>
      match CanMove(grid, next, dir)
      case None => (grid, robot)
      case Some(e) => (Put(Put(grid, next, Empty), e, Box), next)
  }

  /** A push takes the box next to the robot to the empty cell at the end
      of the line: the boxes are as many as before, the walls are where they
      were, and the score moves by the difference of the two cells' terms. */
  lemma PushEffects(grid: seq<seq<Tile>>, next: Pos, e: Pos)
    requires At(grid, next) == Box && At(grid, e) == Empty
    ensures var g := Put(Put(grid, next, Empty), e, Box);
      TileCount(g, Box) == TileCount(grid, Box) && TileCount(g, Empty) == TileCount(grid, Empty) &&
      SameWalls(g, grid) && At(g, next) == Empty && At(g, e) == Box &&
      Gps(g) == Gps(grid) + (100 * e.1 + e.0) - (100 * next.1 + next.0)
  {
    var g1 := Put(grid, next, Empty);
    PutSum(grid, CountTerm(Box), next, Empty);
    PutSum(g1, CountTerm(Box), e, Box);
    PutSum(grid, CountTerm(Empty), next, Empty);
    PutSum(g1, CountTerm(Empty), e, Box);
    PutSum(grid, GpsTerm(), next, Empty);
    PutSum(g1, GpsTerm(), e, Box);
  }

  /** A move keeps the walls and the number of boxes, and the robot ends on
      an empty cell one step away or where it was. */
  lemma MovedKeeps(grid: seq<seq<Tile>>, robot: Pos, dir: nat)
    requires Rect(grid) && dir < 4 && At(grid, robot) == Empty
    ensures var (g, r) := Moved(grid, robot, dir);
      Rect(g) && SameWalls(g, grid) && TileCount(g, Box) == TileCount(grid, Box) &&
      At(g, r) == Empty && (r == robot || r == Step(robot, dir))
  {
    var next := Step(robot, dir);
    if At(grid, next) == Box {
      match CanMove(grid, next, dir)
      case None =>
      case Some(e) =>
        PushEffects(grid, next, e);
    }
  }

  /** A move into a wall, or a push whose line ends at a wall, changes
      nothing; a move into an empty cell moves only the robot. */
  lemma MovedBlocked(grid: seq<seq<Tile>>, robot: Pos, dir: nat)
    requires Rect(grid) && dir < 4
    ensures var next := Step(robot, dir);
      (At(grid, next) == Wall || (At(grid, next) == Box && At(grid, Ray(next, dir, RunEnd(grid, next, dir))) == Wall))
        ==> Moved(grid, robot, dir) == (grid, robot)
    ensures At(grid, Step(robot, dir)) == Empty ==> Moved(grid, robot, dir) == (grid, Step(robot, dir))
  {
  }

  /** The state after a sequence of moves, each as Moved computes it: the
      robot still stands on an empty cell, the walls are where they were and
      no box is created or lost. */
  function Replay(grid: seq<seq<Tile>>, robot: Pos, instrs: seq<nat>): (s: (seq<seq<Tile>>, Pos))
    requires Rect(grid) && At(grid, robot) == Empty
    requires forall i :: 0 <= i < |instrs| ==> instrs[i] < 4
    ensures Rect(s.0) && At(s.0, s.1) == Empty
    ensures SameWalls(s.0, grid) && TileCount(s.0, Box) == TileCount(grid, Box)
    decreases |instrs|
  {
    if instrs == [] then (grid, robot)
    else
      var prev := Replay(grid, robot, instrs[..|instrs| - 1]);
      var dir := instrs[|instrs| - 1];
      MovedKeeps(prev.0, prev.1, dir);
      Moved(prev.0, prev.1, dir)
  }

  /** Map: the narrow warehouse with the robot's position. */
  class Warehouse {
    var grid: seq<seq<Tile>>
    var robot: Pos

    /** The robot stands on an empty cell of a rectangular map. */
    ghost predicate Valid()
      reads this
    {
      Rect(grid) && At(grid, robot) == Empty
    }

    constructor(grid: seq<seq<Tile>>, robot: Pos)
      requires Rect(grid) && At(grid, robot) == Empty
      ensures Valid() && this.grid == grid && this.robot == robot
    {
      this.grid := grid;
      this.robot := robot;
    }

    /** Map::move_robot. */
    method MoveRobot(dir: nat)
      requires Valid() && dir < 4
      modifies this
      ensures Valid()
      ensures (grid, robot) == Moved(old(grid), old(robot), dir)
      ensures SameWalls(grid, old(grid)) && TileCount(grid, Box) == TileCount(old(grid), Box)
    {
      MovedKeeps(grid, robot, dir);
      var next := Step(robot, dir);
      match At(grid, next)
      case Empty =>
        robot := next;
      case Box =>
        var found := CanMove(grid, next, dir);
        if found.Some? {
          var e := found.value;
          grid := Put(grid, next, Empty);
          grid := Put(grid, e, Box);
          robot := next;
        }
      case Wall =>
    }

    /** part_1's loop: one move per instruction. */
    method Run(instrs: seq<nat>)
      requires Valid() && forall i :: 0 <= i < |instrs| ==> instrs[i] < 4
      modifies this
      ensures Valid()
      ensures (grid, robot) == Replay(old(grid), old(robot), instrs)
    {
      var i := 0;
      while i < |instrs|
        invariant 0 <= i <= |instrs| && Valid()
        invariant (grid, robot) == Replay(old(grid), old(robot), instrs[..i])
      {
        assert instrs[..i + 1][..i] == instrs[..i];
        MoveRobot(instrs[i]);
        i := i + 1;
      }
      assert instrs[..i] == instrs;
    }
  }

  /** get_instructions: the arrow for each direction index. */
  function DirOf(c: char): (d: Option<nat>)
    ensures d.Some? ==> d.value < 4
  {
    if c == '^' then Some(0)
    else if c == '>' then Some(1)
    else if c == 'v' then Some(2)
    else if c == '<' then Some(3)
    else None
  }

  function Arrow(d: nat): char
    requires d < 4
  {
    ['^', '>', 'v', '<'][d]
  }

  /** The four arrows and the four directions correspond one to one, and
      every other character is refused. */
  lemma DirOfArrow(c: char, d: nat)
    requires d < 4
    ensures DirOf(Arrow(d)) == Some(d)
    ensures DirOf(c) == Some(d) ==> c == Arrow(d)
    ensures DirOf(c).None? <==> c !in {'^', '>', 'v', '<'}
  {
  }

  /** The arrow '^' moves up, '>' right, 'v' down and '<' left. */
  lemma ArrowSteps(p: Pos)
    ensures Step(p, 0) == (p.0, p.1 - 1) && Step(p, 1) == (p.0 + 1, p.1)
    ensures Step(p, 2) == (p.0, p.1 + 1) && Step(p, 3) == (p.0 - 1, p.1)
  {
  }

  /** The instructions, or None when a character is not an arrow. */
  function Instructions(s: string): (r: Option<seq<nat>>)
    ensures r.Some? ==> |r.value| == |s| && forall i :: 0 <= i < |s| ==> Some(r.value[i]) == DirOf(s[i])
    ensures r.None? ==> exists i :: 0 <= i < |s| && DirOf(s[i]).None?
  {
    if s == [] then Some([])
    else
      match DirOf(s[0])
      case None => None
      case Some(d) =>
        match Instructions(s[1..])
        case None => None
        case Some(rest) =>
          assert forall i :: 1 <= i < |s| ==> s[i] == s[1..][i - 1];
          Some([d] + rest)
  }

  /** part_1: run the instructions, then score the boxes. */
  method Part1(grid: seq<seq<Tile>>, robot: Pos, instrs: seq<nat>) returns (score: int)
    requires Rect(grid) && At(grid, robot) == Empty
    requires forall i :: 0 <= i < |instrs| ==> instrs[i] < 4
    ensures score == Gps(Replay(grid, robot, instrs).0)
  {
    var house := new Warehouse(grid, robot);
    house.Run(instrs);
    score := Gps(house.grid);
  }
}
