/** Day 6: a guard walks a grid, turning right in front of obstacles, until they
    leave the map or repeat a (direction, position) state. Part 2 counts the
    cells on the guard's route where one extra obstacle makes them loop. */
module Day06 {
  import opened Common

  datatype Direction = Up | Right | Down | Left

  /** A quarter turn clockwise. */
  function RotateRight(d: Direction): (r: Direction)
  {
    match d
    case Up => Right
    case Right => Down
    case Down => Left
    case Left => Up
  }

  /** Four turns bring a direction back, and fewer never do. */
  lemma RotateRightCycle(d: Direction)
    ensures RotateRight(RotateRight(RotateRight(RotateRight(d)))) == d
    ensures RotateRight(d) != d && RotateRight(RotateRight(d)) != d
    ensures RotateRight(RotateRight(RotateRight(d))) != d
  {
    match d
    case Up =>
    case Right =>
    case Down =>
    case Left =>
  }

  type Pos = (nat, nat)
  type Seen = (Direction, nat, nat)

  /** The guard's part of the map: where they are (None once they have left),
      where they face, the cells visited and the (direction, cell) states met. */
  datatype State = State(guard: Option<Pos>, dir: Direction, visited: set<Pos>, visitedDirection: set<Seen>)

  datatype Finish = Exit | Loop

  function Ahead(d: Direction, y: nat, x: nat): (int, int)
  {
    match d
    case Up => (y - 1, x)
    case Right => (y, x + 1)
    case Down => (y + 1, x)
    case Left => (y, x - 1)
  }

  /** move_guard on a value: the state after one step and whether a loop was
      detected. */
  function Move(height: nat, width: nat, obstacles: set<Pos>, s: State): (State, bool)
  {
    match s.guard
    case None => (s, false)
    case Some((y, x)) =>
      if (s.dir, y, x) in s.visitedDirection then (s, true)
      else
        var (nextY, nextX) := Ahead(s.dir, y, x);
        var visited := s.visited + {(y, x)};
        var visitedDirection := s.visitedDirection + {(s.dir, y, x)};
        if nextY < 0 || nextY >= height || nextX < 0 || nextX >= width then
          (State(None, s.dir, visited, visitedDirection), false)
        else if (nextY as nat, nextX as nat) in obstacles then
          (State(s.guard, RotateRight(s.dir), visited, visitedDirection), false)
        else
          (State(Some((nextY as nat, nextX as nat)), s.dir, visited, visitedDirection), false)
  }

  /** Every (direction, cell) state of a height x width map. */
  function AllStates(height: nat, width: nat): set<Seen>
  {
    (set y: nat, x: nat | y < height && x < width :: (Up, y, x)) +
    (set y: nat, x: nat | y < height && x < width :: (Right, y, x)) +
    (set y: nat, x: nat | y < height && x < width :: (Down, y, x)) +
    (set y: nat, x: nat | y < height && x < width :: (Left, y, x))
  }

  predicate InBounds(height: nat, width: nat, p: Pos)
  {
    p.0 < height && p.1 < width
  }

  /** The guard is on the map (or gone) and everything recorded is on the map. */
  predicate ValidState(height: nat, width: nat, s: State)
  {
    (s.guard.Some? ==> InBounds(height, width, s.guard.value)) &&
    (forall p :: p in s.visited ==> InBounds(height, width, p)) &&
    s.visitedDirection <= AllStates(height, width)
  }

  /** One step: a repeated state is reported and changes nothing; otherwise both
      sets grow by the current cell and state, and the guard leaves the map,
      turns right exactly when the cell ahead is an obstacle, or moves one cell. */
  lemma MoveFacts(height: nat, width: nat, obstacles: set<Pos>, s: State)
    requires ValidState(height, width, s)
    ensures var (s', loop) := Move(height, width, obstacles, s);
      ValidState(height, width, s') &&
      (loop <==> s.guard.Some? && (s.dir, s.guard.value.0, s.guard.value.1) in s.visitedDirection) &&
      (loop ==> s' == s) &&
      (s.guard.None? ==> s' == s && !loop) &&
      s.visited <= s'.visited && s.visitedDirection <= s'.visitedDirection &&
      (s.guard.Some? && !loop ==>
        var (y, x) := s.guard.value;
        var (nextY, nextX) := Ahead(s.dir, y, x);
        s'.visited == s.visited + {(y, x)} &&
        s'.visitedDirection == s.visitedDirection + {(s.dir, y, x)} &&
        (s'.guard.None? <==> !(0 <= nextY < height && 0 <= nextX < width)) &&
        (s'.guard.Some? && s'.dir != s.dir ==> s'.guard == s.guard && s'.dir == RotateRight(s.dir)) &&
        (s'.guard.Some? && s'.dir == s.dir ==> s'.guard == Some((nextY as nat, nextX as nat))) &&
        (s'.guard.None? ==> s'.dir == s.dir) &&
        (s'.guard.Some? ==> (s'.dir != s.dir <==> (nextY as nat, nextX as nat) in obstacles)))
  {
    match s.guard
    case None =>
    case Some((y, x)) =>
      var seen := (s.dir, y, x);
      if seen !in s.visitedDirection {
        assert seen in AllStates(height, width) by {
          match s.dir
          case Up => assert seen in set y: nat, x: nat | y < height && x < width :: (Up, y, x);
          case Right => assert seen in set y: nat, x: nat | y < height && x < width :: (Right, y, x);
          case Down => assert seen in set y: nat, x: nat | y < height && x < width :: (Down, y, x);
          case Left => assert seen in set y: nat, x: nat | y < height && x < width :: (Left, y, x);
        }
        RotateRightCycle(s.dir);
      }
  }

  /** A step that neither detects a loop nor finds the guard gone records a
      state never met before, so the unseen states shrink. */
  lemma MoveShrinksUnseen(height: nat, width: nat, obstacles: set<Pos>, s: State)
    requires ValidState(height, width, s) && s.guard.Some?
    requires !Move(height, width, obstacles, s).1
    ensures AllStates(height, width) - Move(height, width, obstacles, s).0.visitedDirection
            < AllStates(height, width) - s.visitedDirection
  {
    MoveFacts(height, width, obstacles, s);
    var (y, x) := s.guard.value;
    assert (s.dir, y, x) in AllStates(height, width) - s.visitedDirection;
  }

  /** run on a value: step until the guard is gone (Exit) or a step reports a
      repeated state (Loop). */
  function RunFrom(height: nat, width: nat, obstacles: set<Pos>, s: State): (r: (State, Finish))
    requires ValidState(height, width, s)
    ensures ValidState(height, width, r.0)
    ensures r.1 == Exit <==> r.0.guard.None?
    ensures r.1 == Loop ==> (r.0.dir, r.0.guard.value.0, r.0.guard.value.1) in r.0.visitedDirection
    ensures s.visited <= r.0.visited && s.visitedDirection <= r.0.visitedDirection
    decreases AllStates(height, width) - s.visitedDirection
  {
    if s.guard.None? then (s, Exit)
    else
      var (s', loop) := Move(height, width, obstacles, s);
      MoveFacts(height, width, obstacles, s);
      if loop then (s', Loop)
      else
        MoveShrinksUnseen(height, width, obstacles, s);
        RunFrom(height, width, obstacles, s')
  }

  /** A freshly loaded map: the guard at the start cell facing up, nothing
      visited yet. */
  function Initial(start: Pos): State
  {
    State(Some(start), Up, {}, {})
  }

  class Map {
    var guard: Option<Pos>
    var guardDirection: Direction
    var visited: set<Pos>
    var visitedDirection: set<Seen>
    const height: nat
    const width: nat
    var obstacles: set<Pos>

    constructor (height: nat, width: nat, obstacles: set<Pos>, start: Pos)
      requires InBounds(height, width, start)
      ensures Valid() && Current() == Initial(start)
      ensures this.height == height && this.width == width && this.obstacles == obstacles
    {
      this.height := height;
      this.width := width;
      this.obstacles := obstacles;
      guard := Some(start);
      guardDirection := Up;
      visited := {};
      visitedDirection := {};
    }

    function Current(): State
      reads this
    {
      State(guard, guardDirection, visited, visitedDirection)
    }

    predicate Valid()
      reads this
    {
      ValidState(height, width, Current())
    }

    /** The obstacle part 2 adds to its copy of the map. */
    method AddObstacle(p: Pos)
      modifies this
      ensures obstacles == old(obstacles) + {p} && Current() == old(Current())
    {
      obstacles := obstacles + {p};
    }

    method MoveGuard() returns (loop: bool)
      requires Valid()
      modifies this
      ensures Valid() && obstacles == old(obstacles)
      ensures (Current(), loop) == Move(height, width, obstacles, old(Current()))
    {
      MoveFacts(height, width, obstacles, Current());
      if guard.Some? {
        var (y, x) := guard.value;
        if (guardDirection, y, x) in visitedDirection {
          return true;
        }
        var (nextY, nextX) := Ahead(guardDirection, y, x);
        visited := visited + {(y, x)};
        visitedDirection := visitedDirection + {(guardDirection, y, x)};
        if nextY < 0 || nextY >= height || nextX < 0 || nextX >= width {
          guard := None;
          return false;
        }
        if (nextY as nat, nextX as nat) in obstacles {
          guardDirection := RotateRight(guardDirection);
        } else {
          guard := Some((nextY as nat, nextX as nat));
        }
      }
      return false;
    }

    method Run() returns (finish: Finish)
      requires Valid()
      modifies this
      ensures Valid() && obstacles == old(obstacles)
      ensures (Current(), finish) == RunFrom(height, width, obstacles, old(Current()))
    {
      while true
        invariant Valid() && obstacles == old(obstacles)
        invariant RunFrom(height, width, obstacles, Current()) == RunFrom(height, width, obstacles, old(Current()))
        decreases AllStates(height, width) - visitedDirection
      {
        if guard == None {
          return Exit;
        }
        ghost var before := Current();
        var loop := MoveGuard();
        if loop {
          return Loop;
        }
        MoveShrinksUnseen(height, width, obstacles, before);
      }
    }
  }

  /** Part 1 walks until the guard is gone and counts the visited cells. If the
      guard loops, the solution's walk never ends; the model says None. */
  method VisitedCount(height: nat, width: nat, obstacles: set<Pos>, start: Pos) returns (r: Option<nat>)
    requires InBounds(height, width, start)
    ensures var (s, finish) := RunFrom(height, width, obstacles, Initial(start));
      r == if finish == Exit then Some(|s.visited|) else None
  {
    var guardMap := new Map(height, width, obstacles, start);
    var finish := guardMap.Run();
    r := if finish == Exit then Some(|guardMap.visited|) else None;
  }

  /** Does the guard loop once an obstacle is added at p? */
  predicate LoopsWith(height: nat, width: nat, obstacles: set<Pos>, start: Pos, p: Pos)
    requires InBounds(height, width, start)
  {
    RunFrom(height, width, obstacles + {p}, Initial(start)).1 == Loop
  }

  /** The cells of the guard's original route, other than the start, where one
      more obstacle makes the guard loop. */
  function LoopingObstacles(height: nat, width: nat, obstacles: set<Pos>, start: Pos): set<Pos>
    requires InBounds(height, width, start)
  {
    var route := RunFrom(height, width, obstacles, Initial(start)).0.visited;
    set p | p in route && p != start && LoopsWith(height, width, obstacles, start, p)
  }

  /** The trial obstacles are never placed on the start cell. */
  lemma StartNeverBlocked(height: nat, width: nat, obstacles: set<Pos>, start: Pos)
    requires InBounds(height, width, start)
    ensures start !in LoopingObstacles(height, width, obstacles, start)
    ensures forall p :: p in LoopingObstacles(height, width, obstacles, start) ==> InBounds(height, width, p)
  {
  }

  /** Part 2: try an obstacle on every visited cell except the start, on a fresh
      copy of the map, and count the runs that loop. */
  method CountLoopingObstacles(height: nat, width: nat, obstacles: set<Pos>, start: Pos) returns (count: nat)
    requires InBounds(height, width, start)
    ensures count == |LoopingObstacles(height, width, obstacles, start)|
  {
    var guardMap := new Map(height, width, obstacles, start);
    var _ := guardMap.Run();
    var route := guardMap.visited;
    var remaining := route;
    ghost var counted: set<Pos> := {};
    count := 0;
    while remaining != {}
      invariant remaining <= route
      invariant counted == set p | p in route - remaining && p != start && LoopsWith(height, width, obstacles, start, p)
      invariant count == |counted|
      decreases remaining
    {
      var p :| p in remaining;
      remaining := remaining - {p};
      if p != start {
        var edited := new Map(height, width, obstacles, start);
        edited.AddObstacle(p);
        var finish := edited.Run();
        if finish == Loop {
          assert p !in counted;
          counted := counted + {p};
          count := count + 1;
        }
      }
      assert counted == set q | q in route - remaining && q != start && LoopsWith(height, width, obstacles, start, q);
    }
    assert route - remaining == route;
  }
}
