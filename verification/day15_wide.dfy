/** Day 15, part 2: the warehouse twice as wide. Every box is two cells, a
    left half and a right half; pushing up or down moves every box whose
    halves touch the boxes being pushed. */
module Day15Wide {
  import opened Common
  import N = Day15

  type Pos = N.Pos

  datatype Tile = Empty | BoxL | BoxR | Wall

  predicate IsBox(t: Tile)
  {
    t == BoxL || t == BoxR
  }

  function At(grid: seq<seq<Tile>>, p: Pos): Tile
  {
    N.Get(grid, p, Wall)
  }

  /** The cell right of p. */
  function RightOf(p: Pos): Pos
  {
    (p.0 + 1, p.1)
  }

  /** The cell left of p. */
  function LeftOf(p: Pos): Pos
  {
    (p.0 - 1, p.1)
  }

  /** Every left half has its right half just right of it, and every right
      half its left half just left of it. */
  ghost predicate Paired(grid: seq<seq<Tile>>)
  {
    forall p: Pos :: PairedAt(grid, p)
  }

  /** The cells p and the one right of it are either a whole box or no
      box with a left half at p or a right half right of it. */
  ghost predicate PairedAt(grid: seq<seq<Tile>>, p: Pos)
  {
    At(grid, p) == BoxL <==> At(grid, RightOf(p)) == BoxR
  }

  /** Map2::new_from_file's doubling of one cell of the narrow map. */
  function Double(t: N.Tile): seq<Tile>
  {
    match t
    case Wall => [Wall, Wall]
    case Box => [BoxL, BoxR]
    case Empty => [Empty, Empty]
  }

  function WidenRow(row: seq<N.Tile>): (r: seq<Tile>)
    ensures |r| == 2 * |row|
    ensures forall i :: 0 <= i < |row| ==> r[2 * i] == Double(row[i])[0] && r[2 * i + 1] == Double(row[i])[1]
  {
    if row == [] then []
    else
      var rest := WidenRow(row[1..]);
      assert forall i :: 1 <= i < |row| ==> row[i] == row[1..][i - 1];
      Double(row[0]) + rest
  }

  /** The wide map: each narrow cell becomes two. */
  function Widen(grid: seq<seq<N.Tile>>): (g: seq<seq<Tile>>)
    ensures |g| == |grid| && forall y :: 0 <= y < |g| ==> g[y] == WidenRow(grid[y])
  {
    seq(|grid|, y requires 0 <= y < |grid| => WidenRow(grid[y]))
  }

  /** Cell x of a wide row is half x % 2 of narrow cell x / 2. */
  lemma WideAt(grid: seq<seq<N.Tile>>, p: Pos)
    requires N.InGrid(Widen(grid), p)
    ensures 0 <= p.0 / 2 < |grid[p.1]| && At(Widen(grid), p) == Double(grid[p.1][p.0 / 2])[p.0 % 2]
  {
    var i := p.0 / 2;
    if p.0 % 2 == 0 {
      assert p.0 == 2 * i;
    } else {
      assert p.0 == 2 * i + 1;
    }
  }

  /** Parsing sets up the pairing of halves, and the robot's doubled
      column is empty when its narrow cell is. */
  lemma WidenPaired(grid: seq<seq<N.Tile>>, robot: Pos)
    requires N.Rect(grid) && N.At(grid, robot) == N.Empty
    ensures N.Rect(Widen(grid)) && Paired(Widen(grid))
    ensures At(Widen(grid), (2 * robot.0, robot.1)) == Empty
  {
    forall p: Pos ensures PairedAt(Widen(grid), p) {
      WidePairAt(grid, p);
    }
    WideAt(grid, (2 * robot.0, robot.1));
  }

  lemma WidePairAt(grid: seq<seq<N.Tile>>, p: Pos)
    ensures PairedAt(Widen(grid), p)
  {
    var g := Widen(grid);
    var q := RightOf(p);
    assert q == (p.0 + 1, p.1);
    if N.InGrid(g, p) {
      WideAt(grid, p);
    }
    if N.InGrid(g, q) {
      WideAt(grid, q);
    }
    if N.InGrid(g, p) && p.0 % 2 == 0 {
      assert N.InGrid(g, q) && q.0 / 2 == p.0 / 2 && q.0 % 2 == 1;
    } else if N.InGrid(g, q) {
      assert q.0 % 2 == 0;
    }
  }

  /** Steps left before p leaves its row (sideways) or the map (up or
      down) in direction dir. */
  function Reach(grid: seq<seq<Tile>>, p: Pos, dir: nat): nat
    requires N.InGrid(grid, p) && dir < 4
  {
    if dir == 0 then p.1
    else if dir == 1 then |grid[p.1]| - 1 - p.0
    else if dir == 2 then |grid| - 1 - p.1
    else p.0
  }

  /** The left half of the box the half at pos belongs to. */
  function LeftHalf(grid: seq<seq<Tile>>, pos: Pos): (left: Pos)
    ensures left.1 == pos.1 && (left == pos || left == LeftOf(pos))
  {
    if At(grid, pos) == BoxL then pos else LeftOf(pos)
  }

  /** Map2::can_box_move. Up and down, both halves of the box must be able
      to move, where a right half straight ahead belongs to the box already
      checked through the left half; sideways only the next cell matters. */
  function CanBoxMove(grid: seq<seq<Tile>>, pos: Pos, dir: nat): bool
    requires dir < 4 && IsBox(At(grid, pos))
    decreases Reach(grid, pos, dir)
  {
    if dir % 2 == 0 then
      var left := LeftHalf(grid, pos);
      var nextL := N.Step(left, dir);
      var nextR := N.Step(RightOf(left), dir);
      var canL := match At(grid, nextL)
        case Empty => true
        case Wall => false
        case _ => CanBoxMove(grid, nextL, dir);
      var canR := match At(grid, nextR)
        case Empty => true
        case Wall => false
        case BoxL => CanBoxMove(grid, nextR, dir)
        case BoxR => true;
      canL && canR
    else
      var next := N.Step(pos, dir);
      match At(grid, next)
      case Empty => true
      case Wall => false
      case _ =>
        CanBoxMove(grid, next, dir)
  }

  lemma PutAt(g: seq<seq<Tile>>, p: Pos, t: Tile)
    ensures forall q :: At(N.Put(g, p, t), q) == if q == p && N.InGrid(g, p) then t else At(g, q)
  {
  }

  /** g1 has the same rows, of the same widths, as g0. */
  ghost predicate SameShape(g0: seq<seq<Tile>>, g1: seq<seq<Tile>>)
  {
    |g1| == |g0| && forall y :: 0 <= y < |g1| ==> |g1[y]| == |g0[y]|
  }

  function CountTerm(t: Tile): (Pos, Tile) -> int
  {
    (q: Pos, u: Tile) => if u == t then 1 else 0
  }

  /** The number of cells holding t. */
  function TileCount(grid: seq<seq<Tile>>, t: Tile): int
  {
    N.CellSum(grid, CountTerm(t))
  }

  /** The score of part_2: 100 * y + x summed over the left halves. */
  function Gps(grid: seq<seq<Tile>>): int
  {
    N.CellSum(grid, (q: Pos, u: Tile) => if u == BoxL then 100 * q.1 + q.0 else 0)
  }

  /** The last four writes of a push up or down, in the source's order:
      each half into the row ahead, then both old cells emptied. */
  function Lift(grid: seq<seq<Tile>>, left: Pos, dir: nat): (g: seq<seq<Tile>>)
    requires dir < 4
    ensures |g| == |grid|
  {
    var right := RightOf(left);
    var g1 := N.Put(grid, N.Step(left, dir), At(grid, left));
    var g2 := N.Put(g1, N.Step(right, dir), At(g1, right));
    N.Put(N.Put(g2, right, Empty), left, Empty)
  }

  /** Map2::force_box_move on the map it rewrites. Up or down: push the
      box half in front of the left half, then a left half in front of the
      right half, on the map as the first push left it, then lift the box.
      Sideways: push the half in front, then step this half into its cell. */
  function Force(grid: seq<seq<Tile>>, pos: Pos, dir: nat): (g: seq<seq<Tile>>)
    requires dir < 4 && IsBox(At(grid, pos))
    ensures |g| == |grid|
    decreases Reach(grid, pos, dir)
  {
    if dir % 2 == 0 then
      var left := LeftHalf(grid, pos);
      var nextL := N.Step(left, dir);
      var nextR := N.Step(RightOf(left), dir);
      UpNext(grid, grid, pos, dir);
      var g1 := if IsBox(At(grid, nextL)) then Force(grid, nextL, dir) else grid;
      UpNext(grid, g1, pos, dir);
      var g2 := if At(g1, nextR) == BoxL then Force(g1, nextR, dir) else g1;
      Lift(g2, left, dir)
    else
      var next := N.Step(pos, dir);
      var g1 := if IsBox(At(grid, next)) then Force(grid, next, dir) else grid;
      Slide(g1, pos, next)
  }

  /** The last two writes of a sideways push: the half at pos into next,
      then pos emptied. */
  function Slide(grid: seq<seq<Tile>>, pos: Pos, next: Pos): (g: seq<seq<Tile>>)
    ensures |g| == |grid|
  {
    N.Put(N.Put(grid, next, At(grid, pos)), pos, Empty)
  }

  /** The cell one step behind q. */
  function Back(q: Pos, dir: nat): Pos
    requires dir < 4
  {
    N.Ray(q, dir, -1)
  }

  lemma StepBack(q: Pos, dir: nat)
    requires dir < 4
    ensures N.Step(Back(q, dir), dir) == q && Back(N.Step(q, dir), dir) == q
  {
  }

  /** How many steps along dir q lies ahead of pos (negative: behind). */
  function Along(q: Pos, pos: Pos, dir: nat): int
  {
    if dir == 0 then pos.1 - q.1
    else if dir == 1 then q.0 - pos.0
    else if dir == 2 then q.1 - pos.1
    else pos.0 - q.0
  }

  /** The cells a push of the half at pos moves. */
  ghost function Cone(grid: seq<seq<Tile>>, pos: Pos, dir: nat): set<Pos>
    requires dir < 4 && IsBox(At(grid, pos))
  {
    if dir % 2 == 0 then ConeUp(grid, pos, dir) else ConeSide(grid, pos, dir)
  }

  /** Up or down: both halves of the box and the cells of the pushes
      force_box_move recurses into. */
  ghost function ConeUp(grid: seq<seq<Tile>>, pos: Pos, dir: nat): set<Pos>
    requires dir < 4 && dir % 2 == 0 && IsBox(At(grid, pos))
    decreases Reach(grid, pos, dir)
  {
    var left := LeftHalf(grid, pos);
    var nextL := N.Step(left, dir);
    var nextR := N.Step(RightOf(left), dir);
    {left, RightOf(left)} +
    (if IsBox(At(grid, nextL)) then ConeUp(grid, nextL, dir) else {}) +
    (if At(grid, nextR) == BoxL then ConeUp(grid, nextR, dir) else {})
  }

  /** Sideways: pos and the cells of the push of the half in front of it. */
  ghost function ConeSide(grid: seq<seq<Tile>>, pos: Pos, dir: nat): set<Pos>
    requires dir < 4 && dir % 2 == 1 && IsBox(At(grid, pos))
    decreases Reach(grid, pos, dir)
  {
    var next := N.Step(pos, dir);
    if IsBox(At(grid, next)) then {pos} + ConeSide(grid, next, dir)
    else {pos}
  }

  /** Every cell of C holds a box half. */
  ghost predicate Boxes(grid: seq<seq<Tile>>, C: set<Pos>)
  {
    forall c :: c in C ==> IsBox(At(grid, c))
  }

  /** Every box half right in front of a cell of C is in C. */
  ghost predicate AheadClosed(grid: seq<seq<Tile>>, C: set<Pos>, dir: nat)
    requires dir < 4
  {
    forall c {:trigger N.Step(c, dir)} :: c in C && IsBox(At(grid, N.Step(c, dir))) ==> N.Step(c, dir) in C
  }

  /** C holds both halves of each box it touches. */
  ghost predicate PairClosed(grid: seq<seq<Tile>>, C: set<Pos>)
  {
    (forall c {:trigger RightOf(c)} :: c in C && At(grid, c) == BoxL ==> RightOf(c) in C) &&
    (forall c {:trigger LeftOf(c)} :: c in C && At(grid, c) == BoxR ==> LeftOf(c) in C)
  }

  /** C holds box halves only, both halves of each of its boxes, and every
      box half that stands right in front of one of its cells. */
  ghost predicate Closed(grid: seq<seq<Tile>>, C: set<Pos>, dir: nat)
    requires dir < 4
  {
    Boxes(grid, C) && AheadClosed(grid, C, dir) && PairClosed(grid, C)
  }

  /** No cell of C stands right in front of a wall. */
  ghost predicate Free(grid: seq<seq<Tile>>, C: set<Pos>, dir: nat)
    requires dir < 4
  {
    forall c {:trigger N.Step(c, dir)} :: c in C ==> At(grid, N.Step(c, dir)) != Wall
  }

  /** g1 is g0 with the tiles of the cells of C moved one step along dir:
      a cell behind which stands a cell of C takes that cell's tile, the
      other cells of C are emptied, and every other cell keeps its tile. */
  ghost predicate ShiftedBy(g0: seq<seq<Tile>>, g1: seq<seq<Tile>>, C: set<Pos>, dir: nat)
    requires dir < 4
  {
    SameShape(g0, g1) &&
    forall q {:trigger At(g1, q)} :: N.InGrid(g0, q) ==>
      At(g1, q) == (if Back(q, dir) in C then At(g0, Back(q, dir)) else if q in C then Empty else At(g0, q))
  }

  /** One level of a push up or down. */
  lemma UpSplit(grid: seq<seq<Tile>>, pos: Pos, dir: nat)
    requires dir < 4 && dir % 2 == 0 && IsBox(At(grid, pos))
    ensures var left := LeftHalf(grid, pos);
      var nextL := N.Step(left, dir);
      var nextR := N.Step(RightOf(left), dir);
      ConeUp(grid, pos, dir) == {left, RightOf(left)} +
        (if IsBox(At(grid, nextL)) then ConeUp(grid, nextL, dir) else {}) +
        (if At(grid, nextR) == BoxL then ConeUp(grid, nextR, dir) else {})
  {
  }

  /** Up or down, the cells in front of a box have fewer steps left, on
      any map with as many rows. */
  lemma UpNext(g0: seq<seq<Tile>>, g1: seq<seq<Tile>>, pos: Pos, dir: nat)
    requires dir < 4 && dir % 2 == 0 && IsBox(At(g0, pos)) && |g1| == |g0|
    ensures var left := LeftHalf(g0, pos);
      var nextL := N.Step(left, dir);
      var nextR := N.Step(RightOf(left), dir);
      (At(g1, nextL) != Wall ==> N.InGrid(g1, nextL) && Reach(g1, nextL, dir) < Reach(g0, pos, dir)) &&
      (At(g1, nextR) != Wall ==> N.InGrid(g1, nextR) && Reach(g1, nextR, dir) < Reach(g0, pos, dir))
  {
    OnMap(g0, pos);
    var left := LeftHalf(g0, pos);
    assert left.1 == pos.1;
    if At(g1, N.Step(left, dir)) != Wall {
      OnMap(g1, N.Step(left, dir));
    }
    if At(g1, N.Step(RightOf(left), dir)) != Wall {
      OnMap(g1, N.Step(RightOf(left), dir));
    }
  }

  /** Up or down, every moved cell holds a box half, and every half right
      in front of a moved cell is moved too. */
  lemma {:induction false} UpBoxes(grid: seq<seq<Tile>>, pos: Pos, dir: nat)
    requires dir < 4 && dir % 2 == 0 && IsBox(At(grid, pos)) && Paired(grid)
    ensures pos in ConeUp(grid, pos, dir)
    ensures Boxes(grid, ConeUp(grid, pos, dir)) && AheadClosed(grid, ConeUp(grid, pos, dir), dir)
    decreases Reach(grid, pos, dir)
  {
    var left := LeftHalf(grid, pos);
    var right := RightOf(left);
    var nextL := N.Step(left, dir);
    var nextR := N.Step(right, dir);
    var CL := if IsBox(At(grid, nextL)) then ConeUp(grid, nextL, dir) else {};
    var CR := if At(grid, nextR) == BoxL then ConeUp(grid, nextR, dir) else {};
    UpSplit(grid, pos, dir);
    UpNext(grid, grid, pos, dir);
    UpGeometry(pos, left, dir);
    assert PairedAt(grid, left);
    if IsBox(At(grid, nextL)) {
      UpBoxes(grid, nextL, dir);
    }
    if At(grid, nextR) == BoxL {
      UpBoxes(grid, nextR, dir);
    }
    if At(grid, nextR) == BoxR {
      assert PairedAt(grid, nextL);
      UpSplit(grid, nextL, dir);
      assert nextR in CL;
    }
    assert Boxes(grid, CL) && AheadClosed(grid, CL, dir);
    assert Boxes(grid, CR) && AheadClosed(grid, CR, dir);
    UpBoxesStep(grid, left, dir, CL, CR);
  }

  /** The step of UpBoxes: a box, with the cells of the pushes in front of
      its halves. */
  lemma UpBoxesStep(grid: seq<seq<Tile>>, left: Pos, dir: nat, CL: set<Pos>, CR: set<Pos>)
    requires dir < 4 && dir % 2 == 0
    requires At(grid, left) == BoxL && At(grid, RightOf(left)) == BoxR
    requires Boxes(grid, CL) && AheadClosed(grid, CL, dir) && Boxes(grid, CR) && AheadClosed(grid, CR, dir)
    requires IsBox(At(grid, N.Step(left, dir))) ==> N.Step(left, dir) in CL
    requires IsBox(At(grid, N.Step(RightOf(left), dir))) ==> N.Step(RightOf(left), dir) in CL + CR
    ensures Boxes(grid, {left, RightOf(left)} + CL + CR)
    ensures AheadClosed(grid, {left, RightOf(left)} + CL + CR, dir)
  {
  }

  /** Every cell of C is a half of the box at left or lies in a row ahead
      of pos. */
  ghost predicate AheadFrom(C: set<Pos>, left: Pos, pos: Pos, dir: nat)
  {
    forall c :: c in C ==> c == left || c == RightOf(left) || Along(c, pos, dir) >= 1
  }

  /** Up or down, a push moves both halves of its own box and otherwise
      only cells in the rows ahead. */
  lemma {:induction false} UpAhead(grid: seq<seq<Tile>>, pos: Pos, dir: nat)
    requires dir < 4 && dir % 2 == 0 && IsBox(At(grid, pos))
    ensures AheadFrom(ConeUp(grid, pos, dir), LeftHalf(grid, pos), pos, dir)
    decreases Reach(grid, pos, dir)
  {
    var left := LeftHalf(grid, pos);
    var nextL := N.Step(left, dir);
    var nextR := N.Step(RightOf(left), dir);
    var CL := if IsBox(At(grid, nextL)) then ConeUp(grid, nextL, dir) else {};
    var CR := if At(grid, nextR) == BoxL then ConeUp(grid, nextR, dir) else {};
    UpSplit(grid, pos, dir);
    UpNext(grid, grid, pos, dir);
    UpGeometry(pos, left, dir);
    if IsBox(At(grid, nextL)) {
      UpAhead(grid, nextL, dir);
      AheadShift(CL, nextL, LeftHalf(grid, nextL), pos, dir);
    }
    if At(grid, nextR) == BoxL {
      UpAhead(grid, nextR, dir);
      AheadShift(CR, nextR, LeftHalf(grid, nextR), pos, dir);
    }
    AheadUnion(left, CL, CR, pos, dir);
  }

  /** Up or down, the cells in front of the two halves of a box on pos's
      row lie side by side one row ahead of pos. */
  lemma UpGeometry(pos: Pos, left: Pos, dir: nat)
    requires dir < 4 && dir % 2 == 0 && left.1 == pos.1
    ensures var nextL := N.Step(left, dir);
      var nextR := N.Step(RightOf(left), dir);
      nextL.1 == nextR.1 && RightOf(nextL) == nextR && Along(nextL, pos, dir) == 1 && Along(nextR, pos, dir) == 1
  {
  }

  /** The cells of a push from p, one row ahead of pos, are all ahead of
      pos. */
  lemma AheadShift(C: set<Pos>, p: Pos, lp: Pos, pos: Pos, dir: nat)
    requires dir < 4 && dir % 2 == 0 && Along(p, pos, dir) == 1 && lp.1 == p.1
    requires AheadFrom(C, lp, p, dir)
    ensures forall c :: c in C ==> Along(c, pos, dir) >= 1
  {
  }

  lemma AheadUnion(left: Pos, CL: set<Pos>, CR: set<Pos>, pos: Pos, dir: nat)
    requires forall c :: c in CL ==> Along(c, pos, dir) >= 1
    requires forall c :: c in CR ==> Along(c, pos, dir) >= 1
    ensures AheadFrom({left, RightOf(left)} + CL + CR, left, pos, dir)
  {
  }

  /** Up or down, a push moves both halves of every box it touches. */
  lemma {:induction false} UpPairs(grid: seq<seq<Tile>>, pos: Pos, dir: nat)
    requires dir < 4 && dir % 2 == 0 && IsBox(At(grid, pos)) && Paired(grid)
    ensures var left := LeftHalf(grid, pos);
      At(grid, left) == BoxL && At(grid, RightOf(left)) == BoxR
    ensures PairClosed(grid, ConeUp(grid, pos, dir))
    decreases Reach(grid, pos, dir)
  {
    var left := LeftHalf(grid, pos);
    var nextL := N.Step(left, dir);
    var nextR := N.Step(RightOf(left), dir);
    UpSplit(grid, pos, dir);
    UpNext(grid, grid, pos, dir);
    assert PairedAt(grid, left);
    if IsBox(At(grid, nextL)) {
      UpPairs(grid, nextL, dir);
    }
    if At(grid, nextR) == BoxL {
      UpPairs(grid, nextR, dir);
    }
  }

  /** Sideways, a push moves a run of box halves on pos's row that starts
      at pos, goes on along dir without a gap and takes in every half
      right in front of it. */
  lemma {:induction false} SideRun(grid: seq<seq<Tile>>, pos: Pos, dir: nat)
    requires dir < 4 && dir % 2 == 1 && IsBox(At(grid, pos))
    ensures pos in ConeSide(grid, pos, dir)
    ensures forall c :: c in ConeSide(grid, pos, dir) ==> IsBox(At(grid, c)) && c.1 == pos.1 && Along(c, pos, dir) >= 0
    ensures forall c {:trigger Back(c, dir)} :: c in ConeSide(grid, pos, dir) && c != pos ==> Back(c, dir) in ConeSide(grid, pos, dir)
    ensures AheadClosed(grid, ConeSide(grid, pos, dir), dir)
    decreases Reach(grid, pos, dir)
  {
    var next := N.Step(pos, dir);
    StepBack(pos, dir);
    if IsBox(At(grid, next)) {
      SideRun(grid, next, dir);
    }
  }

  /** A sideways run that starts after a cell holding no box half holds
      both halves of each of its boxes. */
  lemma RunPaired(grid: seq<seq<Tile>>, C: set<Pos>, pos: Pos, dir: nat)
    requires dir < 4 && dir % 2 == 1 && Paired(grid) && !IsBox(At(grid, Back(pos, dir)))
    requires forall c :: c in C ==> IsBox(At(grid, c)) && c.1 == pos.1
    requires forall c {:trigger Back(c, dir)} :: c in C && c != pos ==> Back(c, dir) in C
    requires AheadClosed(grid, C, dir)
    ensures PairClosed(grid, C)
  {
    forall c | c in C && At(grid, c) == BoxL
      ensures RightOf(c) in C
    {
      assert PairedAt(grid, c);
      if dir == 1 {
        assert N.Step(c, dir) == RightOf(c);
      } else {
        assert c != pos;
        assert Back(c, dir) == RightOf(c);
      }
    }
    forall c | c in C && At(grid, c) == BoxR
      ensures LeftOf(c) in C
    {
      assert PairedAt(grid, LeftOf(c));
      if dir == 3 {
        assert N.Step(c, dir) == LeftOf(c);
      } else {
        assert c != pos;
        assert Back(c, dir) == LeftOf(c);
      }
    }
  }

  /** On a paired map the cells a push moves are closed, as long as a
      sideways push does not start right after another box half. */
  lemma ConeClosed(grid: seq<seq<Tile>>, pos: Pos, dir: nat)
    requires dir < 4 && IsBox(At(grid, pos)) && Paired(grid)
    requires dir % 2 == 1 ==> !IsBox(At(grid, Back(pos, dir)))
    ensures pos in Cone(grid, pos, dir) && Closed(grid, Cone(grid, pos, dir), dir)
  {
    if dir % 2 == 0 {
      UpBoxes(grid, pos, dir);
      UpPairs(grid, pos, dir);
    } else {
      SideRun(grid, pos, dir);
      RunPaired(grid, Cone(grid, pos, dir), pos, dir);
    }
  }

  /** can_box_move holds exactly when no moved cell faces a wall. */
  lemma CanMoveFree(grid: seq<seq<Tile>>, pos: Pos, dir: nat)
    requires dir < 4 && IsBox(At(grid, pos)) && Paired(grid)
    ensures CanBoxMove(grid, pos, dir) <==> Free(grid, Cone(grid, pos, dir), dir)
  {
    if dir % 2 == 0 {
      UpFree(grid, pos, dir);
    } else {
      SideFree(grid, pos, dir);
    }
  }

  lemma {:induction false} UpFree(grid: seq<seq<Tile>>, pos: Pos, dir: nat)
    requires dir < 4 && dir % 2 == 0 && IsBox(At(grid, pos)) && Paired(grid)
    ensures CanBoxMove(grid, pos, dir) <==> Free(grid, ConeUp(grid, pos, dir), dir)
    decreases Reach(grid, pos, dir)
  {
    var left := LeftHalf(grid, pos);
    var right := RightOf(left);
    var nextL := N.Step(left, dir);
    var nextR := N.Step(right, dir);
    var CL := if IsBox(At(grid, nextL)) then ConeUp(grid, nextL, dir) else {};
    var CR := if At(grid, nextR) == BoxL then ConeUp(grid, nextR, dir) else {};
    UpSplit(grid, pos, dir);
    UpNext(grid, grid, pos, dir);
    if IsBox(At(grid, nextL)) {
      UpFree(grid, nextL, dir);
    }
    if At(grid, nextR) == BoxL {
      UpFree(grid, nextR, dir);
    }
    FreeUnion(grid, {left, right}, CL, CR, dir);
  }

  lemma FreeUnion(grid: seq<seq<Tile>>, A: set<Pos>, B: set<Pos>, C: set<Pos>, dir: nat)
    requires dir < 4
    ensures Free(grid, A + B + C, dir) <==> Free(grid, A, dir) && Free(grid, B, dir) && Free(grid, C, dir)
  {
  }

  lemma {:induction false} SideFree(grid: seq<seq<Tile>>, pos: Pos, dir: nat)
    requires dir < 4 && dir % 2 == 1 && IsBox(At(grid, pos))
    ensures CanBoxMove(grid, pos, dir) <==> Free(grid, ConeSide(grid, pos, dir), dir)
    decreases Reach(grid, pos, dir)
  {
    var next := N.Step(pos, dir);
    if IsBox(At(grid, next)) {
      SideFree(grid, next, dir);
      FreeUnion(grid, {pos}, ConeSide(grid, next, dir), {}, dir);
      assert {pos} + ConeSide(grid, next, dir) + {} == ConeSide(grid, pos, dir);
    }
  }

  /** A closed set that holds p holds the whole push up or down of p. */
  lemma {:induction false} UpWithin(grid: seq<seq<Tile>>, C: set<Pos>, p: Pos, dir: nat)
    requires dir < 4 && dir % 2 == 0 && IsBox(At(grid, p)) && Closed(grid, C, dir) && p in C
    ensures ConeUp(grid, p, dir) <= C
    decreases Reach(grid, p, dir)
  {
    var left := LeftHalf(grid, p);
    var nextL := N.Step(left, dir);
    var nextR := N.Step(RightOf(left), dir);
    UpSplit(grid, p, dir);
    UpNext(grid, grid, p, dir);
    assert left in C && RightOf(left) in C;
    if IsBox(At(grid, nextL)) {
      UpWithin(grid, C, nextL, dir);
    }
    if At(grid, nextR) == BoxL {
      UpWithin(grid, C, nextR, dir);
    }
  }

  /** Only cells of the map hold anything but a wall. */
  lemma OnMap(g: seq<seq<Tile>>, p: Pos)
    requires At(g, p) != Wall
    ensures N.InGrid(g, p)
  {
  }

  /** Shape-preserving maps have the same cells. */
  lemma SameCells(g0: seq<seq<Tile>>, g1: seq<seq<Tile>>)
    requires SameShape(g0, g1)
    ensures N.Rect(g0) ==> N.Rect(g1)
    ensures forall q :: N.InGrid(g1, q) <==> N.InGrid(g0, q)
  {
  }

  /** A box half outside a moved set C that is closed ahead keeps its
      tile; a cell of C with no cell of C behind it is emptied. */
  lemma ShiftAt(g0: seq<seq<Tile>>, g1: seq<seq<Tile>>, C: set<Pos>, q: Pos, dir: nat)
    requires dir < 4 && Boxes(g0, C) && AheadClosed(g0, C, dir) && ShiftedBy(g0, g1, C, dir)
    ensures IsBox(At(g0, q)) && q !in C ==> At(g1, q) == At(g0, q)
    ensures q in C && Back(q, dir) !in C ==> At(g1, q) == Empty
    ensures q !in C && Back(q, dir) !in C ==> At(g1, q) == At(g0, q)
  {
    SameCells(g0, g1);
    StepBack(q, dir);
  }

  /** The cells one push up or down of p reads, after C has moved. */
  lemma UpLocal(g0: seq<seq<Tile>>, g1: seq<seq<Tile>>, C: set<Pos>, p: Pos, dir: nat)
    requires dir < 4 && dir % 2 == 0 && Paired(g0)
    requires Closed(g0, C, dir) && ShiftedBy(g0, g1, C, dir)
    requires IsBox(At(g0, p)) && p !in C
    ensures var left := LeftHalf(g0, p);
      var nextL := N.Step(left, dir);
      var nextR := N.Step(RightOf(left), dir);
      At(g1, p) == At(g0, p) && LeftHalf(g1, p) == left &&
      left !in C && RightOf(left) !in C &&
      At(g1, nextL) == (if nextL in C then Empty else At(g0, nextL)) &&
      At(g1, nextR) == (if nextR in C then Empty else At(g0, nextR))
  {
    SameCells(g0, g1);
    ShiftAt(g0, g1, C, p, dir);
    var left := LeftHalf(g0, p);
    var right := RightOf(left);
    assert PairedAt(g0, left);
    assert LeftOf(right) == left && RightOf(left) == right;
    StepBack(left, dir);
    StepBack(right, dir);
    ShiftAt(g0, g1, C, N.Step(left, dir), dir);
    ShiftAt(g0, g1, C, N.Step(right, dir), dir);
  }

  /** After a closed set C has moved up or down, the push of a box half p
      outside C moves the cells the push of p would have moved on the old
      map, less those of C. */
  lemma {:induction false} UpAfterShift(g0: seq<seq<Tile>>, g1: seq<seq<Tile>>, C: set<Pos>, p: Pos, dir: nat)
    requires dir < 4 && dir % 2 == 0 && Paired(g0)
    requires Closed(g0, C, dir) && ShiftedBy(g0, g1, C, dir)
    requires IsBox(At(g0, p)) && p !in C
    ensures At(g1, p) == At(g0, p)
    ensures ConeUp(g1, p, dir) == ConeUp(g0, p, dir) - C
    decreases Reach(g0, p, dir)
  {
    UpLocal(g0, g1, C, p, dir);
    var left := LeftHalf(g0, p);
    var nextL := N.Step(left, dir);
    var nextR := N.Step(RightOf(left), dir);
    var CL := if IsBox(At(g0, nextL)) then ConeUp(g0, nextL, dir) else {};
    var CR := if At(g0, nextR) == BoxL then ConeUp(g0, nextR, dir) else {};
    var CL1 := if IsBox(At(g1, nextL)) then ConeUp(g1, nextL, dir) else {};
    var CR1 := if At(g1, nextR) == BoxL then ConeUp(g1, nextR, dir) else {};
    UpSplit(g0, p, dir);
    UpNext(g0, g0, p, dir);
    UpSplit(g1, p, dir);
    if IsBox(At(g0, nextL)) {
      if nextL in C {
        UpWithin(g0, C, nextL, dir);
      } else {
        OnMap(g0, nextL);
        UpAfterShift(g0, g1, C, nextL, dir);
      }
    }
    if At(g0, nextR) == BoxL {
      if nextR in C {
        UpWithin(g0, C, nextR, dir);
      } else {
        OnMap(g0, nextR);
        UpAfterShift(g0, g1, C, nextR, dir);
      }
    }
    MinusUnion({left, RightOf(left)}, CL, CR, CL1, CR1, C);
  }

  lemma MinusUnion<T>(A: set<T>, X: set<T>, Y: set<T>, X1: set<T>, Y1: set<T>, C: set<T>)
    requires A !! C && X1 == X - C && Y1 == Y - C
    ensures A + X1 + Y1 == (A + X + Y) - C
  {
  }

  /** Nothing moved: the map is unchanged. */
  lemma ShiftNone(g: seq<seq<Tile>>, dir: nat)
    requires dir < 4
    ensures ShiftedBy(g, g, {}, dir)
  {
  }

  /** A first shift of C1 followed by a shift of the cells of C2 not in
      C1 is one shift of both, when C1 is closed ahead and every moved cell
      held a box half. */
  lemma ShiftCompose(g0: seq<seq<Tile>>, g1: seq<seq<Tile>>, g2: seq<seq<Tile>>, C1: set<Pos>, C2: set<Pos>, dir: nat)
    requires dir < 4 && ShiftedBy(g0, g1, C1, dir) && ShiftedBy(g1, g2, C2 - C1, dir)
    requires Boxes(g0, C1 + C2) && AheadClosed(g0, C1, dir)
    ensures ShiftedBy(g0, g2, C1 + C2, dir)
  {
    SameCells(g0, g1);
    SameCells(g1, g2);
    forall q | N.InGrid(g0, q)
      ensures At(g2, q) == (if Back(q, dir) in C1 + C2 then At(g0, Back(q, dir)) else if q in C1 + C2 then Empty else At(g0, q))
    {
      var b := Back(q, dir);
      StepBack(q, dir);
      StepBack(b, dir);
      if b in C1 + C2 {
        OnMap(g0, b);
      }
    }
  }

  /** The last four writes of a push up or down move the box at left one
      row along, on top of a shift of cells that all lie further ahead. */
  lemma LiftShift(g0: seq<seq<Tile>>, g2: seq<seq<Tile>>, left: Pos, dir: nat, C: set<Pos>)
    requires dir < 4 && dir % 2 == 0
    requires N.InGrid(g0, left) && N.InGrid(g0, RightOf(left))
    requires ShiftedBy(g0, g2, C, dir)
    requires forall c :: c in C ==> Along(c, left, dir) >= 1
    ensures ShiftedBy(g0, Lift(g2, left, dir), {left, RightOf(left)} + C, dir)
  {
    var right := RightOf(left);
    var h := Lift(g2, left, dir);
    SameCells(g0, g2);
    StepBack(left, dir);
    StepBack(right, dir);
    UpGeometry(left, left, dir);
    LiftShape(g2, left, dir);
    assert At(g2, left) == At(g0, left) && At(g2, right) == At(g0, right);
    forall q | N.InGrid(g0, q)
      ensures At(h, q) == (if Back(q, dir) in {left, right} + C then At(g0, Back(q, dir)) else if q in {left, right} + C then Empty else At(g0, q))
    {
      StepBack(q, dir);
      LiftAt(g2, left, dir, q);
    }
  }

  /** The last four writes leave the rows and their widths as they are. */
  lemma LiftShape(g: seq<seq<Tile>>, left: Pos, dir: nat)
    requires dir < 4
    ensures SameShape(g, Lift(g, left, dir))
  {
    var right := RightOf(left);
    var g1 := N.Put(g, N.Step(left, dir), At(g, left));
    var g2 := N.Put(g1, N.Step(right, dir), At(g1, right));
    var g3 := N.Put(g2, right, Empty);
    N.PutCells(g, N.Step(left, dir), At(g, left));
    N.PutCells(g1, N.Step(right, dir), At(g1, right));
    N.PutCells(g2, right, Empty);
    N.PutCells(g3, left, Empty);
  }

  /** Each cell after the last four writes of a push up or down: both old
      halves empty, each half in the row ahead. */
  lemma LiftAt(g: seq<seq<Tile>>, left: Pos, dir: nat, q: Pos)
    requires dir < 4 && dir % 2 == 0 && N.InGrid(g, left) && N.InGrid(g, RightOf(left))
    ensures At(Lift(g, left, dir), q) ==
      if q == left || q == RightOf(left) then Empty
      else if q == N.Step(RightOf(left), dir) && N.InGrid(g, q) then At(g, RightOf(left))
      else if q == N.Step(left, dir) && N.InGrid(g, q) then At(g, left)
      else At(g, q)
  {
    var right := RightOf(left);
    var nextL := N.Step(left, dir);
    var nextR := N.Step(right, dir);
    UpGeometry(left, left, dir);
    var g1 := N.Put(g, nextL, At(g, left));
    var g2 := N.Put(g1, nextR, At(g1, right));
    var g3 := N.Put(g2, right, Empty);
    LiftShape(g, left, dir);
    N.PutCells(g, nextL, At(g, left));
    N.PutCells(g1, nextR, At(g1, right));
    N.PutCells(g2, right, Empty);
    PutAt(g, nextL, At(g, left));
    PutAt(g1, nextR, At(g1, right));
    PutAt(g2, right, Empty);
    PutAt(g3, left, Empty);
  }

  /** The last four writes of a push up or down keep the count of every
      kind of tile when the two cells ahead are empty. */
  lemma LiftCounts(g: seq<seq<Tile>>, left: Pos, dir: nat)
    requires dir < 4 && dir % 2 == 0
    requires N.InGrid(g, left) && N.InGrid(g, RightOf(left))
    requires N.InGrid(g, N.Step(left, dir)) && N.InGrid(g, N.Step(RightOf(left), dir))
    requires At(g, N.Step(left, dir)) == Empty && At(g, N.Step(RightOf(left), dir)) == Empty
    ensures forall t :: TileCount(Lift(g, left, dir), t) == TileCount(g, t)
  {
    var right := RightOf(left);
    var nextL := N.Step(left, dir);
    var nextR := N.Step(right, dir);
    var h1 := N.Put(g, nextL, At(g, left));
    var h2 := N.Put(h1, nextR, At(h1, right));
    var h3 := N.Put(h2, right, Empty);
    forall t
      ensures TileCount(Lift(g, left, dir), t) == TileCount(g, t)
    {
      N.PutSum(g, CountTerm(t), nextL, At(g, left));
      N.PutSum(h1, CountTerm(t), nextR, At(h1, right));
      N.PutSum(h2, CountTerm(t), right, Empty);
      N.PutSum(h3, CountTerm(t), left, Empty);
    }
  }

  /** The last two writes of a sideways push move the half at pos one cell
      along, on top of a shift of cells that all lie further ahead. */
  lemma SlideShift(g0: seq<seq<Tile>>, g1: seq<seq<Tile>>, pos: Pos, dir: nat, C: set<Pos>)
    requires dir < 4 && N.InGrid(g0, pos) && N.InGrid(g0, N.Step(pos, dir))
    requires ShiftedBy(g0, g1, C, dir)
    requires forall c :: c in C ==> c.1 == pos.1 && Along(c, pos, dir) >= 1
    ensures ShiftedBy(g0, Slide(g1, pos, N.Step(pos, dir)), {pos} + C, dir)
  {
    var next := N.Step(pos, dir);
    var h1 := N.Put(g1, next, At(g1, pos));
    SameCells(g0, g1);
    PutAt(g1, next, At(g1, pos));
    PutAt(h1, pos, Empty);
    StepBack(pos, dir);
    assert At(g1, pos) == At(g0, pos);
    forall q | N.InGrid(g0, q)
      ensures At(Slide(g1, pos, next), q) == (if Back(q, dir) in {pos} + C then At(g0, Back(q, dir)) else if q in {pos} + C then Empty else At(g0, q))
    {
      StepBack(q, dir);
    }
  }

  /** Moving the tile at p into the empty cell q keeps the count of every
      kind of tile. */
  lemma StepCounts(g: seq<seq<Tile>>, p: Pos, q: Pos)
    requires N.InGrid(g, p) && N.InGrid(g, q) && p != q && At(g, q) == Empty
    ensures forall t :: TileCount(Slide(g, p, q), t) == TileCount(g, t)
  {
    var g1 := N.Put(g, q, At(g, p));
    forall t
      ensures TileCount(Slide(g, p, q), t) == TileCount(g, t)
    {
      N.PutSum(g, CountTerm(t), q, At(g, p));
      N.PutSum(g1, CountTerm(t), p, Empty);
    }
  }

  /** Cells moved off C leave the cells they faced free unless those are
      walls: a set D clear of C that faced no wall still faces none. */
  lemma FreeAfterShift(g0: seq<seq<Tile>>, g1: seq<seq<Tile>>, C: set<Pos>, D: set<Pos>, dir: nat)
    requires dir < 4 && ShiftedBy(g0, g1, C, dir) && Free(g0, D, dir) && D !! C
    ensures Free(g1, D, dir)
  {
    SameCells(g0, g1);
    forall c | c in D
      ensures At(g1, N.Step(c, dir)) != Wall
    {
      OnMap(g0, N.Step(c, dir));
      StepBack(c, dir);
    }
  }

  /** The walls of two maps are the same cells. */
  ghost predicate SameWalls(g: seq<seq<Tile>>, h: seq<seq<Tile>>)
  {
    forall q :: At(g, q) == Wall <==> At(h, q) == Wall
  }

  /** A shift of box halves that face no wall keeps the walls. */
  lemma ShiftWalls(g0: seq<seq<Tile>>, g1: seq<seq<Tile>>, C: set<Pos>, dir: nat)
    requires dir < 4 && Boxes(g0, C) && Free(g0, C, dir) && ShiftedBy(g0, g1, C, dir)
    ensures SameWalls(g1, g0)
  {
    SameCells(g0, g1);
    forall q
      ensures At(g1, q) == Wall <==> At(g0, q) == Wall
    {
      StepBack(q, dir);
    }
  }

  /** A shift of a closed set that faces no wall keeps the boxes whole. */
  lemma ShiftPaired(g0: seq<seq<Tile>>, g1: seq<seq<Tile>>, C: set<Pos>, dir: nat)
    requires dir < 4 && Paired(g0) && Closed(g0, C, dir) && Free(g0, C, dir) && ShiftedBy(g0, g1, C, dir)
    ensures Paired(g1)
  {
    forall p: Pos
      ensures PairedAt(g1, p)
    {
      ShiftPairedAt(g0, g1, C, dir, p);
    }
  }

  lemma ShiftPairedAt(g0: seq<seq<Tile>>, g1: seq<seq<Tile>>, C: set<Pos>, dir: nat, p: Pos)
    requires dir < 4 && Paired(g0) && Closed(g0, C, dir) && Free(g0, C, dir) && ShiftedBy(g0, g1, C, dir)
    ensures PairedAt(g1, p)
  {
    SameCells(g0, g1);
    var r := RightOf(p);
    var bp := Back(p, dir);
    var br := Back(r, dir);
    assert br == RightOf(bp) && bp == LeftOf(br) && p == LeftOf(r);
    StepBack(p, dir);
    StepBack(r, dir);
    assert PairedAt(g0, p) && PairedAt(g0, bp);
    if bp in C {
      OnMap(g0, bp);
    }
    if br in C {
      OnMap(g0, br);
    }
  }

  /** A push moves exactly the cells of its cone one step along dir and
      keeps the count of every kind of tile. */
  lemma ForceEffects(grid: seq<seq<Tile>>, pos: Pos, dir: nat)
    requires dir < 4 && IsBox(At(grid, pos)) && Paired(grid) && CanBoxMove(grid, pos, dir)
    ensures ShiftedBy(grid, Force(grid, pos, dir), Cone(grid, pos, dir), dir)
    ensures forall t :: TileCount(Force(grid, pos, dir), t) == TileCount(grid, t)
  {
    if dir % 2 == 0 {
      UpEffects(grid, pos, dir);
    } else {
      SideEffects(grid, pos, dir);
    }
  }

  lemma {:induction false} SideEffects(grid: seq<seq<Tile>>, pos: Pos, dir: nat)
    requires dir < 4 && dir % 2 == 1 && IsBox(At(grid, pos)) && CanBoxMove(grid, pos, dir)
    ensures ShiftedBy(grid, Force(grid, pos, dir), ConeSide(grid, pos, dir), dir)
    ensures forall t :: TileCount(Force(grid, pos, dir), t) == TileCount(grid, t)
    decreases Reach(grid, pos, dir)
  {
    var next := N.Step(pos, dir);
    var C1 := if IsBox(At(grid, next)) then ConeSide(grid, next, dir) else {};
    var g1 := if IsBox(At(grid, next)) then Force(grid, next, dir) else grid;
    OnMap(grid, pos);
    OnMap(grid, next);
    if IsBox(At(grid, next)) {
      SideEffects(grid, next, dir);
      SideRun(grid, next, dir);
    } else {
      ShiftNone(grid, dir);
    }
    assert forall c :: c in C1 ==> c.1 == pos.1 && Along(c, pos, dir) >= 1;
    StepBack(pos, dir);
    ShiftAt(grid, g1, C1, pos, dir);
    ShiftAt(grid, g1, C1, next, dir);
    SameCells(grid, g1);
    StepCounts(g1, pos, next);
    SlideShift(grid, g1, pos, dir, C1);
  }

  lemma {:induction false} UpEffects(grid: seq<seq<Tile>>, pos: Pos, dir: nat)
    requires dir < 4 && dir % 2 == 0 && IsBox(At(grid, pos)) && Paired(grid) && CanBoxMove(grid, pos, dir)
    ensures ShiftedBy(grid, Force(grid, pos, dir), ConeUp(grid, pos, dir), dir)
    ensures forall t :: TileCount(Force(grid, pos, dir), t) == TileCount(grid, t)
    decreases Reach(grid, pos, dir)
  {
    var left := LeftHalf(grid, pos);
    var nextL := N.Step(left, dir);
    var nextR := N.Step(RightOf(left), dir);
    var CL := if IsBox(At(grid, nextL)) then ConeUp(grid, nextL, dir) else {};
    var CR := if At(grid, nextR) == BoxL then ConeUp(grid, nextR, dir) else {};
    var g1 := if IsBox(At(grid, nextL)) then Force(grid, nextL, dir) else grid;
    var g2 := if At(g1, nextR) == BoxL then Force(g1, nextR, dir) else g1;
    if IsBox(At(grid, nextL)) {
      UpNext(grid, grid, pos, dir);
      UpEffects(grid, nextL, dir);
    } else {
      ShiftNone(grid, dir);
    }
    UpFirst(grid, pos, dir, g1, CL);
    if At(grid, nextR) == BoxL {
      UpSecondPush(grid, g1, CL, nextR, dir);
      UpNext(grid, g1, pos, dir);
      UpEffects(g1, nextR, dir);
      assert ShiftedBy(g1, g2, CR - CL, dir);
    } else {
      ShiftNone(g1, dir);
      assert g2 == g1 && CR - CL == {};
    }
    UpCombine(grid, pos, dir, g1, g2, CL, CR);
    assert Force(grid, pos, dir) == Lift(g2, left, dir);
  }

  /** The first push of a push up or down, given what it did to the map:
      its cells lie ahead and are closed, the boxes stay whole, and the
      cell in front of the right half tells the same as before. */
  lemma UpFirst(grid: seq<seq<Tile>>, pos: Pos, dir: nat, g1: seq<seq<Tile>>, CL: set<Pos>)
    requires dir < 4 && dir % 2 == 0 && IsBox(At(grid, pos)) && Paired(grid) && CanBoxMove(grid, pos, dir)
    requires var nextL := N.Step(LeftHalf(grid, pos), dir);
      CL == if IsBox(At(grid, nextL)) then ConeUp(grid, nextL, dir) else {}
    requires ShiftedBy(grid, g1, CL, dir)
    ensures var left := LeftHalf(grid, pos);
      var nextL := N.Step(left, dir);
      var nextR := N.Step(RightOf(left), dir);
      At(grid, left) == BoxL && At(grid, RightOf(left)) == BoxR &&
      Paired(g1) && Closed(grid, CL, dir) && Free(grid, CL, dir) &&
      (forall c :: c in CL ==> Along(c, left, dir) >= 1) &&
      (IsBox(At(grid, nextL)) ==> nextL in CL) &&
      (At(grid, nextR) == BoxL ==> nextR !in CL && CanBoxMove(grid, nextR, dir)) &&
      (At(g1, nextR) == BoxL <==> At(grid, nextR) == BoxL)
  {
    var left := LeftHalf(grid, pos);
    var right := RightOf(left);
    var nextR := N.Step(right, dir);
    UpFirstCone(grid, pos, dir, CL);
    ShiftPaired(grid, g1, CL, dir);
    StepBack(right, dir);
    assert Along(right, left, dir) == 0;
    ShiftAt(grid, g1, CL, nextR, dir);
  }

  /** The first push of a push up or down, the one in front of the left
      half, moves a closed set of box halves none of which stands before a
      wall, all in the rows ahead; it holds the half in front of the left
      half and not a left half in front of the right half, which can move
      on its own. */
  lemma UpFirstCone(grid: seq<seq<Tile>>, pos: Pos, dir: nat, CL: set<Pos>)
    requires dir < 4 && dir % 2 == 0 && IsBox(At(grid, pos)) && Paired(grid) && CanBoxMove(grid, pos, dir)
    requires var nextL := N.Step(LeftHalf(grid, pos), dir);
      CL == if IsBox(At(grid, nextL)) then ConeUp(grid, nextL, dir) else {}
    ensures var left := LeftHalf(grid, pos);
      var nextL := N.Step(left, dir);
      var nextR := N.Step(RightOf(left), dir);
      At(grid, left) == BoxL && At(grid, RightOf(left)) == BoxR &&
      Closed(grid, CL, dir) && Free(grid, CL, dir) &&
      (forall c :: c in CL ==> Along(c, left, dir) >= 1) &&
      (IsBox(At(grid, nextL)) ==> nextL in CL) &&
      (At(grid, nextR) == BoxL ==> nextR !in CL && CanBoxMove(grid, nextR, dir))
  {
    var left := LeftHalf(grid, pos);
    var right := RightOf(left);
    var nextL := N.Step(left, dir);
    var nextR := N.Step(right, dir);
    assert PairedAt(grid, left);
    OnMap(grid, left);
    UpGeometry(left, left, dir);
    if IsBox(At(grid, nextL)) {
      UpBoxes(grid, nextL, dir);
      UpPairs(grid, nextL, dir);
      UpAhead(grid, nextL, dir);
      AheadShift(CL, nextL, LeftHalf(grid, nextL), left, dir);
      UpFree(grid, nextL, dir);
      UpFree(grid, pos, dir);
      UpSplit(grid, pos, dir);
      assert PairedAt(grid, nextL);
      UpSplit(grid, nextL, dir);
    }
  }

  /** Before the second push of a push up or down: on the map the first
      push left, the left half in front of the right half can still move,
      and moves what it would have moved before, less the first push's
      cells. */
  lemma UpSecondPush(grid: seq<seq<Tile>>, g1: seq<seq<Tile>>, CL: set<Pos>, nextR: Pos, dir: nat)
    requires dir < 4 && dir % 2 == 0 && Paired(grid) && Paired(g1)
    requires ShiftedBy(grid, g1, CL, dir) && Closed(grid, CL, dir)
    requires At(grid, nextR) == BoxL && nextR !in CL && CanBoxMove(grid, nextR, dir)
    ensures At(g1, nextR) == BoxL && CanBoxMove(g1, nextR, dir)
    ensures ConeUp(g1, nextR, dir) == ConeUp(grid, nextR, dir) - CL
  {
    UpAfterShift(grid, g1, CL, nextR, dir);
    UpFree(grid, nextR, dir);
    FreeAfterShift(grid, g1, CL, ConeUp(grid, nextR, dir) - CL, dir);
    UpFree(g1, nextR, dir);
  }

  /** Both pushes in front of a box and its own four writes together move
      the cells of the push up or down. */
  lemma UpCombine(grid: seq<seq<Tile>>, pos: Pos, dir: nat, g1: seq<seq<Tile>>, g2: seq<seq<Tile>>, CL: set<Pos>, CR: set<Pos>)
    requires dir < 4 && dir % 2 == 0 && IsBox(At(grid, pos)) && Paired(grid) && CanBoxMove(grid, pos, dir)
    requires var left := LeftHalf(grid, pos);
      var nextL := N.Step(left, dir);
      var nextR := N.Step(RightOf(left), dir);
      CL == (if IsBox(At(grid, nextL)) then ConeUp(grid, nextL, dir) else {}) &&
      CR == (if At(grid, nextR) == BoxL then ConeUp(grid, nextR, dir) else {})
    requires ShiftedBy(grid, g1, CL, dir) && ShiftedBy(g1, g2, CR - CL, dir)
    ensures ShiftedBy(grid, Lift(g2, LeftHalf(grid, pos), dir), ConeUp(grid, pos, dir), dir)
    ensures forall t :: TileCount(Lift(g2, LeftHalf(grid, pos), dir), t) == TileCount(g2, t)
  {
    var left := LeftHalf(grid, pos);
    var right := RightOf(left);
    var nextL := N.Step(left, dir);
    var nextR := N.Step(right, dir);
    UpFirst(grid, pos, dir, g1, CL);
    UpGeometry(left, left, dir);
    UpSplitWith(grid, pos, dir, CL, CR);
    if At(grid, nextR) == BoxL {
      UpBoxes(grid, nextR, dir);
      UpAhead(grid, nextR, dir);
      AheadShift(CR, nextR, nextR, left, dir);
    } else if At(grid, nextR) == BoxR {
      assert PairedAt(grid, nextL);
      assert At(grid, nextL) == BoxL;
      UpSplit(grid, nextL, dir);
    }
    ShiftCompose(grid, g1, g2, CL, CR, dir);
    var C := CL + CR;
    assert Boxes(grid, C) && AheadClosed(grid, C, dir);
    assert forall c :: c in C ==> Along(c, left, dir) >= 1;
    assert IsBox(At(grid, nextR)) ==> nextR in C;
    UpFinish(grid, g2, left, dir, C);
  }

  /** UpSplit with the two pushes in front named. */
  lemma UpSplitWith(grid: seq<seq<Tile>>, pos: Pos, dir: nat, CL: set<Pos>, CR: set<Pos>)
    requires dir < 4 && dir % 2 == 0 && IsBox(At(grid, pos))
    requires var left := LeftHalf(grid, pos);
      var nextL := N.Step(left, dir);
      var nextR := N.Step(RightOf(left), dir);
      CL == (if IsBox(At(grid, nextL)) then ConeUp(grid, nextL, dir) else {}) &&
      CR == (if At(grid, nextR) == BoxL then ConeUp(grid, nextR, dir) else {})
    ensures ConeUp(grid, pos, dir) == {LeftHalf(grid, pos), RightOf(LeftHalf(grid, pos))} + (CL + CR)
  {
    UpSplit(grid, pos, dir);
    var X := {LeftHalf(grid, pos), RightOf(LeftHalf(grid, pos))};
    assert X + CL + CR == X + (CL + CR);
  }

  /** The last four writes of a push up or down, after the pushes in front
      of it have moved C: the cells in front of the box are empty by then,
      so together they move C and the box. */
  lemma UpFinish(grid: seq<seq<Tile>>, g2: seq<seq<Tile>>, left: Pos, dir: nat, C: set<Pos>)
    requires dir < 4 && dir % 2 == 0
    requires At(grid, left) == BoxL && At(grid, RightOf(left)) == BoxR
    requires At(grid, N.Step(left, dir)) != Wall && At(grid, N.Step(RightOf(left), dir)) != Wall
    requires IsBox(At(grid, N.Step(left, dir))) ==> N.Step(left, dir) in C
    requires IsBox(At(grid, N.Step(RightOf(left), dir))) ==> N.Step(RightOf(left), dir) in C
    requires ShiftedBy(grid, g2, C, dir) && Boxes(grid, C) && AheadClosed(grid, C, dir)
    requires forall c :: c in C ==> Along(c, left, dir) >= 1
    ensures ShiftedBy(grid, Lift(g2, left, dir), {left, RightOf(left)} + C, dir)
    ensures forall t :: TileCount(Lift(g2, left, dir), t) == TileCount(g2, t)
  {
    var right := RightOf(left);
    var nextL := N.Step(left, dir);
    var nextR := N.Step(right, dir);
    OnMap(grid, left);
    OnMap(grid, right);
    OnMap(grid, nextL);
    OnMap(grid, nextR);
    StepBack(left, dir);
    StepBack(right, dir);
    LiftShift(grid, g2, left, dir, C);
    ShiftAt(grid, g2, C, nextL, dir);
    ShiftAt(grid, g2, C, nextR, dir);
    SameCells(grid, g2);
    LiftCounts(g2, left, dir);
  }

  /** Up or down, the row ahead of a box is one step further along. */
  lemma AlongAhead(left: Pos, dir: nat)
    requires dir < 4 && dir % 2 == 0
    ensures forall c :: Along(c, N.Step(left, dir), dir) == Along(c, left, dir) - 1
    ensures forall c :: Along(c, N.Step(RightOf(left), dir), dir) == Along(c, left, dir) - 1
  {
  }

  // ---- The wide warehouse ----

  /** The state a move leads to, as Map2::move_robot computes it. */
  function Moved(grid: seq<seq<Tile>>, robot: Pos, dir: nat): (seq<seq<Tile>>, Pos)
    requires dir < 4
  {
    var next := N.Step(robot, dir);
    match At(grid, next)
    case Empty => (grid, next)
    case Wall => (grid, robot)
    case _ => if CanBoxMove(grid, next, dir) then (Force(grid, next, dir), next) else (grid, robot)
  }

  /** A move keeps the map rectangular, the boxes whole, the walls where
      they were and the count of every kind of tile, and the robot ends on
      an empty cell one step away or where it was. A push goes ahead
      exactly when no cell it would move faces a wall, and then moves
      exactly those cells one step along. */
  lemma MovedKeeps(grid: seq<seq<Tile>>, robot: Pos, dir: nat)
    requires N.Rect(grid) && Paired(grid) && dir < 4 && At(grid, robot) == Empty
    ensures var (g, r) := Moved(grid, robot, dir);
      N.Rect(g) && Paired(g) && SameWalls(g, grid) && (forall t :: TileCount(g, t) == TileCount(grid, t)) &&
      At(g, r) == Empty && (r == robot || r == N.Step(robot, dir))
    ensures var (g, r) := Moved(grid, robot, dir);
      var next := N.Step(robot, dir);
      IsBox(At(grid, next)) ==>
        (r == next <==> Free(grid, Cone(grid, next, dir), dir)) &&
        ShiftedBy(grid, g, if r == next then Cone(grid, next, dir) else {}, dir)
  {
    var next := N.Step(robot, dir);
    if IsBox(At(grid, next)) {
      var C := Cone(grid, next, dir);
      StepBack(robot, dir);
      ConeClosed(grid, next, dir);
      CanMoveFree(grid, next, dir);
      if CanBoxMove(grid, next, dir) {
        var g := Force(grid, next, dir);
        ForceEffects(grid, next, dir);
        SameCells(grid, g);
        ShiftPaired(grid, g, C, dir);
        ShiftWalls(grid, g, C, dir);
        ShiftAt(grid, g, C, next, dir);
      } else {
        ShiftNone(grid, dir);
      }
    }
  }

  /** The state after a sequence of moves, each as Moved computes it: the
      robot still stands on an empty cell, the boxes are whole, the walls
      are where they were and no tile is created or lost. */
  function Replay(grid: seq<seq<Tile>>, robot: Pos, instrs: seq<nat>): (s: (seq<seq<Tile>>, Pos))
    requires N.Rect(grid) && Paired(grid) && At(grid, robot) == Empty
    requires forall i :: 0 <= i < |instrs| ==> instrs[i] < 4
    ensures N.Rect(s.0) && Paired(s.0) && At(s.0, s.1) == Empty
    ensures SameWalls(s.0, grid) && forall t :: TileCount(s.0, t) == TileCount(grid, t)
    decreases |instrs|
  {
    if instrs == [] then (grid, robot)
    else
      var prev := Replay(grid, robot, instrs[..|instrs| - 1]);
      var dir := instrs[|instrs| - 1];
      MovedKeeps(prev.0, prev.1, dir);
      Moved(prev.0, prev.1, dir)
  }

  /** Map2: the wide warehouse with the robot's position. */
  class Warehouse {
    var grid: seq<seq<Tile>>
    var robot: Pos

    /** The robot stands on an empty cell of a rectangular map whose box
        halves pair up. */
    ghost predicate Valid()
      reads this
    {
      N.Rect(grid) && Paired(grid) && At(grid, robot) == Empty
    }

    constructor(grid: seq<seq<Tile>>, robot: Pos)
      requires N.Rect(grid) && Paired(grid) && At(grid, robot) == Empty
      ensures Valid() && this.grid == grid && this.robot == robot
    {
      this.grid := grid;
      this.robot := robot;
    }

    /** Map2::force_box_move: up or down, push what stands in front of
        the left half, then a left half in front of the right half, then
        write both halves one row along and empty their old cells;
        sideways, push the half in front, then step this half along. */
    method ForceBoxMove(pos: Pos, dir: nat)
      requires dir < 4 && IsBox(At(grid, pos))
      modifies this
      ensures grid == Force(old(grid), pos, dir) && robot == old(robot)
      decreases Reach(grid, pos, dir)
    {
      ghost var g0 := grid;
      if dir % 2 == 0 {
        var left := LeftHalf(grid, pos);
        var right := RightOf(left);
        var nextL := N.Step(left, dir);
        var nextR := N.Step(right, dir);
        UpNext(g0, g0, pos, dir);
        if IsBox(At(grid, nextL)) {
          ForceBoxMove(nextL, dir);
        }
        ghost var g1 := grid;
        UpNext(g0, g1, pos, dir);
        if At(grid, nextR) == BoxL {
          ForceBoxMove(nextR, dir);
        }
        assert Lift(grid, left, dir) == Force(g0, pos, dir);
        grid := N.Put(grid, nextL, At(grid, left));
        grid := N.Put(grid, nextR, At(grid, right));
        grid := N.Put(grid, right, Empty);
        grid := N.Put(grid, left, Empty);
      } else {
        var next := N.Step(pos, dir);
        if IsBox(At(grid, next)) {
          OnMap(grid, pos);
          OnMap(grid, next);
          ForceBoxMove(next, dir);
        }
        assert Slide(grid, pos, next) == Force(g0, pos, dir);
        grid := N.Put(grid, next, At(grid, pos));
        grid := N.Put(grid, pos, Empty);
      }
    }

    /** Map2::move_robot: an empty cell is stepped into, a wall stops the
        robot, and a box is pushed when can_box_move allows it. */
    method MoveRobot(dir: nat)
      requires Valid() && dir < 4
      modifies this
      ensures Valid()
      ensures (grid, robot) == Moved(old(grid), old(robot), dir)
      ensures SameWalls(grid, old(grid)) && forall t :: TileCount(grid, t) == TileCount(old(grid), t)
    {
      MovedKeeps(grid, robot, dir);
      var next := N.Step(robot, dir);
      match At(grid, next)
      case Empty =>
        robot := next;
      case Wall =>
      case _ =>
        if CanBoxMove(grid, next, dir) {
          ForceBoxMove(next, dir);
          robot := next;
        }
    }

    /** part_2's loop: one move per instruction. */
    method Run(instrs: seq<nat>)
      requires Valid() && forall i :: 0 <= i < |instrs| ==> instrs[i] < 4
      modifies this
      ensures Valid()
      ensures (grid, robot) == Replay(old(grid), old(robot), instrs)
    {
      var i := 0;
      while i < |instrs|
        invariant 0 <= i <= |instrs| && Valid()
        invariant (grid, robot) == Replay(old(grid), old(robot), instrs[..i])
      {
        assert instrs[..i + 1][..i] == instrs[..i];
        MoveRobot(instrs[i]);
        i := i + 1;
      }
      assert instrs[..i] == instrs;
    }
  }

  /** part_2: widen the map, put the robot in the left column of its
      doubled cell, run the instructions, then score the left halves. */
  method Part2(grid: seq<seq<N.Tile>>, robot: Pos, instrs: seq<nat>) returns (score: int)
    requires N.Rect(grid) && N.At(grid, robot) == N.Empty
    requires forall i :: 0 <= i < |instrs| ==> instrs[i] < 4
    ensures (WidenPaired(grid, robot); score == Gps(Replay(Widen(grid), (2 * robot.0, robot.1), instrs).0))
  {
    WidenPaired(grid, robot);
    var house := new Warehouse(Widen(grid), (2 * robot.0, robot.1));
    house.Run(instrs);
    score := Gps(house.grid);
  }
}
