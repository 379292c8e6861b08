/** Day 12: a garden map of plant letters. A region is a 4-connected set of
    cells with the same letter. Part 1 prices each region at area times
    perimeter, part 2 at area times number of sides, where the sides are
    counted as the corners of the region. */
module Day12 {
  import opened Common

  /** (row, column). Signed so that the wrapping_sub neighbours of row or
      column 0 are plain -1, a coordinate no region holds. */
  type Pos = (int, int)

  /** The map: at least one row, every row as wide as the first. */
  predicate ValidMap(grid: seq<seq<char>>)
  {
    |grid| > 0 && |grid[0]| > 0 && forall r :: 0 <= r < |grid| ==> |grid[r]| == |grid[0]|
  }

  predicate InGrid(grid: seq<seq<char>>, p: Pos)
  {
    0 <= p.0 < |grid| && 0 <= p.1 < |grid[p.0]|
  }

  /** Every cell of the map. */
  function Cells(grid: seq<seq<char>>): (s: set<Pos>)
    ensures forall p: Pos :: p in s <==> InGrid(grid, p)
  {
    set r: int, c: int | 0 <= r < |grid| && 0 <= c < |grid[r]| :: (r, c)
  }

  predicate Adjacent(p: Pos, q: Pos)
  {
    (p.0 == q.0 && (p.1 == q.1 + 1 || q.1 == p.1 + 1)) ||
    (p.1 == q.1 && (p.0 == q.0 + 1 || q.0 == p.0 + 1))
  }

  /** Two orthogonally adjacent cells with the same plant. */
  predicate Link(grid: seq<seq<char>>, p: Pos, q: Pos)
  {
    InGrid(grid, p) && InGrid(grid, q) && Adjacent(p, q) && grid[p.0][p.1] == grid[q.0][q.1]
  }

  function Adj(grid: seq<seq<char>>): (Pos, Pos) -> bool
  {
    (p: Pos, q: Pos) => Link(grid, p, q)
  }

  /** Map::get_neighbors: the in-bounds orthogonal neighbours with the same
      plant, in the order up, left, down, right. */
  function Neighbors(grid: seq<seq<char>>, p: Pos): (ns: seq<Pos>)
    requires ValidMap(grid)
    ensures |ns| <= 4 && NoDuplicates(ns)
    ensures forall q: Pos :: q in ns <==> Link(grid, p, q)
  {
    if !InGrid(grid, p) then []
    else
      var v := grid[p.0][p.1];
      var up := if p.0 > 0 && grid[p.0 - 1][p.1] == v then [(p.0 - 1, p.1)] else [];
      var left := if p.1 > 0 && grid[p.0][p.1 - 1] == v then [(p.0, p.1 - 1)] else [];
      var down := if p.0 < |grid| - 1 && grid[p.0 + 1][p.1] == v then [(p.0 + 1, p.1)] else [];
      var right := if p.1 < |grid[0]| - 1 && grid[p.0][p.1 + 1] == v then [(p.0, p.1 + 1)] else [];
      up + left + down + right
  }

  /** The perimeter a cell contributes: its sides not shared with a cell of
      the same plant. */
  function Fences(grid: seq<seq<char>>, p: Pos): (n: nat)
    requires ValidMap(grid)
    ensures n <= 4
  {
    4 - |Neighbors(grid, p)|
  }

  /** q is in the region of start: a same-plant walk leads there. */
  ghost predicate InRegion(grid: seq<seq<char>>, start: Pos, q: Pos)
  {
    InGrid(grid, q) && Reaches(Adj(grid), start, q)
  }

  /** The region of start: the cells a same-plant walk from start reaches. */
  ghost function Component(grid: seq<seq<char>>, start: Pos): (s: set<Pos>)
    ensures s <= Cells(grid)
    ensures forall q :: q in s <==> InRegion(grid, start, q)
  {
    set q | q in Cells(grid) && InRegion(grid, start, q)
  }

  /** A region: its cells and its perimeter. */
  datatype Region = Region(coords: set<Pos>, perimeter: nat)

  /** Region::area. */
  function Area(region: Region): (n: nat)
    ensures n == |region.coords|
  {
    |region.coords|
  }

  /** The perimeter of a set of cells: the sum of their fences. */
  ghost function Perimeter(grid: seq<seq<char>>, coords: set<Pos>): int
    requires ValidMap(grid)
  {
    SetSum(coords, (p: Pos) => Fences(grid, p) as int)
  }

  /** The flood fill's invariant: everything seen or stacked is in the
      region of start, start is seen or stacked, and every same-plant
      neighbour of a seen cell is seen or stacked. */
  ghost predicate FillInv(grid: seq<seq<char>>, start: Pos, seen: set<Pos>, stack: seq<Pos>)
    requires ValidMap(grid)
  {
    (forall q :: q in seen ==> InRegion(grid, start, q)) &&
    (forall i :: 0 <= i < |stack| ==> InRegion(grid, start, stack[i])) &&
    (start in seen || start in stack) &&
    (forall a, b :: a in seen && Link(grid, a, b) ==> b in seen || b in stack)
  }

  lemma FillStart(grid: seq<seq<char>>, start: Pos)
    requires ValidMap(grid) && InGrid(grid, start)
    ensures FillInv(grid, start, {}, [start])
  {
    ReachesSelf(Adj(grid), start);
  }

  /** Popping a cell already seen. */
  lemma FillSkip(grid: seq<seq<char>>, start: Pos, seen: set<Pos>, stack: seq<Pos>, current: Pos)
    requires ValidMap(grid) && FillInv(grid, start, seen, stack + [current]) && current in seen
    ensures FillInv(grid, start, seen, stack)
  {
    forall i | 0 <= i < |stack| ensures InRegion(grid, start, stack[i]) {
      assert (stack + [current])[i] == stack[i];
    }
    forall b | b in stack + [current] ensures b in seen || b in stack {
    }
  }

  /** Processing a new cell: it is seen and its neighbours are stacked. */
  lemma FillVisit(grid: seq<seq<char>>, start: Pos, seen: set<Pos>, stack: seq<Pos>, current: Pos)
    requires ValidMap(grid) && FillInv(grid, start, seen, stack + [current]) && current !in seen
    ensures FillInv(grid, start, seen + {current}, stack + Neighbors(grid, current))
    ensures current in Cells(grid) - seen
  {
    assert InRegion(grid, start, (stack + [current])[|stack|]);
    var next := stack + Neighbors(grid, current);
    assert current == (stack + [current])[|stack|];
    forall i | 0 <= i < |stack| ensures InRegion(grid, start, stack[i]) {
      assert (stack + [current])[i] == stack[i];
    }
    forall q | q in Neighbors(grid, current) ensures InRegion(grid, start, q) {
      assert Adj(grid)(current, q);
      WalkExtend(Adj(grid), start, current, q);
    }
    forall i | 0 <= i < |next| ensures InRegion(grid, start, next[i]) {
      if i >= |stack| {
        assert next[i] in Neighbors(grid, current);
      }
    }
    forall a, b | a in seen + {current} && Link(grid, a, b) ensures b in seen + {current} || b in next {
      if a == current {
        assert b in Neighbors(grid, current);
      } else {
        assert b in seen || b in stack + [current];
      }
    }
  }

  /** With the stack empty, the seen cells are the whole region. */
  lemma FillDone(grid: seq<seq<char>>, start: Pos, seen: set<Pos>)
    requires ValidMap(grid) && FillInv(grid, start, seen, [])
    ensures seen == Component(grid, start) && start in seen
    ensures Closed(Adj(grid), seen)
  {
    assert Closed(Adj(grid), seen) by {
      forall a, b | a in seen && Adj(grid)(a, b) ensures b in seen {
        assert Link(grid, a, b);
      }
    }
    forall q | q in Component(grid, start) ensures q in seen {
      ClosedHoldsReachable(Adj(grid), seen, start, q);
    }
    assert seen <= Component(grid, start);
  }

  lemma PerimeterAdd(grid: seq<seq<char>>, seen: set<Pos>, current: Pos)
    requires ValidMap(grid) && current !in seen
    ensures Perimeter(grid, seen + {current}) == Perimeter(grid, seen) + Fences(grid, current)
  {
    SetSumRemove(seen + {current}, (p: Pos) => Fences(grid, p) as int, current);
    assert seen + {current} - {current} == seen;
  }

  lemma FewerUnseen(all: set<Pos>, seen: set<Pos>, current: Pos)
    requires current in all - seen
    ensures |all - (seen + {current})| < |all - seen|
  {
    var rest := all - (seen + {current});
    assert all - seen == rest + {current} && current !in rest;
  }

  lemma PopSplit(s: seq<Pos>)
    requires s != []
    ensures s[..|s| - 1] + [s[|s| - 1]] == s
  {
  }

  /** One visit keeps the invariant, adds the cell's fences to the
      perimeter and shrinks the set of unseen cells. */
  lemma VisitStep(grid: seq<seq<char>>, start: Pos, seen: set<Pos>, stack: seq<Pos>, current: Pos, perimeter: int)
    requires ValidMap(grid) && FillInv(grid, start, seen, stack + [current]) && current !in seen
    requires perimeter == Perimeter(grid, seen)
    ensures FillInv(grid, start, seen + {current}, stack + Neighbors(grid, current))
    ensures perimeter + (4 - |Neighbors(grid, current)|) == Perimeter(grid, seen + {current})
    ensures |Cells(grid) - (seen + {current})| < |Cells(grid) - seen|
  {
    FillVisit(grid, start, seen, stack, current);
    PerimeterAdd(grid, seen, current);
    FewerUnseen(Cells(grid), seen, current);
  }

  /** Map::get_region_from_point: a depth-first flood fill with a stack and
      a seen set; each cell is processed once and adds its fences to the
      perimeter. The result is exactly the region of start. */
  method RegionFromPoint(grid: seq<seq<char>>, start: Pos) returns (region: Region)
    requires ValidMap(grid) && InGrid(grid, start)
    ensures start in region.coords
    ensures region.coords == Component(grid, start)
    ensures Closed(Adj(grid), region.coords)
    ensures region.perimeter == Perimeter(grid, region.coords)
  {
    var coords: set<Pos> := {};
    var perimeter: nat := 0;
    var stack := [start];
    var seen: set<Pos> := {};
    FillStart(grid, start);
    while stack != []
      invariant seen == coords && FillInv(grid, start, seen, stack)
      invariant perimeter == Perimeter(grid, seen)
      decreases |Cells(grid) - seen|, |stack|
    {
      ghost var before := stack;
      var current := stack[|stack| - 1];
      stack := stack[..|stack| - 1];
      PopSplit(before);
      if current in seen {
        FillSkip(grid, start, seen, stack, current);
      } else {
        var neighbors := Neighbors(grid, current);
        VisitStep(grid, start, seen, stack, current, perimeter);
        seen := seen + {current};
        coords := coords + {current};
        perimeter := perimeter + (4 - |neighbors|);
        stack := stack + neighbors;
      }
    }
    FillDone(grid, start, seen);
    region := Region(coords, perimeter);
  }

  /** Every cell of a region holds the plant of its start. */
  lemma ComponentSamePlant(grid: seq<seq<char>>, start: Pos, q: Pos)
    requires ValidMap(grid) && InGrid(grid, start) && q in Component(grid, start)
    ensures InGrid(grid, q) && grid[q.0][q.1] == grid[start.0][start.1]
  {
    var same := set p | p in Cells(grid) && grid[p.0][p.1] == grid[start.0][start.1];
    assert Closed(Adj(grid), same) by {
      forall a, b | a in same && Adj(grid)(a, b) ensures b in same {
        assert Link(grid, a, b);
      }
    }
    ClosedHoldsReachable(Adj(grid), same, start, q);
  }

  /** Two regions that share a cell are the same region: the start of one
      lies in the other. */
  lemma ComponentShared(grid: seq<seq<char>>, s: Pos, c: Pos, q: Pos)
    requires ValidMap(grid) && InGrid(grid, c)
    ensures q in Component(grid, s) && q in Component(grid, c) ==> c in Component(grid, s)
  {
    if q in Component(grid, s) && q in Component(grid, c) {
      assert forall x, y :: Adj(grid)(x, y) ==> Adj(grid)(y, x);
      ReachesSymmetric(Adj(grid), c, q);
      ReachesTransitive(Adj(grid), s, q, c);
    }
  }

  // ---- Side counting (Region::num_sides) ----

  /** The entries of get_4_neighbors and get_8_neighbors: a cell and whether
      the region holds it. */
  datatype Neighbor = Neighbor(coord: Pos, present: bool)

  function Look(coords: set<Pos>, q: Pos): Neighbor
  {
    Neighbor(q, q in coords)
  }

  /** Region::get_8_neighbors: the eight cells around p, clockwise from the
      top-left one. */
  function Get8(coords: set<Pos>, p: Pos): (ns: seq<Neighbor>)
    ensures |ns| == 8
    ensures forall i :: 0 <= i < 8 ==> (ns[i].present <==> ns[i].coord in coords)
    ensures forall i :: 0 <= i < 8 ==>
      ns[i].coord != p && -1 <= ns[i].coord.0 - p.0 <= 1 && -1 <= ns[i].coord.1 - p.1 <= 1
    ensures forall i, j :: 0 <= i < j < 8 ==> ns[i].coord != ns[j].coord
  {
    [Look(coords, (p.0 - 1, p.1 - 1)), Look(coords, (p.0 - 1, p.1)),
     Look(coords, (p.0 - 1, p.1 + 1)), Look(coords, (p.0, p.1 + 1)),
     Look(coords, (p.0 + 1, p.1 + 1)), Look(coords, (p.0 + 1, p.1)),
     Look(coords, (p.0 + 1, p.1 - 1)), Look(coords, (p.0, p.1 - 1))]
  }

  /** Region::get_4_neighbors: up, right, down, left, which are the odd
      entries of the ring of eight. */
  function Get4(coords: set<Pos>, p: Pos): (ns: seq<Neighbor>)
    ensures |ns| == 4
    ensures forall i :: 0 <= i < 4 ==> ns[i] == Get8(coords, p)[2 * i + 1]
    ensures forall i :: 0 <= i < 4 ==> Adjacent(p, ns[i].coord)
  {
    [Look(coords, (p.0 - 1, p.1)), Look(coords, (p.0, p.1 + 1)),
     Look(coords, (p.0 + 1, p.1)), Look(coords, (p.0, p.1 - 1))]
  }

  /** Two entries of get_4_neighbors lie on opposite sides of p exactly when
      their indices differ by 2. */
  lemma OppositeIff(coords: set<Pos>, p: Pos, i: nat, j: nat)
    requires i < j < 4
    ensures var ns := Get4(coords, p);
      (ns[i].coord.0 + ns[j].coord.0 == 2 * p.0 && ns[i].coord.1 + ns[j].coord.1 == 2 * p.1) <==> j - i == 2
  {
  }

  /** The concave test of num_sides for direction dir: the orthogonal
      neighbours at ring indices 2*dir+1 and 2*dir+3 are present and the
      diagonal between them is absent. */
  predicate ConcaveAt(n8: seq<Neighbor>, dir: nat)
    requires |n8| == 8 && dir < 4
  {
    var start := dir * 2 + 1;
    var between := (start + 1) % 8;
    var end := (between + 1) % 8;
    n8[start].present && !n8[between].present && n8[end].present
  }

  /** The number of directions below k that pass the concave test. */
  function CountConcave(n8: seq<Neighbor>, k: nat): (n: nat)
    requires |n8| == 8 && k <= 4
    ensures n <= k
  {
    if k == 0 then 0 else CountConcave(n8, k - 1) + (if ConcaveAt(n8, k - 1) then 1 else 0)
  }

  /** The indices below k of the present entries, in increasing order. */
  function PresentIndices(n4: seq<Neighbor>, k: nat): (v: seq<nat>)
    requires k <= |n4|
    ensures forall a :: 0 <= a < |v| ==> v[a] < k && n4[v[a]].present
    ensures forall a, b :: 0 <= a < b < |v| ==> v[a] < v[b]
    ensures forall i :: 0 <= i < k && n4[i].present ==> i in v
  {
    if k == 0 then []
    else PresentIndices(n4, k - 1) + (if n4[k - 1].present then [k - 1] else [])
  }

  /** The convex vertices of num_sides, chosen by the number of present
      orthogonal neighbours. */
  function Convex(n4: seq<Neighbor>): (n: nat)
    requires |n4| == 4
    ensures n <= 4
  {
    ConvexOf(PresentIndices(n4, 4))
  }

  function ConvexOf(v: seq<nat>): nat
  {
    if |v| == 0 then 4
    else if |v| == 1 then 2
    else if |v| == 2 then (if v[1] as int - v[0] as int != 2 then 1 else 0)
    else 0
  }

  /** What num_sides adds for one cell. */
  function Corners(coords: set<Pos>, p: Pos): nat
  {
    CountConcave(Get8(coords, p), 4) + Convex(Get4(coords, p))
  }

  /** Reference definition of a vertex: corner k of cell p (0 top-right,
      1 bottom-right, 2 bottom-left, 3 top-left) is a vertex of the region's
      outline when neither cell beside it along the sides of p is in the
      region (an outer corner), or both are and the cell diagonally across
      is not (an inner corner). */
  predicate IsVertex(coords: set<Pos>, p: Pos, k: nat)
    requires k < 4
  {
    var dr := if k == 0 || k == 3 then -1 else 1;
    var dc := if k == 0 || k == 1 then 1 else -1;
    var v := (p.0 + dr, p.1) in coords;
    var h := (p.0, p.1 + dc) in coords;
    var d := (p.0 + dr, p.1 + dc) in coords;
    (!v && !h) || (v && h && !d)
  }

  /** The number of corners of p that are vertices of the outline. */
  function VertexCount(coords: set<Pos>, p: Pos): (n: nat)
    ensures n <= 4
  {
    (if IsVertex(coords, p, 0) then 1 else 0) + (if IsVertex(coords, p, 1) then 1 else 0) +
    (if IsVertex(coords, p, 2) then 1 else 0) + (if IsVertex(coords, p, 3) then 1 else 0)
  }

  /** The concave count of num_sides is the number of inner corners. */
  lemma ConcaveMatches(coords: set<Pos>, p: Pos)
    ensures CountConcave(Get8(coords, p), 4) ==
      (if (p.0 - 1, p.1) in coords && (p.0, p.1 + 1) in coords && (p.0 - 1, p.1 + 1) !in coords then 1 else 0) +
      (if (p.0, p.1 + 1) in coords && (p.0 + 1, p.1) in coords && (p.0 + 1, p.1 + 1) !in coords then 1 else 0) +
      (if (p.0 + 1, p.1) in coords && (p.0, p.1 - 1) in coords && (p.0 + 1, p.1 - 1) !in coords then 1 else 0) +
      (if (p.0, p.1 - 1) in coords && (p.0 - 1, p.1) in coords && (p.0 - 1, p.1 - 1) !in coords then 1 else 0)
  {
    var n8 := Get8(coords, p);
    assert ConcaveAt(n8, 0) <==> (p.0 - 1, p.1) in coords && (p.0, p.1 + 1) in coords && (p.0 - 1, p.1 + 1) !in coords;
    assert ConcaveAt(n8, 1) <==> (p.0, p.1 + 1) in coords && (p.0 + 1, p.1) in coords && (p.0 + 1, p.1 + 1) !in coords;
    assert ConcaveAt(n8, 2) <==> (p.0 + 1, p.1) in coords && (p.0, p.1 - 1) in coords && (p.0 + 1, p.1 - 1) !in coords;
    assert ConcaveAt(n8, 3) <==> (p.0, p.1 - 1) in coords && (p.0 - 1, p.1) in coords && (p.0 - 1, p.1 - 1) !in coords;
    assert CountConcave(n8, 1) == (if ConcaveAt(n8, 0) then 1 else 0);
    assert CountConcave(n8, 2) == CountConcave(n8, 1) + (if ConcaveAt(n8, 1) then 1 else 0);
    assert CountConcave(n8, 3) == CountConcave(n8, 2) + (if ConcaveAt(n8, 2) then 1 else 0);
    assert CountConcave(n8, 4) ==
      (if ConcaveAt(n8, 0) then 1 else 0) + (if ConcaveAt(n8, 1) then 1 else 0) +
      (if ConcaveAt(n8, 2) then 1 else 0) + (if ConcaveAt(n8, 3) then 1 else 0);
  }

  /** The present indices of four flags, in increasing order. */
  function Indices4(u: bool, r: bool, d: bool, l: bool): seq<nat>
  {
    (if u then [0] else []) + (if r then [1] else []) + (if d then [2] else []) + (if l then [3] else [])
  }

  lemma ConvexOfFlags(u: bool, r: bool, d: bool, l: bool)
    ensures ConvexOf(Indices4(u, r, d, l)) ==
      (if !u && !r then 1 else 0) + (if !r && !d then 1 else 0) +
      (if !d && !l then 1 else 0) + (if !l && !u then 1 else 0)
  {
    if u {
      if r { if d { if l { } else { } } else { if l { } else { } } }
      else { if d { if l { } else { } } else { if l { } else { } } }
    } else {
      if r { if d { if l { } else { } } else { if l { } else { } } }
      else { if d { if l { } else { } } else { if l { } else { } } }
    }
  }

  lemma ConvexByPresence(n4: seq<Neighbor>)
    requires |n4| == 4
    ensures Convex(n4) ==
      (if !n4[0].present && !n4[1].present then 1 else 0) + (if !n4[1].present && !n4[2].present then 1 else 0) +
      (if !n4[2].present && !n4[3].present then 1 else 0) + (if !n4[3].present && !n4[0].present then 1 else 0)
  {
    var u, r, d, l := n4[0].present, n4[1].present, n4[2].present, n4[3].present;
    assert PresentIndices(n4, 1) == if u then [0] else [];
    assert PresentIndices(n4, 2) == PresentIndices(n4, 1) + if r then [1] else [];
    assert PresentIndices(n4, 3) == PresentIndices(n4, 2) + if d then [2] else [];
    assert PresentIndices(n4, 4) == PresentIndices(n4, 3) + if l then [3] else [];
    assert PresentIndices(n4, 4) == Indices4(u, r, d, l);
    ConvexOfFlags(u, r, d, l);
  }

  /** The convex count of num_sides, chosen by how many orthogonal
      neighbours are present and whether two are opposite, is the number of
      outer corners. */
  lemma ConvexMatches(coords: set<Pos>, p: Pos)
    ensures Convex(Get4(coords, p)) ==
      (if (p.0 - 1, p.1) !in coords && (p.0, p.1 + 1) !in coords then 1 else 0) +
      (if (p.0, p.1 + 1) !in coords && (p.0 + 1, p.1) !in coords then 1 else 0) +
      (if (p.0 + 1, p.1) !in coords && (p.0, p.1 - 1) !in coords then 1 else 0) +
      (if (p.0, p.1 - 1) !in coords && (p.0 - 1, p.1) !in coords then 1 else 0)
  {
    ConvexByPresence(Get4(coords, p));
  }

  /** num_sides's count for one cell is the number of its corners that are
      vertices of the outline; in particular it is at most 4. */
  lemma CornersAreVertices(coords: set<Pos>, p: Pos)
    ensures Corners(coords, p) == VertexCount(coords, p)
    ensures Corners(coords, p) <= 4
  {
    ConcaveMatches(coords, p);
    ConvexMatches(coords, p);
  }

  /** The term num_sides sums over the cells of a region. */
  function CornerTerm(coords: set<Pos>): Pos -> int
  {
    (p: Pos) => Corners(coords, p) as int
  }

  /** The number of sides of a region: the sum of Corners over its cells,
      which is the number of vertices of its outline. */
  ghost function NumSides(coords: set<Pos>): int
  {
    SetSum(coords, CornerTerm(coords))
  }

  /** A region has at most four sides per cell. */
  lemma SidesBound(coords: set<Pos>)
    ensures 0 <= NumSides(coords) <= 4 * |coords|
  {
    forall p | p in coords ensures 0 <= CornerTerm(coords)(p) <= 4 {
      CornersAreVertices(coords, p);
    }
    SetSumBound(coords, CornerTerm(coords), 4);
  }

  /** A single cell has four sides. */
  lemma SingleCellSides(p: Pos)
    ensures NumSides({p}) == 4
  {
    SetSumSingleton(p, CornerTerm({p}));
    CornersAreVertices({p}, p);
  }

  /** An isolated cell has perimeter 4. */
  lemma SingleCellPerimeter(grid: seq<seq<char>>, p: Pos)
    requires ValidMap(grid) && Neighbors(grid, p) == []
    ensures Perimeter(grid, {p}) == 4
  {
    SetSumSingleton(p, (q: Pos) => Fences(grid, q) as int);
  }

  /** Two cells side by side make a rectangle: four sides. */
  lemma DominoSides(p: Pos)
    ensures NumSides({p, (p.0, p.1 + 1)}) == 4
  {
    var q := (p.0, p.1 + 1);
    var s := {p, q};
    SetSumRemove(s, CornerTerm(s), p);
    assert s - {p} == {q};
    SetSumSingleton(q, CornerTerm(s));
    DominoCorners(p);
  }

  lemma DominoCorners(p: Pos)
    ensures var s := {p, (p.0, p.1 + 1)};
      Corners(s, p) == 2 && Corners(s, (p.0, p.1 + 1)) == 2
  {
    var q := (p.0, p.1 + 1);
    var s := {p, q};
    assert (p.0 - 1, p.1) !in s && (p.0 + 1, p.1) !in s && (p.0, p.1 - 1) !in s;
    assert (p.0 - 1, p.1 + 1) !in s && (p.0 + 1, p.1 + 1) !in s && (p.0, p.1 + 2) !in s;
    assert IsVertex(s, p, 2) && IsVertex(s, p, 3) && !IsVertex(s, p, 0) && !IsVertex(s, p, 1);
    assert IsVertex(s, q, 0) && IsVertex(s, q, 1) && !IsVertex(s, q, 2) && !IsVertex(s, q, 3);
    CornersAreVertices(s, p);
    CornersAreVertices(s, q);
  }

  lemma TrominoCorners(p: Pos)
    ensures var s := {p, (p.0, p.1 + 1), (p.0 + 1, p.1)};
      Corners(s, p) == 2 && Corners(s, (p.0, p.1 + 1)) == 2 && Corners(s, (p.0 + 1, p.1)) == 2
  {
    var q := (p.0, p.1 + 1);
    var t := (p.0 + 1, p.1);
    var s := {p, q, t};
    assert (p.0 - 1, p.1) !in s && (p.0 + 1, p.1 + 1) !in s && (p.0, p.1 - 1) !in s;
    assert (p.0 - 1, p.1 + 1) !in s && (p.0, p.1 + 2) !in s && (p.0 + 1, p.1 - 1) !in s;
    assert (p.0 + 2, p.1) !in s;
    assert IsVertex(s, p, 1) && IsVertex(s, p, 3) && !IsVertex(s, p, 0) && !IsVertex(s, p, 2);
    assert IsVertex(s, q, 0) && IsVertex(s, q, 1) && !IsVertex(s, q, 2) && !IsVertex(s, q, 3);
    assert IsVertex(s, t, 1) && IsVertex(s, t, 2) && !IsVertex(s, t, 0) && !IsVertex(s, t, 3);
    CornersAreVertices(s, p);
    CornersAreVertices(s, q);
    CornersAreVertices(s, t);
  }

  /** Three cells in an L have six sides: one inner corner. */
  lemma TrominoSides(p: Pos)
    ensures NumSides({p, (p.0, p.1 + 1), (p.0 + 1, p.1)}) == 6
  {
    var q := (p.0, p.1 + 1);
    var t := (p.0 + 1, p.1);
    var s := {p, q, t};
    SetSumRemove(s, CornerTerm(s), p);
    assert s - {p} == {q, t};
    SetSumRemove({q, t}, CornerTerm(s), q);
    assert {q, t} - {q} == {t};
    SetSumSingleton(t, CornerTerm(s));
    TrominoCorners(p);
  }

  /** Region::num_sides: the sum over the region's cells of their concave
      and convex vertices. */
  method CountSides(coords: set<Pos>) returns (n: nat)
    ensures n == NumSides(coords)
  {
    n := 0;
    var rest := coords;
    while rest != {}
      invariant n + SetSum(rest, CornerTerm(coords)) == NumSides(coords)
      decreases |rest|
    {
      var c :| c in rest;
      SetSumRemove(rest, CornerTerm(coords), c);
      n := n + Corners(coords, c);
      rest := rest - {c};
    }
  }

  // ---- Enumerating the regions (the fold of part_1 and part_2) ----

  /** region is the result of get_region_from_point for some cell. */
  ghost predicate IsRegionOf(grid: seq<seq<char>>, region: Region)
    requires ValidMap(grid)
  {
    exists s :: InGrid(grid, s) && region.coords == Component(grid, s) &&
      region.perimeter == Perimeter(grid, region.coords)
  }

  /** Some region of the list holds q. */
  ghost predicate Covered(regions: seq<Region>, q: Pos)
  {
    exists i :: 0 <= i < |regions| && q in regions[i].coords
  }

  /** The regions are genuine regions and pairwise disjoint. */
  ghost predicate Disjoint(grid: seq<seq<char>>, regions: seq<Region>)
    requires ValidMap(grid)
  {
    (forall i :: 0 <= i < |regions| ==> IsRegionOf(grid, regions[i])) &&
    (forall i, j :: 0 <= i < j < |regions| ==> regions[i].coords !! regions[j].coords)
  }

  lemma CoveredAppend(regions: seq<Region>, region: Region)
    ensures forall q :: Covered(regions + [region], q) <==> Covered(regions, q) || q in region.coords
  {
    var all := regions + [region];
    forall q ensures Covered(all, q) <==> Covered(regions, q) || q in region.coords {
      if Covered(all, q) {
        var i :| 0 <= i < |all| && q in all[i].coords;
        if i < |regions| {
          assert regions[i] == all[i];
        }
      }
      if Covered(regions, q) {
        var i :| 0 <= i < |regions| && q in regions[i].coords;
        assert all[i] == regions[i];
      }
      if q in region.coords {
        assert all[|regions|] == region;
      }
    }
  }

  /** A region started at a cell outside an existing region misses it. */
  lemma FreshRegionDisjoint(grid: seq<seq<char>>, prior: Region, c: Pos)
    requires ValidMap(grid) && IsRegionOf(grid, prior) && InGrid(grid, c) && c !in prior.coords
    ensures prior.coords !! Component(grid, c)
  {
    var s :| InGrid(grid, s) && prior.coords == Component(grid, s) &&
      prior.perimeter == Perimeter(grid, prior.coords);
    forall q | q in prior.coords ensures q !in Component(grid, c) {
      ComponentShared(grid, s, c, q);
    }
  }

  /** Adding the region of an uncovered cell keeps the list disjoint. */
  lemma AddRegion(grid: seq<seq<char>>, regions: seq<Region>, region: Region, c: Pos)
    requires ValidMap(grid) && Disjoint(grid, regions) && InGrid(grid, c) && !Covered(regions, c)
    requires region.coords == Component(grid, c) && region.perimeter == Perimeter(grid, region.coords)
    ensures Disjoint(grid, regions + [region])
  {
    var all := regions + [region];
    forall i | 0 <= i < |regions| ensures regions[i].coords !! region.coords {
      FreshRegionDisjoint(grid, regions[i], c);
    }
    forall i | 0 <= i < |all| ensures IsRegionOf(grid, all[i]) {
      if i == |regions| {
        assert InGrid(grid, c) && all[i].coords == Component(grid, c);
      } else {
        assert all[i] == regions[i];
      }
    }
    forall i, j | 0 <= i < j < |all| ensures all[i].coords !! all[j].coords {
      assert all[i] == regions[i];
      if j < |regions| {
        assert all[j] == regions[j];
      }
    }
  }

  /** The fold of part_1 and part_2: walk the cells row by row and start a
      region at every cell no earlier region contains. The regions are
      disjoint and together hold exactly the cells of the map. */
  method FindRegions(grid: seq<seq<char>>) returns (regions: seq<Region>)
    requires ValidMap(grid)
    ensures Disjoint(grid, regions)
    ensures forall q :: Covered(regions, q) <==> InGrid(grid, q)
  {
    regions := [];
    var r := 0;
    while r < |grid|
      invariant 0 <= r <= |grid|
      invariant Disjoint(grid, regions)
      invariant forall q :: Covered(regions, q) ==> InGrid(grid, q)
      invariant forall q :: InGrid(grid, q) && q.0 < r ==> Covered(regions, q)
    {
      var c := 0;
      while c < |grid[0]|
        invariant 0 <= c <= |grid[0]|
        invariant Disjoint(grid, regions)
        invariant forall q :: Covered(regions, q) ==> InGrid(grid, q)
        invariant forall q :: InGrid(grid, q) && (q.0 < r || (q.0 == r && q.1 < c)) ==> Covered(regions, q)
      {
        var contained := exists i :: 0 <= i < |regions| && (r, c) in regions[i].coords;
        if !contained {
          var region := RegionFromPoint(grid, (r, c));
          AddRegion(grid, regions, region, (r, c));
          CoveredAppend(regions, region);
          regions := regions + [region];
          assert regions[|regions| - 1] == region;
        }
        assert Covered(regions, (r, c));
        forall q | InGrid(grid, q) && (q.0 < r || (q.0 == r && q.1 < c + 1))
          ensures Covered(regions, q)
        {
          if q.0 == r && q.1 == c {
            assert q == (r, c);
          }
        }
        c := c + 1;
      }
      r := r + 1;
    }
  }

  /** The regions partition the map: disjoint regions holding every cell
      and nothing else. */
  ghost predicate Partition(grid: seq<seq<char>>, regions: seq<Region>)
    requires ValidMap(grid)
  {
    Disjoint(grid, regions) && forall q :: Covered(regions, q) <==> InGrid(grid, q)
  }

  /** The total area of a list of regions. */
  function TotalArea(regions: seq<Region>): nat
  {
    if regions == [] then 0 else TotalArea(regions[..|regions| - 1]) + Area(regions[|regions| - 1])
  }

  /** The cells of a list of regions. */
  ghost function Union(regions: seq<Region>): (u: set<Pos>)
    ensures forall q :: q in u <==> Covered(regions, q)
  {
    if regions == [] then {}
    else
      var init := regions[..|regions| - 1];
      var u := Union(init) + regions[|regions| - 1].coords;
      assert regions == init + [regions[|regions| - 1]];
      CoveredAppend(init, regions[|regions| - 1]);
      u
  }

  /** Disjoint regions have as many cells together as their areas add up to. */
  lemma {:induction false} UnionSize(regions: seq<Region>)
    requires forall i, j :: 0 <= i < j < |regions| ==> regions[i].coords !! regions[j].coords
    ensures |Union(regions)| == TotalArea(regions)
  {
    if regions != [] {
      var init := regions[..|regions| - 1];
      var last := regions[|regions| - 1].coords;
      forall i, j | 0 <= i < j < |init| ensures init[i].coords !! init[j].coords {
        assert init[i] == regions[i] && init[j] == regions[j];
      }
      UnionSize(init);
      forall q | q in Union(init) ensures q !in last {
        var i :| 0 <= i < |init| && q in init[i].coords;
        assert init[i] == regions[i];
      }
      assert Union(init) * last == {};
    }
  }

  /** The regions of a partition have, together, one cell per cell of the map. */
  lemma AreasCoverMap(grid: seq<seq<char>>, regions: seq<Region>)
    requires ValidMap(grid) && Partition(grid, regions)
    ensures TotalArea(regions) == |Cells(grid)|
  {
    assert Union(regions) == Cells(grid);
    UnionSize(regions);
  }

  /** The part 1 price: area times perimeter, summed over the regions. */
  function PerimeterPrice(regions: seq<Region>): nat
  {
    if regions == [] then 0
    else PerimeterPrice(regions[..|regions| - 1]) + Area(regions[|regions| - 1]) * regions[|regions| - 1].perimeter
  }

  /** The part 2 price: area times number of sides, summed over the regions. */
  ghost function SidePrice(regions: seq<Region>): int
  {
    if regions == [] then 0
    else
      var r := regions[|regions| - 1];
      SidePrice(regions[..|regions| - 1]) + Area(r) * NumSides(r.coords)
  }

  /** A region of one cell costs 4 in either part: area 1 times 4 fences or
      4 sides. */
  lemma SingleCellPrices(grid: seq<seq<char>>, p: Pos)
    requires ValidMap(grid) && Neighbors(grid, p) == []
    ensures var r := Region({p}, 4); PerimeterPrice([r]) == 4 && SidePrice([r]) == 4
    ensures Perimeter(grid, {p}) == 4
  {
    SingleCellPerimeter(grid, p);
    SingleCellSides(p);
    var r := Region({p}, 4);
    assert [r][..0] == [];
  }

  /** part_1: the price of fencing every region by its perimeter. */
  method Part1(grid: seq<seq<char>>) returns (cost: nat)
    requires ValidMap(grid)
    ensures exists regions :: Partition(grid, regions) && cost == PerimeterPrice(regions)
  {
    var regions := FindRegions(grid);
    cost := PerimeterPrice(regions);
  }

  /** The map-and-sum of part_2 over a list of regions. */
  method PriceBySides(regions: seq<Region>) returns (cost: int)
    ensures cost == SidePrice(regions)
  {
    cost := 0;
    var i := 0;
    while i < |regions|
      invariant 0 <= i <= |regions|
      invariant cost == SidePrice(regions[..i])
    {
      var sides := CountSides(regions[i].coords);
      assert regions[..i + 1][..i] == regions[..i];
      cost := cost + Area(regions[i]) * sides;
      i := i + 1;
    }
    assert regions[..|regions|] == regions;
  }

  /** part_2: the price of fencing every region by its number of sides. */
  method Part2(grid: seq<seq<char>>) returns (cost: int)
    requires ValidMap(grid)
    ensures exists regions :: Partition(grid, regions) && cost == SidePrice(regions)
  {
    var regions := FindRegions(grid);
    cost := PriceBySides(regions);
  }
}
