/** Day 16: the reindeer maze. A depth-first search records, for every cell
    it enters, the cheapest cost it has found so far (a step costs 1, and
    1000 more when it changes the facing direction); a second pass collects
    the cells reachable from the end by strictly cheaper neighbours. */
module Day16 {
  import opened Common

  /** (x, y): x is the column, y the row. */
  type Pos = (int, int)

  /** usize::MAX, the cost of a cell not yet seen. */
  const Max: nat := 0xFFFF_FFFF_FFFF_FFFF

  predicate Rect(walls: seq<seq<bool>>)
  {
    |walls| > 0 && forall y :: 0 <= y < |walls| ==> |walls[y]| == |walls[0]|
  }

  predicate InGrid(walls: seq<seq<bool>>, p: Pos)
  {
    0 <= p.1 < |walls| && 0 <= p.0 < |walls[p.1]|
  }

  predicate Open(walls: seq<seq<bool>>, p: Pos)
  {
    InGrid(walls, p) && !walls[p.1][p.0]
  }

  /** The maze is walled in: every cell of the outer rows and columns is a
      wall, so a step from an open cell never leaves the map. */
  ghost predicate Bordered(walls: seq<seq<bool>>)
  {
    Rect(walls) &&
    forall p: Pos :: InGrid(walls, p) && (p.0 == 0 || p.1 == 0 || p.0 == |walls[0]| - 1 || p.1 == |walls| - 1) ==>
      walls[p.1][p.0]
  }

  /** The step table shared by both searches: 0 up, 1 right, 2 down, 3 left. */
  function Step(p: Pos, d: nat): (q: Pos)
    requires d < 4
    ensures (q.0 == p.0 && (q.1 == p.1 - 1 || q.1 == p.1 + 1)) || (q.1 == p.1 && (q.0 == p.0 - 1 || q.0 == p.0 + 1))
  {
    var v := [(0, -1), (1, 0), (0, 1), (-1, 0)][d];
    (p.0 + v.0, p.1 + v.1)
  }

  lemma StepInside(walls: seq<seq<bool>>, p: Pos, d: nat)
    requires Bordered(walls) && Open(walls, p) && d < 4
    ensures InGrid(walls, Step(p, d))
  {
    assert !(p.0 == 0 || p.1 == 0 || p.0 == |walls[0]| - 1 || p.1 == |walls| - 1);
  }

  // Routes: a route is the sequence of directions the reindeer steps in,
  // starting from the start cell facing right (index 1).

  predicate Dirs(ds: seq<nat>)
  {
    forall i :: 0 <= i < |ds| ==> ds[i] < 4
  }

  function End(p: Pos, ds: seq<nat>): Pos
    requires Dirs(ds)
  {
    if ds == [] then p else Step(End(p, ds[..|ds| - 1]), ds[|ds| - 1])
  }

  function Facing(ds: seq<nat>): nat
  {
    if ds == [] then 1 else ds[|ds| - 1]
  }

  /** One point per step and a thousand per change of direction. */
  function Cost(ds: seq<nat>): nat
  {
    if ds == [] then 0
    else
      var prior := ds[..|ds| - 1];
      Cost(prior) + 1 + (if ds[|ds| - 1] != Facing(prior) then 1000 else 0)
  }

  /** A route costs at least one point per step and at most 1001. */
  lemma {:induction false} CostBounds(ds: seq<nat>)
    ensures |ds| <= Cost(ds) <= 1001 * |ds|
  {
    if ds != [] {
      CostBounds(ds[..|ds| - 1]);
    }
  }

  /** Every cell the route passes through, its start included, is open. */
  ghost predicate OpenRoute(walls: seq<seq<bool>>, p: Pos, ds: seq<nat>)
  {
    Dirs(ds) && forall i :: 0 <= i <= |ds| ==> Open(walls, End(p, ds[..i]))
  }

  /** Extending a route by one step into an open cell. */
  lemma RouteSnoc(walls: seq<seq<bool>>, p: Pos, ds: seq<nat>, d: nat)
    requires OpenRoute(walls, p, ds) && d < 4 && Open(walls, Step(End(p, ds), d))
    ensures OpenRoute(walls, p, ds + [d]) && End(p, ds + [d]) == Step(End(p, ds), d)
    ensures Cost(ds + [d]) == Cost(ds) + 1 + (if d != Facing(ds) then 1000 else 0) && Facing(ds + [d]) == d
  {
    var e := ds + [d];
    assert e[..|e| - 1] == ds;
    forall i | 0 <= i <= |e| ensures Open(walls, End(p, e[..i])) {
      if i <= |ds| {
        assert e[..i] == ds[..i];
      } else {
        assert e[..i] == e;
      }
    }
  }

  /** What the search has recorded is sound: every cell in seen is open and
      reached by the witness route in via, which costs no more than the
      recorded cost; no recorded cost exceeds usize::MAX. */
  ghost predicate SeenSound(walls: seq<seq<bool>>, start: Pos, seen: map<Pos, nat>, via: map<Pos, seq<nat>>)
  {
    seen.Keys == via.Keys &&
    forall p :: p in seen ==>
      OpenRoute(walls, start, via[p]) && End(start, via[p]) == p && Cost(via[p]) <= seen[p] <= Max
  }

  /** seen.get(p).unwrap_or(usize::MAX) */
  function Lookup(seen: map<Pos, nat>, p: Pos): (c: nat)
    ensures p in seen ==> c == seen[p]
    ensures p !in seen ==> c == Max
  {
    if p in seen then seen[p] else Max
  }

  /** Every open neighbour of q has been recorded. */
  ghost predicate Expanded(walls: seq<seq<bool>>, seen: map<Pos, nat>, q: Pos)
  {
    forall d: nat :: d < 4 && Open(walls, Step(q, d)) ==> Step(q, d) in seen
  }

  /** The open neighbours of q in the first n directions are recorded. */
  ghost predicate ExpandedUpTo(walls: seq<seq<bool>>, seen: map<Pos, nat>, q: Pos, n: nat)
  {
    forall d: nat :: d < n && d < 4 && Open(walls, Step(q, d)) ==> Step(q, d) in seen
  }

  lemma ExpandedNext(walls: seq<seq<bool>>, seen: map<Pos, nat>, q: Pos, n: nat)
    requires n < 4 && ExpandedUpTo(walls, seen, q, n) && (Open(walls, Step(q, n)) ==> Step(q, n) in seen)
    ensures ExpandedUpTo(walls, seen, q, n + 1)
  {
  }

  lemma ExpandedUpToGrows(walls: seq<seq<bool>>, seen: map<Pos, nat>, more: map<Pos, nat>, q: Pos, n: nat)
    requires seen.Keys <= more.Keys && ExpandedUpTo(walls, seen, q, n)
    ensures ExpandedUpTo(walls, more, q, n)
  {
  }

  /** Recording a cell with its witness route keeps the record sound. */
  lemma SoundInsert(walls: seq<seq<bool>>, start: Pos, seen: map<Pos, nat>, via: map<Pos, seq<nat>>, p: Pos, route: seq<nat>, c: nat)
    requires SeenSound(walls, start, seen, via)
    requires OpenRoute(walls, start, route) && End(start, route) == p && Cost(route) <= c <= Max
    ensures SeenSound(walls, start, seen[p := c], via[p := route])
  {
  }

  lemma ExpandedGrows(walls: seq<seq<bool>>, seen: map<Pos, nat>, more: map<Pos, nat>)
    requires seen.Keys <= more.Keys
    ensures forall q :: Expanded(walls, seen, q) ==> Expanded(walls, more, q)
  {
  }

  /** Every cell recorded since before (other than pos and the end) is
      expanded. */
  ghost predicate ExpandedSince(walls: seq<seq<bool>>, before: map<Pos, nat>, seen: map<Pos, nat>, pos: Pos, end: Pos)
  {
    forall q :: q in seen && q !in before && q != pos && q != end ==> Expanded(walls, seen, q)
  }

  /** A recursive search that expands what it newly records keeps
      ExpandedSince. */
  lemma ExpandedSinceGrows(walls: seq<seq<bool>>, before: map<Pos, nat>, mid: map<Pos, nat>, after: map<Pos, nat>, pos: Pos, end: Pos, next: Pos)
    requires mid.Keys <= after.Keys && ExpandedSince(walls, before, mid, pos, end)
    requires forall q :: q in after && (q !in mid || q == next) && q != end ==> Expanded(walls, after, q)
    ensures ExpandedSince(walls, before, after, pos, end)
  {
    ExpandedGrows(walls, mid, after);
  }

  /** Map::find_min_cost. On entry the cost of pos is recorded; unless pos
      is the end, each open neighbour is entered when the cost of stepping
      there (1, plus 1000 for a change of direction) is strictly below the
      cost recorded for it, and on a change of direction the cost of pos is
      first raised to include the turn.

      The search keeps seen sound, never forgets a cell, and leaves every
      cell it newly recorded (other than the end) with all its open
      neighbours recorded, unless some step cost reached usize::MAX (where
      the source's arithmetic overflows or meets the "unseen" sentinel);
      overflow records that. route is the ghost witness of how pos was
      reached. */
  method FindMinCost(walls: seq<seq<bool>>, start: Pos, end: Pos, pos: Pos, dir: nat, cost: nat,
                     seen: map<Pos, nat>, ghost via: map<Pos, seq<nat>>, ghost route: seq<nat>)
    returns (seen': map<Pos, nat>, ghost via': map<Pos, seq<nat>>, ghost overflow: bool)
    requires Bordered(walls) && Open(walls, pos) && dir < 4 && cost <= Max
    requires OpenRoute(walls, start, route) && End(start, route) == pos && Cost(route) == cost && Facing(route) == dir
    requires SeenSound(walls, start, seen, via)
    ensures SeenSound(walls, start, seen', via')
    ensures pos in seen' && seen.Keys <= seen'.Keys
    ensures pos == end ==> seen' == seen[pos := cost]
    ensures !overflow ==> forall q :: q in seen' && (q !in seen || q == pos) && q != end ==> Expanded(walls, seen', q)
    decreases Max - cost, 1
  {
    seen' := seen[pos := cost];
    via' := via[pos := route];
    overflow := false;
    SoundInsert(walls, start, seen, via, pos, route, cost);
    if pos != end {
      for d := 0 to 4
        invariant SeenSound(walls, start, seen', via')
        invariant pos in seen' && seen.Keys <= seen'.Keys
        invariant !overflow ==> ExpandedUpTo(walls, seen', pos, d) && ExpandedSince(walls, seen, seen', pos, end)
      {
        seen', via', overflow := Explore(walls, start, end, pos, dir, cost, route, d, seen, seen', via', overflow);
      }
      assert !overflow ==> Expanded(walls, seen', pos);
    }
  }

  /** The body of find_min_cost's for_each for the neighbour in direction
      d: skip a wall; otherwise enter the neighbour when stepping there is
      strictly cheaper than what is recorded for it, first raising the cost
      of pos by the turn. before is the record on entry to find_min_cost. */
  method Explore(walls: seq<seq<bool>>, start: Pos, end: Pos, pos: Pos, dir: nat, cost: nat, ghost route: seq<nat>, d: nat,
                 ghost before: map<Pos, nat>, seen: map<Pos, nat>, ghost via: map<Pos, seq<nat>>, ghost overflow: bool)
    returns (seen': map<Pos, nat>, ghost via': map<Pos, seq<nat>>, ghost overflow': bool)
    requires Bordered(walls) && Open(walls, pos) && dir < 4 && cost <= Max && d < 4 && pos != end
    requires OpenRoute(walls, start, route) && End(start, route) == pos && Cost(route) == cost && Facing(route) == dir
    requires SeenSound(walls, start, seen, via) && pos in seen
    ensures SeenSound(walls, start, seen', via')
    ensures pos in seen' && seen.Keys <= seen'.Keys
    ensures !overflow' ==> !overflow && (Open(walls, Step(pos, d)) ==> Step(pos, d) in seen')
    ensures !overflow' && ExpandedUpTo(walls, seen, pos, d) ==> ExpandedUpTo(walls, seen', pos, d + 1)
    ensures !overflow' && ExpandedSince(walls, before, seen, pos, end) ==> ExpandedSince(walls, before, seen', pos, end)
    decreases Max - cost, 0
  {
    var next := Step(pos, d);
    seen' := seen;
    via' := via;
    overflow' := overflow;
    StepInside(walls, pos, d);
    if !walls[next.1][next.0] {
      var isTurn := d != dir;
      var costBeforeMove := cost + if isTurn then 1000 else 0;
      var nextCost := costBeforeMove + 1;
      if nextCost >= Max {
        overflow' := true;
      }
      if nextCost < Lookup(seen, next) {
        if isTurn {
          SoundInsert(walls, start, seen, via, pos, route, costBeforeMove);
          seen' := seen[pos := costBeforeMove];
          via' := via[pos := route];
        }
        RouteSnoc(walls, start, route, d);
        ghost var mid := seen';
        ghost var deeper;
        seen', via', deeper := FindMinCost(walls, start, end, next, d, nextCost, seen', via', route + [d]);
        overflow' := overflow' || deeper;
        if !overflow' && ExpandedSince(walls, before, seen, pos, end) {
          ExpandedSinceGrows(walls, before, mid, seen', pos, end, next);
        }
      }
    }
    if !overflow' && ExpandedUpTo(walls, seen, pos, d) {
      ExpandedUpToGrows(walls, seen, seen', pos, d);
      ExpandedNext(walls, seen', pos, d);
    }
  }

  /** A move of the search: from an open cell other than the end to an open
      neighbour. */
  function Move(walls: seq<seq<bool>>, end: Pos): (Pos, Pos) -> bool
  {
    (a: Pos, b: Pos) => a != end && Open(walls, a) && Open(walls, b) &&
      (b == Step(a, 0) || b == Step(a, 1) || b == Step(a, 2) || b == Step(a, 3))
  }

  /** Once every recorded cell other than the end is expanded, the record
      holds every cell the search can reach from a recorded cell. */
  lemma SearchReaches(walls: seq<seq<bool>>, end: Pos, seen: map<Pos, nat>, start: Pos, q: Pos)
    requires forall p :: p in seen && p != end ==> Expanded(walls, seen, p)
    requires start in seen && Reaches(Move(walls, end), start, q)
    ensures q in seen
  {
    assert Closed(Move(walls, end), seen.Keys) by {
      forall a, b | a in seen.Keys && Move(walls, end)(a, b) ensures b in seen.Keys {
        assert Expanded(walls, seen, a);
        if b == Step(a, 0) {
          assert Open(walls, Step(a, 0));
        } else if b == Step(a, 1) {
          assert Open(walls, Step(a, 1));
        } else if b == Step(a, 2) {
          assert Open(walls, Step(a, 2));
        } else {
          assert Open(walls, Step(a, 3));
        }
      }
    }
    ClosedHoldsReachable(Move(walls, end), seen.Keys, start, q);
  }

  // get_path_after

  /** Reference for get_path_after: pos, and everything reachable from a
      neighbour recorded strictly cheaper than pos. */
  function Descent(seen: map<Pos, nat>, pos: Pos): set<Pos>
    requires pos in seen
    decreases seen[pos], 5
  {
    {pos} + DescentUpTo(seen, pos, 4)
  }

  /** The part of Descent reached through the first n directions. */
  function DescentUpTo(seen: map<Pos, nat>, pos: Pos, n: nat): set<Pos>
    requires pos in seen && n <= 4
    decreases seen[pos], n
  {
    if n == 0 then {}
    else
      var next := Step(pos, n - 1);
      DescentUpTo(seen, pos, n - 1) + if next in seen && seen[next] < seen[pos] then Descent(seen, next) else {}
  }

  /** One step of get_path_after: to a recorded neighbour with a strictly
      smaller recorded cost. */
  function Cheaper(seen: map<Pos, nat>): (Pos, Pos) -> bool
  {
    (a: Pos, b: Pos) => a in seen && b in seen && seen[b] < seen[a] &&
      (b == Step(a, 0) || b == Step(a, 1) || b == Step(a, 2) || b == Step(a, 3))
  }

  /** Everything get_path_after collects is recorded and reached from pos
      by cheaper and cheaper steps. */
  lemma {:induction false} DescentReached(seen: map<Pos, nat>, pos: Pos, q: Pos)
    requires pos in seen && q in Descent(seen, pos)
    ensures q in seen && seen[q] <= seen[pos] && Reaches(Cheaper(seen), pos, q)
    decreases seen[pos]
  {
    if q == pos {
      ReachesSelf(Cheaper(seen), pos);
    } else {
      var d := DescentWhich(seen, pos, q, 4);
      var next := Step(pos, d);
      DescentReached(seen, next, q);
      assert Cheaper(seen)(pos, next) by {
        assert d == 0 || d == 1 || d == 2 || d == 3;
      }
      ReachesSymmetricStep(seen, pos, next, q);
    }
  }

  /** The direction through which DescentUpTo collected q. */
  lemma {:induction false} DescentWhichExists(seen: map<Pos, nat>, pos: Pos, q: Pos, n: nat)
    requires pos in seen && n <= 4 && q in DescentUpTo(seen, pos, n)
    ensures exists d: nat :: d < n && Step(pos, d) in seen && seen[Step(pos, d)] < seen[pos] && q in Descent(seen, Step(pos, d))
  {
    var next := Step(pos, n - 1);
    if !(next in seen && seen[next] < seen[pos] && q in Descent(seen, next)) {
      DescentWhichExists(seen, pos, q, n - 1);
    }
  }

  lemma DescentWhich(seen: map<Pos, nat>, pos: Pos, q: Pos, n: nat) returns (d: nat)
    requires pos in seen && n <= 4 && q in DescentUpTo(seen, pos, n)
    ensures d < n && Step(pos, d) in seen && seen[Step(pos, d)] < seen[pos] && q in Descent(seen, Step(pos, d))
  {
    DescentWhichExists(seen, pos, q, n);
    d :| d < n && Step(pos, d) in seen && seen[Step(pos, d)] < seen[pos] && q in Descent(seen, Step(pos, d));
  }

  lemma ReachesSymmetricStep(seen: map<Pos, nat>, pos: Pos, next: Pos, q: Pos)
    requires Cheaper(seen)(pos, next) && Reaches(Cheaper(seen), next, q)
    ensures Reaches(Cheaper(seen), pos, q)
  {
    var adj := Cheaper(seen);
    var w :| IsWalk(adj, w) && w[0] == next && w[|w| - 1] == q;
    var w' := [pos] + w;
    assert IsWalk(adj, w') by {
      forall i | 0 <= i < |w'| - 1 ensures adj(w'[i], w'[i + 1]) {
        if i > 0 {
          assert w'[i] == w[i - 1] && w'[i + 1] == w[i];
        }
      }
    }
    assert w'[0] == pos && w'[|w'| - 1] == q;
  }

  /** Conversely, Descent is closed under cheaper steps, so it holds every
      cell so reached from pos. */
  lemma {:induction false} DescentClosed(seen: map<Pos, nat>, pos: Pos, a: Pos, b: Pos)
    requires pos in seen && a in Descent(seen, pos) && Cheaper(seen)(a, b)
    ensures b in Descent(seen, pos)
    decreases seen[pos]
  {
    if a == pos {
      var k: nat :| k < 4 && b == Step(a, k);
      DescentHas(seen, pos, k, 4);
    } else {
      var d := DescentWhich(seen, pos, a, 4);
      DescentClosed(seen, Step(pos, d), a, b);
      DescentSub(seen, pos, d, 4);
    }
  }

  lemma {:induction false} DescentHas(seen: map<Pos, nat>, pos: Pos, k: nat, n: nat)
    requires pos in seen && k < n <= 4 && Step(pos, k) in seen && seen[Step(pos, k)] < seen[pos]
    ensures Step(pos, k) in DescentUpTo(seen, pos, n)
  {
    if k < n - 1 {
      DescentHas(seen, pos, k, n - 1);
    }
  }

  lemma {:induction false} DescentSub(seen: map<Pos, nat>, pos: Pos, k: nat, n: nat)
    requires pos in seen && k < n <= 4 && Step(pos, k) in seen && seen[Step(pos, k)] < seen[pos]
    ensures Descent(seen, Step(pos, k)) <= DescentUpTo(seen, pos, n)
  {
    if k < n - 1 {
      DescentSub(seen, pos, k, n - 1);
    }
  }

  /** Descent is exactly the set of cells reached from pos by cheaper and
      cheaper steps. */
  lemma DescentIsReach(seen: map<Pos, nat>, pos: Pos, q: Pos)
    requires pos in seen
    ensures q in Descent(seen, pos) <==> Reaches(Cheaper(seen), pos, q)
  {
    if q in Descent(seen, pos) {
      DescentReached(seen, pos, q);
    }
    if Reaches(Cheaper(seen), pos, q) {
      assert Closed(Cheaper(seen), Descent(seen, pos)) by {
        forall a, b | a in Descent(seen, pos) && Cheaper(seen)(a, b) ensures b in Descent(seen, pos) {
          DescentClosed(seen, pos, a, b);
        }
      }
      ClosedHoldsReachable(Cheaper(seen), Descent(seen, pos), pos, q);
    }
  }

  /** Map::get_path_after: add pos to path, then follow each recorded
      neighbour whose cost is strictly below pos's. */
  method PathAfter(seen: map<Pos, nat>, pos: Pos, path: set<Pos>) returns (path': set<Pos>)
    requires pos in seen
    ensures path' == path + Descent(seen, pos)
    decreases seen[pos]
  {
    path' := path + {pos};
    for d := 0 to 4
      invariant path' == path + {pos} + DescentUpTo(seen, pos, d)
    {
      var next := Step(pos, d);
      if next in seen && seen[next] < seen[pos] {
        path' := PathAfter(seen, next, path');
      }
    }
  }

  /** Every recorded cost is at least the cost of some open route from the
      start to the cell. */
  ghost predicate Backed(walls: seq<seq<bool>>, start: Pos, seen: map<Pos, nat>)
  {
    forall p :: p in seen ==> exists ds :: OpenRoute(walls, start, ds) && End(start, ds) == p && Cost(ds) <= seen[p]
  }

  /** A sound record backs every recorded cost by an open route. */
  lemma SoundRoutes(walls: seq<seq<bool>>, start: Pos, seen: map<Pos, nat>, via: map<Pos, seq<nat>>)
    requires SeenSound(walls, start, seen, via)
    ensures Backed(walls, start, seen)
  {
    forall p | p in seen ensures exists ds :: OpenRoute(walls, start, ds) && End(start, ds) == p && Cost(ds) <= seen[p] {
      assert OpenRoute(walls, start, via[p]) && End(start, via[p]) == p && Cost(via[p]) <= seen[p];
    }
  }

  /** What the search from the start leaves behind: every recorded cost is
      backed by a route, and without an overflow the end is recorded
      whenever it can be reached. */
  lemma SearchFacts(walls: seq<seq<bool>>, start: Pos, end: Pos, found: map<Pos, nat>, via: map<Pos, seq<nat>>, overflow: bool)
    requires SeenSound(walls, start, found, via) && start in found
    requires !overflow ==> forall q :: q in found && q != end ==> Expanded(walls, found, q)
    ensures Backed(walls, start, found)
    ensures Reaches(Move(walls, end), start, end) && !overflow ==> end in found
  {
    SoundRoutes(walls, start, found, via);
    if Reaches(Move(walls, end), start, end) && !overflow {
      SearchReaches(walls, end, found, start, end);
    }
  }

  /** The search from the start, facing right at cost 0: every recorded
      cost is backed by a route, and without an overflow the end is
      recorded whenever it can be reached. */
  method Search(walls: seq<seq<bool>>, start: Pos, end: Pos) returns (found: map<Pos, nat>, ghost overflow: bool)
    requires Bordered(walls) && Open(walls, start)
    ensures Backed(walls, start, found)
    ensures Reaches(Move(walls, end), start, end) && !overflow ==> end in found
  {
    ghost var via;
    found, via, overflow := FindMinCost(walls, start, end, start, 1, 0, map[], map[], []);
    SearchFacts(walls, start, end, found, via, overflow);
  }

  /** compute: search from the start facing right at cost 0, then collect
      the path back from the end. None where the source would panic on an
      end the search never recorded. The reported pair is the cost the
      search recorded for the end and the number of cells get_path_after
      collects from it (seen is the search's record); the cost is achieved
      by a real route, and the end is always found when the search can
      reach it without a cost reaching usize::MAX. */
  method Compute(walls: seq<seq<bool>>, start: Pos, end: Pos) returns (r: Option<(nat, nat)>, seen: map<Pos, nat>, ghost overflow: bool)
    requires Bordered(walls) && Open(walls, start)
    ensures r.Some? <==> end in seen
    ensures r.Some? ==> r.value == (seen[end], |Descent(seen, end)|)
    ensures Backed(walls, start, seen)
    ensures Reaches(Move(walls, end), start, end) && !overflow ==> r.Some?
  {
    seen, overflow := Search(walls, start, end);
    if end in seen {
      var path := PathAfter(seen, end, {});
      r := Some((seen[end], |path|));
    } else {
      r := None;
    }
  }


}
