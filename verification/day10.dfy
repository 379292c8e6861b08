/** Day 10: a topographic map of heights 0 to 9. A hiking trail starts at a
    0 and climbs by exactly one per orthogonal step up to a 9. Part 1 sums,
    over the trailheads, the number of distinct 9s reachable; part 2 sums the
    number of distinct trails. */
module Day10 {
  import opened Common

  type Pos = (nat, nat)

  /** The parsed map: at least one row, every row as wide as the first, and
      every height a single decimal digit. */
  predicate ValidMap(grid: seq<seq<nat>>)
  {
    |grid| > 0 && |grid[0]| > 0 &&
    forall r :: 0 <= r < |grid| ==> |grid[r]| == |grid[0]| && forall c :: 0 <= c < |grid[r]| ==> grid[r][c] <= 9
  }

  predicate InMap(grid: seq<seq<nat>>, p: Pos)
  {
    p.0 < |grid| && p.1 < |grid[p.0]|
  }

  /** Map::get. */
  function Height(grid: seq<seq<nat>>, p: Pos): (h: nat)
    requires ValidMap(grid) && InMap(grid, p)
    ensures h <= 9
  {
    grid[p.0][p.1]
  }

  /** The cells of row r before column n that hold 0, left to right. */
  function RowZeros(grid: seq<seq<nat>>, r: nat, n: nat): (z: seq<Pos>)
    requires r < |grid| && n <= |grid[r]|
    ensures NoDuplicates(z)
    ensures forall p: Pos :: p in z <==> p.0 == r && p.1 < n && grid[r][p.1] == 0
  {
    if n == 0 then []
    else
      var init := RowZeros(grid, r, n - 1);
      if grid[r][n - 1] == 0 then init + [(r, n - 1)] else init
  }

  /** The 0 cells of the first n rows, row by row. */
  function ZerosUpTo(grid: seq<seq<nat>>, n: nat): (z: seq<Pos>)
    requires n <= |grid|
    ensures NoDuplicates(z)
    ensures forall p: Pos :: p in z <==> p.0 < n && InMap(grid, p) && grid[p.0][p.1] == 0
  {
    if n == 0 then []
    else
      var init, row := ZerosUpTo(grid, n - 1), RowZeros(grid, n - 1, |grid[n - 1]|);
      assert forall i :: 0 <= i < |init| ==> init[i] in init && init[i].0 < n - 1;
      assert forall j :: 0 <= j < |row| ==> row[j] in row && row[j].0 == n - 1;
      init + row
  }

  /** Map::trailheads: every cell holding 0, each once, in raster order. */
  function Trailheads(grid: seq<seq<nat>>): (z: seq<Pos>)
    ensures NoDuplicates(z)
    ensures forall p: Pos :: p in z <==> InMap(grid, p) && grid[p.0][p.1] == 0
  {
    ZerosUpTo(grid, |grid|)
  }

  /** Orthogonally adjacent cells. */
  predicate Adjacent(p: Pos, q: Pos)
  {
    (p.0 == q.0 && (p.1 == q.1 + 1 || q.1 == p.1 + 1)) ||
    (p.1 == q.1 && (p.0 == q.0 + 1 || q.0 == p.0 + 1))
  }

  /** The candidate steps of dfs in its order (up, left, down, right), those
      that stay on the map. */
  function Neighbors(grid: seq<seq<nat>>, p: Pos): (ns: seq<Pos>)
    requires ValidMap(grid) && InMap(grid, p)
    ensures NoDuplicates(ns)
    ensures forall q: Pos :: q in ns <==> InMap(grid, q) && Adjacent(p, q)
  {
    var up := if p.0 > 0 then [(p.0 - 1, p.1)] else [];
    var left := if p.1 > 0 then [(p.0, p.1 - 1)] else [];
    var down := if p.0 < |grid| - 1 then [(p.0 + 1, p.1)] else [];
    var right := if p.1 < |grid[0]| - 1 then [(p.0, p.1 + 1)] else [];
    up + left + down + right
  }

  /** Map::dfs: one entry per trail from p, the 9 it ends at. */
  function Dfs(grid: seq<seq<nat>>, p: Pos): seq<Pos>
    requires ValidMap(grid) && InMap(grid, p)
    decreases 9 - Height(grid, p), 1
  {
    if Height(grid, p) == 9 then [p] else DfsVia(grid, p, Neighbors(grid, p))
  }

  /** The flat_map of dfs over the candidate steps one higher than p. */
  function DfsVia(grid: seq<seq<nat>>, p: Pos, cands: seq<Pos>): seq<Pos>
    requires ValidMap(grid) && InMap(grid, p) && Height(grid, p) < 9
    requires forall i :: 0 <= i < |cands| ==> InMap(grid, cands[i])
    decreases 9 - Height(grid, p), 0, |cands|
  {
    if cands == [] then []
    else
      (if Height(grid, cands[0]) == Height(grid, p) + 1 then Dfs(grid, cands[0]) else []) +
      DfsVia(grid, p, cands[1..])
  }

  /** One step of a trail: to an adjacent cell exactly one higher. */
  predicate Step(grid: seq<seq<nat>>, a: Pos, b: Pos)
  {
    InMap(grid, a) && InMap(grid, b) && Adjacent(a, b) && grid[b.0][b.1] == grid[a.0][a.1] + 1
  }

  /** A hiking trail: cells on the map, each step orthogonal and exactly one
      higher, ending at height 9. */
  predicate IsTrail(grid: seq<seq<nat>>, t: seq<Pos>)
  {
    |t| > 0 && InMap(grid, t[|t| - 1]) && grid[t[|t| - 1].0][t[|t| - 1].1] == 9 &&
    forall i :: 0 <= i < |t| - 1 ==> Step(grid, t[i], t[i + 1])
  }

  /** Every trail from p, the reference enumeration for dfs. */
  function Trails(grid: seq<seq<nat>>, p: Pos): (ts: seq<seq<Pos>>)
    requires ValidMap(grid) && InMap(grid, p)
    ensures forall i :: 0 <= i < |ts| ==> |ts[i]| > 0 && ts[i][0] == p
    decreases 9 - Height(grid, p), 1
  {
    if Height(grid, p) == 9 then [[p]] else TrailsVia(grid, p, Neighbors(grid, p))
  }

  function TrailsVia(grid: seq<seq<nat>>, p: Pos, cands: seq<Pos>): (ts: seq<seq<Pos>>)
    requires ValidMap(grid) && InMap(grid, p) && Height(grid, p) < 9
    requires forall i :: 0 <= i < |cands| ==> InMap(grid, cands[i])
    ensures forall i :: 0 <= i < |ts| ==> |ts[i]| > 1 && ts[i][0] == p && ts[i][1] in cands
    decreases 9 - Height(grid, p), 0, |cands|
  {
    if cands == [] then []
    else
      (if Height(grid, cands[0]) == Height(grid, p) + 1 then Prepend(p, Trails(grid, cands[0])) else []) +
      TrailsVia(grid, p, cands[1..])
  }

  /** Each trail with p put in front. */
  function Prepend(p: Pos, ts: seq<seq<Pos>>): (r: seq<seq<Pos>>)
    ensures |r| == |ts| && forall i :: 0 <= i < |ts| ==> r[i] == [p] + ts[i]
  {
    seq(|ts|, i requires 0 <= i < |ts| => [p] + ts[i])
  }

  /** The last cell of each trail. */
  function Ends(ts: seq<seq<Pos>>): (r: seq<Pos>)
    requires forall i :: 0 <= i < |ts| ==> |ts[i]| > 0
    ensures |r| == |ts| && forall i :: 0 <= i < |ts| ==> r[i] == ts[i][|ts[i]| - 1]
  {
    seq(|ts|, i requires 0 <= i < |ts| => ts[i][|ts[i]| - 1])
  }

  /** Every enumerated trail is a hiking trail from p. */
  lemma {:induction false} TrailsSound(grid: seq<seq<nat>>, p: Pos)
    requires ValidMap(grid) && InMap(grid, p)
    ensures forall i :: 0 <= i < |Trails(grid, p)| ==> IsTrail(grid, Trails(grid, p)[i])
    decreases 9 - Height(grid, p), 1
  {
    if Height(grid, p) < 9 {
      TrailsViaSound(grid, p, Neighbors(grid, p));
    }
  }

  lemma {:induction false} TrailsViaSound(grid: seq<seq<nat>>, p: Pos, cands: seq<Pos>)
    requires ValidMap(grid) && InMap(grid, p) && Height(grid, p) < 9
    requires forall i :: 0 <= i < |cands| ==> InMap(grid, cands[i]) && Adjacent(p, cands[i])
    ensures forall i :: 0 <= i < |TrailsVia(grid, p, cands)| ==> IsTrail(grid, TrailsVia(grid, p, cands)[i])
    decreases 9 - Height(grid, p), 0, |cands|
  {
    if cands != [] {
      var c := cands[0];
      TrailsViaSound(grid, p, cands[1..]);
      if Height(grid, c) == Height(grid, p) + 1 {
        TrailsSound(grid, c);
        var ts := Trails(grid, c);
        forall i | 0 <= i < |ts|
          ensures IsTrail(grid, [p] + ts[i])
        {
          var t := [p] + ts[i];
          assert t[1..] == ts[i];
          forall k | 0 <= k < |t| - 1
            ensures Step(grid, t[k], t[k + 1])
          {
            if k > 0 {
              assert t[k] == ts[i][k - 1] && t[k + 1] == ts[i][k];
            }
          }
        }
      }
    }
  }

  /** No step leaves a 9: heights stop at 9. */
  lemma NoStepFromNine(grid: seq<seq<nat>>, a: Pos, b: Pos)
    requires ValidMap(grid) && InMap(grid, a) && grid[a.0][a.1] == 9
    ensures !Step(grid, a, b)
  {
  }

  /** Every hiking trail from p is enumerated. */
  lemma {:induction false} TrailsComplete(grid: seq<seq<nat>>, p: Pos, t: seq<Pos>)
    requires ValidMap(grid) && InMap(grid, p)
    requires IsTrail(grid, t) && t[0] == p
    ensures t in Trails(grid, p)
    decreases 9 - Height(grid, p), 1
  {
    if Height(grid, p) == 9 {
      if |t| > 1 {
        NoStepFromNine(grid, t[0], t[1]);
        assert false;
      }
      assert t == [p];
    } else {
      assert |t| > 1;
      assert Step(grid, t[0], t[1]);
      TrailsViaComplete(grid, p, Neighbors(grid, p), t);
    }
  }

  lemma {:induction false} TrailsViaComplete(grid: seq<seq<nat>>, p: Pos, cands: seq<Pos>, t: seq<Pos>)
    requires ValidMap(grid) && InMap(grid, p) && Height(grid, p) < 9
    requires forall i :: 0 <= i < |cands| ==> InMap(grid, cands[i])
    requires IsTrail(grid, t) && |t| > 1 && t[0] == p && t[1] in cands
    ensures t in TrailsVia(grid, p, cands)
    decreases 9 - Height(grid, p), 0, |cands|
  {
    if cands[0] == t[1] {
      assert Step(grid, t[0], t[1]);
      var rest := t[1..];
      assert IsTrail(grid, rest) by {
        forall k | 0 <= k < |rest| - 1
          ensures Step(grid, rest[k], rest[k + 1])
        {
          assert rest[k] == t[k + 1] && rest[k + 1] == t[k + 2];
          assert Step(grid, t[k + 1], t[k + 2]);
        }
      }
      TrailsComplete(grid, t[1], rest);
      var ts := Trails(grid, t[1]);
      var i :| 0 <= i < |ts| && ts[i] == rest;
      assert Prepend(p, ts)[i] == t;
    } else {
      TrailsViaComplete(grid, p, cands[1..], t);
    }
  }

  /** No trail is enumerated twice. */
  lemma {:induction false} TrailsDistinct(grid: seq<seq<nat>>, p: Pos)
    requires ValidMap(grid) && InMap(grid, p)
    ensures NoDuplicates(Trails(grid, p))
    decreases 9 - Height(grid, p), 1
  {
    if Height(grid, p) < 9 {
      TrailsViaDistinct(grid, p, Neighbors(grid, p));
    }
  }

  lemma PrependDistinct(p: Pos, ts: seq<seq<Pos>>)
    requires NoDuplicates(ts)
    ensures NoDuplicates(Prepend(p, ts))
  {
    var a := Prepend(p, ts);
    forall i: int, j: int | 0 <= i < j < |a| ensures a[i] != a[j] {
      assert a[i][1..] == ts[i] && a[j][1..] == ts[j];
    }
  }

  lemma {:induction false} TrailsViaDistinct(grid: seq<seq<nat>>, p: Pos, cands: seq<Pos>)
    requires ValidMap(grid) && InMap(grid, p) && Height(grid, p) < 9
    requires forall i :: 0 <= i < |cands| ==> InMap(grid, cands[i])
    requires NoDuplicates(cands)
    ensures NoDuplicates(TrailsVia(grid, p, cands))
    decreases 9 - Height(grid, p), 0, |cands|
  {
    if cands != [] {
      var c := cands[0];
      var tail := cands[1..];
      assert NoDuplicates(tail);
      assert c !in tail;
      TrailsViaDistinct(grid, p, tail);
      if Height(grid, c) == Height(grid, p) + 1 {
        TrailsDistinct(grid, c);
        PrependDistinct(p, Trails(grid, c));
        var a: seq<seq<Pos>> := Prepend(p, Trails(grid, c));
        var b: seq<seq<Pos>> := TrailsVia(grid, p, tail);
        forall i: int, j: int | 0 <= i < |a| && 0 <= j < |b| ensures a[i] != b[j] {
          assert a[i][1] == c && b[j][1] in tail;
        }
        DistinctConcat(a, b);
      } else {
        assert TrailsVia(grid, p, cands) == [] + TrailsVia(grid, p, tail);
      }
    }
  }

  lemma EndsAppend(a: seq<seq<Pos>>, b: seq<seq<Pos>>)
    requires forall i :: 0 <= i < |a| ==> |a[i]| > 0
    requires forall i :: 0 <= i < |b| ==> |b[i]| > 0
    ensures Ends(a + b) == Ends(a) + Ends(b)
  {
  }

  /** dfs returns exactly the end of every trail from p, in enumeration
      order: one entry per trail. */
  lemma {:induction false} DfsEnds(grid: seq<seq<nat>>, p: Pos)
    requires ValidMap(grid) && InMap(grid, p)
    ensures Dfs(grid, p) == Ends(Trails(grid, p))
    decreases 9 - Height(grid, p), 1
  {
    if Height(grid, p) < 9 {
      DfsViaEnds(grid, p, Neighbors(grid, p));
    }
  }

  lemma {:induction false} DfsViaEnds(grid: seq<seq<nat>>, p: Pos, cands: seq<Pos>)
    requires ValidMap(grid) && InMap(grid, p) && Height(grid, p) < 9
    requires forall i :: 0 <= i < |cands| ==> InMap(grid, cands[i])
    ensures DfsVia(grid, p, cands) == Ends(TrailsVia(grid, p, cands))
    decreases 9 - Height(grid, p), 0, |cands|
  {
    if cands != [] {
      var c := cands[0];
      DfsViaEnds(grid, p, cands[1..]);
      var a := if Height(grid, c) == Height(grid, p) + 1 then Prepend(p, Trails(grid, c)) else [];
      if Height(grid, c) == Height(grid, p) + 1 {
        DfsEnds(grid, c);
        assert Ends(a) == Ends(Trails(grid, c));
      }
      EndsAppend(a, TrailsVia(grid, p, cands[1..]));
    }
  }

  /** A trail from p to q. */
  ghost predicate TrailBetween(grid: seq<seq<nat>>, p: Pos, q: Pos, t: seq<Pos>)
  {
    IsTrail(grid, t) && t[0] == p && t[|t| - 1] == q
  }

  /** Every cell dfs reports is the end of a trail from p. */
  lemma DfsSound(grid: seq<seq<nat>>, p: Pos, q: Pos)
    requires ValidMap(grid) && InMap(grid, p)
    requires q in Dfs(grid, p)
    ensures exists t :: TrailBetween(grid, p, q, t)
  {
    DfsEnds(grid, p);
    TrailsSound(grid, p);
    var ts := Trails(grid, p);
    var i :| 0 <= i < |ts| && Dfs(grid, p)[i] == q;
    assert TrailBetween(grid, p, q, ts[i]);
  }

  /** Every 9 a trail from p reaches is reported by dfs. */
  lemma DfsComplete(grid: seq<seq<nat>>, p: Pos, q: Pos, t: seq<Pos>)
    requires ValidMap(grid) && InMap(grid, p)
    requires TrailBetween(grid, p, q, t)
    ensures q in Dfs(grid, p)
  {
    DfsEnds(grid, p);
    TrailsComplete(grid, p, t);
    var ts := Trails(grid, p);
    var i :| 0 <= i < |ts| && ts[i] == t;
    assert Dfs(grid, p)[i] == q;
  }

  /** The cells dfs reports are exactly the 9s some trail from p reaches,
      and it reports one cell per trail. */
  lemma DfsReaches(grid: seq<seq<nat>>, p: Pos, q: Pos)
    requires ValidMap(grid) && InMap(grid, p)
    ensures q in Dfs(grid, p) <==> exists t :: TrailBetween(grid, p, q, t)
    ensures |Dfs(grid, p)| == |Trails(grid, p)|
  {
    DfsEnds(grid, p);
    if q in Dfs(grid, p) {
      DfsSound(grid, p, q);
    }
    if t :| TrailBetween(grid, p, q, t) {
      DfsComplete(grid, p, q, t);
    }
  }

  /** The part 1 term of a trailhead: how many distinct 9s it reaches. */
  function Score(grid: seq<seq<nat>>, p: Pos): nat
    requires ValidMap(grid) && InMap(grid, p)
  {
    |Unique(Dfs(grid, p))|
  }

  /** The part 2 term of a trailhead: how many trails start there. */
  function Rating(grid: seq<seq<nat>>, p: Pos): nat
    requires ValidMap(grid) && InMap(grid, p)
  {
    |Dfs(grid, p)|
  }

  /** Sum of a per-trailhead count over the listed trailheads. */
  function SumScores(grid: seq<seq<nat>>, heads: seq<Pos>, rating: bool): nat
    requires ValidMap(grid) && forall i :: 0 <= i < |heads| ==> InMap(grid, heads[i])
  {
    if heads == [] then 0
    else (if rating then Rating(grid, heads[0]) else Score(grid, heads[0])) + SumScores(grid, heads[1..], rating)
  }

  /** part_1. */
  function Part1(grid: seq<seq<nat>>): nat
    requires ValidMap(grid)
  {
    SumScores(grid, Trailheads(grid), false)
  }

  /** part_2. */
  function Part2(grid: seq<seq<nat>>): nat
    requires ValidMap(grid)
  {
    SumScores(grid, Trailheads(grid), true)
  }

  lemma {:induction false} SumScoresBound(grid: seq<seq<nat>>, heads: seq<Pos>)
    requires ValidMap(grid) && forall i :: 0 <= i < |heads| ==> InMap(grid, heads[i])
    ensures SumScores(grid, heads, false) <= SumScores(grid, heads, true)
  {
    if heads != [] {
      SumScoresBound(grid, heads[1..]);
    }
  }

  /** Counting distinct ends never exceeds counting trails. */
  lemma Part1AtMostPart2(grid: seq<seq<nat>>)
    requires ValidMap(grid)
    ensures Part1(grid) <= Part2(grid)
  {
    var heads := Trailheads(grid);
    assert forall i :: 0 <= i < |heads| ==> heads[i] in heads;
    SumScoresBound(grid, heads);
  }
}
