/** Day 14: robots moving in straight lines on a 101 by 103 torus. Part 1
    counts the robots in each quadrant after 100 turns and multiplies the
    counts; part 2 looks for a turn with a large 4-connected cluster of
    occupied tiles, finding clusters by removing them one at a time. */
module Day14 {
  import opened Common

  /** (x, y); x runs along the width. */
  type Pos = (int, int)

  datatype Robot = Robot(pos: Pos, vel: (int, int))

  const Width: int := 101
  const Height: int := 103
  const Turns: int := 100

  // ---- Modular arithmetic ----

  lemma MulAtLeast(d: int, m: int)
    requires d >= 1 && m > 0
    ensures d * m >= m
  {
  }

  /** The remainder is determined: r is x's remainder modulo m whenever x is
      a multiple of m plus r with 0 <= r < m. */
  lemma ModUnique(x: int, k: int, r: int, m: int)
    requires m > 0 && 0 <= r < m && x == k * m + r
    ensures x % m == r
  {
    var d := k - x / m;
    assert d * m == x % m - r;
    if d >= 1 {
      MulAtLeast(d, m);
      assert false;
    } else if d <= -1 {
      MulAtLeast(-d, m);
      assert false;
    }
  }

  /** Adding any multiple of m leaves a value's class modulo m unchanged. */
  lemma ModShift(x: int, q: int, m: int)
    requires m > 0
    ensures (x + q * m) % m == x % m
  {
    assert x + q * m == (x / m + q) * m + x % m;
    ModUnique(x + q * m, x / m + q, x % m, m);
  }

  /** Reducing a summand first does not change the sum's remainder. */
  lemma ModAddLeft(a: int, b: int, m: int)
    requires m > 0
    ensures (a % m + b) % m == (a + b) % m
  {
    ModShift(a % m + b, a / m, m);
    assert a % m + b + (a / m) * m == a + b;
  }

  // ---- Part 1 ----

  /** Where a robot is after t turns: its straight-line position wrapped
      onto the torus (rem_euclid, which is Dafny's % for a positive
      modulus). The result is the one tile of the board congruent to the
      unwrapped position. */
  function PositionAfter(robot: Robot, t: int, w: int, h: int): (p: Pos)
    requires w > 0 && h > 0
    ensures 0 <= p.0 < w && 0 <= p.1 < h
  {
    ((robot.pos.0 + robot.vel.0 * t) % w, (robot.pos.1 + robot.vel.1 * t) % h)
  }

  /** One more turn moves the robot one velocity step from where it was
      and wraps around the edges. */
  lemma PositionStep(robot: Robot, t: int, w: int, h: int)
    requires w > 0 && h > 0
    ensures var p := PositionAfter(robot, t, w, h);
      PositionAfter(robot, t + 1, w, h) == ((p.0 + robot.vel.0) % w, (p.1 + robot.vel.1) % h)
  {
    var x := robot.pos.0 + robot.vel.0 * t;
    var y := robot.pos.1 + robot.vel.1 * t;
    MulSucc(robot.vel.0, t);
    MulSucc(robot.vel.1, t);
    ModAddLeft(x, robot.vel.0, w);
    ModAddLeft(y, robot.vel.1, h);
  }

  /** After w * h turns every robot is back where it was. */
  lemma PositionPeriodic(robot: Robot, t: int, w: int, h: int)
    requires w > 0 && h > 0
    ensures PositionAfter(robot, t + w * h, w, h) == PositionAfter(robot, t, w, h)
  {
    var x := robot.pos.0 + robot.vel.0 * t;
    var y := robot.pos.1 + robot.vel.1 * t;
    StepsSplit(robot.pos.0, robot.vel.0, t, w, h);
    StepsSplit(robot.pos.1, robot.vel.1, t, h, w);
    assert t + h * w == t + w * h;
    ModShift(x, robot.vel.0 * h, w);
    ModShift(y, robot.vel.1 * w, h);
  }

  /** Moving for t + a * b turns is moving for t turns and then by a whole
      number of a. */
  lemma StepsSplit(p: int, v: int, t: int, a: int, b: int)
    ensures p + v * (t + a * b) == (p + v * t) + (v * b) * a
  {
    assert v * (t + a * b) == v * t + v * (a * b);
    assert v * (a * b) == (v * b) * a;
  }

  /** The quadrant of a tile: 0 top-left, 1 top-right, 2 bottom-left,
      3 bottom-right; None on the middle column or the middle row. */
  function Quadrant(p: Pos, w: int, h: int): (q: Option<nat>)
    ensures q.None? <==> p.0 == w / 2 || p.1 == h / 2
    ensures q.Some? ==> q.value < 4 && (q.value % 2 == 0 <==> p.0 < w / 2) && (q.value < 2 <==> p.1 < h / 2)
  {
    var mx := w / 2;
    var my := h / 2;
    if p.0 < mx && p.1 < my then Some(0)
    else if p.0 > mx && p.1 < my then Some(1)
    else if p.0 < mx && p.1 > my then Some(2)
    else if p.0 > mx && p.1 > my then Some(3)
    else None
  }

  /** The fold of part_1: add one to the count of each robot's quadrant. */
  function Tally(ps: seq<Pos>, w: int, h: int): (c: seq<nat>)
    ensures |c| == 4
  {
    if ps == [] then [0, 0, 0, 0]
    else
      var c := Tally(ps[..|ps| - 1], w, h);
      match Quadrant(ps[|ps| - 1], w, h)
      case None => c
      case Some(k) => c[k := c[k] + 1]
  }

  /** The indices of the tiles that lie in quadrant k. */
  function InQuadrant(ps: seq<Pos>, w: int, h: int, k: nat): set<nat>
  {
    set i: nat | i < |ps| && Quadrant(ps[i], w, h) == Some(k)
  }

  /** The indices of the tiles on the middle column or row. */
  function OnAxis(ps: seq<Pos>, w: int, h: int): set<nat>
  {
    set i: nat | i < |ps| && Quadrant(ps[i], w, h).None?
  }

  lemma InQuadrantSnoc(ps: seq<Pos>, w: int, h: int, k: nat)
    requires ps != []
    ensures var init := ps[..|ps| - 1];
      InQuadrant(ps, w, h, k) ==
        InQuadrant(init, w, h, k) + (if Quadrant(ps[|ps| - 1], w, h) == Some(k) then {|ps| - 1} else {})
  {
    var init := ps[..|ps| - 1];
    forall i: nat | i < |init| ensures init[i] == ps[i] {
    }
  }

  lemma OnAxisSnoc(ps: seq<Pos>, w: int, h: int)
    requires ps != []
    ensures var init := ps[..|ps| - 1];
      OnAxis(ps, w, h) == OnAxis(init, w, h) + (if Quadrant(ps[|ps| - 1], w, h).None? then {|ps| - 1} else {})
  {
    var init := ps[..|ps| - 1];
    forall i: nat | i < |init| ensures init[i] == ps[i] {
    }
  }

  /** Each count of the fold is the number of robots in that quadrant. */
  lemma {:induction false} TallyCount(ps: seq<Pos>, w: int, h: int, k: nat)
    requires k < 4
    ensures Tally(ps, w, h)[k] == |InQuadrant(ps, w, h, k)|
  {
    if ps != [] {
      var init := ps[..|ps| - 1];
      TallyCount(init, w, h, k);
      assert |ps| - 1 !in InQuadrant(init, w, h, k);
      InQuadrantSnoc(ps, w, h, k);
    }
  }

  /** The four counts together leave out exactly the robots on the middle
      lines. */
  lemma {:induction false} TallyTotal(ps: seq<Pos>, w: int, h: int)
    ensures var c := Tally(ps, w, h); c[0] + c[1] + c[2] + c[3] + |OnAxis(ps, w, h)| == |ps|
  {
    if ps != [] {
      var init := ps[..|ps| - 1];
      TallyTotal(init, w, h);
      assert |ps| - 1 !in OnAxis(init, w, h);
      OnAxisSnoc(ps, w, h);
    }
  }

  /** The quadrant counts add up to at most the number of robots. */
  lemma TallyBound(ps: seq<Pos>, w: int, h: int)
    ensures var c := Tally(ps, w, h); c[0] + c[1] + c[2] + c[3] <= |ps|
  {
    TallyTotal(ps, w, h);
  }

  function Positions(robots: seq<Robot>, t: int, w: int, h: int): (ps: seq<Pos>)
    requires w > 0 && h > 0
    ensures |ps| == |robots|
    ensures forall i :: 0 <= i < |ps| ==> ps[i] == PositionAfter(robots[i], t, w, h)
  {
    seq(|robots|, i requires 0 <= i < |robots| => PositionAfter(robots[i], t, w, h))
  }

  /** part_1: the product of the four quadrant counts after 100 turns. */
  function SafetyScore(robots: seq<Robot>): (score: nat)
    ensures var ps := Positions(robots, Turns, Width, Height);
      score == |InQuadrant(ps, Width, Height, 0)| * |InQuadrant(ps, Width, Height, 1)|
             * |InQuadrant(ps, Width, Height, 2)| * |InQuadrant(ps, Width, Height, 3)|
  {
    var ps := Positions(robots, Turns, Width, Height);
    TallyCount(ps, Width, Height, 0);
    TallyCount(ps, Width, Height, 1);
    TallyCount(ps, Width, Height, 2);
    TallyCount(ps, Width, Height, 3);
    var c := Tally(ps, Width, Height);
    c[0] * c[1] * c[2] * c[3]
  }

  // ---- Part 2: clusters of occupied tiles ----

  predicate Adjacent(p: Pos, q: Pos)
  {
    (p.0 == q.0 && (p.1 == q.1 + 1 || q.1 == p.1 + 1)) ||
    (p.1 == q.1 && (p.0 == q.0 + 1 || q.0 == p.0 + 1))
  }

  /** Orthogonal adjacency between two tiles of s. */
  function Adj(s: set<Pos>): (Pos, Pos) -> bool
  {
    (a: Pos, b: Pos) => a in s && b in s && Adjacent(a, b)
  }

  ghost predicate InCluster(s: set<Pos>, p: Pos, q: Pos)
  {
    q in s && Reaches(Adj(s), p, q)
  }

  /** The 4-connected cluster of p within s. */
  ghost function Cluster(s: set<Pos>, p: Pos): (c: set<Pos>)
    ensures c <= s
    ensures forall q :: q in c <==> InCluster(s, p, q)
  {
    set q | q in s && InCluster(s, p, q)
  }

  /** The tiles of s next to p, in the order left, up, right, down. */
  function NeighborsIn(s: set<Pos>, p: Pos): (ns: seq<Pos>)
    ensures forall q :: q in ns <==> q in s && Adjacent(p, q)
  {
    var cands := [(p.0 - 1, p.1), (p.0, p.1 - 1), (p.0 + 1, p.1), (p.0, p.1 + 1)];
    (if cands[0] in s then [cands[0]] else []) + (if cands[1] in s then [cands[1]] else []) +
    (if cands[2] in s then [cands[2]] else []) + (if cands[3] in s then [cands[3]] else [])
  }

  /** The removal loop's invariant: what was removed and what is stacked
      lies in the cluster of start, start is removed or stacked, and every
      neighbour of a removed tile is removed or stacked. */
  ghost predicate RemovalInv(s: set<Pos>, start: Pos, left: set<Pos>, stack: seq<Pos>)
  {
    left <= s &&
    (forall q :: q in s - left ==> InCluster(s, start, q)) &&
    (forall i :: 0 <= i < |stack| ==> InCluster(s, start, stack[i])) &&
    (start in s - left || start in stack) &&
    (forall a, b :: a in s - left && Adj(s)(a, b) ==> b in s - left || b in stack)
  }

  lemma PopSplit(st: seq<Pos>)
    requires st != []
    ensures st[..|st| - 1] + [st[|st| - 1]] == st
  {
  }

  lemma RemovalStart(s: set<Pos>, start: Pos)
    requires start in s
    ensures RemovalInv(s, start, s, [start])
  {
    ReachesSelf(Adj(s), start);
  }

  /** Popping a tile already removed. */
  lemma RemovalSkip(s: set<Pos>, start: Pos, left: set<Pos>, stack: seq<Pos>, cur: Pos)
    requires RemovalInv(s, start, left, stack + [cur]) && cur !in left
    ensures RemovalInv(s, start, left, stack)
  {
    forall i | 0 <= i < |stack| ensures InCluster(s, start, stack[i]) {
      assert (stack + [cur])[i] == stack[i];
    }
    if start !in s - left {
      assert start in stack + [cur];
      assert InCluster(s, start, (stack + [cur])[|stack|]);
    }
  }

  /** Removing a tile and stacking its remaining neighbours. */
  lemma RemovalVisit(s: set<Pos>, start: Pos, left: set<Pos>, stack: seq<Pos>, cur: Pos)
    requires RemovalInv(s, start, left, stack + [cur]) && cur in left
    ensures RemovalInv(s, start, left - {cur}, stack + NeighborsIn(left - {cur}, cur))
  {
    var left' := left - {cur};
    var next := stack + NeighborsIn(left', cur);
    assert InCluster(s, start, (stack + [cur])[|stack|]);
    forall i | 0 <= i < |stack| ensures InCluster(s, start, stack[i]) {
      assert (stack + [cur])[i] == stack[i];
    }
    forall q | q in NeighborsIn(left', cur) ensures InCluster(s, start, q) {
      assert Adj(s)(cur, q);
      WalkExtend(Adj(s), start, cur, q);
    }
    forall i | 0 <= i < |next| ensures InCluster(s, start, next[i]) {
      if i >= |stack| {
        assert next[i] in NeighborsIn(left', cur);
      }
    }
    forall a, b | a in s - left' && Adj(s)(a, b) ensures b in s - left' || b in next {
      if a != cur {
        assert b in s - left || b in stack + [cur];
      }
    }
  }

  /** With the stack empty, the removed tiles are the whole cluster. */
  lemma RemovalDone(s: set<Pos>, start: Pos, left: set<Pos>)
    requires RemovalInv(s, start, left, [])
    ensures left == s - Cluster(s, start)
  {
    var gone := s - left;
    forall q | q in Cluster(s, start) ensures q in gone {
      ClosedHoldsReachable(Adj(s), gone, start, q);
    }
  }

  /** The inner loop of part_2: pop a tile; if it was still in the set,
      remove it and stack its neighbours that are still in the set. What
      is taken out is exactly the cluster of start, and at least start. */
  method RemoveCluster(s: set<Pos>, start: Pos) returns (left: set<Pos>)
    requires start in s
    ensures left == s - Cluster(s, start)
    ensures |left| < |s|
  {
    left := s;
    var stack := [start];
    RemovalStart(s, start);
    while stack != []
      invariant RemovalInv(s, start, left, stack)
      decreases |left|, |stack|
    {
      ghost var before := stack;
      var cur := stack[|stack| - 1];
      stack := stack[..|stack| - 1];
      PopSplit(before);
      if cur in left {
        RemovalVisit(s, start, left, stack, cur);
        left := left - {cur};
        stack := stack + NeighborsIn(left, cur);
      } else {
        RemovalSkip(s, start, left, stack, cur);
      }
    }
    RemovalDone(s, start, left);
    ReachesSelf(Adj(s), start);
    assert start in s - left;
  }

  // ---- Clusters of a set closed under adjacency ----

  /** No tile of s next to a tile of t lies outside t. */
  ghost predicate ClosedIn(s: set<Pos>, t: set<Pos>)
  {
    t <= s && Closed(Adj(s), t)
  }

  lemma WalkRestrict(s: set<Pos>, t: set<Pos>, w: seq<Pos>)
    requires t <= s && IsWalk(Adj(s), w) && forall i :: 0 <= i < |w| ==> w[i] in t
    ensures IsWalk(Adj(t), w)
  {
    forall i | 0 <= i < |w| - 1 ensures Adj(t)(w[i], w[i + 1]) {
      assert Adj(s)(w[i], w[i + 1]);
    }
  }

  lemma WalkWiden(s: set<Pos>, t: set<Pos>, w: seq<Pos>)
    requires t <= s && IsWalk(Adj(t), w)
    ensures IsWalk(Adj(s), w)
  {
    forall i | 0 <= i < |w| - 1 ensures Adj(s)(w[i], w[i + 1]) {
      assert Adj(t)(w[i], w[i + 1]);
    }
  }

  /** Within a closed part of s, a tile has the same cluster as in s. */
  lemma ClusterOfClosed(s: set<Pos>, t: set<Pos>, p: Pos)
    requires ClosedIn(s, t) && p in t
    ensures Cluster(t, p) == Cluster(s, p)
  {
    forall q | q in Cluster(s, p) ensures q in Cluster(t, p) {
      var w :| IsWalk(Adj(s), w) && w[0] == p && w[|w| - 1] == q;
      ClosedHoldsWalk(Adj(s), t, w);
      WalkRestrict(s, t, w);
    }
    forall q | q in Cluster(t, p) ensures q in Cluster(s, p) {
      var w :| IsWalk(Adj(t), w) && w[0] == p && w[|w| - 1] == q;
      WalkWiden(s, t, w);
    }
  }

  /** Tiles of one cluster share it. */
  lemma SameCluster(s: set<Pos>, p: Pos, q: Pos)
    requires q in Cluster(s, p)
    ensures Cluster(s, q) == Cluster(s, p)
  {
    assert forall x, y :: Adj(s)(x, y) ==> Adj(s)(y, x);
    ReachesSymmetric(Adj(s), p, q);
    forall r | r in Cluster(s, q) ensures r in Cluster(s, p) {
      ReachesTransitive(Adj(s), p, q, r);
    }
    forall r | r in Cluster(s, p) ensures r in Cluster(s, q) {
      ReachesTransitive(Adj(s), q, p, r);
    }
  }

  /** Taking a whole cluster out of a closed part leaves a closed part. */
  lemma RemoveKeepsClosed(s: set<Pos>, t: set<Pos>, p: Pos)
    requires ClosedIn(s, t) && p in t
    ensures ClosedIn(s, t - Cluster(s, p))
  {
    var c := Cluster(s, p);
    forall a, b | a in t - c && Adj(s)(a, b) ensures b in t - c {
      if b in c {
        assert Adj(s)(b, a);
        WalkExtend(Adj(s), p, b, a);
        assert false;
      }
    }
  }

  /** One turn of part_2: take clusters out of the set of occupied tiles
      until none is left, and raise the running maximum to the size of any
      larger cluster. The result is the larger of the old maximum and the
      largest cluster, so the maximum never decreases. */
  method LargestCluster(s: set<Pos>, maxSoFar: nat) returns (best: nat)
    ensures best >= maxSoFar
    ensures forall p :: p in s ==> |Cluster(s, p)| <= best
    ensures best == maxSoFar || exists p :: p in s && |Cluster(s, p)| == best
  {
    best := maxSoFar;
    var left := s;
    assert Closed(Adj(s), s);
    while left != {}
      invariant ClosedIn(s, left)
      invariant best >= maxSoFar
      invariant forall p :: p in s - left ==> |Cluster(s, p)| <= best
      invariant best == maxSoFar || exists p :: p in s && |Cluster(s, p)| == best
      decreases |left|
    {
      var before := |left|;
      var pos :| pos in left;
      ghost var prior := left;
      left := RemoveCluster(left, pos);
      ClusterOfClosed(s, prior, pos);
      RemoveKeepsClosed(s, prior, pos);
      var removed := before - |left|;
      assert removed == |Cluster(s, pos)|;
      forall p | p in Cluster(s, pos) ensures |Cluster(s, p)| == removed {
        SameCluster(s, pos, p);
      }
      if removed > best {
        best := removed;
      }
    }
  }

  /** The tiles occupied after t turns. */
  function Occupied(robots: seq<Robot>, t: int): (s: set<Pos>)
    ensures forall p :: p in s <==> exists i :: 0 <= i < |robots| && p == PositionAfter(robots[i], t, Width, Height)
  {
    set i | 0 <= i < |robots| :: PositionAfter(robots[i], t, Width, Height)
  }

  /** One iteration of part_2's scan over turns. */
  method ScanTurn(robots: seq<Robot>, t: int, maxSoFar: nat) returns (best: nat)
    ensures best >= maxSoFar
    ensures forall p :: p in Occupied(robots, t) ==> |Cluster(Occupied(robots, t), p)| <= best
    ensures best == maxSoFar || exists p :: p in Occupied(robots, t) && |Cluster(Occupied(robots, t), p)| == best
  {
    best := LargestCluster(Occupied(robots, t), maxSoFar);
  }

  /** part_2: the largest cluster of robots over the first `turns` turns
      (10 000 in the source), starting from a maximum of zero, with the turn
      the source prints last: the first turn on which that largest cluster
      appears (0 when no cluster was ever found). */
  method Part2(robots: seq<Robot>, turns: nat) returns (best: nat, turn: nat)
    ensures forall t, p :: 0 <= t < turns && p in Occupied(robots, t) ==> |Cluster(Occupied(robots, t), p)| <= best
    ensures best == 0 || exists t, p :: 0 <= t < turns && p in Occupied(robots, t) && |Cluster(Occupied(robots, t), p)| == best
    ensures best == 0 ==> turn == 0
    ensures best > 0 ==> turn < turns && exists p :: p in Occupied(robots, turn) && |Cluster(Occupied(robots, turn), p)| == best
    ensures forall t, p :: 0 <= t < turn && p in Occupied(robots, t) ==> |Cluster(Occupied(robots, t), p)| < best
  {
    best, turn := 0, 0;
    for i := 0 to turns
      invariant forall t, p :: 0 <= t < i && p in Occupied(robots, t) ==> |Cluster(Occupied(robots, t), p)| <= best
      invariant best == 0 || exists t, p :: 0 <= t < i && p in Occupied(robots, t) && |Cluster(Occupied(robots, t), p)| == best
      invariant best == 0 ==> turn == 0
      invariant best > 0 ==> turn < i && exists p :: p in Occupied(robots, turn) && |Cluster(Occupied(robots, turn), p)| == best
      invariant forall t, p :: 0 <= t < turn && p in Occupied(robots, t) ==> |Cluster(Occupied(robots, t), p)| < best
    {
      var next := ScanTurn(robots, i, best);
      if next > best {
        turn := i;
      }
      best := next;
    }
  }
}
