/** Day 18: the falling bytes. Corrupted cells block a 71 by 71 memory
    grid; a breadth-first search finds the fewest steps from the top-left
    corner to the bottom-right one, and part 2 looks for the first number
    of fallen bytes that cuts the corner off. */
module Day18 {
  import opened Common

  /** (x, y): x is the column, y the row. */
  type Pos = (int, int)

  const Size: int := 71
  const Start: Pos := (0, 0)
  const Target: Pos := (70, 70)

  predicate InBounds(p: Pos)
  {
    0 <= p.0 < Size && 0 <= p.1 < Size
  }

  /** A cell the search may enter: inside the grid and not corrupted. */
  predicate Open(corrupted: set<Pos>, p: Pos)
  {
    InBounds(p) && p !in corrupted
  }

  predicate Adjacent(a: Pos, b: Pos)
  {
    (a.0 == b.0 && (b.1 == a.1 - 1 || b.1 == a.1 + 1)) ||
    (a.1 == b.1 && (b.0 == a.0 - 1 || b.0 == a.0 + 1))
  }

  /** One step of a route: to an adjacent open cell. */
  predicate Edge(corrupted: set<Pos>, a: Pos, b: Pos)
  {
    Adjacent(a, b) && Open(corrupted, b)
  }

  ghost function Move(corrupted: set<Pos>): (Pos, Pos) -> bool
  {
    (a: Pos, b: Pos) => Edge(corrupted, a, b)
  }

  /** There is a route of exactly n steps from Start to p. */
  ghost predicate RouteOf(corrupted: set<Pos>, p: Pos, n: nat)
  {
    exists w :: IsWalk(Move(corrupted), w) && |w| == n + 1 && w[0] == Start && w[|w| - 1] == p
  }

  /** The four neighbours in the order find_path lists them: up, right,
      down, left. */
  function Neighbors(p: Pos): (r: seq<Pos>)
    ensures forall q :: q in r <==> Adjacent(p, q)
  {
    [(p.0, p.1 - 1), (p.0 + 1, p.1), (p.0, p.1 + 1), (p.0 - 1, p.1)]
  }

  /** The filter of find_path: inside the grid, not corrupted, and either
      without a distance yet or with a larger one than distance + 1. */
  predicate Admit(corrupted: set<Pos>, distances: map<Pos, nat>, q: Pos, distance: nat)
  {
    Open(corrupted, q) && (q !in distances || distance + 1 < distances[q])
  }

  /** The entries find_path appends to its queue for the candidates. */
  function Enqueued(corrupted: set<Pos>, distances: map<Pos, nat>, cands: seq<Pos>, distance: nat): (r: seq<(Pos, nat)>)
    ensures forall i :: 0 <= i < |r| ==> r[i].0 in cands && r[i].1 == distance + 1 && Admit(corrupted, distances, r[i].0, distance)
    ensures forall q :: q in cands && Admit(corrupted, distances, q, distance) ==> (q, distance + 1) in r
  {
    if cands == [] then []
    else
      var rest := Enqueued(corrupted, distances, cands[1..], distance);
      (if Admit(corrupted, distances, cands[0], distance) then [(cands[0], distance + 1)] else []) + rest
  }

  /** The first n corruptions (all of them when there are fewer). */
  function FirstN(corruptions: seq<Pos>, n: nat): (r: set<Pos>)
    ensures forall p :: p in r <==> exists i :: 0 <= i < |corruptions| && i < n && corruptions[i] == p
  {
    set i | 0 <= i < |corruptions| && i < n :: corruptions[i]
  }

  ghost function AllCells(): set<Pos>
  {
    set x, y | 0 <= x < Size && 0 <= y < Size :: (x, y)
  }

  // The state of the search: the distances fixed so far and the queue of
  // (cell, distance) entries still to pop.

  ghost predicate Sorted(queue: seq<(Pos, nat)>)
  {
    (forall i, j :: 0 <= i <= j < |queue| ==> queue[i].1 <= queue[j].1) &&
    (|queue| > 0 ==> queue[|queue| - 1].1 <= queue[0].1 + 1)
  }

  /** Some entry for q at distance at most b is still queued. */
  ghost predicate Queued(queue: seq<(Pos, nat)>, q: Pos, b: nat)
  {
    exists i :: 0 <= i < |queue| && queue[i].0 == q && queue[i].1 <= b
  }

  /** Every step out of a settled cell leads to a cell settled at most one
      further, or to one still queued at most one further. */
  ghost predicate Frontier(corrupted: set<Pos>, distances: map<Pos, nat>, queue: seq<(Pos, nat)>)
  {
    forall p, q :: p in distances && Edge(corrupted, p, q) ==>
      (q in distances && distances[q] <= distances[p] + 1) || Queued(queue, q, distances[p] + 1)
  }

  /** No settled distance exceeds the distance at the head of the queue. */
  ghost predicate SettledFirst(distances: map<Pos, nat>, queue: seq<(Pos, nat)>)
  {
    |queue| > 0 ==> forall p :: p in distances ==> distances[p] <= queue[0].1
  }

  /** Every settled cell lies in the grid and has a route of its distance. */
  ghost predicate SettledRoutes(corrupted: set<Pos>, distances: map<Pos, nat>)
  {
    forall p :: p in distances ==> InBounds(p) && RouteOf(corrupted, p, distances[p])
  }

  /** Every queued cell lies in the grid and has a route of its distance. */
  ghost predicate QueuedRoutes(corrupted: set<Pos>, queue: seq<(Pos, nat)>)
  {
    forall i :: 0 <= i < |queue| ==> InBounds(queue[i].0) && RouteOf(corrupted, queue[i].0, queue[i].1)
  }

  /** Before the first pop only Start is queued; after it Start is settled
      at 0. */
  ghost predicate Rooted(distances: map<Pos, nat>, queue: seq<(Pos, nat)>)
  {
    (distances == map[] && queue == [(Start, 0)]) || (Start in distances && distances[Start] == 0)
  }

  ghost predicate Search(corrupted: set<Pos>, distances: map<Pos, nat>, queue: seq<(Pos, nat)>)
  {
    Sorted(queue) && SettledFirst(distances, queue) && Frontier(corrupted, distances, queue) &&
    SettledRoutes(corrupted, distances) && QueuedRoutes(corrupted, queue) && Rooted(distances, queue)
  }

  lemma SearchStart(corrupted: set<Pos>)
    ensures Search(corrupted, map[], [(Start, 0)])
  {
    assert IsWalk(Move(corrupted), [Start]);
  }

  /** Popping an entry for a cell already settled keeps the search state. */
  lemma PopSettled(corrupted: set<Pos>, distances: map<Pos, nat>, queue: seq<(Pos, nat)>)
    requires Search(corrupted, distances, queue) && |queue| > 0 && queue[0].0 in distances
    ensures Search(corrupted, distances, queue[1..])
  {
    var rest := queue[1..];
    FrontierSkip(corrupted, distances, queue);
    assert QueuedRoutes(corrupted, rest);
    if |rest| > 0 {
      assert rest[0] == queue[1];
    }
  }

  /** Dropping an entry for a settled cell keeps every step covered. */
  lemma FrontierSkip(corrupted: set<Pos>, distances: map<Pos, nat>, queue: seq<(Pos, nat)>)
    requires Frontier(corrupted, distances, queue) && SettledFirst(distances, queue)
    requires |queue| > 0 && queue[0].0 in distances
    ensures Frontier(corrupted, distances, queue[1..])
  {
    var rest := queue[1..];
    forall p, q | p in distances && Edge(corrupted, p, q)
      ensures (q in distances && distances[q] <= distances[p] + 1) || Queued(rest, q, distances[p] + 1)
    {
      if !(q in distances && distances[q] <= distances[p] + 1) {
        var i :| 0 <= i < |queue| && queue[i].0 == q && queue[i].1 <= distances[p] + 1;
        assert i > 0;
        assert rest[i - 1] == queue[i];
      }
    }
  }

  /** A route to a settled cell, one step longer, reaches each neighbour. */
  lemma RouteStep(corrupted: set<Pos>, p: Pos, n: nat, q: Pos)
    requires RouteOf(corrupted, p, n) && Edge(corrupted, p, q)
    ensures RouteOf(corrupted, q, n + 1)
  {
    var w :| IsWalk(Move(corrupted), w) && |w| == n + 1 && w[0] == Start && w[|w| - 1] == p;
    var w' := w + [q];
    assert IsWalk(Move(corrupted), w') by {
      forall i | 0 <= i < |w'| - 1 ensures Move(corrupted)(w'[i], w'[i + 1]) {
        if i < |w| - 1 {
          assert w'[i] == w[i] && w'[i + 1] == w[i + 1];
        }
      }
    }
  }

  /** Appending entries one further than the popped one keeps the queue
      sorted. */
  lemma SortedAfter(queue: seq<(Pos, nat)>, added: seq<(Pos, nat)>)
    requires Sorted(queue) && |queue| > 0
    requires forall i :: 0 <= i < |added| ==> added[i].1 == queue[0].1 + 1
    ensures Sorted(queue[1..] + added)
    ensures |queue[1..] + added| > 0 ==> (queue[1..] + added)[0].1 >= queue[0].1
  {
    var rest := queue[1..];
    var q' := rest + added;
    forall i, j | 0 <= i <= j < |q'| ensures q'[i].1 <= q'[j].1 {
      if j < |rest| {
        assert q'[i] == queue[i + 1] && q'[j] == queue[j + 1];
      } else if i < |rest| {
        assert q'[i] == queue[i + 1];
        assert queue[i + 1].1 <= queue[|queue| - 1].1;
      }
    }
    if |rest| > 0 {
      assert q'[0] == queue[1];
      if |added| == 0 {
        assert q'[|q'| - 1] == queue[|queue| - 1];
      }
    }
  }

  /** Settling the popped cell and queueing its admitted neighbours keeps
      every step out of a settled cell covered. */
  lemma FrontierAfter(corrupted: set<Pos>, distances: map<Pos, nat>, queue: seq<(Pos, nat)>)
    requires Frontier(corrupted, distances, queue) && |queue| > 0 && queue[0].0 !in distances
    ensures var (space, distance) := queue[0];
      var d' := distances[space := distance];
      Frontier(corrupted, d', queue[1..] + Enqueued(corrupted, d', Neighbors(space), distance))
  {
    var (space, distance) := queue[0];
    var d' := distances[space := distance];
    var added := Enqueued(corrupted, d', Neighbors(space), distance);
    var rest := queue[1..];
    var q' := rest + added;
    forall p, q | p in d' && Edge(corrupted, p, q)
      ensures (q in d' && d'[q] <= d'[p] + 1) || Queued(q', q, d'[p] + 1)
    {
      if p == space {
        if Admit(corrupted, d', q, distance) {
          var k :| 0 <= k < |added| && added[k] == (q, distance + 1);
          assert q'[|rest| + k] == added[k];
          assert Queued(q', q, d'[p] + 1);
        }
      } else {
        FrontierOld(corrupted, distances, queue, p, q);
        if Queued(rest, q, d'[p] + 1) {
          QueuedAppend(rest, added, q, d'[p] + 1);
        }
      }
    }
  }

  /** The part of FrontierAfter about a cell settled before the pop. */
  lemma FrontierOld(corrupted: set<Pos>, distances: map<Pos, nat>, queue: seq<(Pos, nat)>, p: Pos, q: Pos)
    requires Frontier(corrupted, distances, queue) && |queue| > 0 && queue[0].0 !in distances
    requires p in distances && Edge(corrupted, p, q)
    ensures var d' := distances[queue[0].0 := queue[0].1];
      (q in d' && d'[q] <= d'[p] + 1) || Queued(queue[1..], q, d'[p] + 1)
  {
    if !(q in distances && distances[q] <= distances[p] + 1) {
      var i :| 0 <= i < |queue| && queue[i].0 == q && queue[i].1 <= distances[p] + 1;
      if i > 0 {
        assert queue[1..][i - 1] == queue[i];
      }
    }
  }

  /** A queue keeps what is Queued in its prefix when entries are appended. */
  lemma QueuedAppend(queue: seq<(Pos, nat)>, added: seq<(Pos, nat)>, q: Pos, b: nat)
    requires Queued(queue, q, b)
    ensures Queued(queue + added, q, b)
  {
    var i :| 0 <= i < |queue| && queue[i].0 == q && queue[i].1 <= b;
    assert (queue + added)[i] == queue[i];
  }

  /** Settling a newly popped cell and queueing its admitted neighbours
      keeps the search state. */
  lemma PopNew(corrupted: set<Pos>, distances: map<Pos, nat>, queue: seq<(Pos, nat)>, space: Pos, distance: nat)
    requires Search(corrupted, distances, queue) && |queue| > 0 && queue[0] == (space, distance)
    requires space !in distances
    ensures var d' := distances[space := distance];
      Search(corrupted, d', queue[1..] + Enqueued(corrupted, d', Neighbors(space), distance))
  {
    var d' := distances[space := distance];
    var added := Enqueued(corrupted, d', Neighbors(space), distance);
    var q' := queue[1..] + added;
    SortedAfter(queue, added);
    FrontierAfter(corrupted, distances, queue);
    QueueRoutes(corrupted, queue, added);
    SettledAfter(corrupted, distances, queue, q');
  }

  /** Settling the head of the queue keeps the facts about settled cells. */
  lemma SettledAfter(corrupted: set<Pos>, distances: map<Pos, nat>, queue: seq<(Pos, nat)>, q': seq<(Pos, nat)>)
    requires |queue| > 0 && queue[0].0 !in distances
    requires QueuedRoutes(corrupted, queue) && SettledRoutes(corrupted, distances)
    requires SettledFirst(distances, queue) && Rooted(distances, queue)
    requires |q'| > 0 ==> q'[0].1 >= queue[0].1
    ensures var d' := distances[queue[0].0 := queue[0].1];
      SettledRoutes(corrupted, d') && SettledFirst(d', q') && Rooted(d', q')
  {
  }

  /** The queue after a pop holds routes of the stated lengths: the old
      entries had them, and each added one is a step from the popped cell. */
  lemma QueueRoutes(corrupted: set<Pos>, queue: seq<(Pos, nat)>, added: seq<(Pos, nat)>)
    requires QueuedRoutes(corrupted, queue) && |queue| > 0
    requires forall i :: 0 <= i < |added| ==>
      added[i].0 in Neighbors(queue[0].0) && added[i].1 == queue[0].1 + 1 && Open(corrupted, added[i].0)
    ensures QueuedRoutes(corrupted, queue[1..] + added)
  {
    var q' := queue[1..] + added;
    forall i | 0 <= i < |q'| ensures InBounds(q'[i].0) && RouteOf(corrupted, q'[i].0, q'[i].1) {
      if i < |queue| - 1 {
        assert q'[i] == queue[i + 1];
      } else {
        assert q'[i] == added[i - |queue| + 1];
        RouteStep(corrupted, queue[0].0, queue[0].1, q'[i].0);
      }
    }
  }

  /** Once nothing is queued, a route of n steps from Start ends at a
      settled cell whose distance is at most n. */
  lemma {:induction false} SettledBelowRoutes(corrupted: set<Pos>, distances: map<Pos, nat>, w: seq<Pos>)
    requires Search(corrupted, distances, [])
    requires IsWalk(Move(corrupted), w) && w[0] == Start
    ensures w[|w| - 1] in distances && distances[w[|w| - 1]] <= |w| - 1
    decreases |w|
  {
    if |w| > 1 {
      var u := w[..|w| - 1];
      assert IsWalk(Move(corrupted), u) by {
        forall i | 0 <= i < |u| - 1 ensures Move(corrupted)(u[i], u[i + 1]) {
          assert u[i] == w[i] && u[i + 1] == w[i + 1];
        }
      }
      SettledBelowRoutes(corrupted, distances, u);
      var p := u[|u| - 1];
      assert p == w[|w| - 2];
      assert Move(corrupted)(w[|w| - 2], w[|w| - 1]);
      assert !Queued([], w[|w| - 1], distances[p] + 1);
    }
  }

  /** When the queue runs empty, Target is settled exactly when some route
      reaches it, and then at the length of a route no route undercuts. */
  lemma SearchDone(corrupted: set<Pos>, distances: map<Pos, nat>)
    requires Search(corrupted, distances, [])
    ensures Target in distances <==> Reaches(Move(corrupted), Start, Target)
    ensures Target in distances ==> RouteOf(corrupted, Target, distances[Target])
    ensures Target in distances ==> forall w :: IsWalk(Move(corrupted), w) && w[0] == Start && w[|w| - 1] == Target ==>
      distances[Target] <= |w| - 1
  {
    if Reaches(Move(corrupted), Start, Target) {
      var w :| IsWalk(Move(corrupted), w) && w[0] == Start && w[|w| - 1] == Target;
      SettledBelowRoutes(corrupted, distances, w);
    }
    forall w | IsWalk(Move(corrupted), w) && w[0] == Start && w[|w| - 1] == Target
      ensures Target in distances && distances[Target] <= |w| - 1
    {
      SettledBelowRoutes(corrupted, distances, w);
    }
  }

  /** A Map: all the corruptions in falling order, and the set of those
      currently fallen. */
  class Map {
    var corruptedSet: set<Pos>
    var corruptions: seq<Pos>

    /** from_file with the parsed corruptions; nothing has fallen yet. */
    constructor(corruptions: seq<Pos>)
      ensures this.corruptions == corruptions && corruptedSet == {}
    {
      this.corruptions := corruptions;
      corruptedSet := {};
    }

    /** set_n_corruptions: clear the set, then insert the first n. */
    method SetNCorruptions(n: nat)
      modifies this
      ensures corruptions == old(corruptions)
      ensures corruptedSet == FirstN(corruptions, n)
    {
      corruptedSet := {};
      var i := 0;
      while i < |corruptions| && i < n
        invariant corruptions == old(corruptions)
        invariant 0 <= i <= |corruptions| && i <= n
        invariant corruptedSet == set j | 0 <= j < i :: corruptions[j]
      {
        corruptedSet := corruptedSet + {corruptions[i]};
        i := i + 1;
      }
      forall p ensures p in corruptedSet <==> p in FirstN(corruptions, n) {
        if p in FirstN(corruptions, n) {
          var j :| 0 <= j < |corruptions| && j < n && corruptions[j] == p;
          assert j < i;
        }
        if p in corruptedSet {
          var j :| 0 <= j < i && corruptions[j] == p;
          assert j < |corruptions| && j < n;
        }
      }
    }

    /** find_path: breadth-first search from Start over open cells. The
        answer is Some exactly when Target can be reached, and then it is
        the length of a route and no route is shorter. */
    method FindPath() returns (r: Option<nat>)
      ensures r.Some? <==> Reaches(Move(corruptedSet), Start, Target)
      ensures r.Some? ==> RouteOf(corruptedSet, Target, r.value)
      ensures r.Some? ==> forall w :: IsWalk(Move(corruptedSet), w) && w[0] == Start && w[|w| - 1] == Target ==>
        r.value <= |w| - 1
    {
      var corrupted := corruptedSet;
      var distances: map<Pos, nat> := map[];
      var queue: seq<(Pos, nat)> := [(Start, 0)];
      SearchStart(corrupted);
      while |queue| > 0
        invariant Search(corrupted, distances, queue)
        decreases Unsettled(distances), |queue|
      {
        distances, queue := Pop(corrupted, distances, queue);
      }
      SearchDone(corrupted, distances);
      r := if Target in distances then Some(distances[Target]) else None;
    }
  }

  /** One turn of find_path's loop: pop the head of the queue; a cell
      already settled is skipped, a new one is settled at the popped
      distance and its admitted neighbours are queued one further. */
  method Pop(corrupted: set<Pos>, distances: map<Pos, nat>, queue: seq<(Pos, nat)>)
    returns (distances': map<Pos, nat>, queue': seq<(Pos, nat)>)
    requires Search(corrupted, distances, queue) && |queue| > 0
    ensures queue[0].0 in distances ==> distances' == distances && queue' == queue[1..]
    ensures queue[0].0 !in distances ==>
      distances' == distances[queue[0].0 := queue[0].1] &&
      queue' == queue[1..] + Enqueued(corrupted, distances', Neighbors(queue[0].0), queue[0].1)
    ensures Search(corrupted, distances', queue')
    ensures Unsettled(distances') < Unsettled(distances) || (distances' == distances && |queue'| < |queue|)
  {
    var (space, distance) := queue[0];
    if space in distances {
      PopSettled(corrupted, distances, queue);
      distances', queue' := distances, queue[1..];
    } else {
      PopNew(corrupted, distances, queue, space, distance);
      distances' := distances[space := distance];
      queue' := queue[1..] + Enqueued(corrupted, distances', Neighbors(space), distance);
      assert InBounds(space) by {
        assert QueuedRoutes(corrupted, queue);
      }
      Fewer(distances, space, distance);
    }
  }

  /** The number of grid cells not settled yet. */
  ghost function Unsettled(distances: map<Pos, nat>): nat
  {
    |AllCells() - distances.Keys|
  }

  /** Settling a new cell of the grid leaves fewer cells to settle. */
  lemma Fewer(distances: map<Pos, nat>, p: Pos, d: nat)
    requires InBounds(p) && p !in distances
    ensures Unsettled(distances[p := d]) < Unsettled(distances)
  {
    var all := AllCells();
    var (x, y) := p;
    assert (x, y) in all;
    var left := all - distances.Keys;
    assert p in left;
    assert all - distances[p := d].Keys == left - {p};
  }

  /** part_1: the fewest steps once the first 1024 bytes have fallen. */
  method Part1(m: Map) returns (r: Option<nat>)
    modifies m
    ensures m.corruptedSet == FirstN(m.corruptions, 1024) && m.corruptions == old(m.corruptions)
    ensures r.Some? <==> Reaches(Move(m.corruptedSet), Start, Target)
    ensures r.Some? ==> RouteOf(m.corruptedSet, Target, r.value)
    ensures r.Some? ==> forall w :: IsWalk(Move(m.corruptedSet), w) && w[0] == Start && w[|w| - 1] == Target ==>
      r.value <= |w| - 1
  {
    m.SetNCorruptions(1024);
    r := m.FindPath();
  }

  /** part_2: the first count n from 1025 on whose fallen bytes cut Target
      off, reported as the index n - 1 and the byte that fell last. */
  method Part2(m: Map) returns (r: Option<(nat, Pos)>)
    modifies m
    ensures m.corruptions == old(m.corruptions)
    ensures r.Some? ==> 1025 <= r.value.0 + 1 <= |m.corruptions| && r.value.1 == m.corruptions[r.value.0]
    ensures r.Some? ==> !Reaches(Move(FirstN(m.corruptions, r.value.0 + 1)), Start, Target)
    ensures r.Some? ==> forall n :: 1025 <= n <= r.value.0 ==> Reaches(Move(FirstN(m.corruptions, n)), Start, Target)
    ensures r.None? ==> forall n :: 1025 <= n <= |m.corruptions| ==> Reaches(Move(FirstN(m.corruptions, n)), Start, Target)
  {
    var n := 1025;
    while n <= |m.corruptions|
      invariant m.corruptions == old(m.corruptions) && 1025 <= n
      invariant forall k :: 1025 <= k < n ==> Reaches(Move(FirstN(m.corruptions, k)), Start, Target)
    {
      m.SetNCorruptions(n);
      var distance := m.FindPath();
      if distance.None? {
        return Some((n - 1, m.corruptions[n - 1]));
      }
      n := n + 1;
    }
    r := None;
  }
}
