/** Day 20: the race condition. A racetrack of '.' cells runs between
    '#' walls from S to E; a breadth-first search gives every track cell
    its distance from S, and cheats that pass through walls are counted by
    how much of that distance they save. */
module Day20 {
  import opened Common

  /** (x, y): x is the column, y the row. */
  type Pos = (int, int)

  /** usize::MAX: the distance every track cell holds until the search
      reaches it. */
  const Unreached: nat := 0xFFFF_FFFF_FFFF_FFFF

  predicate Adjacent(a: Pos, b: Pos)
  {
    (a.0 == b.0 && (b.1 == a.1 - 1 || b.1 == a.1 + 1)) ||
    (a.1 == b.1 && (b.0 == a.0 - 1 || b.0 == a.0 + 1))
  }

  /** The four neighbours in the order the source lists them: up, right,
      down, left. */
  function Neighbors(p: Pos): (r: seq<Pos>)
    ensures |r| == 4
    ensures forall q :: q in r <==> Adjacent(p, q)
  {
    [(p.0, p.1 - 1), (p.0 + 1, p.1), (p.0, p.1 + 1), (p.0 - 1, p.1)]
  }

  // Parsing.

  /** The cells of the input: walls, track cells (S and E included) and
      the position of S. */
  datatype Layout = Layout(walls: set<Pos>, track: set<Pos>, start: Pos)

  function CellsOf(grid: seq<seq<char>>, kinds: set<char>): (r: set<Pos>)
    ensures forall p :: p in r <==> 0 <= p.1 < |grid| && 0 <= p.0 < |grid[p.1]| && grid[p.1][p.0] in kinds
  {
    set y, x | 0 <= y < |grid| && 0 <= x < |grid[y]| && grid[y][x] in kinds :: (x, y)
  }

  /** The last S in reading order, as the parser keeps overwriting start;
      (0, 0) when there is none. */
  function LastStart(grid: seq<seq<char>>): (r: Pos)
    ensures r == (0, 0) || (0 <= r.1 < |grid| && 0 <= r.0 < |grid[r.1]| && grid[r.1][r.0] == 'S')
    ensures forall y, x :: 0 <= y < |grid| && 0 <= x < |grid[y]| && grid[y][x] == 'S' ==> y < r.1 || (y == r.1 && x <= r.0)
  {
    if grid == [] then (0, 0)
    else
      var y := |grid| - 1;
      var row := grid[y];
      if 'S' in row then (LastIn(row, 'S'), y) else LastStart(grid[..y])
  }

  function LastIn(row: seq<char>, c: char): (x: nat)
    requires c in row
    ensures x < |row| && row[x] == c && forall i :: x < i < |row| ==> row[i] != c
  {
    if row[|row| - 1] == c then |row| - 1 else LastIn(row[..|row| - 1], c)
  }

  /** get_from_file: '#' is a wall; '.', 'S' and 'E' are track; any other
      character stops the program. */
  function Parse(grid: seq<seq<char>>): (r: Option<Layout>)
    ensures r.Some? <==> forall y, x :: 0 <= y < |grid| && 0 <= x < |grid[y]| ==> grid[y][x] in {'#', '.', 'S', 'E'}
    ensures r.Some? ==> r.value.start == LastStart(grid) && r.value.walls * r.value.track == {}
    ensures r.Some? ==> forall p :: p in r.value.walls <==> 0 <= p.1 < |grid| && 0 <= p.0 < |grid[p.1]| && grid[p.1][p.0] == '#'
    ensures r.Some? ==> forall p :: p in r.value.track <==> 0 <= p.1 < |grid| && 0 <= p.0 < |grid[p.1]| && grid[p.1][p.0] in {'.', 'S', 'E'}
  {
    if forall y, x :: 0 <= y < |grid| && 0 <= x < |grid[y]| ==> grid[y][x] in {'#', '.', 'S', 'E'} then
      Some(Layout(CellsOf(grid, {'#'}), CellsOf(grid, {'.', 'S', 'E'}), LastStart(grid)))
    else None
  }

  // The race without cheats.

  /** One step of the race: between adjacent track cells. */
  predicate Edge(track: set<Pos>, a: Pos, b: Pos)
  {
    a in track && b in track && Adjacent(a, b)
  }

  ghost function Move(track: set<Pos>): (Pos, Pos) -> bool
  {
    (a: Pos, b: Pos) => Edge(track, a, b)
  }

  /** A race of exactly n steps leads from start to p. */
  ghost predicate RouteOf(track: set<Pos>, start: Pos, p: Pos, n: nat)
  {
    exists w :: IsWalk(Move(track), w) && |w| == n + 1 && w[0] == start && w[|w| - 1] == p
  }

  /** The entries set_distances appends after settling p at d: all four
      neighbours, one further. */
  function Spread(p: Pos, d: nat): (r: seq<(Pos, nat)>)
    ensures |r| == 4
    ensures forall i :: 0 <= i < |r| ==> Adjacent(p, r[i].0) && r[i].1 == d + 1
    ensures forall q :: Adjacent(p, q) ==> (q, d + 1) in r
  {
    var n := Neighbors(p);
    [(n[0], d + 1), (n[1], d + 1), (n[2], d + 1), (n[3], d + 1)]
  }

  // The state of set_distances: the distances settled so far and the
  // queue of (cell, distance) entries still to pop.

  ghost predicate Sorted(queue: seq<(Pos, nat)>)
  {
    (forall i, j :: 0 <= i <= j < |queue| ==> queue[i].1 <= queue[j].1) &&
    (|queue| > 0 ==> queue[|queue| - 1].1 <= queue[0].1 + 1)
  }

  /** Some entry for q at distance at most b is still queued. */
  ghost predicate Queued(queue: seq<(Pos, nat)>, q: Pos, b: nat)
  {
    exists i :: 0 <= i < |queue| && queue[i].0 == q && queue[i].1 <= b
  }

  /** Every step out of a settled cell leads to a cell settled at most one
      further, or to one still queued at most one further. */
  ghost predicate Frontier(track: set<Pos>, distances: map<Pos, nat>, queue: seq<(Pos, nat)>)
  {
    forall p, q :: p in distances && Edge(track, p, q) ==>
      (q in distances && distances[q] <= distances[p] + 1) || Queued(queue, q, distances[p] + 1)
  }

  /** No settled distance exceeds the distance at the head of the queue. */
  ghost predicate SettledFirst(distances: map<Pos, nat>, queue: seq<(Pos, nat)>)
  {
    |queue| > 0 ==> forall p :: p in distances ==> distances[p] <= queue[0].1
  }

  /** Every settled cell is on the track and has a race of its distance. */
  ghost predicate SettledRoutes(track: set<Pos>, start: Pos, distances: map<Pos, nat>)
  {
    forall p :: p in distances ==> p in track && RouteOf(track, start, p, distances[p])
  }

  /** Every queued track cell has a race of its distance. */
  ghost predicate QueuedRoutes(track: set<Pos>, start: Pos, queue: seq<(Pos, nat)>)
  {
    forall i :: 0 <= i < |queue| && queue[i].0 in track ==> RouteOf(track, start, queue[i].0, queue[i].1)
  }

  /** A start on the track is queued at 0 before the first pop and settled
      at 0 after it. */
  ghost predicate Rooted(track: set<Pos>, start: Pos, distances: map<Pos, nat>, queue: seq<(Pos, nat)>)
  {
    start in track ==>
      (distances == map[] && queue == [(start, 0)]) || (start in distances && distances[start] == 0)
  }

  /** Settled distances stay below the number of settled cells, and queued
      ones do not exceed it. */
  ghost predicate Bounded(distances: map<Pos, nat>, queue: seq<(Pos, nat)>)
  {
    (forall i :: 0 <= i < |queue| ==> queue[i].1 <= |distances.Keys|) &&
    (forall p :: p in distances ==> distances[p] < |distances.Keys|)
  }

  ghost predicate Search(track: set<Pos>, start: Pos, distances: map<Pos, nat>, queue: seq<(Pos, nat)>)
  {
    Sorted(queue) && SettledFirst(distances, queue) && Frontier(track, distances, queue) &&
    SettledRoutes(track, start, distances) && QueuedRoutes(track, start, queue) &&
    Rooted(track, start, distances, queue) && Bounded(distances, queue)
  }

  lemma SearchStart(track: set<Pos>, start: Pos)
    ensures Search(track, start, map[], [(start, 0)])
  {
    assert IsWalk(Move(track), [start]);
  }

  /** Popping an entry off the track, or one for a cell already settled
      nearer, keeps the search state. */
  lemma PopSkip(track: set<Pos>, start: Pos, distances: map<Pos, nat>, queue: seq<(Pos, nat)>)
    requires Search(track, start, distances, queue) && |queue| > 0
    requires queue[0].0 !in track || (queue[0].0 in distances && distances[queue[0].0] < queue[0].1)
    ensures Search(track, start, distances, queue[1..])
  {
    var rest := queue[1..];
    forall p, q | p in distances && Edge(track, p, q)
      ensures (q in distances && distances[q] <= distances[p] + 1) || Queued(rest, q, distances[p] + 1)
    {
      if !(q in distances && distances[q] <= distances[p] + 1) {
        var i :| 0 <= i < |queue| && queue[i].0 == q && queue[i].1 <= distances[p] + 1;
        assert i > 0;
        assert rest[i - 1] == queue[i];
      }
    }
    assert QueuedRoutes(track, start, rest) by {
      forall i | 0 <= i < |rest| && rest[i].0 in track ensures RouteOf(track, start, rest[i].0, rest[i].1) {
        assert rest[i] == queue[i + 1];
      }
    }
    if |rest| > 0 {
      assert rest[0] == queue[1];
    }
  }

  /** A race to p, one step longer, reaches each track neighbour. */
  lemma RouteStep(track: set<Pos>, start: Pos, p: Pos, n: nat, q: Pos)
    requires RouteOf(track, start, p, n) && Edge(track, p, q)
    ensures RouteOf(track, start, q, n + 1)
  {
    var w :| IsWalk(Move(track), w) && |w| == n + 1 && w[0] == start && w[|w| - 1] == p;
    var w' := w + [q];
    assert IsWalk(Move(track), w') by {
      forall i | 0 <= i < |w'| - 1 ensures Move(track)(w'[i], w'[i + 1]) {
        if i < |w| - 1 {
          assert w'[i] == w[i] && w'[i + 1] == w[i + 1];
        }
      }
    }
  }

  /** Appending entries one further than the popped one keeps the queue
      sorted. */
  lemma SortedAfter(queue: seq<(Pos, nat)>, added: seq<(Pos, nat)>)
    requires Sorted(queue) && |queue| > 0
    requires forall i :: 0 <= i < |added| ==> added[i].1 == queue[0].1 + 1
    ensures Sorted(queue[1..] + added)
    ensures |queue[1..] + added| > 0 ==> (queue[1..] + added)[0].1 >= queue[0].1
  {
    var rest := queue[1..];
    var q' := rest + added;
    forall i, j | 0 <= i <= j < |q'| ensures q'[i].1 <= q'[j].1 {
      if j < |rest| {
        assert q'[i] == queue[i + 1] && q'[j] == queue[j + 1];
      } else if i < |rest| {
        assert q'[i] == queue[i + 1];
        assert queue[i + 1].1 <= queue[|queue| - 1].1;
      }
    }
    if |rest| > 0 {
      assert q'[0] == queue[1];
      if |added| == 0 {
        assert q'[|q'| - 1] == queue[|queue| - 1];
      }
    }
  }

  /** Settling the popped cell at its distance and queueing its neighbours
      keeps every step out of a settled cell covered. */
  lemma FrontierAfter(track: set<Pos>, distances: map<Pos, nat>, queue: seq<(Pos, nat)>)
    requires Frontier(track, distances, queue) && |queue| > 0
    requires queue[0].0 in distances ==> distances[queue[0].0] == queue[0].1
    ensures var (space, distance) := queue[0];
      Frontier(track, distances[space := distance], queue[1..] + Spread(space, distance))
  {
    var (space, distance) := queue[0];
    var d' := distances[space := distance];
    var added := Spread(space, distance);
    var rest := queue[1..];
    var q' := rest + added;
    forall p, q | p in d' && Edge(track, p, q)
      ensures (q in d' && d'[q] <= d'[p] + 1) || Queued(q', q, d'[p] + 1)
    {
      if p == space {
        var k :| 0 <= k < |added| && added[k] == (q, distance + 1);
        assert q'[|rest| + k] == added[k];
      } else {
        FrontierOld(track, distances, queue, p, q);
        if Queued(rest, q, d'[p] + 1) {
          var i :| 0 <= i < |rest| && rest[i].0 == q && rest[i].1 <= d'[p] + 1;
          assert q'[i] == rest[i];
        }
      }
    }
  }

  /** The part of FrontierAfter about a cell settled before the pop. */
  lemma FrontierOld(track: set<Pos>, distances: map<Pos, nat>, queue: seq<(Pos, nat)>, p: Pos, q: Pos)
    requires Frontier(track, distances, queue) && |queue| > 0
    requires queue[0].0 in distances ==> distances[queue[0].0] == queue[0].1
    requires p in distances && p != queue[0].0 && Edge(track, p, q)
    ensures var d' := distances[queue[0].0 := queue[0].1];
      (q in d' && d'[q] <= d'[p] + 1) || Queued(queue[1..], q, d'[p] + 1)
  {
    if !(q in distances && distances[q] <= distances[p] + 1) {
      var i :| 0 <= i < |queue| && queue[i].0 == q && queue[i].1 <= distances[p] + 1;
      if i > 0 {
        assert queue[1..][i - 1] == queue[i];
      }
    }
  }

  /** The queue after a pop holds races of the stated lengths: the old
      entries had them, and each added one is a step from the popped cell. */
  lemma QueueRoutes(track: set<Pos>, start: Pos, queue: seq<(Pos, nat)>)
    requires QueuedRoutes(track, start, queue) && |queue| > 0 && queue[0].0 in track
    ensures QueuedRoutes(track, start, queue[1..] + Spread(queue[0].0, queue[0].1))
  {
    var added := Spread(queue[0].0, queue[0].1);
    var q' := queue[1..] + added;
    forall i | 0 <= i < |q'| && q'[i].0 in track ensures RouteOf(track, start, q'[i].0, q'[i].1) {
      if i < |queue| - 1 {
        assert q'[i] == queue[i + 1];
      } else {
        assert q'[i] == added[i - |queue| + 1];
        RouteStep(track, start, queue[0].0, queue[0].1, q'[i].0);
      }
    }
  }

  /** Settling the head of the queue keeps the facts about settled cells. */
  lemma SettledAfter(track: set<Pos>, start: Pos, distances: map<Pos, nat>, queue: seq<(Pos, nat)>, q': seq<(Pos, nat)>)
    requires |queue| > 0 && queue[0].0 in track
    requires queue[0].0 in distances ==> distances[queue[0].0] == queue[0].1
    requires QueuedRoutes(track, start, queue) && SettledRoutes(track, start, distances)
    requires SettledFirst(distances, queue) && Rooted(track, start, distances, queue)
    requires |q'| > 0 ==> q'[0].1 >= queue[0].1
    ensures var d' := distances[queue[0].0 := queue[0].1];
      SettledRoutes(track, start, d') && SettledFirst(d', q') && Rooted(track, start, d', q')
  {
  }

  /** The bounds hold after settling the head and queueing its neighbours. */
  lemma BoundedAfter(distances: map<Pos, nat>, queue: seq<(Pos, nat)>)
    requires Bounded(distances, queue) && |queue| > 0
    requires queue[0].0 in distances ==> distances[queue[0].0] == queue[0].1
    ensures var (space, distance) := queue[0];
      Bounded(distances[space := distance], queue[1..] + Spread(space, distance))
  {
    var (space, distance) := queue[0];
    var d' := distances[space := distance];
    var q' := queue[1..] + Spread(space, distance);
    if space !in distances {
      assert d'.Keys == distances.Keys + {space};
    } else {
      assert d'.Keys == distances.Keys;
    }
    forall i | 0 <= i < |q'| ensures q'[i].1 <= |d'.Keys| {
      if i < |queue| - 1 {
        assert q'[i] == queue[i + 1];
      }
    }
  }

  /** Settling the popped cell (anew, or again at the same distance) and
      queueing its neighbours keeps the search state. */
  lemma PopExpand(track: set<Pos>, start: Pos, distances: map<Pos, nat>, queue: seq<(Pos, nat)>)
    requires Search(track, start, distances, queue) && |queue| > 0 && queue[0].0 in track
    requires !(queue[0].0 in distances && distances[queue[0].0] < queue[0].1)
    ensures var (space, distance) := queue[0];
      Search(track, start, distances[space := distance], queue[1..] + Spread(space, distance))
  {
    var (space, distance) := queue[0];
    var added := Spread(space, distance);
    var q' := queue[1..] + added;
    SortedAfter(queue, added);
    FrontierAfter(track, distances, queue);
    QueueRoutes(track, start, queue);
    SettledAfter(track, start, distances, queue, q');
    BoundedAfter(distances, queue);
  }

  /** Once nothing is queued, a race from start to a track cell ends at a
      settled cell whose distance is at most its length. */
  lemma {:induction false} SettledBelowRoutes(track: set<Pos>, start: Pos, distances: map<Pos, nat>, w: seq<Pos>)
    requires Search(track, start, distances, [])
    requires IsWalk(Move(track), w) && w[0] == start && w[|w| - 1] in track
    ensures w[|w| - 1] in distances && distances[w[|w| - 1]] <= |w| - 1
    decreases |w|
  {
    if |w| > 1 {
      var u := w[..|w| - 1];
      assert IsWalk(Move(track), u) by {
        forall i | 0 <= i < |u| - 1 ensures Move(track)(u[i], u[i + 1]) {
          assert u[i] == w[i] && u[i + 1] == w[i + 1];
        }
      }
      var p := u[|u| - 1];
      assert p == w[|w| - 2];
      assert Move(track)(w[|w| - 2], w[|w| - 1]);
      SettledBelowRoutes(track, start, distances, u);
      assert !Queued([], w[|w| - 1], distances[p] + 1);
    }
  }

  /** When the queue runs empty, the settled cells are the track cells a
      race from start reaches, each at the length of a race no race to it
      undercuts. */
  lemma SearchDone(track: set<Pos>, start: Pos, distances: map<Pos, nat>)
    requires Search(track, start, distances, [])
    ensures forall p :: p in distances <==> p in track && Reaches(Move(track), start, p)
    ensures forall p :: p in distances ==> RouteOf(track, start, p, distances[p])
    ensures forall p, w :: p in distances && IsWalk(Move(track), w) && w[0] == start && w[|w| - 1] == p ==>
      distances[p] <= |w| - 1
  {
    forall p | p in track && Reaches(Move(track), start, p) ensures p in distances {
      var w :| IsWalk(Move(track), w) && w[0] == start && w[|w| - 1] == p;
      SettledBelowRoutes(track, start, distances, w);
    }
    forall p, w | p in distances && IsWalk(Move(track), w) && w[0] == start && w[|w| - 1] == p
      ensures distances[p] <= |w| - 1
    {
      SettledBelowRoutes(track, start, distances, w);
    }
  }

  // Termination of set_distances: every pop settles a new track cell or
  // lowers a weight of the queue in which an entry outweighs four entries
  // one further.

  function Pow5(n: nat): (r: nat)
    ensures r >= 1
  {
    if n == 0 then 1 else 5 * Pow5(n - 1)
  }

  function EntryWeight(d: nat, k: nat): nat
  {
    if d <= k then Pow5(k - d) else 1
  }

  function Weight(queue: seq<(Pos, nat)>, k: nat): nat
  {
    if queue == [] then 0 else EntryWeight(queue[0].1, k) + Weight(queue[1..], k)
  }

  lemma {:induction false} WeightAppend(a: seq<(Pos, nat)>, b: seq<(Pos, nat)>, k: nat)
    ensures Weight(a + b, k) == Weight(a, k) + Weight(b, k)
  {
    if a == [] {
      assert a + b == b;
    } else {
      assert (a + b)[0] == a[0];
      assert (a + b)[1..] == a[1..] + b;
      WeightAppend(a[1..], b, k);
    }
  }

  /** Queueing the four neighbours of an entry below the bound weighs less
      than the entry. */
  lemma SpreadLighter(p: Pos, d: nat, k: nat)
    requires d < k
    ensures Weight(Spread(p, d), k) < EntryWeight(d, k)
  {
    WeightLevel(Spread(p, d), d + 1, k);
    assert Pow5(k - d) == 5 * Pow5(k - (d + 1));
  }

  lemma {:induction false} WeightLevel(queue: seq<(Pos, nat)>, e: nat, k: nat)
    requires forall i :: 0 <= i < |queue| ==> queue[i].1 == e
    ensures Weight(queue, k) == |queue| * EntryWeight(e, k)
  {
    if queue != [] {
      WeightLevel(queue[1..], e, k);
    }
  }

  ghost function Unsettled(track: set<Pos>, distances: map<Pos, nat>): nat
  {
    |track - distances.Keys|
  }

  /** Settling a new track cell leaves fewer to settle. */
  lemma FewerUnsettled(track: set<Pos>, distances: map<Pos, nat>, p: Pos, d: nat)
    requires p in track && p !in distances
    ensures Unsettled(track, distances[p := d]) < Unsettled(track, distances)
  {
    var left := track - distances.Keys;
    assert track - distances[p := d].Keys == left - {p};
  }

  lemma SubsetCard(a: set<Pos>, b: set<Pos>)
    requires a <= b
    ensures |a| <= |b|
  {
    assert b == a + (b - a);
  }

  /** One turn of set_distances' loop: pop the head; a cell off the track
      or settled nearer is skipped, otherwise it is settled at the popped
      distance and its four neighbours are queued one further. */
  method Pop(track: set<Pos>, start: Pos, distances: map<Pos, nat>, queue: seq<(Pos, nat)>)
    returns (distances': map<Pos, nat>, queue': seq<(Pos, nat)>)
    requires Search(track, start, distances, queue) && |queue| > 0
    ensures var (space, distance) := queue[0];
      if space !in track || (space in distances && distances[space] < distance) then
        distances' == distances && queue' == queue[1..]
      else
        distances' == distances[space := distance] && queue' == queue[1..] + Spread(space, distance)
    ensures Search(track, start, distances', queue')
    ensures Unsettled(track, distances') < Unsettled(track, distances) ||
      (distances' == distances && Weight(queue', |track|) < Weight(queue, |track|))
  {
    var (space, distance) := queue[0];
    PopMeasure(track, distances, queue);
    if space !in track || (space in distances && distances[space] < distance) {
      PopSkip(track, start, distances, queue);
      distances', queue' := distances, queue[1..];
    } else {
      PopExpand(track, start, distances, queue);
      distances' := distances[space := distance];
      queue' := queue[1..] + Spread(space, distance);
    }
  }

  /** Each pop settles a new track cell or lightens the queue. */
  lemma PopMeasure(track: set<Pos>, distances: map<Pos, nat>, queue: seq<(Pos, nat)>)
    requires |queue| > 0 && distances.Keys <= track
    requires SettledFirst(distances, queue) && forall p :: p in distances ==> distances[p] < |distances.Keys|
    ensures var (space, distance) := queue[0];
      if space !in track || (space in distances && distances[space] < distance) then
        Weight(queue[1..], |track|) < Weight(queue, |track|)
      else if space in distances then
        distances[space := distance] == distances &&
        Weight(queue[1..] + Spread(space, distance), |track|) < Weight(queue, |track|)
      else
        Unsettled(track, distances[space := distance]) < Unsettled(track, distances)
  {
    var (space, distance) := queue[0];
    if space !in track || (space in distances && distances[space] < distance) {
    } else if space in distances {
      SubsetCard(distances.Keys, track);
      SpreadLighter(space, distance, |track|);
      WeightAppend(queue[1..], Spread(space, distance), |track|);
    } else {
      FewerUnsettled(track, distances, space, distance);
    }
  }

  /** The loop of set_distances, from a queue holding start at 0 until the
      queue runs empty. */
  method Distances(track: set<Pos>, start: Pos) returns (settled: map<Pos, nat>)
    ensures forall p :: p in settled <==> p in track && Reaches(Move(track), start, p)
    ensures forall p :: p in settled ==> RouteOf(track, start, p, settled[p])
    ensures forall p, w :: p in settled && IsWalk(Move(track), w) && w[0] == start && w[|w| - 1] == p ==>
      settled[p] <= |w| - 1
  {
    settled := map[];
    var queue: seq<(Pos, nat)> := [(start, 0)];
    SearchStart(track, start);
    while |queue| > 0
      invariant Search(track, start, settled, queue)
      decreases Unsettled(track, settled), Weight(queue, |track|)
    {
      settled, queue := Pop(track, start, settled, queue);
    }
    SearchDone(track, start, settled);
  }

  // Cheats: a run of steps through walls that ends back on the track.

  /** w runs through adjacent cells, all walls after the first. */
  ghost predicate WallWalk(walls: set<Pos>, w: seq<Pos>)
  {
    |w| > 0 && (forall i :: 0 <= i < |w| - 1 ==> Adjacent(w[i], w[i + 1])) &&
    (forall i :: 1 <= i < |w| ==> w[i] in walls)
  }

  /** A cheat from `from` to q in `steps` steps: a walk through walls from
      `from`, then one step out of them onto q. */
  ghost predicate CheatOf(walls: set<Pos>, from: Pos, q: Pos, steps: nat)
  {
    exists w :: WallWalk(walls, w) && |w| == steps && w[0] == from && Adjacent(w[|w| - 1], q)
  }

  lemma WallWalkStep(walls: set<Pos>, w: seq<Pos>, next: Pos)
    requires WallWalk(walls, w) && Adjacent(w[|w| - 1], next) && next in walls
    ensures WallWalk(walls, w + [next])
  {
    var w' := w + [next];
    forall i | 0 <= i < |w'| - 1 ensures Adjacent(w'[i], w'[i + 1]) {
      if i < |w| - 1 {
        assert w'[i] == w[i] && w'[i + 1] == w[i + 1];
      }
    }
  }

  // The state of shortcut_count's search through walls.

  /** The cells shortcut_count has queued, each at the number of steps it
      was reached in: `from` at 0, and walls within the budget, each the
      end of a wall walk of that length. */
  ghost predicate Levels(walls: set<Pos>, from: Pos, maxCheat: nat, level: map<Pos, nat>)
  {
    from in level && level[from] == 0 &&
    (forall x :: x in level && x != from ==> x in walls && 0 < level[x] < maxCheat) &&
    (forall x :: x in level ==>
      exists w :: WallWalk(walls, w) && |w| == level[x] + 1 && w[0] == from && w[|w| - 1] == x)
  }

  /** The queue holds cells at their levels in ascending order, none below
      the level of the cell last popped (bound), and no level exceeds
      bound + 1. */
  ghost predicate Ascending(queue: seq<(Pos, nat)>, level: map<Pos, nat>, bound: nat)
  {
    (forall i :: 0 <= i < |queue| ==> queue[i].0 in level && level[queue[i].0] == queue[i].1 && bound <= queue[i].1) &&
    (forall i, j :: 0 <= i <= j < |queue| ==> queue[i].1 <= queue[j].1) &&
    (forall x :: x in level ==> level[x] <= bound + 1)
  }

  /** level' keeps every level of level. */
  ghost predicate Extends(level: map<Pos, nat>, level': map<Pos, nat>)
  {
    forall x :: x in level ==> x in level' && level'[x] == level[x]
  }

  /** Every queued cell not yet expanded is the cell being expanded or
      still in the queue. */
  ghost predicate Covered(level: map<Pos, nat>, done: set<Pos>, current: Pos, queue: seq<(Pos, nat)>)
  {
    forall x :: x in level ==> x in done || x == current || Queued(queue, x, level[x])
  }

  /** Queueing a wall next to a queued cell, one step further, keeps the
      levels. */
  lemma LevelsPush(walls: set<Pos>, from: Pos, maxCheat: nat, level: map<Pos, nat>, current: Pos, next: Pos)
    requires Levels(walls, from, maxCheat, level) && current in level && Adjacent(current, next)
    requires next in walls && next !in level && level[current] + 1 < maxCheat
    ensures Levels(walls, from, maxCheat, level[next := level[current] + 1])
  {
    var level' := level[next := level[current] + 1];
    var w :| WallWalk(walls, w) && |w| == level[current] + 1 && w[0] == from && w[|w| - 1] == current;
    WallWalkStep(walls, w, next);
    forall x | x in level'
      ensures exists v :: WallWalk(walls, v) && |v| == level'[x] + 1 && v[0] == from && v[|v| - 1] == x
    {
      if x == next {
        assert (w + [next])[|w + [next]| - 1] == next;
      } else {
        assert level'[x] == level[x];
      }
    }
  }

  /** Appending a new cell at bound + 1 keeps the queue ascending. */
  lemma AscendingPush(queue: seq<(Pos, nat)>, level: map<Pos, nat>, bound: nat, next: Pos)
    requires Ascending(queue, level, bound) && next !in level
    ensures Ascending(queue + [(next, bound + 1)], level[next := bound + 1], bound)
  {
    var q' := queue + [(next, bound + 1)];
    var level' := level[next := bound + 1];
    forall i | 0 <= i < |q'| ensures q'[i].0 in level' && level'[q'[i].0] == q'[i].1 && bound <= q'[i].1 {
      if i < |queue| {
        assert q'[i] == queue[i];
      }
    }
    forall i, j | 0 <= i <= j < |q'| ensures q'[i].1 <= q'[j].1 {
      if j < |queue| {
        assert q'[i] == queue[i] && q'[j] == queue[j];
      } else if i < |queue| {
        assert q'[i] == queue[i];
      }
    }
  }

  /** Popping the head keeps the rest ascending above the head's level. */
  lemma AscendingPop(queue: seq<(Pos, nat)>, level: map<Pos, nat>, bound: nat)
    requires Ascending(queue, level, bound) && |queue| > 0
    ensures Ascending(queue[1..], level, queue[0].1)
  {
    forall i | 0 <= i < |queue| - 1 ensures queue[1..][i] == queue[i + 1] { }
  }

  /** Popping the head leaves it as the cell being expanded. */
  lemma CoverPop(level: map<Pos, nat>, done: set<Pos>, queue: seq<(Pos, nat)>)
    requires |queue| > 0 && forall x :: x in level ==> x in done || Queued(queue, x, level[x])
    ensures Covered(level, done, queue[0].0, queue[1..])
  {
    forall x | x in level && x !in done && x != queue[0].0 ensures Queued(queue[1..], x, level[x]) {
      var i :| 0 <= i < |queue| && queue[i].0 == x && queue[i].1 <= level[x];
      assert i > 0 && queue[1..][i - 1] == queue[i];
    }
  }

  /** A step that leaves the queue alone or appends a new cell at its new
      level keeps every queued cell covered. */
  lemma CoverStep(level: map<Pos, nat>, level': map<Pos, nat>, done: set<Pos>, current: Pos,
                  queue: seq<(Pos, nat)>, queue': seq<(Pos, nat)>, next: Pos, l: nat)
    requires Covered(level, done, current, queue)
    requires (queue' == queue && level' == level) || (next !in level && queue' == queue + [(next, l)] && level' == level[next := l])
    ensures Covered(level', done, current, queue')
  {
    forall x | x in level' && x !in done && x != current ensures Queued(queue', x, level'[x]) {
      if x in level {
        var i :| 0 <= i < |queue| && queue[i].0 == x && queue[i].1 <= level[x];
        assert queue'[i] == queue[i];
      } else {
        assert queue'[|queue|] == (next, l);
      }
    }
  }

  /** The Map of the source: walls, track cells, the start, and the
      distances the search has settled; a track cell without one still
      holds usize::MAX. */
  class Map {
    var walls: set<Pos>
    var track: set<Pos>
    var start: Pos
    var distances: map<Pos, nat>

    /** The distance the source's map holds for a track cell. */
    function Recorded(p: Pos): nat
      reads this
    {
      if p in distances then distances[p] else Unreached
    }

    /** distances holds the shortest race from start to every track cell
        it reaches, and nothing else. */
    ghost predicate Solved()
      reads this
    {
      (forall p :: p in distances <==> p in track && Reaches(Move(track), start, p)) &&
      (forall p :: p in distances ==> RouteOf(track, start, p, distances[p])) &&
      (forall p, w :: p in distances && IsWalk(Move(track), w) && w[0] == start && w[|w| - 1] == p ==>
        distances[p] <= |w| - 1)
    }

    /** get_from_file with the parsed layout, followed by set_distances. */
    constructor(layout: Layout)
      ensures walls == layout.walls && track == layout.track && start == layout.start
      ensures Solved()
    {
      walls, track, start := layout.walls, layout.track, layout.start;
      distances := map[];
      new;
      SetDistances();
    }

    /** set_distances: breadth-first search from start over the track. */
    method SetDistances()
      modifies this
      requires distances == map[]
      ensures walls == old(walls) && track == old(track) && start == old(start)
      ensures Solved()
    {
      distances := Distances(track, start);
    }

    /** part_1's saving for a jump of two cells from p to q: the recorded
        distance at q less that at p, less the two steps of the jump, each
        subtraction stopping at zero. */
    function Saved(p: Pos, q: Pos): (r: nat)
      reads this
      ensures r > 0 <==> Recorded(q) > Recorded(p) + 2
      ensures r > 0 ==> Recorded(p) + 2 + r == Recorded(q)
    {
      var a := if Recorded(q) >= Recorded(p) then Recorded(q) - Recorded(p) else 0;
      if a >= 2 then a - 2 else 0
    }

    /** The saving part_1 reports is real: a race to p followed by the
        two-cell jump to q is shorter by exactly the saving than every race
        to q along the track. */
    lemma CheatSaving(p: Pos, q: Pos)
      requires Solved() && p in distances && q in distances && Saved(p, q) > 0
      ensures RouteOf(track, start, p, distances[p])
      ensures forall w :: IsWalk(Move(track), w) && w[0] == start && w[|w| - 1] == q ==>
        distances[p] + 2 + Saved(p, q) <= |w| - 1
    {
    }

    /** part_1: the number of (cell, cell two away) pairs of the track whose
        saving is at least 100. */
    function Part1(): nat
      reads this
    {
      |set p, q | p in track && q in track && q in TwoAway(p) && Saved(p, q) >= 100 :: (p, q)|
    }

    /** Every pair part_1 counts jumps over a cell off the track: were the
        cell between p and q on the track, the race through it would
        reach q no more than two steps after p, or reach neither. */
    lemma Part1Jumps(p: Pos, q: Pos)
      requires Solved() && p in track && q in track && q in TwoAway(p) && Saved(p, q) > 0
      ensures Between(p, q) !in track && Adjacent(p, Between(p, q)) && Adjacent(Between(p, q), q)
    {
      var m := Between(p, q);
      if m in track {
        if p in distances {
          ThroughMiddle(p, m, q);
          assert false;
        } else if q in distances {
          BackThroughMiddle(p, m, q);
          assert false;
        }
      }
    }

    /** A race to p runs on through a track cell m to q in two more steps. */
    lemma ThroughMiddle(p: Pos, m: Pos, q: Pos)
      requires Solved() && p in distances && Edge(track, p, m) && Edge(track, m, q)
      ensures q in distances && distances[q] <= distances[p] + 2
    {
      RouteStep(track, start, p, distances[p], m);
      RouteStep(track, start, m, distances[p] + 1, q);
      var w :| IsWalk(Move(track), w) && |w| == distances[p] + 3 && w[0] == start && w[|w| - 1] == q;
    }

    /** A race to q runs back through a track cell m to p. */
    lemma BackThroughMiddle(p: Pos, m: Pos, q: Pos)
      requires Solved() && q in distances && Edge(track, p, m) && Edge(track, m, q)
      ensures p in distances
    {
      assert Move(track)(q, m) && Move(track)(m, p);
      WalkExtend(Move(track), start, q, m);
      WalkExtend(Move(track), start, m, p);
    }

    /** A counted cheat end: a track cell other than the cheat's start,
        reached by a cheat of at most max(maxCheat, 1) steps that leaves at
        least minSave of the recorded distance. */
    ghost predicate GoodCheat(from: Pos, dist: nat, maxCheat: nat, minSave: nat, q: Pos)
      reads this
    {
      q in track && q != from &&
      exists steps: nat :: 1 <= steps && (steps == 1 || steps <= maxCheat) &&
        Recorded(q) >= dist + steps + minSave && CheatOf(walls, from, q, steps)
    }

    /** Every cheat end shortcut_count should count from `from`. */
    ghost function GoodCheats(from: Pos, dist: nat, maxCheat: nat, minSave: nat): (r: set<Pos>)
      reads this
      ensures r <= track
    {
      set q | q in track && GoodCheat(from, dist, maxCheat, minSave, q)
    }

    /** A neighbour n of an expanded cell x is accounted for: a wall within
        the budget is queued no more than one step further than x, and a
        track cell far enough along is counted. */
    ghost predicate Accounted(from: Pos, dist: nat, maxCheat: nat, minSave: nat, level: map<Pos, nat>, counted: set<Pos>,
                           x: Pos, n: Pos)
      reads this
      requires x in level
    {
      (n in walls && level[x] + 1 < maxCheat ==> n in level && level[n] <= level[x] + 1) &&
      (n in track && n != from && Recorded(n) >= dist + level[x] + 1 + minSave ==> n in counted)
    }

    /** Every expanded cell is queued and has all its neighbours accounted
        for. */
    ghost predicate Expanded(from: Pos, dist: nat, maxCheat: nat, minSave: nat, level: map<Pos, nat>, counted: set<Pos>,
                             done: set<Pos>)
      reads this
    {
      done <= level.Keys &&
      forall x, n :: x in done && x in level && Adjacent(x, n) ==> Accounted(from, dist, maxCheat, minSave, level, counted, x, n)
    }

    /** The state of shortcut_count's search: the queued cells with their
        levels, the queue ascending, the seen cells being the queued ones
        and the counted ones, and every counted cell a good cheat end. */
    ghost predicate Scan(from: Pos, dist: nat, maxCheat: nat, minSave: nat, queue: seq<(Pos, nat)>, seen: set<Pos>,
                         shortcuts: nat, level: map<Pos, nat>, counted: set<Pos>, bound: nat)
      reads this
    {
      Levels(walls, from, maxCheat, level) && Ascending(queue, level, bound) &&
      counted <= track && from !in counted && seen == level.Keys + counted && shortcuts == |counted| &&
      (forall q :: q in counted ==> GoodCheat(from, dist, maxCheat, minSave, q))
    }

    /** shortcut_count: a breadth-first search from `from` through walls,
        expanding a wall while traversed + 1 < maxCheat, and counting each
        track cell it steps onto whose recorded distance is at least
        dist + traversed + 1 + minSave. The count is exactly the number of
        good cheat ends. */
    method ShortcutCount(from: Pos, dist: nat, maxCheat: nat, minSave: nat) returns (shortcuts: nat)
      requires walls !! track
      ensures shortcuts == |GoodCheats(from, dist, maxCheat, minSave)|
    {
      shortcuts := 0;
      var queue: seq<(Pos, nat)> := [(from, 0)];
      var seen: set<Pos> := {from};
      ghost var level: map<Pos, nat> := map[from := 0];
      ghost var counted: set<Pos> := {};
      ghost var done: set<Pos> := {};
      ghost var bound: nat := 0;
      assert WallWalk(walls, [from]);
      assert Levels(walls, from, maxCheat, level);
      assert Queued(queue, from, level[from]) by {
        assert queue[0] == (from, 0);
      }
      while |queue| > 0
        invariant Scan(from, dist, maxCheat, minSave, queue, seen, shortcuts, level, counted, bound)
        invariant Expanded(from, dist, maxCheat, minSave, level, counted, done)
        invariant forall x :: x in level ==> x in done || Queued(queue, x, level[x])
        decreases |walls - seen|, |queue|
      {
        var (current, traversed) := queue[0];
        CoverPop(level, done, queue);
        AscendingPop(queue, level, bound);
        queue := queue[1..];
        bound := traversed;
        queue, seen, shortcuts, level, counted :=
          Expand(from, dist, maxCheat, minSave, current, traversed, queue, seen, shortcuts, level, counted, done);
        done := done + {current};
      }
      ScanComplete(from, dist, maxCheat, minSave, level, counted);
    }

    /** The inner loop of shortcut_count: the popped cell `current`,
        reached in `traversed` steps, has its four neighbours visited in
        turn, after which it is expanded. */
    method Expand(from: Pos, dist: nat, maxCheat: nat, minSave: nat, current: Pos, traversed: nat,
                  queue: seq<(Pos, nat)>, seen: set<Pos>, shortcuts: nat, ghost level: map<Pos, nat>, ghost counted: set<Pos>,
                  ghost done: set<Pos>)
      returns (queue': seq<(Pos, nat)>, seen': set<Pos>, shortcuts': nat, ghost level': map<Pos, nat>, ghost counted': set<Pos>)
      requires walls !! track
      requires Scan(from, dist, maxCheat, minSave, queue, seen, shortcuts, level, counted, traversed)
      requires current in level && level[current] == traversed
      requires Expanded(from, dist, maxCheat, minSave, level, counted, done) && Covered(level, done, current, queue)
      ensures Scan(from, dist, maxCheat, minSave, queue', seen', shortcuts', level', counted', traversed)
      ensures Expanded(from, dist, maxCheat, minSave, level', counted', done + {current})
      ensures forall x :: x in level' ==> x in done + {current} || Queued(queue', x, level'[x])
      ensures seen <= seen' && |walls - seen'| <= |walls - seen|
      ensures |walls - seen'| < |walls - seen| || queue' == queue
    {
      queue', seen', shortcuts', level', counted' := queue, seen, shortcuts, level, counted;
      var offsets := Neighbors(current);
      for k := 0 to 4
        invariant Scan(from, dist, maxCheat, minSave, queue', seen', shortcuts', level', counted', traversed)
        invariant current in level' && level'[current] == traversed
        invariant Expanded(from, dist, maxCheat, minSave, level', counted', done)
        invariant Covered(level', done, current, queue')
        invariant forall j :: 0 <= j < k ==> Accounted(from, dist, maxCheat, minSave, level', counted', current, offsets[j])
        invariant seen <= seen' && |walls - seen'| <= |walls - seen|
        invariant |walls - seen'| < |walls - seen| || queue' == queue
      {
        ghost var level1, counted1, queue1 := level', counted', queue';
        queue', seen', shortcuts', level', counted' :=
          Visit(from, dist, maxCheat, minSave, current, offsets[k], traversed, queue', seen', shortcuts', level', counted');
        CoverStep(level1, level', done, current, queue1, queue', offsets[k], traversed + 1);
        InnerStep(from, dist, maxCheat, minSave, level1, counted1, level', counted', done, current, offsets, k);
      }
      ExpandDone(from, dist, maxCheat, minSave, level', counted', done, current, offsets);
    }

    /** The body of shortcut_count's inner loop for one neighbour `next` of
        the popped cell `current`, reached in `traversed` steps. Whatever
        branch runs, next ends accounted for and the search state holds;
        the queue and the levels either stay or gain next one step
        further. */
    method Visit(from: Pos, dist: nat, maxCheat: nat, minSave: nat, current: Pos, next: Pos, traversed: nat,
                 queue: seq<(Pos, nat)>, seen: set<Pos>, shortcuts: nat, ghost level: map<Pos, nat>, ghost counted: set<Pos>)
      returns (queue': seq<(Pos, nat)>, seen': set<Pos>, shortcuts': nat, ghost level': map<Pos, nat>, ghost counted': set<Pos>)
      requires walls !! track && Adjacent(current, next)
      requires Scan(from, dist, maxCheat, minSave, queue, seen, shortcuts, level, counted, traversed)
      requires current in level && level[current] == traversed
      ensures (queue' == queue && level' == level) ||
        (next !in level && queue' == queue + [(next, traversed + 1)] && level' == level[next := traversed + 1])
      ensures Extends(level, level') && current in level'
      ensures Scan(from, dist, maxCheat, minSave, queue', seen', shortcuts', level', counted', traversed)
      ensures Accounted(from, dist, maxCheat, minSave, level', counted', current, next)
      ensures counted <= counted' && seen <= seen'
      ensures |walls - seen'| <= |walls - seen|
      ensures |walls - seen'| < |walls - seen| || queue' == queue
    {
      if next in seen {
        return queue, seen, shortcuts, level, counted;
      }
      if next in walls && traversed + 1 < maxCheat {
        ScanPush(from, dist, maxCheat, minSave, queue, seen, shortcuts, level, counted, current, next, traversed);
        Fewer(walls, seen, next);
        var item: (Pos, nat) := (next, traversed + 1);
        queue', seen', shortcuts' := queue + [item], seen + {next}, shortcuts;
        level', counted' := level[next := traversed + 1], counted;
      } else {
        seen', shortcuts', counted' := VisitTrack(from, dist, maxCheat, minSave, current, next, traversed,
                                                  queue, seen, shortcuts, level, counted);
        queue', level' := queue, level;
      }
    }

    /** Queueing a wall neighbour of the popped cell one step further
        keeps the search state. */
    lemma ScanPush(from: Pos, dist: nat, maxCheat: nat, minSave: nat, queue: seq<(Pos, nat)>, seen: set<Pos>,
                   shortcuts: nat, level: map<Pos, nat>, counted: set<Pos>, current: Pos, next: Pos, traversed: nat)
      requires Scan(from, dist, maxCheat, minSave, queue, seen, shortcuts, level, counted, traversed)
      requires current in level && level[current] == traversed && Adjacent(current, next)
      requires next in walls && next !in seen && traversed + 1 < maxCheat
      ensures Scan(from, dist, maxCheat, minSave, queue + [(next, traversed + 1)], seen + {next}, shortcuts,
                   level[next := traversed + 1], counted, traversed)
    {
      LevelsPush(walls, from, maxCheat, level, current, next);
      AscendingPush(queue, level, traversed, next);
      assert seen + {next} == level[next := traversed + 1].Keys + counted;
    }

    /** The branch of Visit for a neighbour not queued as a wall: a track
        cell is counted, and marked seen, when it is far enough along. */
    method VisitTrack(from: Pos, dist: nat, maxCheat: nat, minSave: nat, current: Pos, next: Pos, traversed: nat,
                      ghost queue: seq<(Pos, nat)>, seen: set<Pos>, shortcuts: nat, ghost level: map<Pos, nat>,
                      ghost counted: set<Pos>)
      returns (seen': set<Pos>, shortcuts': nat, ghost counted': set<Pos>)
      requires Adjacent(current, next) && next !in seen && !(next in walls && traversed + 1 < maxCheat)
      requires Scan(from, dist, maxCheat, minSave, queue, seen, shortcuts, level, counted, traversed)
      requires current in level && level[current] == traversed
      ensures Scan(from, dist, maxCheat, minSave, queue, seen', shortcuts', level, counted', traversed)
      ensures Accounted(from, dist, maxCheat, minSave, level, counted', current, next)
      ensures counted <= counted' && seen <= seen'
      ensures |walls - seen'| <= |walls - seen|
    {
      seen', shortcuts', counted' := seen, shortcuts, counted;
      if next in track {
        var nextDist := Recorded(next);
        if nextDist >= dist + traversed + 1 + minSave {
          ghost var w :| WallWalk(walls, w) && |w| == traversed + 1 && w[0] == from && w[|w| - 1] == current;
          assert CheatOf(walls, from, next, traversed + 1);
          assert GoodCheat(from, dist, maxCheat, minSave, next);
          NoMore(walls, seen, next);
          shortcuts' := shortcuts + 1;
          counted' := counted + {next};
          seen' := seen + {next};
        }
      }
    }

    /** A neighbour accounted for stays so as levels are added and more
        cells are counted. */
    lemma AccountedGrows(from: Pos, dist: nat, maxCheat: nat, minSave: nat, level: map<Pos, nat>, counted: set<Pos>,
                      level': map<Pos, nat>, counted': set<Pos>, x: Pos, n: Pos)
      requires x in level && Accounted(from, dist, maxCheat, minSave, level, counted, x, n)
      requires Extends(level, level') && counted <= counted'
      ensures x in level' && Accounted(from, dist, maxCheat, minSave, level', counted', x, n)
    {
    }

    /** One turn of the inner loop keeps the expanded cells closed and adds
        the k-th neighbour of the cell being expanded to those accounted
        for. */
    lemma InnerStep(from: Pos, dist: nat, maxCheat: nat, minSave: nat, level: map<Pos, nat>, counted: set<Pos>,
                    level': map<Pos, nat>, counted': set<Pos>, done: set<Pos>, current: Pos, offsets: seq<Pos>, k: nat)
      requires Expanded(from, dist, maxCheat, minSave, level, counted, done) && current in level && k < |offsets|
      requires forall j :: 0 <= j < k ==> Accounted(from, dist, maxCheat, minSave, level, counted, current, offsets[j])
      requires Extends(level, level') && counted <= counted'
      requires Accounted(from, dist, maxCheat, minSave, level', counted', current, offsets[k])
      ensures Expanded(from, dist, maxCheat, minSave, level', counted', done)
      ensures forall j :: 0 <= j < k + 1 ==> Accounted(from, dist, maxCheat, minSave, level', counted', current, offsets[j])
    {
      forall x, n | x in done && x in level' && Adjacent(x, n)
        ensures Accounted(from, dist, maxCheat, minSave, level', counted', x, n)
      {
        AccountedGrows(from, dist, maxCheat, minSave, level, counted, level', counted', x, n);
      }
      forall j | 0 <= j < k ensures Accounted(from, dist, maxCheat, minSave, level', counted', current, offsets[j]) {
        AccountedGrows(from, dist, maxCheat, minSave, level, counted, level', counted', current, offsets[j]);
      }
    }

    /** Once all four neighbours are accounted for, the cell is expanded. */
    lemma ExpandDone(from: Pos, dist: nat, maxCheat: nat, minSave: nat, level: map<Pos, nat>, counted: set<Pos>,
                     done: set<Pos>, current: Pos, offsets: seq<Pos>)
      requires Expanded(from, dist, maxCheat, minSave, level, counted, done) && current in level
      requires offsets == Neighbors(current)
      requires forall j :: 0 <= j < 4 ==> Accounted(from, dist, maxCheat, minSave, level, counted, current, offsets[j])
      ensures Expanded(from, dist, maxCheat, minSave, level, counted, done + {current})
    {
      forall n | Adjacent(current, n) ensures Accounted(from, dist, maxCheat, minSave, level, counted, current, n) {
        assert n in offsets;
      }
    }

    /** Once every queued cell is expanded, the counted cells are exactly
        the good cheat ends. */
    lemma ScanComplete(from: Pos, dist: nat, maxCheat: nat, minSave: nat, level: map<Pos, nat>, counted: set<Pos>)
      requires Levels(walls, from, maxCheat, level) && Expanded(from, dist, maxCheat, minSave, level, counted, level.Keys)
      requires counted <= track && forall q :: q in counted ==> GoodCheat(from, dist, maxCheat, minSave, q)
      ensures counted == GoodCheats(from, dist, maxCheat, minSave)
    {
      forall q | GoodCheat(from, dist, maxCheat, minSave, q) ensures q in counted {
        var steps: nat :| 1 <= steps && (steps == 1 || steps <= maxCheat) &&
          Recorded(q) >= dist + steps + minSave && CheatOf(walls, from, q, steps);
        var w :| WallWalk(walls, w) && |w| == steps && w[0] == from && Adjacent(w[|w| - 1], q);
        WalkLevels(from, dist, maxCheat, minSave, level, counted, w, |w| - 1);
        assert Accounted(from, dist, maxCheat, minSave, level, counted, w[|w| - 1], q);
      }
    }

    /** Along a wall walk from `from` within the budget, the i-th cell is
        queued within i steps. */
    lemma {:induction false} WalkLevels(from: Pos, dist: nat, maxCheat: nat, minSave: nat, level: map<Pos, nat>,
                                        counted: set<Pos>, w: seq<Pos>, i: nat)
      requires Levels(walls, from, maxCheat, level) && Expanded(from, dist, maxCheat, minSave, level, counted, level.Keys)
      requires WallWalk(walls, w) && w[0] == from && (|w| == 1 || |w| <= maxCheat) && i < |w|
      ensures w[i] in level && level[w[i]] <= i
    {
      if i > 0 {
        WalkLevels(from, dist, maxCheat, minSave, level, counted, w, i - 1);
        assert Adjacent(w[i - 1], w[i]);
        assert Accounted(from, dist, maxCheat, minSave, level, counted, w[i - 1], w[i]);
      }
    }

    /** Every good cheat (start, end) pair of part_2 with a start among
        `starts`. */
    ghost function CheatPairs(starts: set<Pos>): (r: set<(Pos, Pos)>)
      reads this
      ensures forall c :: c in r ==> c.0 in starts
    {
      set p, q | p in starts && q in track && GoodCheat(p, Recorded(p), 20, 72, q) :: (p, q)
    }

    /** Adding one start adds exactly its own pairs. */
    lemma CheatPairsAdd(starts: set<Pos>, pos: Pos)
      requires pos !in starts
      ensures CheatPairs(starts + {pos}) == CheatPairs(starts) + CheatPairs({pos})
      ensures CheatPairs(starts) * CheatPairs({pos}) == {}
    {
    }

    /** shortcut_count from pos at its recorded distance with part_2's
        settings: the number of good cheats starting there. */
    method Tally(pos: Pos) returns (count: nat)
      requires walls !! track
      ensures count == |CheatPairs({pos})|
    {
      count := ShortcutCount(pos, Recorded(pos), 20, 72);
      PairCard(pos, GoodCheats(pos, Recorded(pos), 20, 72));
      assert CheatPairs({pos}) == set q | q in GoodCheats(pos, Recorded(pos), 20, 72) :: (pos, q);
    }

    /** part_2: shortcut_count with a cheat budget of 20 and a least saving
        of 72 from every track cell at its recorded distance, added up: the
        number of good (cheat start, cheat end) pairs on the track. */
    method Part2() returns (total: nat)
      requires walls !! track
      ensures total == |CheatPairs(track)|
    {
      total := 0;
      var left := track;
      while left != {}
        invariant left <= track && total == |CheatPairs(track - left)|
        decreases |left|
      {
        var pos :| pos in left;
        var count := Tally(pos);
        TakeOne(track, left, pos);
        CheatPairsAdd(track - left, pos);
        total := total + count;
        left := left - {pos};
      }
      assert track - left == track;
    }
  }

  /** Moving one cell from the cells left to those done. */
  lemma TakeOne(all: set<Pos>, left: set<Pos>, pos: Pos)
    requires pos in left && left <= all
    ensures all - (left - {pos}) == (all - left) + {pos} && pos !in all - left
    ensures |left - {pos}| < |left|
  {
  }

  /** Marking a new wall seen leaves fewer walls unseen. */
  lemma Fewer(walls: set<Pos>, seen: set<Pos>, p: Pos)
    requires p in walls && p !in seen
    ensures |walls - (seen + {p})| == |walls - seen| - 1
  {
    assert walls - (seen + {p}) == (walls - seen) - {p};
  }

  /** Marking any cell seen leaves no more walls unseen. */
  lemma NoMore(walls: set<Pos>, seen: set<Pos>, p: Pos)
    ensures |walls - (seen + {p})| <= |walls - seen|
  {
    SubsetCard(walls - (seen + {p}), walls - seen);
  }

  /** Pairing every element with the same first component loses none. */
  lemma {:induction false} PairCard(p: Pos, s: set<Pos>)
    ensures |set q | q in s :: (p, q)| == |s|
    decreases |s|
  {
    if s != {} {
      var x :| x in s;
      PairCard(p, s - {x});
      assert (set q | q in s :: (p, q)) == (set q | q in s - {x} :: (p, q)) + {(p, x)};
    }
  }

  /** The cell halfway between p and a cell two away from it in a
      straight line. */
  function Between(p: Pos, q: Pos): (m: Pos)
    requires q in TwoAway(p)
    ensures Adjacent(p, m) && Adjacent(m, q)
  {
    ((p.0 + q.0) / 2, (p.1 + q.1) / 2)
  }

  /** The four cells two steps away in a straight line: up, right, down,
      left. */
  function TwoAway(p: Pos): (r: set<Pos>)
  {
    {(p.0, p.1 - 2), (p.0 + 2, p.1), (p.0, p.1 + 2), (p.0 - 2, p.1)}
  }
}
