/** Day 21: keypad conundrum. A robot arm moves over a keypad one key at a
    time, steered from a directional keypad; the moves from one key to
    another are the shortest ones, in every order that keeps the arm off
    the keypad's empty corner. */
module Day21 {
  import opened Common

  /** (x, y): x grows to the right, y grows upwards. */
  type Pos = (int, int)

  /** The directional keypad:
        ^ A
      < v >  */
  datatype DirPad = DirA | Up | Down | Left | Right

  /** The numeric keypad:
      7 8 9
      4 5 6
      1 2 3
        0 A  */
  datatype NumPad = NumA | Num0 | Num1 | Num2 | Num3 | Num4 | Num5 | Num6 | Num7 | Num8 | Num9

  function NumPosition(k: NumPad): Pos
  {
    match k
    case NumA => (2, 0)
    case Num0 => (1, 0)
    case Num1 => (0, 1)
    case Num2 => (1, 1)
    case Num3 => (2, 1)
    case Num4 => (0, 2)
    case Num5 => (1, 2)
    case Num6 => (2, 2)
    case Num7 => (0, 3)
    case Num8 => (1, 3)
    case Num9 => (2, 3)
  }

  function DirPosition(k: DirPad): Pos
  {
    match k
    case DirA => (2, 1)
    case Up => (1, 1)
    case Right => (2, 0)
    case Down => (1, 0)
    case Left => (0, 0)
  }

  /** The empty corner of each keypad. */
  const NumGap: Pos := (0, 0)
  const DirGap: Pos := (0, 1)

  /** The keys are on distinct cells, none of them the gap. */
  lemma NumPositionsDistinct(a: NumPad, b: NumPad)
    ensures NumPosition(a) == NumPosition(b) <==> a == b
    ensures NumPosition(a) != NumGap
  {
  }

  lemma DirPositionsDistinct(a: DirPad, b: DirPad)
    ensures DirPosition(a) == DirPosition(b) <==> a == b
    ensures DirPosition(a) != DirGap
  {
  }

  // Moving the arm.

  function Dx(d: DirPad): int
  {
    match d
    case Right => 1
    case Left => -1
    case _ => 0
  }

  function Dy(d: DirPad): int
  {
    match d
    case Up => 1
    case Down => -1
    case _ => 0
  }

  /** Where a sequence of presses moves the arm, relative to its start. */
  function Offset(p: seq<DirPad>): Pos
  {
    if p == [] then (0, 0)
    else
      var rest := Offset(p[1..]);
      (Dx(p[0]) + rest.0, Dy(p[0]) + rest.1)
  }

  function Add(a: Pos, b: Pos): Pos
  {
    (a.0 + b.0, a.1 + b.1)
  }

  function Abs(n: int): nat
  {
    if n < 0 then -n else n
  }

  /** Each press moves the arm by at most one cell. */
  lemma {:induction false} OffsetBound(p: seq<DirPad>)
    ensures Abs(Offset(p).0) + Abs(Offset(p).1) <= |p|
  {
    if p != [] {
      OffsetBound(p[1..]);
    }
  }

  /** The arm never stands on the gap, from the start to the last press. */
  ghost predicate Avoids(start: Pos, p: seq<DirPad>, gap: Pos)
  {
    forall k :: 0 <= k <= |p| ==> Add(start, Offset(p[..k])) != gap
  }

  // The rearrangements of the moves.

  function Repeat(d: DirPad, n: nat): (r: seq<DirPad>)
    ensures |r| == n && forall i :: 0 <= i < n ==> r[i] == d
  {
    if n == 0 then [] else [d] + Repeat(d, n - 1)
  }

  /** How many presses of d p holds. */
  function Count(p: seq<DirPad>, d: DirPad): nat
  {
    if p == [] then 0 else (if p[0] == d then 1 else 0) + Count(p[1..], d)
  }

  lemma {:induction false} CountAppend(a: seq<DirPad>, b: seq<DirPad>, d: DirPad)
    ensures Count(a + b, d) == Count(a, d) + Count(b, d)
  {
    if a != [] {
      assert (a + b)[1..] == a[1..] + b && (a + b)[0] == a[0];
      CountAppend(a[1..], b, d);
    } else {
      assert a + b == b;
    }
  }

  /** The moves from one cell to another: numX presses of dirX, the
      horizontal direction (Right when there is none to make), and numY of
      dirY, the vertical one (Up when there is none to make). */
  datatype Plan = Plan(dirX: DirPad, numX: nat, dirY: DirPad, numY: nat)

  function PlanOf(from: Pos, to: Pos): (r: Plan)
    ensures r.dirX in {Left, Right} && r.dirY in {Up, Down}
    ensures r.numX == Abs(to.0 - from.0) && r.numY == Abs(to.1 - from.1)
    ensures Dx(r.dirX) * r.numX == to.0 - from.0 && Dy(r.dirY) * r.numY == to.1 - from.1
  {
    var dx, dy := to.0 - from.0, to.1 - from.1;
    Plan(if dx >= 0 then Right else Left, Abs(dx), if dy >= 0 then Up else Down, Abs(dy))
  }

  /** p presses only dirX and dirY, numX and numY times. */
  predicate IsMix(p: seq<DirPad>, plan: Plan)
  {
    (forall i :: 0 <= i < |p| ==> p[i] == plan.dirX || p[i] == plan.dirY) &&
    Count(p, plan.dirX) == plan.numX && Count(p, plan.dirY) == plan.numY
  }

  /** Each path of ps with a press of d in front. */
  function Prefixed(d: DirPad, ps: seq<seq<DirPad>>): (r: seq<seq<DirPad>>)
    ensures |r| == |ps|
  {
    if ps == [] then [] else [[d] + ps[0]] + Prefixed(d, ps[1..])
  }

  lemma {:induction false} PrefixedIndex(d: DirPad, ps: seq<seq<DirPad>>)
    ensures |Prefixed(d, ps)| == |ps| && forall i :: 0 <= i < |ps| ==> Prefixed(d, ps)[i] == [d] + ps[i]
  {
    if ps != [] {
      PrefixedIndex(d, ps[1..]);
    }
  }

  /** The distinct rearrangements of numX presses of dirX and numY of dirY,
      in the order the source's permutations().unique() keeps them: those
      starting with dirX first. */
  function Mixes(plan: Plan): seq<seq<DirPad>>
    decreases plan.numX + plan.numY
  {
    if plan.numX == 0 && plan.numY == 0 then [[]]
    else
      (if plan.numX > 0 then Prefixed(plan.dirX, Mixes(plan.(numX := plan.numX - 1))) else []) +
      (if plan.numY > 0 then Prefixed(plan.dirY, Mixes(plan.(numY := plan.numY - 1))) else [])
  }

  /** A sequence starts with d and goes on with a member of ps exactly when
      it is a member of Prefixed(d, ps). */
  lemma PrefixedMember(d: DirPad, ps: seq<seq<DirPad>>, p: seq<DirPad>)
    ensures p in Prefixed(d, ps) <==> |p| > 0 && p[0] == d && p[1..] in ps
  {
    var r := Prefixed(d, ps);
    PrefixedIndex(d, ps);
    if p in r {
      var i :| 0 <= i < |r| && r[i] == p;
      assert p[1..] == ps[i];
    }
    if |p| > 0 && p[0] == d && p[1..] in ps {
      var i :| 0 <= i < |ps| && ps[i] == p[1..];
      assert r[i] == p;
    }
  }

  /** A nonempty rearrangement is a first press of one direction followed by
      a rearrangement of what is left. */
  lemma MixCons(p: seq<DirPad>, plan: Plan)
    requires p != [] && plan.dirX != plan.dirY
    ensures IsMix(p, plan) <==>
      (p[0] == plan.dirX && plan.numX > 0 && IsMix(p[1..], plan.(numX := plan.numX - 1))) ||
      (p[0] == plan.dirY && plan.numY > 0 && IsMix(p[1..], plan.(numY := plan.numY - 1)))
  {
    var x, y, rest := plan.dirX, plan.dirY, p[1..];
    var restOnly := forall i :: 0 <= i < |rest| ==> rest[i] == x || rest[i] == y;
    assert (forall i :: 0 <= i < |p| ==> p[i] == x || p[i] == y) <==> (p[0] == x || p[0] == y) && restOnly by {
      if (p[0] == x || p[0] == y) && restOnly {
        forall i | 0 <= i < |p| ensures p[i] == x || p[i] == y {
          if i > 0 {
            assert p[i] == rest[i - 1];
          }
        }
      }
    }
  }

  /** Mixes holds exactly the rearrangements. */
  lemma {:induction false} MixesMembers(plan: Plan, p: seq<DirPad>)
    requires plan.dirX != plan.dirY
    ensures p in Mixes(plan) <==> IsMix(p, plan)
    decreases plan.numX + plan.numY
  {
    if plan.numX == 0 && plan.numY == 0 {
      if p != [] {
        MixCons(p, plan);
      }
    } else {
      MixesSplit(plan, p);
      if p == [] {
        assert Count(p, plan.dirX) == 0 && Count(p, plan.dirY) == 0;
      } else {
        MixCons(p, plan);
        if plan.numX > 0 {
          MixesMembers(plan.(numX := plan.numX - 1), p[1..]);
        }
        if plan.numY > 0 {
          MixesMembers(plan.(numY := plan.numY - 1), p[1..]);
        }
      }
    }
  }

  /** A member of Mixes starts with a press of one direction that has
      presses left and goes on with a member of the Mixes of what is left. */
  lemma MixesSplit(plan: Plan, p: seq<DirPad>)
    requires plan.numX > 0 || plan.numY > 0
    ensures p in Mixes(plan) <==>
      (plan.numX > 0 && |p| > 0 && p[0] == plan.dirX && p[1..] in Mixes(plan.(numX := plan.numX - 1))) ||
      (plan.numY > 0 && |p| > 0 && p[0] == plan.dirY && p[1..] in Mixes(plan.(numY := plan.numY - 1)))
  {
    var xs := if plan.numX > 0 then Prefixed(plan.dirX, Mixes(plan.(numX := plan.numX - 1))) else [];
    var ys := if plan.numY > 0 then Prefixed(plan.dirY, Mixes(plan.(numY := plan.numY - 1))) else [];
    assert Mixes(plan) == xs + ys;
    assert p in xs + ys <==> p in xs || p in ys;
    if plan.numX > 0 {
      PrefixedMember(plan.dirX, Mixes(plan.(numX := plan.numX - 1)), p);
    }
    if plan.numY > 0 {
      PrefixedMember(plan.dirY, Mixes(plan.(numY := plan.numY - 1)), p);
    }
  }

  lemma AppendDistinct(a: seq<seq<DirPad>>, b: seq<seq<DirPad>>)
    requires NoDuplicates(a) && NoDuplicates(b)
    requires forall p :: p in a ==> p !in b
    ensures NoDuplicates(a + b)
  {
    var ab := a + b;
    forall i, j | 0 <= i < j < |ab| ensures ab[i] != ab[j] {
      if j < |a| {
        assert ab[i] == a[i] && ab[j] == a[j];
      } else if i >= |a| {
        assert ab[i] == b[i - |a|] && ab[j] == b[j - |a|];
      } else {
        assert ab[i] == a[i] && ab[j] == b[j - |a|];
        assert a[i] in a;
      }
    }
  }

  /** No rearrangement is listed twice. */
  lemma {:induction false} MixesDistinct(plan: Plan)
    requires plan.dirX != plan.dirY
    ensures NoDuplicates(Mixes(plan))
    decreases plan.numX + plan.numY
  {
    var x, y := plan.dirX, plan.dirY;
    if plan.numX > 0 && plan.numY > 0 {
      var px, py := plan.(numX := plan.numX - 1), plan.(numY := plan.numY - 1);
      MixesDistinct(px);
      MixesDistinct(py);
      PrefixedDistinct(x, Mixes(px));
      PrefixedDistinct(y, Mixes(py));
      HeadsDiffer(x, y, Mixes(px), Mixes(py));
      AppendDistinct(Prefixed(x, Mixes(px)), Prefixed(y, Mixes(py)));
    } else if plan.numX > 0 {
      var px := plan.(numX := plan.numX - 1);
      MixesDistinct(px);
      PrefixedDistinct(x, Mixes(px));
      assert Mixes(plan) == Prefixed(x, Mixes(px)) + [];
    } else if plan.numY > 0 {
      var py := plan.(numY := plan.numY - 1);
      MixesDistinct(py);
      PrefixedDistinct(y, Mixes(py));
      assert Mixes(plan) == [] + Prefixed(y, Mixes(py));
    }
  }

  lemma HeadsDiffer(x: DirPad, y: DirPad, a: seq<seq<DirPad>>, b: seq<seq<DirPad>>)
    requires x != y
    ensures forall p :: p in Prefixed(x, a) ==> p !in Prefixed(y, b)
  {
    forall p | p in Prefixed(x, a) ensures p !in Prefixed(y, b) {
      PrefixedMember(x, a, p);
      PrefixedMember(y, b, p);
    }
  }

  lemma PrefixedDistinct(d: DirPad, ps: seq<seq<DirPad>>)
    requires NoDuplicates(ps)
    ensures NoDuplicates(Prefixed(d, ps))
  {
    var r := Prefixed(d, ps);
    PrefixedIndex(d, ps);
    forall i, j | 0 <= i < j < |r| ensures r[i] != r[j] {
      assert r[i][1..] == ps[i] && r[j][1..] == ps[j];
    }
  }

  // The arm's track along a rearrangement.

  /** A sequence of only x and y has as many elements as its x and y
      together. */
  lemma {:induction false} TwoKinds(p: seq<DirPad>, x: DirPad, y: DirPad)
    requires x != y && forall i :: 0 <= i < |p| ==> p[i] == x || p[i] == y
    ensures Count(p, x) + Count(p, y) == |p|
  {
    if p != [] {
      var rest := p[1..];
      assert forall i :: 0 <= i < |rest| ==> rest[i] == p[i + 1];
      TwoKinds(rest, x, y);
    }
  }

  /** A sequence of only x and y with no x is all y. */
  lemma {:induction false} Only(q: seq<DirPad>, x: DirPad, y: DirPad)
    requires forall i :: 0 <= i < |q| ==> q[i] == x || q[i] == y
    requires Count(q, x) == 0
    ensures q == Repeat(y, |q|)
  {
    if q != [] {
      var rest := q[1..];
      assert forall i :: 0 <= i < |rest| ==> rest[i] == q[i + 1];
      Only(rest, x, y);
      assert q == [q[0]] + rest;
    }
  }

  lemma {:induction false} RepeatCount(y: DirPad, n: nat, x: DirPad)
    ensures Count(Repeat(y, n), y) == n
    ensures x != y ==> Count(Repeat(y, n), x) == 0
  {
    if n > 0 {
      assert Repeat(y, n)[1..] == Repeat(y, n - 1);
      RepeatCount(y, n - 1, x);
    }
  }

  /** A prefix of a rearrangement presses dirX and dirY at most as often as
      the whole, and only those. */
  lemma PrefixCounts(p: seq<DirPad>, plan: Plan, k: nat)
    requires IsMix(p, plan) && plan.dirX != plan.dirY && k <= |p|
    ensures Count(p[..k], plan.dirX) <= plan.numX && Count(p[..k], plan.dirY) <= plan.numY
    ensures Count(p[..k], plan.dirX) + Count(p[..k], plan.dirY) == k
    ensures forall i :: 0 <= i < k ==> p[..k][i] == plan.dirX || p[..k][i] == plan.dirY
  {
    assert p == p[..k] + p[k..];
    CountAppend(p[..k], p[k..], plan.dirX);
    CountAppend(p[..k], p[k..], plan.dirY);
    TwoKinds(p[..k], plan.dirX, plan.dirY);
  }

  /** The offset of presses of one horizontal and one vertical direction
      only: each press of dirX moves by Dx, each of dirY by Dy. */
  lemma {:induction false} OffsetMix(p: seq<DirPad>, x: DirPad, y: DirPad)
    requires x in {Left, Right} && y in {Up, Down}
    requires forall i :: 0 <= i < |p| ==> p[i] == x || p[i] == y
    ensures Offset(p) == (Dx(x) * Count(p, x), Dy(y) * Count(p, y))
  {
    if p != [] {
      var rest := p[1..];
      assert forall i :: 0 <= i < |rest| ==> rest[i] == p[i + 1];
      OffsetMix(rest, x, y);
    }
  }

  /** Where the arm stands after the first k presses of a rearrangement. */
  lemma Track(start: Pos, p: seq<DirPad>, plan: Plan, k: nat)
    requires IsMix(p, plan) && plan.dirX in {Left, Right} && plan.dirY in {Up, Down} && k <= |p|
    ensures var cx, cy := Count(p[..k], plan.dirX), Count(p[..k], plan.dirY);
      cx <= plan.numX && cy <= plan.numY && cx + cy == k &&
      Add(start, Offset(p[..k])) == (start.0 + Dx(plan.dirX) * cx, start.1 + Dy(plan.dirY) * cy)
  {
    PrefixCounts(p, plan, k);
    OffsetMix(p[..k], plan.dirX, plan.dirY);
  }

  /** A rearrangement reaches a corner of its rectangle, n presses of y
      away, with no press of x, exactly when it starts with n presses of y. */
  lemma Corner(p: seq<DirPad>, plan: Plan, x: DirPad, y: DirPad, n: nat)
    requires IsMix(p, plan) && plan.dirX != plan.dirY
    requires (x == plan.dirX && y == plan.dirY && n == plan.numY) || (x == plan.dirY && y == plan.dirX && n == plan.numX)
    ensures (exists k :: 0 <= k <= |p| && Count(p[..k], x) == 0 && Count(p[..k], y) == n) <==>
      n <= |p| && p[..n] == Repeat(y, n)
  {
    if n <= |p| && p[..n] == Repeat(y, n) {
      RepeatCount(y, n, x);
      assert 0 <= n <= |p| && Count(p[..n], x) == 0 && Count(p[..n], y) == n;
    }
    if k :| 0 <= k <= |p| && Count(p[..k], x) == 0 && Count(p[..k], y) == n {
      PrefixCounts(p, plan, k);
      Only(p[..k], x, y);
    }
  }

  // Operations.

  /** How the source recognises a path over the gap: it starts with n
      presses of d, or its i-th press is d. */
  datatype Rule = Leading(d: DirPad, n: nat) | At(d: DirPad, i: nat)

  predicate Breaks(rule: Rule, p: seq<DirPad>)
  {
    match rule
    case Leading(d, n) => |p| >= n && p[..n] == Repeat(d, n)
    case At(d, i) => |p| > i && p[i] == d
  }

  /** The paths in order, less those the rule breaks. */
  function Drop(ps: seq<seq<DirPad>>, rule: Rule): seq<seq<DirPad>>
  {
    if ps == [] then []
    else (if Breaks(rule, ps[0]) then [] else [ps[0]]) + Drop(ps[1..], rule)
  }

  /** Drop keeps exactly the paths the rule does not break, once each if
      they were once each. */
  lemma {:induction false} DropSpec(ps: seq<seq<DirPad>>, rule: Rule)
    ensures forall p :: p in Drop(ps, rule) <==> p in ps && !Breaks(rule, p)
    ensures NoDuplicates(ps) ==> NoDuplicates(Drop(ps, rule))
  {
    if ps != [] {
      DropSpec(ps[1..], rule);
      assert ps == [ps[0]] + ps[1..];
      var head: seq<seq<DirPad>> := if Breaks(rule, ps[0]) then [] else [ps[0]];
      var rest := Drop(ps[1..], rule);
      if NoDuplicates(ps) {
        assert NoDuplicates(ps[1..]) by {
          forall i, j | 0 <= i < j < |ps[1..]| ensures ps[1..][i] != ps[1..][j] {
            assert ps[1..][i] == ps[i + 1] && ps[1..][j] == ps[j + 1];
          }
        }
        assert ps[0] !in ps[1..] by {
          forall j | 0 <= j < |ps[1..]| ensures ps[1..][j] != ps[0] {
            assert ps[1..][j] == ps[j + 1];
          }
        }
        AppendDistinct(head, rest);
      }
    }
  }


  /** NumPad operations: the rearrangements of the moves from one key to
      the other, less those that pass over the gap: from the left column to
      the bottom row they must not start with all the vertical presses, from
      the bottom row to the left column not with all the horizontal ones. */
  function NumOperations(from: NumPad, to: NumPad): seq<seq<DirPad>>
  {
    var f, t := NumPosition(from), NumPosition(to);
    var plan := PlanOf(f, t);
    var all := Mixes(plan);
    if f.0 == 0 && t.1 == 0 then
      Drop(all, Leading(plan.dirY, plan.numY))
    else if f.1 == 0 && t.0 == 0 then
      Drop(all, Leading(plan.dirX, plan.numX))
    else all
  }

  /** DirPad operations: the rearrangements less those that pass over the
      gap: from the left column to the top row they must not start upwards,
      from the top row to the left column the press after the horizontal
      ones must not be the downward one. */
  function DirOperations(from: DirPad, to: DirPad): seq<seq<DirPad>>
  {
    var f, t := DirPosition(from), DirPosition(to);
    var plan := PlanOf(f, t);
    var all := Mixes(plan);
    if f.0 == 0 && t.1 == 1 then
      Drop(all, At(plan.dirY, 0))
    else if f.1 == 1 && t.0 == 0 then
      Drop(all, At(plan.dirY, plan.numX))
    else all
  }

  /** The arm can stand on the gap along a rearrangement from start. */
  lemma GapOnTrack(start: Pos, plan: Plan, p: seq<DirPad>, gap: Pos)
    requires IsMix(p, plan) && plan.dirX in {Left, Right} && plan.dirY in {Up, Down}
    ensures !Avoids(start, p, gap) <==>
      exists k :: 0 <= k <= |p| && start.0 + Dx(plan.dirX) * Count(p[..k], plan.dirX) == gap.0 &&
        start.1 + Dy(plan.dirY) * Count(p[..k], plan.dirY) == gap.1
  {
    forall k | 0 <= k <= |p|
      ensures Add(start, Offset(p[..k])) == (start.0 + Dx(plan.dirX) * Count(p[..k], plan.dirX), start.1 + Dy(plan.dirY) * Count(p[..k], plan.dirY))
    {
      Track(start, p, plan, k);
    }
  }

  /** NumOperations lists, once each, exactly the shortest press sequences
      from one key to the other that keep the arm off the gap. */
  lemma NumOperationsSpec(from: NumPad, to: NumPad)
    ensures var plan := PlanOf(NumPosition(from), NumPosition(to));
      forall p :: p in NumOperations(from, to) <==> IsMix(p, plan) && Avoids(NumPosition(from), p, NumGap)
    ensures NoDuplicates(NumOperations(from, to))
  {
    var f, t := NumPosition(from), NumPosition(to);
    var plan := PlanOf(f, t);
    MixesDistinct(plan);
    DropSpec(Mixes(plan), Leading(plan.dirY, plan.numY));
    DropSpec(Mixes(plan), Leading(plan.dirX, plan.numX));
    forall p ensures p in NumOperations(from, to) <==> IsMix(p, plan) && Avoids(f, p, NumGap) {
      MixesMembers(plan, p);
      if IsMix(p, plan) {
        NumGapRule(from, to, p);
      }
    }
  }

  /** The filter of NumOperations drops exactly the rearrangements that
      pass over the gap. */
  lemma NumGapRule(from: NumPad, to: NumPad, p: seq<DirPad>)
    requires IsMix(p, PlanOf(NumPosition(from), NumPosition(to)))
    ensures var f, t := NumPosition(from), NumPosition(to);
      var plan := PlanOf(f, t);
      Avoids(f, p, NumGap) <==>
        if f.0 == 0 && t.1 == 0 then !(|p| >= plan.numY && p[..plan.numY] == Repeat(plan.dirY, plan.numY))
        else if f.1 == 0 && t.0 == 0 then !(|p| >= plan.numX && p[..plan.numX] == Repeat(plan.dirX, plan.numX))
        else true
  {
    var f, t := NumPosition(from), NumPosition(to);
    var plan := PlanOf(f, t);
    GapOnTrack(f, plan, p, NumGap);
    if f.0 == 0 && t.1 == 0 {
      Corner(p, plan, plan.dirX, plan.dirY, plan.numY);
    } else if f.1 == 0 && t.0 == 0 {
      Corner(p, plan, plan.dirY, plan.dirX, plan.numX);
    } else {
      forall k | 0 <= k <= |p|
        ensures f.0 + Dx(plan.dirX) * Count(p[..k], plan.dirX) != 0 || f.1 + Dy(plan.dirY) * Count(p[..k], plan.dirY) != 0
      {
        Track(f, p, plan, k);
      }
    }
  }

  /** DirOperations lists, once each, exactly the shortest press sequences
      from one key to the other that keep the arm off the gap. */
  lemma DirOperationsSpec(from: DirPad, to: DirPad)
    ensures var plan := PlanOf(DirPosition(from), DirPosition(to));
      forall p :: p in DirOperations(from, to) <==> IsMix(p, plan) && Avoids(DirPosition(from), p, DirGap)
    ensures NoDuplicates(DirOperations(from, to))
  {
    var f, t := DirPosition(from), DirPosition(to);
    var plan := PlanOf(f, t);
    MixesDistinct(plan);
    DropSpec(Mixes(plan), At(plan.dirY, 0));
    DropSpec(Mixes(plan), At(plan.dirY, plan.numX));
    forall p ensures p in DirOperations(from, to) <==> IsMix(p, plan) && Avoids(f, p, DirGap) {
      MixesMembers(plan, p);
      if IsMix(p, plan) {
        DirGapRule(from, to, p);
      }
    }
  }

  lemma DirGapRule(from: DirPad, to: DirPad, p: seq<DirPad>)
    requires IsMix(p, PlanOf(DirPosition(from), DirPosition(to)))
    ensures var f, t := DirPosition(from), DirPosition(to);
      var plan := PlanOf(f, t);
      Avoids(f, p, DirGap) <==>
        if f.0 == 0 && t.1 == 1 then !(|p| > 0 && p[0] == plan.dirY)
        else if f.1 == 1 && t.0 == 0 then !(|p| > plan.numX && p[plan.numX] == plan.dirY)
        else true
  {
    DirPositionsDistinct(from, from);
    DirPositionsDistinct(to, to);
    DirGapRuleAt(DirPosition(from), DirPosition(to), p);
  }

  /** DirGapRule for any two cells of the directional keypad's two-by-three
      grid other than its gap. */
  lemma DirGapRuleAt(f: Pos, t: Pos, p: seq<DirPad>)
    requires 0 <= f.0 <= 2 && 0 <= f.1 <= 1 && 0 <= t.0 <= 2 && 0 <= t.1 <= 1
    requires f != DirGap && t != DirGap
    requires IsMix(p, PlanOf(f, t))
    ensures var plan := PlanOf(f, t);
      Avoids(f, p, DirGap) <==>
        if f.0 == 0 && t.1 == 1 then !(|p| > 0 && p[0] == plan.dirY)
        else if f.1 == 1 && t.0 == 0 then !(|p| > plan.numX && p[plan.numX] == plan.dirY)
        else true
  {
    var plan := PlanOf(f, t);
    GapOnTrack(f, plan, p, DirGap);
    TwoKinds(p, plan.dirX, plan.dirY);
    if f.0 == 0 && t.1 == 1 {
      Corner(p, plan, plan.dirX, plan.dirY, 1);
      if |p| > 0 {
        assert p[..1] == [p[0]];
      }
    } else if f.1 == 1 && t.0 == 0 {
      Corner(p, plan, plan.dirY, plan.dirX, plan.numX);
      LastDown(p, plan);
    } else {
      forall k | 0 <= k <= |p|
        ensures f.0 + Dx(plan.dirX) * Count(p[..k], plan.dirX) != 0 || f.1 + Dy(plan.dirY) * Count(p[..k], plan.dirY) != 1
      {
        Track(f, p, plan, k);
      }
    }
  }

  /** With a single press of dirY, the presses of dirX all come first
      exactly when dirY comes right after them. */
  lemma LastDown(p: seq<DirPad>, plan: Plan)
    requires IsMix(p, plan) && plan.dirX != plan.dirY && plan.numY == 1
    ensures plan.numX <= |p| && p[..plan.numX] == Repeat(plan.dirX, plan.numX) <==>
      |p| > plan.numX && p[plan.numX] == plan.dirY
  {
    var n := plan.numX;
    TwoKinds(p, plan.dirX, plan.dirY);
    PrefixCounts(p, plan, n);
    assert p == p[..n] + [p[n]];
    CountAppend(p[..n], [p[n]], plan.dirY);
    if p[..n] == Repeat(plan.dirX, n) {
      RepeatCount(plan.dirX, n, plan.dirY);
    }
    if p[n] == plan.dirY {
      Only(p[..n], plan.dirY, plan.dirX);
    }
  }

  /** Every press sequence that brings the arm from f to t is at least as
      long as the rearrangements of the plan. */
  lemma Shortest(f: Pos, t: Pos, p: seq<DirPad>)
    requires Add(f, Offset(p)) == t
    ensures |p| >= PlanOf(f, t).numX + PlanOf(f, t).numY
  {
    OffsetBound(p);
  }

  /** Every rearrangement brings the arm to the target. */
  lemma MixArrives(f: Pos, t: Pos, p: seq<DirPad>)
    requires IsMix(p, PlanOf(f, t))
    ensures Add(f, Offset(p)) == t && |p| == PlanOf(f, t).numX + PlanOf(f, t).numY
  {
    var plan := PlanOf(f, t);
    TwoKinds(p, plan.dirX, plan.dirY);
    OffsetMix(p, plan.dirX, plan.dirY);
  }

  // Committing and chaining.

  /** operations_commit: each path followed by a press of A. */
  function Commit(ops: seq<seq<DirPad>>): (r: seq<seq<DirPad>>)
    ensures |r| == |ops| && forall i :: 0 <= i < |r| ==> r[i] == ops[i] + [DirA]
  {
    if ops == [] then [] else [ops[0] + [DirA]] + Commit(ops[1..])
  }

  function NumCommit(from: NumPad, to: NumPad): seq<seq<DirPad>>
  {
    Commit(NumOperations(from, to))
  }

  function DirCommit(from: DirPad, to: DirPad): seq<seq<DirPad>>
  {
    Commit(DirOperations(from, to))
  }

  /** all_possible_operations on the numeric keypad, from pad on. */
  function NumAll(pad: NumPad, keys: seq<NumPad>): (r: seq<seq<seq<DirPad>>>)
    decreases |keys|
    ensures |r| == |keys|
    ensures |keys| > 0 ==> r[0] == NumCommit(pad, keys[0])
    ensures forall i :: 0 < i < |keys| ==> r[i] == NumCommit(keys[i - 1], keys[i])
  {
    if keys == [] then []
    else
      var rest := NumAll(keys[0], keys[1..]);
      [NumCommit(pad, keys[0])] + rest
  }

  /** all_possible_operations on the directional keypad, from pad on. */
  function DirAll(pad: DirPad, keys: seq<DirPad>): (r: seq<seq<seq<DirPad>>>)
    decreases |keys|
    ensures |r| == |keys|
    ensures |keys| > 0 ==> r[0] == DirCommit(pad, keys[0])
    ensures forall i :: 0 < i < |keys| ==> r[i] == DirCommit(keys[i - 1], keys[i])
  {
    if keys == [] then []
    else
      var rest := DirAll(keys[0], keys[1..]);
      [DirCommit(pad, keys[0])] + rest
  }

  /** all_possible_operations starts at the default key A. */
  function NumAllPossible(keys: seq<NumPad>): seq<seq<seq<DirPad>>>
  {
    NumAll(NumA, keys)
  }

  function DirAllPossible(keys: seq<DirPad>): seq<seq<seq<DirPad>>>
  {
    DirAll(DirA, keys)
  }

  /** Pressing the key the arm is already on takes just A. */
  lemma CommitSame(k: NumPad, d: DirPad)
    ensures NumCommit(k, k) == [[DirA]] && DirCommit(d, d) == [[DirA]]
  {
    var nf, df := NumPosition(k), DirPosition(d);
    assert PlanOf(nf, nf) == Plan(Right, 0, Up, 0) == PlanOf(df, df);
    assert Mixes(Plan(Right, 0, Up, 0)) == [[]];
    assert NumOperations(k, k) == [[]] == DirOperations(d, d);
    var none: seq<DirPad> := [];
    assert none + [DirA] == [DirA];
    assert Commit([none]) == [none + [DirA]];
    assert NumCommit(k, k) == Commit([none]) == DirCommit(d, d);
  }

  // Characters.

  /** NumPad's TryFrom<char>: 'A' and the digits, and the character itself
      as the error otherwise. */
  datatype Parsed = Ok(key: NumPad) | Err(c: char)

  function NumFromChar(c: char): (r: Parsed)
    ensures r.Err? <==> c !in "A0123456789"
    ensures r.Err? ==> r.c == c
  {
    match c
    case 'A' => Ok(NumA)
    case '0' => Ok(Num0)
    case '1' => Ok(Num1)
    case '2' => Ok(Num2)
    case '3' => Ok(Num3)
    case '4' => Ok(Num4)
    case '5' => Ok(Num5)
    case '6' => Ok(Num6)
    case '7' => Ok(Num7)
    case '8' => Ok(Num8)
    case '9' => Ok(Num9)
    case _ => Err(c)
  }

  /** The label printed on each numeric key. */
  function NumLabel(k: NumPad): char
  {
    match k
    case NumA => 'A'
    case Num0 => '0'
    case Num1 => '1'
    case Num2 => '2'
    case Num3 => '3'
    case Num4 => '4'
    case Num5 => '5'
    case Num6 => '6'
    case Num7 => '7'
    case Num8 => '8'
    case Num9 => '9'
  }

  /** Reading a key's label gives the key back, and every accepted character
      is the label of the key it gives. */
  lemma NumFromCharLabel(k: NumPad, c: char)
    ensures NumFromChar(NumLabel(k)) == Ok(k)
    ensures NumFromChar(c).Ok? ==> NumLabel(NumFromChar(c).key) == c
  {
  }

  /** get_char of the directional keypad. */
  function DirChar(k: DirPad): (c: char)
    ensures c in "A^>v<"
  {
    match k
    case DirA => 'A'
    case Up => '^'
    case Right => '>'
    case Down => 'v'
    case Left => '<'
  }

  lemma DirCharDistinct(a: DirPad, b: DirPad)
    ensures DirChar(a) == DirChar(b) <==> a == b
  {
  }

  // The cases the source's tests pin down.

  lemma MixesRight0Up1()
    ensures Mixes(Plan(Right, 0, Up, 1)) == [[Up]]
  {
    var none: seq<DirPad> := [];
    assert Mixes(Plan(Right, 0, Up, 0)) == [none];
    assert [Up] + none == [Up];
    assert Prefixed(Up, [none]) == [[Up]];
  }

  lemma MixesRight1Up0()
    ensures Mixes(Plan(Right, 1, Up, 0)) == [[Right]]
  {
    var none: seq<DirPad> := [];
    assert Mixes(Plan(Right, 0, Up, 0)) == [none];
    assert [Right] + none == [Right];
    assert Prefixed(Right, [none]) == [[Right]];
  }

  lemma MixesRight1Up1HeadRight()
    ensures Prefixed(Right, [[Up]]) == [[Right, Up]]
  {
    assert [Right] + [Up] == [Right, Up];
  }

  lemma MixesRight1Up1HeadUp()
    ensures Prefixed(Up, [[Right]]) == [[Up, Right]]
  {
    assert [Up] + [Right] == [Up, Right];
  }

  lemma MixesRight1Up1()
    ensures Mixes(Plan(Right, 1, Up, 1)) == [[Right, Up], [Up, Right]]
  {
    MixesRight0Up1();
    MixesRight1Up1HeadRight();
    MixesRight1Up0();
    MixesRight1Up1HeadUp();
  }

  lemma MixesRight2Up0HeadRight()
    ensures Prefixed(Right, [[Right]]) == [[Right, Right]]
  {
    assert [Right] + [Right] == [Right, Right];
  }

  lemma MixesRight2Up0()
    ensures Mixes(Plan(Right, 2, Up, 0)) == [[Right, Right]]
  {
    MixesRight1Up0();
    MixesRight2Up0HeadRight();
  }

  lemma MixesRight2Up1HeadRight()
    ensures Prefixed(Right, [[Right, Up], [Up, Right]]) == [[Right, Right, Up], [Right, Up, Right]]
  {
    assert [Right] + [Right, Up] == [Right, Right, Up];
    assert [Right] + [Up, Right] == [Right, Up, Right];
  }

  lemma MixesRight2Up1HeadUp()
    ensures Prefixed(Up, [[Right, Right]]) == [[Up, Right, Right]]
  {
    assert [Up] + [Right, Right] == [Up, Right, Right];
  }

  lemma MixesRight2Up1()
    ensures Mixes(Plan(Right, 2, Up, 1)) == [[Right, Right, Up], [Right, Up, Right], [Up, Right, Right]]
  {
    MixesRight1Up1();
    MixesRight2Up1HeadRight();
    MixesRight2Up0();
    MixesRight2Up1HeadUp();
  }

  lemma MixesLeft0Up1()
    ensures Mixes(Plan(Left, 0, Up, 1)) == [[Up]]
  {
    var none: seq<DirPad> := [];
    assert Mixes(Plan(Left, 0, Up, 0)) == [none];
    assert [Up] + none == [Up];
    assert Prefixed(Up, [none]) == [[Up]];
  }

  lemma MixesLeft1Up0()
    ensures Mixes(Plan(Left, 1, Up, 0)) == [[Left]]
  {
    var none: seq<DirPad> := [];
    assert Mixes(Plan(Left, 0, Up, 0)) == [none];
    assert [Left] + none == [Left];
    assert Prefixed(Left, [none]) == [[Left]];
  }

  lemma MixesLeft0Up2HeadUp()
    ensures Prefixed(Up, [[Up]]) == [[Up, Up]]
  {
    assert [Up] + [Up] == [Up, Up];
  }

  lemma MixesLeft0Up2()
    ensures Mixes(Plan(Left, 0, Up, 2)) == [[Up, Up]]
  {
    MixesLeft0Up1();
    MixesLeft0Up2HeadUp();
  }

  lemma MixesLeft1Up1HeadLeft()
    ensures Prefixed(Left, [[Up]]) == [[Left, Up]]
  {
    assert [Left] + [Up] == [Left, Up];
  }

  lemma MixesLeft1Up1HeadUp()
    ensures Prefixed(Up, [[Left]]) == [[Up, Left]]
  {
    assert [Up] + [Left] == [Up, Left];
  }

  lemma MixesLeft1Up1()
    ensures Mixes(Plan(Left, 1, Up, 1)) == [[Left, Up], [Up, Left]]
  {
    MixesLeft0Up1();
    MixesLeft1Up1HeadLeft();
    MixesLeft1Up0();
    MixesLeft1Up1HeadUp();
  }

  lemma MixesLeft2Up0HeadLeft()
    ensures Prefixed(Left, [[Left]]) == [[Left, Left]]
  {
    assert [Left] + [Left] == [Left, Left];
  }

  lemma MixesLeft2Up0()
    ensures Mixes(Plan(Left, 2, Up, 0)) == [[Left, Left]]
  {
    MixesLeft1Up0();
    MixesLeft2Up0HeadLeft();
  }

  lemma MixesLeft1Up2HeadLeft()
    ensures Prefixed(Left, [[Up, Up]]) == [[Left, Up, Up]]
  {
    assert [Left] + [Up, Up] == [Left, Up, Up];
  }

  lemma MixesLeft1Up2HeadUp()
    ensures Prefixed(Up, [[Left, Up], [Up, Left]]) == [[Up, Left, Up], [Up, Up, Left]]
  {
    assert [Up] + [Left, Up] == [Up, Left, Up];
    assert [Up] + [Up, Left] == [Up, Up, Left];
  }

  lemma MixesLeft1Up2()
    ensures Mixes(Plan(Left, 1, Up, 2)) == [[Left, Up, Up], [Up, Left, Up], [Up, Up, Left]]
  {
    MixesLeft0Up2();
    MixesLeft1Up2HeadLeft();
    MixesLeft1Up1();
    MixesLeft1Up2HeadUp();
  }

  lemma MixesLeft2Up1HeadLeft()
    ensures Prefixed(Left, [[Left, Up], [Up, Left]]) == [[Left, Left, Up], [Left, Up, Left]]
  {
    assert [Left] + [Left, Up] == [Left, Left, Up];
    assert [Left] + [Up, Left] == [Left, Up, Left];
  }

  lemma MixesLeft2Up1HeadUp()
    ensures Prefixed(Up, [[Left, Left]]) == [[Up, Left, Left]]
  {
    assert [Up] + [Left, Left] == [Up, Left, Left];
  }

  lemma MixesLeft2Up1()
    ensures Mixes(Plan(Left, 2, Up, 1)) == [[Left, Left, Up], [Left, Up, Left], [Up, Left, Left]]
  {
    MixesLeft1Up1();
    MixesLeft2Up1HeadLeft();
    MixesLeft2Up0();
    MixesLeft2Up1HeadUp();
  }

  lemma MixesLeft2Up2HeadLeft()
    ensures Prefixed(Left, [[Left, Up, Up], [Up, Left, Up], [Up, Up, Left]]) == [[Left, Left, Up, Up], [Left, Up, Left, Up], [Left, Up, Up, Left]]
  {
    assert [Left] + [Left, Up, Up] == [Left, Left, Up, Up];
    assert [Left] + [Up, Left, Up] == [Left, Up, Left, Up];
    assert [Left] + [Up, Up, Left] == [Left, Up, Up, Left];
  }

  lemma MixesLeft2Up2HeadUp()
    ensures Prefixed(Up, [[Left, Left, Up], [Left, Up, Left], [Up, Left, Left]]) == [[Up, Left, Left, Up], [Up, Left, Up, Left], [Up, Up, Left, Left]]
  {
    assert [Up] + [Left, Left, Up] == [Up, Left, Left, Up];
    assert [Up] + [Left, Up, Left] == [Up, Left, Up, Left];
    assert [Up] + [Up, Left, Left] == [Up, Up, Left, Left];
  }

  lemma MixesLeft2Up2()
    ensures Mixes(Plan(Left, 2, Up, 2)) == [[Left, Left, Up, Up], [Left, Up, Left, Up], [Left, Up, Up, Left], [Up, Left, Left, Up], [Up, Left, Up, Left], [Up, Up, Left, Left]]
  {
    MixesLeft1Up2();
    MixesLeft2Up2HeadLeft();
    MixesLeft2Up1();
    MixesLeft2Up2HeadUp();
  }

  lemma MixesRight0Down1()
    ensures Mixes(Plan(Right, 0, Down, 1)) == [[Down]]
  {
    var none: seq<DirPad> := [];
    assert Mixes(Plan(Right, 0, Down, 0)) == [none];
    assert [Down] + none == [Down];
    assert Prefixed(Down, [none]) == [[Down]];
  }

  lemma MixesRight1Down0()
    ensures Mixes(Plan(Right, 1, Down, 0)) == [[Right]]
  {
    var none: seq<DirPad> := [];
    assert Mixes(Plan(Right, 0, Down, 0)) == [none];
    assert [Right] + none == [Right];
    assert Prefixed(Right, [none]) == [[Right]];
  }

  lemma MixesRight0Down2HeadDown()
    ensures Prefixed(Down, [[Down]]) == [[Down, Down]]
  {
    assert [Down] + [Down] == [Down, Down];
  }

  lemma MixesRight0Down2()
    ensures Mixes(Plan(Right, 0, Down, 2)) == [[Down, Down]]
  {
    MixesRight0Down1();
    MixesRight0Down2HeadDown();
  }

  lemma MixesRight1Down1HeadRight()
    ensures Prefixed(Right, [[Down]]) == [[Right, Down]]
  {
    assert [Right] + [Down] == [Right, Down];
  }

  lemma MixesRight1Down1HeadDown()
    ensures Prefixed(Down, [[Right]]) == [[Down, Right]]
  {
    assert [Down] + [Right] == [Down, Right];
  }

  lemma MixesRight1Down1()
    ensures Mixes(Plan(Right, 1, Down, 1)) == [[Right, Down], [Down, Right]]
  {
    MixesRight0Down1();
    MixesRight1Down1HeadRight();
    MixesRight1Down0();
    MixesRight1Down1HeadDown();
  }

  lemma MixesRight0Down3HeadDown()
    ensures Prefixed(Down, [[Down, Down]]) == [[Down, Down, Down]]
  {
    assert [Down] + [Down, Down] == [Down, Down, Down];
  }

  lemma MixesRight0Down3()
    ensures Mixes(Plan(Right, 0, Down, 3)) == [[Down, Down, Down]]
  {
    MixesRight0Down2();
    MixesRight0Down3HeadDown();
  }

  lemma MixesRight1Down2HeadRight()
    ensures Prefixed(Right, [[Down, Down]]) == [[Right, Down, Down]]
  {
    assert [Right] + [Down, Down] == [Right, Down, Down];
  }

  lemma MixesRight1Down2HeadDown()
    ensures Prefixed(Down, [[Right, Down], [Down, Right]]) == [[Down, Right, Down], [Down, Down, Right]]
  {
    assert [Down] + [Right, Down] == [Down, Right, Down];
    assert [Down] + [Down, Right] == [Down, Down, Right];
  }

  lemma MixesRight1Down2()
    ensures Mixes(Plan(Right, 1, Down, 2)) == [[Right, Down, Down], [Down, Right, Down], [Down, Down, Right]]
  {
    MixesRight0Down2();
    MixesRight1Down2HeadRight();
    MixesRight1Down1();
    MixesRight1Down2HeadDown();
  }

  lemma MixesRight1Down3HeadRight()
    ensures Prefixed(Right, [[Down, Down, Down]]) == [[Right, Down, Down, Down]]
  {
    assert [Right] + [Down, Down, Down] == [Right, Down, Down, Down];
  }

  lemma MixesRight1Down3HeadDown()
    ensures Prefixed(Down, [[Right, Down, Down], [Down, Right, Down], [Down, Down, Right]]) == [[Down, Right, Down, Down], [Down, Down, Right, Down], [Down, Down, Down, Right]]
  {
    assert [Down] + [Right, Down, Down] == [Down, Right, Down, Down];
    assert [Down] + [Down, Right, Down] == [Down, Down, Right, Down];
    assert [Down] + [Down, Down, Right] == [Down, Down, Down, Right];
  }

  lemma MixesRight1Down3()
    ensures Mixes(Plan(Right, 1, Down, 3)) == [[Right, Down, Down, Down], [Down, Right, Down, Down], [Down, Down, Right, Down], [Down, Down, Down, Right]]
  {
    MixesRight0Down3();
    MixesRight1Down3HeadRight();
    MixesRight1Down2();
    MixesRight1Down3HeadDown();
  }

  lemma MixesLeft0Down1()
    ensures Mixes(Plan(Left, 0, Down, 1)) == [[Down]]
  {
    var none: seq<DirPad> := [];
    assert Mixes(Plan(Left, 0, Down, 0)) == [none];
    assert [Down] + none == [Down];
    assert Prefixed(Down, [none]) == [[Down]];
  }

  lemma MixesLeft1Down0()
    ensures Mixes(Plan(Left, 1, Down, 0)) == [[Left]]
  {
    var none: seq<DirPad> := [];
    assert Mixes(Plan(Left, 0, Down, 0)) == [none];
    assert [Left] + none == [Left];
    assert Prefixed(Left, [none]) == [[Left]];
  }

  lemma MixesLeft1Down1HeadLeft()
    ensures Prefixed(Left, [[Down]]) == [[Left, Down]]
  {
    assert [Left] + [Down] == [Left, Down];
  }

  lemma MixesLeft1Down1HeadDown()
    ensures Prefixed(Down, [[Left]]) == [[Down, Left]]
  {
    assert [Down] + [Left] == [Down, Left];
  }

  lemma MixesLeft1Down1()
    ensures Mixes(Plan(Left, 1, Down, 1)) == [[Left, Down], [Down, Left]]
  {
    MixesLeft0Down1();
    MixesLeft1Down1HeadLeft();
    MixesLeft1Down0();
    MixesLeft1Down1HeadDown();
  }

  lemma MixesLeft2Down0HeadLeft()
    ensures Prefixed(Left, [[Left]]) == [[Left, Left]]
  {
    assert [Left] + [Left] == [Left, Left];
  }

  lemma MixesLeft2Down0()
    ensures Mixes(Plan(Left, 2, Down, 0)) == [[Left, Left]]
  {
    MixesLeft1Down0();
    MixesLeft2Down0HeadLeft();
  }

  lemma MixesLeft2Down1HeadLeft()
    ensures Prefixed(Left, [[Left, Down], [Down, Left]]) == [[Left, Left, Down], [Left, Down, Left]]
  {
    assert [Left] + [Left, Down] == [Left, Left, Down];
    assert [Left] + [Down, Left] == [Left, Down, Left];
  }

  lemma MixesLeft2Down1HeadDown()
    ensures Prefixed(Down, [[Left, Left]]) == [[Down, Left, Left]]
  {
    assert [Down] + [Left, Left] == [Down, Left, Left];
  }

  lemma MixesLeft2Down1()
    ensures Mixes(Plan(Left, 2, Down, 1)) == [[Left, Left, Down], [Left, Down, Left], [Down, Left, Left]]
  {
    MixesLeft1Down1();
    MixesLeft2Down1HeadLeft();
    MixesLeft2Down0();
    MixesLeft2Down1HeadDown();
  }

  lemma NumCaseOneToSix()
    ensures NumOperations(Num1, Num6) == [[Right, Right, Up], [Right, Up, Right], [Up, Right, Right]]
  {
    assert PlanOf(NumPosition(Num1), NumPosition(Num6)) == Plan(Right, 2, Up, 1);
    MixesRight2Up1();
  }

  lemma NumCaseAToFour()
    ensures NumOperations(NumA, Num4) == [[Left, Up, Left, Up], [Left, Up, Up, Left], [Up, Left, Left, Up], [Up, Left, Up, Left], [Up, Up, Left, Left]]
  {
    assert PlanOf(NumPosition(NumA), NumPosition(Num4)) == Plan(Left, 2, Up, 2);
    assert NumOperations(NumA, Num4) == Drop(Mixes(Plan(Left, 2, Up, 2)), Leading(Left, 2));
    MixesLeft2Up2();
    NumCaseAToFourDrop();
  }

  lemma NumCaseAToFourDrop()
    ensures Drop([[Left, Left, Up, Up], [Left, Up, Left, Up], [Left, Up, Up, Left], [Up, Left, Left, Up], [Up, Left, Up, Left], [Up, Up, Left, Left]], Leading(Left, 2)) == [[Left, Up, Left, Up], [Left, Up, Up, Left], [Up, Left, Left, Up], [Up, Left, Up, Left], [Up, Up, Left, Left]]
  {
    assert Repeat(Left, 2) == [Left, Left];
    assert [Left, Left, Up, Up][..2] == [Left, Left];
    assert [Left, Up, Left, Up][..2] == [Left, Up];
    assert [Left, Up, Up, Left][..2] == [Left, Up];
    assert [Up, Left, Left, Up][..2] == [Up, Left];
    assert [Up, Left, Up, Left][..2] == [Up, Left];
    assert [Up, Up, Left, Left][..2] == [Up, Up];
    assert !Breaks(Leading(Left, 2), [Up, Up, Left, Left]);
    assert [[Up, Up, Left, Left]][1..] == [];
    assert Drop([[Up, Up, Left, Left]], Leading(Left, 2)) == [[Up, Up, Left, Left]];
    assert !Breaks(Leading(Left, 2), [Up, Left, Up, Left]);
    assert [[Up, Left, Up, Left], [Up, Up, Left, Left]][1..] == [[Up, Up, Left, Left]];
    assert Drop([[Up, Left, Up, Left], [Up, Up, Left, Left]], Leading(Left, 2)) == [[Up, Left, Up, Left], [Up, Up, Left, Left]];
    assert !Breaks(Leading(Left, 2), [Up, Left, Left, Up]);
    assert [[Up, Left, Left, Up], [Up, Left, Up, Left], [Up, Up, Left, Left]][1..] == [[Up, Left, Up, Left], [Up, Up, Left, Left]];
    assert Drop([[Up, Left, Left, Up], [Up, Left, Up, Left], [Up, Up, Left, Left]], Leading(Left, 2)) == [[Up, Left, Left, Up], [Up, Left, Up, Left], [Up, Up, Left, Left]];
    assert !Breaks(Leading(Left, 2), [Left, Up, Up, Left]);
    assert [[Left, Up, Up, Left], [Up, Left, Left, Up], [Up, Left, Up, Left], [Up, Up, Left, Left]][1..] == [[Up, Left, Left, Up], [Up, Left, Up, Left], [Up, Up, Left, Left]];
    assert Drop([[Left, Up, Up, Left], [Up, Left, Left, Up], [Up, Left, Up, Left], [Up, Up, Left, Left]], Leading(Left, 2)) == [[Left, Up, Up, Left], [Up, Left, Left, Up], [Up, Left, Up, Left], [Up, Up, Left, Left]];
    assert !Breaks(Leading(Left, 2), [Left, Up, Left, Up]);
    assert [[Left, Up, Left, Up], [Left, Up, Up, Left], [Up, Left, Left, Up], [Up, Left, Up, Left], [Up, Up, Left, Left]][1..] == [[Left, Up, Up, Left], [Up, Left, Left, Up], [Up, Left, Up, Left], [Up, Up, Left, Left]];
    assert Drop([[Left, Up, Left, Up], [Left, Up, Up, Left], [Up, Left, Left, Up], [Up, Left, Up, Left], [Up, Up, Left, Left]], Leading(Left, 2)) == [[Left, Up, Left, Up], [Left, Up, Up, Left], [Up, Left, Left, Up], [Up, Left, Up, Left], [Up, Up, Left, Left]];
    assert Breaks(Leading(Left, 2), [Left, Left, Up, Up]);
    assert [[Left, Left, Up, Up], [Left, Up, Left, Up], [Left, Up, Up, Left], [Up, Left, Left, Up], [Up, Left, Up, Left], [Up, Up, Left, Left]][1..] == [[Left, Up, Left, Up], [Left, Up, Up, Left], [Up, Left, Left, Up], [Up, Left, Up, Left], [Up, Up, Left, Left]];
    assert Drop([[Left, Left, Up, Up], [Left, Up, Left, Up], [Left, Up, Up, Left], [Up, Left, Left, Up], [Up, Left, Up, Left], [Up, Up, Left, Left]], Leading(Left, 2)) == [[Left, Up, Left, Up], [Left, Up, Up, Left], [Up, Left, Left, Up], [Up, Left, Up, Left], [Up, Up, Left, Left]];
  }

  lemma NumCaseSevenToZero()
    ensures NumOperations(Num7, Num0) == [[Right, Down, Down, Down], [Down, Right, Down, Down], [Down, Down, Right, Down]]
  {
    assert PlanOf(NumPosition(Num7), NumPosition(Num0)) == Plan(Right, 1, Down, 3);
    assert NumOperations(Num7, Num0) == Drop(Mixes(Plan(Right, 1, Down, 3)), Leading(Down, 3));
    MixesRight1Down3();
    NumCaseSevenToZeroDrop();
  }

  lemma NumCaseSevenToZeroDrop()
    ensures Drop([[Right, Down, Down, Down], [Down, Right, Down, Down], [Down, Down, Right, Down], [Down, Down, Down, Right]], Leading(Down, 3)) == [[Right, Down, Down, Down], [Down, Right, Down, Down], [Down, Down, Right, Down]]
  {
    assert Repeat(Down, 3) == [Down, Down, Down];
    assert [Right, Down, Down, Down][..3] == [Right, Down, Down];
    assert [Down, Right, Down, Down][..3] == [Down, Right, Down];
    assert [Down, Down, Right, Down][..3] == [Down, Down, Right];
    assert [Down, Down, Down, Right][..3] == [Down, Down, Down];
    assert Breaks(Leading(Down, 3), [Down, Down, Down, Right]);
    assert [[Down, Down, Down, Right]][1..] == [];
    assert Drop([[Down, Down, Down, Right]], Leading(Down, 3)) == [];
    assert !Breaks(Leading(Down, 3), [Down, Down, Right, Down]);
    assert [[Down, Down, Right, Down], [Down, Down, Down, Right]][1..] == [[Down, Down, Down, Right]];
    assert Drop([[Down, Down, Right, Down], [Down, Down, Down, Right]], Leading(Down, 3)) == [[Down, Down, Right, Down]];
    assert !Breaks(Leading(Down, 3), [Down, Right, Down, Down]);
    assert [[Down, Right, Down, Down], [Down, Down, Right, Down], [Down, Down, Down, Right]][1..] == [[Down, Down, Right, Down], [Down, Down, Down, Right]];
    assert Drop([[Down, Right, Down, Down], [Down, Down, Right, Down], [Down, Down, Down, Right]], Leading(Down, 3)) == [[Down, Right, Down, Down], [Down, Down, Right, Down]];
    assert !Breaks(Leading(Down, 3), [Right, Down, Down, Down]);
    assert [[Right, Down, Down, Down], [Down, Right, Down, Down], [Down, Down, Right, Down], [Down, Down, Down, Right]][1..] == [[Down, Right, Down, Down], [Down, Down, Right, Down], [Down, Down, Down, Right]];
    assert Drop([[Right, Down, Down, Down], [Down, Right, Down, Down], [Down, Down, Right, Down], [Down, Down, Down, Right]], Leading(Down, 3)) == [[Right, Down, Down, Down], [Down, Right, Down, Down], [Down, Down, Right, Down]];
  }

  lemma DirCaseDownToA()
    ensures DirOperations(Down, DirA) == [[Right, Up], [Up, Right]]
  {
    assert PlanOf(DirPosition(Down), DirPosition(DirA)) == Plan(Right, 1, Up, 1);
    MixesRight1Up1();
  }

  lemma DirCaseLeftToUp()
    ensures DirOperations(Left, Up) == [[Right, Up]]
  {
    assert PlanOf(DirPosition(Left), DirPosition(Up)) == Plan(Right, 1, Up, 1);
    assert DirOperations(Left, Up) == Drop(Mixes(Plan(Right, 1, Up, 1)), At(Up, 0));
    MixesRight1Up1();
    DirCaseLeftToUpDrop();
  }

  lemma DirCaseLeftToUpDrop()
    ensures Drop([[Right, Up], [Up, Right]], At(Up, 0)) == [[Right, Up]]
  {
    assert Breaks(At(Up, 0), [Up, Right]);
    assert [[Up, Right]][1..] == [];
    assert Drop([[Up, Right]], At(Up, 0)) == [];
    assert !Breaks(At(Up, 0), [Right, Up]);
    assert [[Right, Up], [Up, Right]][1..] == [[Up, Right]];
    assert Drop([[Right, Up], [Up, Right]], At(Up, 0)) == [[Right, Up]];
  }

  lemma DirCaseAToLeft()
    ensures DirOperations(DirA, Left) == [[Left, Down, Left], [Down, Left, Left]]
  {
    assert PlanOf(DirPosition(DirA), DirPosition(Left)) == Plan(Left, 2, Down, 1);
    assert DirOperations(DirA, Left) == Drop(Mixes(Plan(Left, 2, Down, 1)), At(Down, 2));
    MixesLeft2Down1();
    DirCaseAToLeftDrop();
  }

  lemma DirCaseAToLeftDrop()
    ensures Drop([[Left, Left, Down], [Left, Down, Left], [Down, Left, Left]], At(Down, 2)) == [[Left, Down, Left], [Down, Left, Left]]
  {
    assert !Breaks(At(Down, 2), [Down, Left, Left]);
    assert [[Down, Left, Left]][1..] == [];
    assert Drop([[Down, Left, Left]], At(Down, 2)) == [[Down, Left, Left]];
    assert !Breaks(At(Down, 2), [Left, Down, Left]);
    assert [[Left, Down, Left], [Down, Left, Left]][1..] == [[Down, Left, Left]];
    assert Drop([[Left, Down, Left], [Down, Left, Left]], At(Down, 2)) == [[Left, Down, Left], [Down, Left, Left]];
    assert Breaks(At(Down, 2), [Left, Left, Down]);
    assert [[Left, Left, Down], [Left, Down, Left], [Down, Left, Left]][1..] == [[Left, Down, Left], [Down, Left, Left]];
    assert Drop([[Left, Left, Down], [Left, Down, Left], [Down, Left, Left]], At(Down, 2)) == [[Left, Down, Left], [Down, Left, Left]];
  }

  lemma NumChainCase()
    ensures var r := NumAllPossible([Num5, Num8, Num6, NumA]);
      |r| == 4 &&
      r[0] == [[Left, Up, Up, DirA], [Up, Left, Up, DirA], [Up, Up, Left, DirA]] &&
      r[1] == [[Up, DirA]] &&
      r[2] == [[Right, Down, DirA], [Down, Right, DirA]] &&
      r[3] == [[Down, Down, DirA]]
  {
    NumChainFirst();
    NumChainSecond();
    NumChainThird();
    NumChainFourth();
    var keys := [Num5, Num8, Num6, NumA];
    assert keys[0] == Num5 && keys[1] == Num8 && keys[2] == Num6 && keys[3] == NumA;
  }

  lemma NumChainFirst()
    ensures NumCommit(NumA, Num5) == [[Left, Up, Up, DirA], [Up, Left, Up, DirA], [Up, Up, Left, DirA]]
  {
    assert PlanOf(NumPosition(NumA), NumPosition(Num5)) == Plan(Left, 1, Up, 2);
    MixesLeft1Up2();
    assert NumOperations(NumA, Num5) == [[Left, Up, Up], [Up, Left, Up], [Up, Up, Left]];
    assert [Left, Up, Up] + [DirA] == [Left, Up, Up, DirA];
    assert [Up, Left, Up] + [DirA] == [Up, Left, Up, DirA];
    assert [Up, Up, Left] + [DirA] == [Up, Up, Left, DirA];
  }

  lemma NumChainSecond()
    ensures NumCommit(Num5, Num8) == [[Up, DirA]]
  {
    assert PlanOf(NumPosition(Num5), NumPosition(Num8)) == Plan(Right, 0, Up, 1);
    MixesRight0Up1();
    assert NumOperations(Num5, Num8) == [[Up]];
    assert [Up] + [DirA] == [Up, DirA];
  }

  lemma NumChainThird()
    ensures NumCommit(Num8, Num6) == [[Right, Down, DirA], [Down, Right, DirA]]
  {
    assert PlanOf(NumPosition(Num8), NumPosition(Num6)) == Plan(Right, 1, Down, 1);
    MixesRight1Down1();
    assert NumOperations(Num8, Num6) == [[Right, Down], [Down, Right]];
    assert [Right, Down] + [DirA] == [Right, Down, DirA];
    assert [Down, Right] + [DirA] == [Down, Right, DirA];
  }

  lemma NumChainFourth()
    ensures NumCommit(Num6, NumA) == [[Down, Down, DirA]]
  {
    assert PlanOf(NumPosition(Num6), NumPosition(NumA)) == Plan(Right, 0, Down, 2);
    MixesRight0Down2();
    assert NumOperations(Num6, NumA) == [[Down, Down]];
    assert [Down, Down] + [DirA] == [Down, Down, DirA];
  }
}
