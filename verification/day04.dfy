/** Day 4: word search. Part 1 counts every occurrence of a word along the eight
    straight directions; part 2 counts 3x3 windows holding two crossed "MAS". */
module Day04 {

  type Grid = seq<seq<char>>

  /** The solution assumes a rectangular grid; its width is the first row's. */
  predicate Rectangular(grid: Grid)
  {
    |grid| > 0 && forall r :: r in grid ==> |r| == |grid[0]|
  }

  predicate InGrid(grid: Grid, x: int, y: int)
    requires Rectangular(grid)
  {
    0 <= y < |grid| && 0 <= x < |grid[0]|
  }

  /** A unit step: each component in -1..1 and not both zero. */
  predicate UnitDir(dx: int, dy: int)
  {
    -1 <= dx <= 1 && -1 <= dy <= 1 && !(dx == 0 && dy == 0)
  }

  /** The coordinate i steps of size d away from x. */
  function Along(x: int, d: int, i: int): int
  {
    x + d * i
  }

  /** The word read from (x, y) in steps of (dx, dy), every letter inside the grid. */
  ghost predicate Occurs(grid: Grid, word: string, x: int, y: int, dx: int, dy: int)
    requires Rectangular(grid)
  {
    forall i :: 0 <= i < |word| ==>
      InGrid(grid, Along(x, dx, i), Along(y, dy, i)) && grid[Along(y, dy, i)][Along(x, dx, i)] == word[i]
  }

  /** Between a start and an end inside [0, bound), every intermediate point of a
      ray with step -1, 0 or 1 is inside as well. */
  lemma RayInside(x: int, dx: int, n: nat, bound: int)
    requires -1 <= dx <= 1 && n >= 1
    requires 0 <= x < bound && 0 <= Along(x, dx, n - 1) < bound
    ensures forall i :: 0 <= i < n ==> 0 <= Along(x, dx, i) < bound
  {
    forall i | 0 <= i < n ensures 0 <= Along(x, dx, i) < bound {
      if dx == 1 {
        assert dx * i == i && dx * (n - 1) == n - 1;
      } else if dx == -1 {
        assert dx * i == -i && dx * (n - 1) == -(n - 1);
      } else {
        assert dx * i == 0;
      }
    }
  }

  /** Does the word start at (x, y) in direction (x_dir, y_dir)? Only unit
      directions are tried; the end letter is bounds-checked, which keeps every
      letter in between inside the grid. */
  function Check(xDir: int, yDir: int, x: int, y: int, grid: Grid, word: string): (r: bool)
    requires Rectangular(grid) && InGrid(grid, x, y)
    ensures r ==> UnitDir(xDir, yDir)
    ensures |word| > 0 ==> (r <==> UnitDir(xDir, yDir) && Occurs(grid, word, x, y, xDir, yDir))
  {
    if xDir < -1 || xDir > 1 || yDir < -1 || yDir > 1 then false
    else if xDir == 0 && yDir == 0 then false
    else
      var width, height := |grid[0]|, |grid|;
      var endX := Along(x, xDir, |word| - 1);
      var endY := Along(y, yDir, |word| - 1);
      if endX < 0 || endX >= width then
        assert |word| > 0 ==> !InGrid(grid, Along(x, xDir, |word| - 1), Along(y, yDir, |word| - 1));
        false
      else if endY < 0 || endY >= height then
        assert |word| > 0 ==> !InGrid(grid, Along(x, xDir, |word| - 1), Along(y, yDir, |word| - 1));
        false
      else
        if |word| == 0 then true
        else
          RayInside(x, xDir, |word|, width);
          RayInside(y, yDir, |word|, height);
          assert forall i :: 0 <= i < |word| ==> grid[Along(y, yDir, i)] in grid;
          forall i :: 0 <= i < |word| ==> grid[Along(y, yDir, i)][Along(x, xDir, i)] == word[i]
  }

  /** Direction number d in 0..9 stands for y_dir = d / 3 - 1, x_dir = d % 3 - 1
      (the two nested -1..=1 loops). */
  function DirCount(grid: Grid, word: string, x: int, y: int, k: nat): (n: nat)
    requires Rectangular(grid) && InGrid(grid, x, y) && k <= 9
    ensures n <= k
  {
    if k == 0 then 0
    else
      var d := k - 1;
      DirCount(grid, word, x, y, d) + (if Check(DirOf(d).0, DirOf(d).1, x, y, grid, word) then 1 else 0)
  }

  /** Matches starting at the first n cells of row y. */
  function RowCount(grid: Grid, word: string, y: int, n: nat): nat
    requires Rectangular(grid) && 0 <= y < |grid| && n <= |grid[0]|
  {
    if n == 0 then 0 else RowCount(grid, word, y, n - 1) + DirCount(grid, word, n - 1, y, 9)
  }

  /** Matches starting in the first m rows. */
  function GridCount(grid: Grid, word: string, m: nat): nat
    requires Rectangular(grid) && m <= |grid|
  {
    if m == 0 then 0 else GridCount(grid, word, m - 1) + RowCount(grid, word, m - 1, |grid[0]|)
  }

  /** The direction (0, 0) never matches, so a cell contributes at most 8. */
  lemma {:induction false} AtMostEightPerCell(grid: Grid, word: string, x: int, y: int, k: nat)
    requires Rectangular(grid) && InGrid(grid, x, y) && k <= 9
    ensures DirCount(grid, word, x, y, k) <= if k <= 4 then k else k - 1
  {
    if k > 0 {
      AtMostEightPerCell(grid, word, x, y, k - 1);
    }
  }

  /** Direction number 3 * (yDir + 1) + (xDir + 1) adds the check of
      (xDir, yDir). */
  lemma DirCountNext(grid: Grid, word: string, x: int, y: int, k: nat, xDir: int, yDir: int)
    requires Rectangular(grid) && InGrid(grid, x, y) && -1 <= xDir <= 1 && -1 <= yDir <= 1
    requires k == 3 * (yDir + 1) + (xDir + 1)
    ensures DirCount(grid, word, x, y, k + 1) ==
      DirCount(grid, word, x, y, k) + (if Check(xDir, yDir, x, y, grid, word) then 1 else 0)
  {
    assert DirOf(k) == (xDir, yDir);
  }

  /** Direction number d in 0..9 as (x_dir, y_dir), that is (d % 3 - 1, d / 3 - 1),
      written row by row of the outer loop. */
  function DirOf(d: int): (int, int)
  {
    if d < 3 then (d - 1, -1) else if d < 6 then (d - 4, 0) else (d - 7, 1)
  }

  /** The two innermost loops of part 1: every pair of directions in -1..=1. */
  method CountAtCell(grid: Grid, word: string, x: int, y: int) returns (count: nat)
    requires Rectangular(grid) && InGrid(grid, x, y)
    ensures count == DirCount(grid, word, x, y, 9)
  {
    count := 0;
    ghost var k := 0;
    var yDir := -1;
    while yDir <= 1
      invariant -1 <= yDir <= 2 && k == 3 * (yDir + 1)
      invariant count == DirCount(grid, word, x, y, k)
    {
      var xDir := -1;
      while xDir <= 1
        invariant -1 <= xDir <= 2 && k == 3 * (yDir + 1) + (xDir + 1)
        invariant count == DirCount(grid, word, x, y, k)
      {
        DirCountNext(grid, word, x, y, k, xDir, yDir);
        var hit := Check(xDir, yDir, x, y, grid, word);
        if hit {
          count := count + 1;
        }
        assert count == DirCount(grid, word, x, y, k + 1);
        xDir := xDir + 1;
        k := k + 1;
      }
      yDir := yDir + 1;
    }
  }

  /** Part 1: every cell, every pair of directions in -1..=1. */
  method CountWord(grid: Grid, word: string) returns (count: nat)
    requires Rectangular(grid)
    ensures count == GridCount(grid, word, |grid|)
  {
    count := 0;
    var y := 0;
    while y < |grid|
      invariant 0 <= y <= |grid|
      invariant count == GridCount(grid, word, y)
    {
      assert grid[y] in grid;
      var x := 0;
      while x < |grid[y]|
        invariant 0 <= x <= |grid[0]|
        invariant count == GridCount(grid, word, y) + RowCount(grid, word, y, x)
      {
        var n := CountAtCell(grid, word, x, y);
        count := count + n;
        x := x + 1;
      }
      y := y + 1;
    }
  }

  type Cell = (char, nat, nat)

  /** The base X-MAS pattern as (letter, y offset, x offset). */
  function Base(): seq<Cell>
  {
    [('M', 0, 0), ('M', 0, 2), ('A', 1, 1), ('S', 2, 0), ('S', 2, 2)]
  }

  function FlipVertical(a: seq<Cell>): (r: seq<Cell>)
    requires forall i :: 0 <= i < |a| ==> a[i].1 <= 2
    ensures |r| == |a|
  {
    seq(|a|, i requires 0 <= i < |a| => (a[i].0, 2 - a[i].1, a[i].2))
  }

  function Transpose(a: seq<Cell>): (r: seq<Cell>)
    ensures |r| == |a|
  {
    seq(|a|, i requires 0 <= i < |a| => (a[i].0, a[i].2, a[i].1))
  }

  /** The base, its vertical flip, its transpose, and the transposed vertical
      flip. */
  function Arrangements(): seq<seq<Cell>>
  {
    var base := Base();
    var flipVertical := FlipVertical(base);
    [base, flipVertical, Transpose(base), Transpose(flipVertical)]
  }

  lemma ArrangementsValue()
    ensures Arrangements() == [
      [('M', 0, 0), ('M', 0, 2), ('A', 1, 1), ('S', 2, 0), ('S', 2, 2)],
      [('M', 2, 0), ('M', 2, 2), ('A', 1, 1), ('S', 0, 0), ('S', 0, 2)],
      [('M', 0, 0), ('M', 2, 0), ('A', 1, 1), ('S', 0, 2), ('S', 2, 2)],
      [('M', 0, 2), ('M', 2, 2), ('A', 1, 1), ('S', 0, 0), ('S', 2, 0)]]
  {
    var base := Base();
    var v := FlipVertical(base);
    assert v == [('M', 2, 0), ('M', 2, 2), ('A', 1, 1), ('S', 0, 0), ('S', 0, 2)] by {
      assert v[0] == ('M', 2, 0) && v[1] == ('M', 2, 2) && v[2] == ('A', 1, 1);
      assert v[3] == ('S', 0, 0) && v[4] == ('S', 0, 2);
    }
    var t := Transpose(base);
    assert t == [('M', 0, 0), ('M', 2, 0), ('A', 1, 1), ('S', 0, 2), ('S', 2, 2)] by {
      assert t[0] == ('M', 0, 0) && t[1] == ('M', 2, 0) && t[2] == ('A', 1, 1);
      assert t[3] == ('S', 0, 2) && t[4] == ('S', 2, 2);
    }
    var b := Transpose(v);
    assert b == [('M', 0, 2), ('M', 2, 2), ('A', 1, 1), ('S', 0, 0), ('S', 2, 0)] by {
      assert b[0] == ('M', 0, 2) && b[1] == ('M', 2, 2) && b[2] == ('A', 1, 1);
      assert b[3] == ('S', 0, 0) && b[4] == ('S', 2, 0);
    }
  }

  /** Four arrangements of five cells each, all inside a 3x3 box, each with 'A'
      in the middle. */
  lemma ArrangementsShape()
    ensures |Arrangements()| == 4
    ensures forall a :: a in Arrangements() ==>
      |a| == 5 && ('A', 1, 1) in a && forall c :: c in a ==> c.1 <= 2 && c.2 <= 2
  {
    ArrangementsValue();
    var arrs := Arrangements();
    assert InBox(arrs[0]) && InBox(arrs[1]) && InBox(arrs[2]) && InBox(arrs[3]);
    forall a | a in arrs
      ensures |a| == 5 && ('A', 1, 1) in a && forall c :: c in a ==> c.1 <= 2 && c.2 <= 2
    {
      assert InBox(a);
    }
  }

  /** Five cells inside the 3x3 box, with 'A' at its centre. */
  predicate InBox(a: seq<Cell>)
  {
    |a| == 5 && ('A', 1, 1) in a && forall c :: c in a ==> c.1 <= 2 && c.2 <= 2
  }

  /** Does some arrangement match completely with its corner at (x, y)? */
  predicate CheckPart2(x: nat, y: nat, grid: Grid, arrangements: seq<seq<Cell>>)
    requires forall a, c :: a in arrangements && c in a ==>
      y + c.1 < |grid| && x + c.2 < |grid[y + c.1]|
  {
    exists a :: a in arrangements && Matches(x, y, grid, a)
  }

  /** Every cell of one arrangement holds its letter. */
  predicate Matches(x: nat, y: nat, grid: Grid, a: seq<Cell>)
    requires forall c :: c in a ==> y + c.1 < |grid| && x + c.2 < |grid[y + c.1]|
  {
    forall c :: c in a ==> grid[y + c.1][x + c.2] == c.0
  }

  /** The intended pattern: 'A' in the middle and each diagonal reading "MAS"
      one way or the other. */
  predicate CrossedMas(grid: Grid, x: nat, y: nat)
    requires Rectangular(grid) && y + 2 < |grid| && x + 2 < |grid[0]|
  {
    assert grid[y] in grid && grid[y + 1] in grid && grid[y + 2] in grid;
    grid[y + 1][x + 1] == 'A' &&
    ((grid[y][x] == 'M' && grid[y + 2][x + 2] == 'S') || (grid[y][x] == 'S' && grid[y + 2][x + 2] == 'M')) &&
    ((grid[y][x + 2] == 'M' && grid[y + 2][x] == 'S') || (grid[y][x + 2] == 'S' && grid[y + 2][x] == 'M'))
  }

  /** Cell `c` of a pattern anchored at (x, y) lies on the grid. */
  predicate CellFits(grid: Grid, x: nat, y: nat, c: Cell)
  {
    y + c.1 < |grid| && x + c.2 < |grid[y + c.1]|
  }

  /** A five-cell arrangement matches iff each of its five cells does. */
  lemma MatchesFive(x: nat, y: nat, grid: Grid, c0: Cell, c1: Cell, c2: Cell, c3: Cell, c4: Cell)
    requires CellFits(grid, x, y, c0) && CellFits(grid, x, y, c1) && CellFits(grid, x, y, c2)
    requires CellFits(grid, x, y, c3) && CellFits(grid, x, y, c4)
    ensures Matches(x, y, grid, [c0, c1, c2, c3, c4]) <==>
      grid[y + c0.1][x + c0.2] == c0.0 && grid[y + c1.1][x + c1.2] == c1.0 &&
      grid[y + c2.1][x + c2.2] == c2.0 && grid[y + c3.1][x + c3.2] == c3.0 &&
      grid[y + c4.1][x + c4.2] == c4.0
  {
    var a := [c0, c1, c2, c3, c4];
    assert a[0] in a && a[1] in a && a[2] in a && a[3] in a && a[4] in a;
  }

  /** What each of the four arrangements asks of the 3x3 window at (x, y). */
  lemma ArrangementMatches(x: nat, y: nat, grid: Grid)
    requires y + 2 < |grid| && x + 2 < |grid[y]| && x + 2 < |grid[y + 1]| && x + 2 < |grid[y + 2]|
    ensures WindowFits(grid, x, y)
    ensures Matches(x, y, grid, Arrangements()[0]) <==>
      grid[y][x] == 'M' && grid[y][x + 2] == 'M' && grid[y + 1][x + 1] == 'A' && grid[y + 2][x] == 'S' && grid[y + 2][x + 2] == 'S'
    ensures Matches(x, y, grid, Arrangements()[1]) <==>
      grid[y + 2][x] == 'M' && grid[y + 2][x + 2] == 'M' && grid[y + 1][x + 1] == 'A' && grid[y][x] == 'S' && grid[y][x + 2] == 'S'
    ensures Matches(x, y, grid, Arrangements()[2]) <==>
      grid[y][x] == 'M' && grid[y + 2][x] == 'M' && grid[y + 1][x + 1] == 'A' && grid[y][x + 2] == 'S' && grid[y + 2][x + 2] == 'S'
    ensures Matches(x, y, grid, Arrangements()[3]) <==>
      grid[y][x + 2] == 'M' && grid[y + 2][x + 2] == 'M' && grid[y + 1][x + 1] == 'A' && grid[y][x] == 'S' && grid[y + 2][x] == 'S'
  {
    WindowFitsProof(grid, x, y);
    BaseMatches(x, y, grid);
    FlipVerticalMatches(x, y, grid);
    TransposeMatches(x, y, grid);
    BothFlipMatches(x, y, grid);
  }

  /** The letters the base pattern asks for. */
  lemma BaseMatches(x: nat, y: nat, grid: Grid)
    requires y + 2 < |grid| && x + 2 < |grid[y]| && x + 2 < |grid[y + 1]| && x + 2 < |grid[y + 2]|
    requires WindowFits(grid, x, y)
    ensures Matches(x, y, grid, Arrangements()[0]) <==>
      grid[y][x] == 'M' && grid[y][x + 2] == 'M' && grid[y + 1][x + 1] == 'A' && grid[y + 2][x] == 'S' && grid[y + 2][x + 2] == 'S'
  {
    assert Arrangements()[0] == [('M', 0, 0), ('M', 0, 2), ('A', 1, 1), ('S', 2, 0), ('S', 2, 2)] by { ArrangementsValue(); }
    MatchesFive(x, y, grid, ('M', 0, 0), ('M', 0, 2), ('A', 1, 1), ('S', 2, 0), ('S', 2, 2));
  }

  /** The letters the vertical flip asks for. */
  lemma FlipVerticalMatches(x: nat, y: nat, grid: Grid)
    requires y + 2 < |grid| && x + 2 < |grid[y]| && x + 2 < |grid[y + 1]| && x + 2 < |grid[y + 2]|
    requires WindowFits(grid, x, y)
    ensures Matches(x, y, grid, Arrangements()[1]) <==>
      grid[y + 2][x] == 'M' && grid[y + 2][x + 2] == 'M' && grid[y + 1][x + 1] == 'A' && grid[y][x] == 'S' && grid[y][x + 2] == 'S'
  {
    assert Arrangements()[1] == [('M', 2, 0), ('M', 2, 2), ('A', 1, 1), ('S', 0, 0), ('S', 0, 2)] by { ArrangementsValue(); }
    MatchesFive(x, y, grid, ('M', 2, 0), ('M', 2, 2), ('A', 1, 1), ('S', 0, 0), ('S', 0, 2));
  }

  /** The letters the transpose asks for. */
  lemma TransposeMatches(x: nat, y: nat, grid: Grid)
    requires y + 2 < |grid| && x + 2 < |grid[y]| && x + 2 < |grid[y + 1]| && x + 2 < |grid[y + 2]|
    requires WindowFits(grid, x, y)
    ensures Matches(x, y, grid, Arrangements()[2]) <==>
      grid[y][x] == 'M' && grid[y + 2][x] == 'M' && grid[y + 1][x + 1] == 'A' && grid[y][x + 2] == 'S' && grid[y + 2][x + 2] == 'S'
  {
    assert Arrangements()[2] == [('M', 0, 0), ('M', 2, 0), ('A', 1, 1), ('S', 0, 2), ('S', 2, 2)] by { ArrangementsValue(); }
    MatchesFive(x, y, grid, ('M', 0, 0), ('M', 2, 0), ('A', 1, 1), ('S', 0, 2), ('S', 2, 2));
  }

  /** The letters the transposed vertical flip asks for. */
  lemma BothFlipMatches(x: nat, y: nat, grid: Grid)
    requires y + 2 < |grid| && x + 2 < |grid[y]| && x + 2 < |grid[y + 1]| && x + 2 < |grid[y + 2]|
    requires WindowFits(grid, x, y)
    ensures Matches(x, y, grid, Arrangements()[3]) <==>
      grid[y][x + 2] == 'M' && grid[y + 2][x + 2] == 'M' && grid[y + 1][x + 1] == 'A' && grid[y][x] == 'S' && grid[y + 2][x] == 'S'
  {
    assert Arrangements()[3] == [('M', 0, 2), ('M', 2, 2), ('A', 1, 1), ('S', 0, 0), ('S', 2, 0)] by { ArrangementsValue(); }
    MatchesFive(x, y, grid, ('M', 0, 2), ('M', 2, 2), ('A', 1, 1), ('S', 0, 0), ('S', 2, 0));
  }

  /** The four arrangements recognise exactly the crossed "MAS" windows. */
  lemma CheckPart2IsCrossedMas(grid: Grid, x: nat, y: nat)
    requires Rectangular(grid) && y + 2 < |grid| && x + 2 < |grid[0]|
    ensures WindowFits(grid, x, y)
    ensures CheckPart2(x, y, grid, Arrangements()) <==> CrossedMas(grid, x, y)
  {
    assert grid[y] in grid && grid[y + 1] in grid && grid[y + 2] in grid;
    ArrangementMatches(x, y, grid);
    ArrangementsShape();
    CheckPart2Four(x, y, grid, Arrangements());
  }

  lemma CheckPart2Four(x: nat, y: nat, grid: Grid, arrs: seq<seq<Cell>>)
    requires |arrs| == 4
    requires forall a, c :: a in arrs && c in a ==> y + c.1 < |grid| && x + c.2 < |grid[y + c.1]|
    ensures CheckPart2(x, y, grid, arrs) <==>
      Matches(x, y, grid, arrs[0]) || Matches(x, y, grid, arrs[1]) ||
      Matches(x, y, grid, arrs[2]) || Matches(x, y, grid, arrs[3])
  {
    assert arrs[0] in arrs && arrs[1] in arrs && arrs[2] in arrs && arrs[3] in arrs;
    if CheckPart2(x, y, grid, arrs) {
      var a :| a in arrs && Matches(x, y, grid, a);
      assert a == arrs[0] || a == arrs[1] || a == arrs[2] || a == arrs[3];
    }
  }

  /** Every offset of every arrangement stays inside the grid when the corner is
      at most width - 3, height - 3. */
  predicate WindowFits(grid: Grid, x: nat, y: nat)
  {
    forall a, c :: a in Arrangements() && c in a ==> y + c.1 < |grid| && x + c.2 < |grid[y + c.1]|
  }

  lemma WindowFitsProof(grid: Grid, x: nat, y: nat)
    requires y + 2 < |grid| && x + 2 < |grid[y]| && x + 2 < |grid[y + 1]| && x + 2 < |grid[y + 2]|
    ensures WindowFits(grid, x, y)
  {
    forall a, c | a in Arrangements() && c in a
      ensures y + c.1 < |grid| && x + c.2 < |grid[y + c.1]|
    {
      assert c.1 <= 2 && c.2 <= 2 by {
        ArrangementsShape();
      }
      var row := c.1;
      assert row == 0 || row == 1 || row == 2;
    }
  }

  /** Crossed-MAS windows with their corner in the first n columns of row y. */
  function MasRowCount(grid: Grid, y: nat, n: nat): nat
    requires Rectangular(grid) && y + 2 < |grid| && n + 2 <= |grid[0]|
  {
    if n == 0 then 0 else MasRowCount(grid, y, n - 1) + (if CrossedMas(grid, n - 1, y) then 1 else 0)
  }

  /** Crossed-MAS windows with their corner in the first m rows. */
  function MasCount(grid: Grid, m: nat): nat
    requires Rectangular(grid) && m + 2 <= |grid| && |grid[0]| >= 2
  {
    if m == 0 then 0 else MasCount(grid, m - 1) + MasRowCount(grid, m - 1, |grid[0]| - 2)
  }

  /** Part 2: corners range over 0..height-2 by 0..width-2 (the usize
      subtractions need a grid of at least 2x2). */
  method CountCrossedMas(grid: Grid) returns (count: nat)
    requires Rectangular(grid) && |grid| >= 2 && |grid[0]| >= 2
    ensures count == MasCount(grid, |grid| - 2)
  {
    var yBound := |grid| - 2;
    var xBound := |grid[0]| - 2;
    var arrangements := Arrangements();
    count := 0;
    var y := 0;
    while y < yBound
      invariant 0 <= y <= yBound
      invariant count == MasCount(grid, y)
    {
      var x := 0;
      while x < xBound
        invariant 0 <= x <= xBound
        invariant count == MasCount(grid, y) + MasRowCount(grid, y, x)
      {
        CheckPart2IsCrossedMas(grid, x, y);
        if CheckPart2(x, y, grid, arrangements) {
          count := count + 1;
        }
        assert count == MasCount(grid, y) + MasRowCount(grid, y, x + 1);
        x := x + 1;
      }
      y := y + 1;
    }
  }
}
