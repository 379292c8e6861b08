/** Day 8: antennas of the same frequency create antinodes. Part 1 takes the two
    reflections of every same-frequency pair through each other; part 2 takes
    every grid cell on a line through such a pair. */
module Day08 {
  import opened Common

  type Pos = (nat, nat)

  /** The map's size and, for each frequency character, the antenna positions
      (row, column) in raster order. */
  datatype Map = Map(height: nat, width: nat, nodes: map<char, seq<Pos>>)

  /** The grid cells in raster order, tagged with their characters. */
  function RowCells(row: seq<char>, y: nat): (r: seq<(char, Pos)>)
    ensures |r| == |row| && forall x :: 0 <= x < |row| ==> r[x] == (row[x], (y, x))
  {
    seq(|row|, x requires 0 <= x < |row| => (row[x], (y, x)))
  }

  function GridCells(grid: seq<seq<char>>): (r: seq<(char, Pos)>)
    ensures forall c, p :: (c, p) in r <==> p.0 < |grid| && p.1 < |grid[p.0]| && grid[p.0][p.1] == c
  {
    if grid == [] then []
    else
      var y := |grid| - 1;
      var init := GridCells(grid[..y]);
      var r := init + RowCells(grid[y], y);
      assert forall c, p :: (c, p) in r <==> (c, p) in init || (c, p) in RowCells(grid[y], y);
      assert forall c, p :: (c, p) in RowCells(grid[y], y) <==> p.0 == y && p.1 < |grid[y]| && grid[y][p.1] == c by {
        forall c, p | (c, p) in RowCells(grid[y], y) ensures p.0 == y && p.1 < |grid[y]| && grid[y][p.1] == c {
          var k :| 0 <= k < |grid[y]| && RowCells(grid[y], y)[k] == (c, p);
        }
        forall c: char, p: Pos | p.0 == y && p.1 < |grid[y]| && grid[y][p.1] == c ensures (c, p) in RowCells(grid[y], y) {
          assert RowCells(grid[y], y)[p.1] == (c, p);
        }
      }
      r
  }

  /** The fold of the constructor: every character other than '.' collects its
      positions, pushed in order. */
  function GroupCells(cells: seq<(char, Pos)>): (nodes: map<char, seq<Pos>>)
    ensures forall c :: c in nodes ==> c != '.'
    ensures forall c, p :: c in nodes && p in nodes[c] ==> (c, p) in cells
    ensures forall c, p :: c != '.' && (c, p) in cells ==> c in nodes && p in nodes[c]
  {
    if cells == [] then map[]
    else
      var init := cells[..|cells| - 1];
      var (c, p) := cells[|cells| - 1];
      var nodes := GroupCells(init);
      assert cells == init + [(c, p)];
      if c == '.' then nodes
      else nodes[c := (if c in nodes then nodes[c] else []) + [p]]
  }

  /** Building the map: the height is the number of lines and the width the
      length of the first line (the solution unwraps it, so the input must not
      be empty). Antennas are exactly the non-'.' cells. */
  function Parse(grid: seq<seq<char>>): (m: Map)
    requires |grid| > 0
    ensures m.height == |grid| && m.width == |grid[0]|
    ensures forall c: char, p: Pos :: (c in m.nodes && p in m.nodes[c]) <==>
      (c != '.' && p.0 < |grid| && p.1 < |grid[p.0]| && grid[p.0][p.1] == c)
  {
    var cells := GridCells(grid);
    var nodes := GroupCells(cells);
    forall c: char, p: Pos ensures (c in nodes && p in nodes[c]) <==>
      (c != '.' && p.0 < |grid| && p.1 < |grid[p.0]| && grid[p.0][p.1] == c)
    {
      if c in nodes && p in nodes[c] {
        assert (c, p) in cells;
      }
      if c != '.' && p.0 < |grid| && p.1 < |grid[p.0]| && grid[p.0][p.1] == c {
        assert (c, p) in cells;
      }
    }
    Map(|grid|, |grid[0]|, nodes)
  }

  predicate InBounds(m: Map, c: (int, int))
  {
    0 <= c.0 < m.height && 0 <= c.1 < m.width
  }

  /** The reflection of a through b, on one axis. */
  function Consec(a: nat, b: nat): (r: int)
    ensures r - b == b - a
  {
    2 * b - a
  }

  /** Cross product of b - a and c - a is zero. */
  predicate Collinear(a: Pos, b: Pos, c: Pos)
  {
    var v1 := (b.0 - a.0, b.1 - a.1);
    var v2 := (c.0 - a.0, c.1 - a.1);
    v1.0 * v2.1 - v1.1 * v2.0 == 0
  }

  /** A reflection of a through b, or of b through a, lies on the line ab. */
  lemma ReflectionsCollinear(a: Pos, b: Pos)
    ensures forall c: Pos :: c.0 == Consec(a.0, b.0) && c.1 == Consec(a.1, b.1) ==> Collinear(a, b, c)
    ensures forall c: Pos :: c.0 == Consec(b.0, a.0) && c.1 == Consec(b.1, a.1) ==> Collinear(a, b, c)
  {
    forall c: Pos | c.0 == Consec(a.0, b.0) && c.1 == Consec(a.1, b.1) ensures Collinear(a, b, c) {
      var d0, d1 := b.0 - a.0, b.1 - a.1;
      assert c.0 - a.0 == 2 * d0 && c.1 - a.1 == 2 * d1;
      assert d0 * (2 * d1) - d1 * (2 * d0) == 0;
    }
    forall c: Pos | c.0 == Consec(b.0, a.0) && c.1 == Consec(b.1, a.1) ensures Collinear(a, b, c) {
      var d0, d1 := b.0 - a.0, b.1 - a.1;
      assert c.0 - a.0 == -d0 && c.1 - a.1 == -d1;
      assert d0 * (-d1) - d1 * (-d0) == 0;
    }
  }

  /** p is the reflection of a through b or of b through a. */
  predicate Reflects(p: Pos, a: Pos, b: Pos)
  {
    (p.0 == Consec(a.0, b.0) && p.1 == Consec(a.1, b.1)) || (p.0 == Consec(b.0, a.0) && p.1 == Consec(b.1, a.1))
  }

  /** tuple_combinations: the pairs (locs[i], locs[j]) with i < j, in order. */
  function Pairs(locs: seq<Pos>): (r: seq<(Pos, Pos)>)
    ensures forall a, b :: (a, b) in r <==> exists i, j :: 0 <= i < j < |locs| && a == locs[i] && b == locs[j]
  {
    if |locs| == 0 then []
    else
      var first := seq(|locs| - 1, k requires 0 <= k < |locs| - 1 => (locs[0], locs[k + 1]));
      var rest := Pairs(locs[1..]);
      forall a, b | (a, b) in rest ensures exists i, j :: 0 <= i < j < |locs| && a == locs[i] && b == locs[j] {
        var i, j :| 0 <= i < j < |locs| - 1 && a == locs[1..][i] && b == locs[1..][j];
        assert a == locs[i + 1] && b == locs[j + 1];
      }
      forall a, b | (a, b) in first ensures exists i, j :: 0 <= i < j < |locs| && a == locs[i] && b == locs[j] {
        var k :| 0 <= k < |locs| - 1 && first[k] == (a, b);
        assert a == locs[0] && b == locs[k + 1];
      }
      forall i, j | 0 <= i < j < |locs| ensures (locs[i], locs[j]) in first + rest {
        if i == 0 {
          assert first[j - 1] == (locs[i], locs[j]);
        } else {
          assert locs[i] == locs[1..][i - 1] && locs[j] == locs[1..][j - 1];
        }
      }
      first + rest
  }

  /** Both reflections of a pair, kept when inside the map. */
  function PairAntinodes(m: Map, a: Pos, b: Pos): (r: seq<Pos>)
    ensures forall p :: p in r <==> p.0 < m.height && p.1 < m.width && Reflects(p, a, b)
  {
    var c1 := (Consec(a.0, b.0), Consec(a.1, b.1));
    var c2 := (Consec(b.0, a.0), Consec(b.1, a.1));
    (if InBounds(m, c1) then [(c1.0 as nat, c1.1 as nat)] else []) +
    (if InBounds(m, c2) then [(c2.0 as nat, c2.1 as nat)] else [])
  }

  function PairsAntinodes(m: Map, pairs: seq<(Pos, Pos)>): (r: seq<Pos>)
    ensures forall p :: p in r <==> exists k :: 0 <= k < |pairs| && p in PairAntinodes(m, pairs[k].0, pairs[k].1)
  {
    if pairs == [] then []
    else
      var rest := PairsAntinodes(m, pairs[1..]);
      forall p | p in rest ensures exists k :: 0 <= k < |pairs| && p in PairAntinodes(m, pairs[k].0, pairs[k].1) {
        var k :| 0 <= k < |pairs| - 1 && p in PairAntinodes(m, pairs[1..][k].0, pairs[1..][k].1);
        assert pairs[1..][k] == pairs[k + 1];
      }
      forall p, k | 0 <= k < |pairs| && p in PairAntinodes(m, pairs[k].0, pairs[k].1)
        ensures p in PairAntinodes(m, pairs[0].0, pairs[0].1) + rest
      {
        if k > 0 {
          assert pairs[k] == pairs[1..][k - 1];
        }
      }
      PairAntinodes(m, pairs[0].0, pairs[0].1) + rest
  }

  /** The flat_map over the frequencies, visited in the order keys gives. */
  function KeysAntinodes(m: Map, keys: seq<char>): (r: seq<Pos>)
    requires forall c :: c in keys ==> c in m.nodes
    ensures forall p :: p in r <==> exists c :: c in keys && p in PairsAntinodes(m, Pairs(m.nodes[c]))
  {
    if keys == [] then []
    else
      var rest := KeysAntinodes(m, keys[1..]);
      assert forall c :: c in keys <==> c == keys[0] || c in keys[1..];
      PairsAntinodes(m, Pairs(m.nodes[keys[0]])) + rest
  }

  /** A reflection of one antenna through another of the same frequency. */
  ghost predicate IsAntinode1(m: Map, p: Pos)
  {
    p.0 < m.height && p.1 < m.width &&
    exists c, i, j :: c in m.nodes && 0 <= i < j < |m.nodes[c]| && Reflects(p, m.nodes[c][i], m.nodes[c][j])
  }

  /** keys lists each frequency of the map once (the HashMap's iteration order). */
  predicate Enumerates(m: Map, keys: seq<char>)
  {
    NoDuplicates(keys) && forall c :: c in keys <==> c in m.nodes
  }

  lemma KeysAntinodesSound(m: Map, keys: seq<char>, p: Pos)
    requires forall c :: c in keys ==> c in m.nodes
    requires p in KeysAntinodes(m, keys)
    ensures IsAntinode1(m, p)
  {
    var c :| c in keys && p in PairsAntinodes(m, Pairs(m.nodes[c]));
    var pairs := Pairs(m.nodes[c]);
    var k :| 0 <= k < |pairs| && p in PairAntinodes(m, pairs[k].0, pairs[k].1);
    assert pairs[k] in pairs;
    var i, j :| 0 <= i < j < |m.nodes[c]| && pairs[k].0 == m.nodes[c][i] && pairs[k].1 == m.nodes[c][j];
    assert Reflects(p, m.nodes[c][i], m.nodes[c][j]);
  }

  lemma KeysAntinodesComplete(m: Map, keys: seq<char>, p: Pos)
    requires Enumerates(m, keys)
    requires IsAntinode1(m, p)
    ensures p in KeysAntinodes(m, keys)
  {
    var c, i, j :| c in m.nodes && 0 <= i < j < |m.nodes[c]| && Reflects(p, m.nodes[c][i], m.nodes[c][j]);
    var pairs := Pairs(m.nodes[c]);
    var (a, b) := (m.nodes[c][i], m.nodes[c][j]);
    assert (a, b) in pairs;
    var k :| 0 <= k < |pairs| && pairs[k] == (a, b);
    assert p in PairAntinodes(m, pairs[k].0, pairs[k].1);
    assert p in PairsAntinodes(m, pairs);
  }

  /** Part 1's list: duplicate-free, and holding exactly the in-bounds
      reflections of every same-frequency pair, whatever the key order. */
  function Antinodes1(m: Map, keys: seq<char>): (r: seq<Pos>)
    requires Enumerates(m, keys)
    ensures NoDuplicates(r)
    ensures forall p :: p in r <==> IsAntinode1(m, p)
  {
    var r := Unique(KeysAntinodes(m, keys));
    forall p ensures p in r <==> IsAntinode1(m, p) {
      if p in r {
        KeysAntinodesSound(m, keys, p);
      }
      if IsAntinode1(m, p) {
        KeysAntinodesComplete(m, keys, p);
      }
    }
    r
  }

  /** Some pair of same-frequency antennas is collinear with p. */
  ghost predicate Aligned(m: Map, p: Pos)
  {
    exists c, i, j :: c in m.nodes && 0 <= i < j < |m.nodes[c]| && Collinear(m.nodes[c][i], m.nodes[c][j], p)
  }

  /** aligned: any frequency, any pair (tuple_combinations), collinear. */
  predicate AlignedCheck(m: Map, p: Pos, keys: seq<char>)
    requires forall c :: c in keys ==> c in m.nodes
  {
    exists k :: 0 <= k < |keys| && exists pr :: pr in Pairs(m.nodes[keys[k]]) && Collinear(pr.0, pr.1, p)
  }

  lemma AlignedCheckSound(m: Map, p: Pos, keys: seq<char>)
    requires Enumerates(m, keys)
    requires AlignedCheck(m, p, keys)
    ensures Aligned(m, p)
  {
    var k :| 0 <= k < |keys| && exists pr :: pr in Pairs(m.nodes[keys[k]]) && Collinear(pr.0, pr.1, p);
    var c := keys[k];
    var pr :| pr in Pairs(m.nodes[c]) && Collinear(pr.0, pr.1, p);
    var i, j :| 0 <= i < j < |m.nodes[c]| && pr.0 == m.nodes[c][i] && pr.1 == m.nodes[c][j];
    assert Collinear(m.nodes[c][i], m.nodes[c][j], p);
  }

  lemma AlignedCheckComplete(m: Map, p: Pos, keys: seq<char>)
    requires Enumerates(m, keys)
    requires Aligned(m, p)
    ensures AlignedCheck(m, p, keys)
  {
    var c, i, j :| c in m.nodes && 0 <= i < j < |m.nodes[c]| && Collinear(m.nodes[c][i], m.nodes[c][j], p);
    var k :| 0 <= k < |keys| && keys[k] == c;
    var pr := (m.nodes[c][i], m.nodes[c][j]);
    assert pr in Pairs(m.nodes[keys[k]]) && Collinear(pr.0, pr.1, p);
  }

  /** The cells of row y, left to right. */
  function Row(y: nat, width: nat): (r: seq<Pos>)
    ensures |r| == width && forall x :: 0 <= x < width ==> r[x] == (y, x)
  {
    seq(width, x requires 0 <= x < width => (y, x))
  }

  /** The cartesian product 0..height x 0..width in order. */
  function Cells(height: nat, width: nat): (r: seq<Pos>)
    ensures NoDuplicates(r)
    ensures forall p :: p in r <==> p.0 < height && p.1 < width
    ensures forall i :: 0 <= i < |r| ==> r[i].0 < height
  {
    if height == 0 then []
    else
      var init := Cells(height - 1, width);
      var row := Row(height - 1, width);
      forall p: Pos | p.0 < height && p.1 < width ensures p in init + row {
        if p.0 == height - 1 {
          assert row[p.1] == p;
        }
      }
      init + row
  }

  function Filter(m: Map, keys: seq<char>, s: seq<Pos>): (r: seq<Pos>)
    requires forall c :: c in keys ==> c in m.nodes
    ensures NoDuplicates(s) ==> NoDuplicates(r)
    ensures forall p :: p in r <==> p in s && AlignedCheck(m, p, keys)
  {
    if s == [] then []
    else
      var rest := Filter(m, keys, s[1..]);
      assert forall p :: p in s <==> p == s[0] || p in s[1..];
      if AlignedCheck(m, s[0], keys) then [s[0]] + rest else rest
  }

  /** Part 2's list: exactly the grid cells aligned with some same-frequency
      pair, each once. */
  function Antinodes2(m: Map, keys: seq<char>): (r: seq<Pos>)
    requires Enumerates(m, keys)
    ensures NoDuplicates(r)
    ensures forall p :: p in r <==> p.0 < m.height && p.1 < m.width && Aligned(m, p)
  {
    var r := Filter(m, keys, Cells(m.height, m.width));
    forall p ensures AlignedCheck(m, p, keys) <==> Aligned(m, p) {
      if AlignedCheck(m, p, keys) {
        AlignedCheckSound(m, p, keys);
      }
      if Aligned(m, p) {
        AlignedCheckComplete(m, p, keys);
      }
    }
    r
  }

  /** Every part 1 antinode is a part 2 antinode, since a reflection lies on the
      line through its pair. */
  lemma Antinodes1WithinAntinodes2(m: Map, keys: seq<char>)
    requires Enumerates(m, keys)
    ensures forall p :: p in Antinodes1(m, keys) ==> p in Antinodes2(m, keys)
  {
    forall p | p in Antinodes1(m, keys) ensures p in Antinodes2(m, keys) {
      Antinode1IsAligned(m, p);
    }
  }

  lemma Antinode1IsAligned(m: Map, p: Pos)
    requires IsAntinode1(m, p)
    ensures Aligned(m, p)
  {
    var c, i, j :| c in m.nodes && 0 <= i < j < |m.nodes[c]| && Reflects(p, m.nodes[c][i], m.nodes[c][j]);
    ReflectionsCollinear(m.nodes[c][i], m.nodes[c][j]);
    assert Collinear(m.nodes[c][i], m.nodes[c][j], p);
  }

  lemma DistinctSubsetCount(a: seq<Pos>, b: seq<Pos>)
    requires NoDuplicates(a) && NoDuplicates(b)
    requires forall x :: x in a ==> x in b
    ensures |a| <= |b|
  {
    DistinctCount(a);
    DistinctCount(b);
    var sa, sb := set x | x in a, set x | x in b;
    assert sb == sa + (sb - sa);
    assert sa * (sb - sa) == {};
  }

  /** Part 1 counts no more antinodes than part 2. */
  lemma Part1AtMostPart2(m: Map, keys: seq<char>)
    requires Enumerates(m, keys)
    ensures |Antinodes1(m, keys)| <= |Antinodes2(m, keys)|
  {
    Antinodes1WithinAntinodes2(m, keys);
    DistinctSubsetCount(Antinodes1(m, keys), Antinodes2(m, keys));
  }
}
