/** Day 25: code chronicle. The input is a list of schematics, eight lines
    each (seven drawn rows and a blank separator). A schematic whose top
    row is all '#' is a lock, any other a key; each becomes five column
    heights, the '#' count of rows two to six. A lock and a key fit when no
    column sums past five. */
module Day25 {
  type Heights = seq<nat>

  predicate AllHash(line: string)
  {
    forall i :: 0 <= i < |line| ==> line[i] == '#'
  }

  /** Rows two to six of a schematic are five wide, as the 5x5 matrix of
      the source needs. */
  predicate RowsFive(chunk: seq<string>)
  {
    |chunk| >= 6 && forall r :: 1 <= r <= 5 ==> |chunk[r]| == 5
  }

  /** Every full eight-line chunk is a well-drawn schematic. */
  predicate Framed(lines: seq<string>)
  {
    forall k :: 0 <= k < |lines| / 8 ==> RowsFive(Chunk(lines, k))
  }

  /** A trailing seven-line schematic, if any, is well drawn. */
  predicate TailFramed(lines: seq<string>)
  {
    |lines| % 8 == 7 ==> RowsFive(lines[|lines| - 7..])
  }

  /** The k-th eight-line chunk. */
  function Chunk(lines: seq<string>, k: nat): (r: seq<string>)
    requires 8 * k + 8 <= |lines|
    ensures |r| == 8 && forall i :: 0 <= i < 8 ==> r[i] == lines[8 * k + i]
  {
    lines[8 * k..8 * k + 8]
  }

  // Column heights.

  /** The number of rows with '#' in column c. */
  function ColumnHeight(rows: seq<string>, c: nat): (h: nat)
    requires forall r :: 0 <= r < |rows| ==> c < |rows[r]|
    ensures h <= |rows|
  {
    if rows == [] then 0
    else ColumnHeight(rows[..|rows| - 1], c) + (if rows[|rows| - 1][c] == '#' then 1 else 0)
  }

  /** Column c read top to bottom. */
  function Column(rows: seq<string>, c: nat): seq<char>
    requires forall r :: 0 <= r < |rows| ==> c < |rows[r]|
  {
    seq(|rows|, r requires 0 <= r < |rows| => rows[r][c])
  }

  /** The height is the number of '#' cells in the column. */
  lemma {:induction false} ColumnHeightCount(rows: seq<string>, c: nat)
    requires forall r :: 0 <= r < |rows| ==> c < |rows[r]|
    ensures ColumnHeight(rows, c) == multiset(Column(rows, c))['#']
  {
    if rows != [] {
      var init := rows[..|rows| - 1];
      ColumnHeightCount(init, c);
      assert Column(rows, c) == Column(init, c) + [rows[|rows| - 1][c]];
    }
  }

  /** The five column heights of a 5x5 block of rows. */
  function HeightsOf(rows: seq<string>): (h: Heights)
    requires |rows| == 5 && forall r :: 0 <= r < 5 ==> |rows[r]| == 5
    ensures |h| == 5 && forall c :: 0 <= c < 5 ==> h[c] == ColumnHeight(rows, c) <= 5
  {
    seq(5, c requires 0 <= c < 5 => ColumnHeight(rows, c))
  }

  /** The heights of the k-th schematic. */
  function SchematicHeights(lines: seq<string>, k: nat): (h: Heights)
    requires k < |lines| / 8 && Framed(lines)
    ensures |h| == 5 && forall c :: 0 <= c < 5 ==> h[c] <= 5
  {
    var chunk := Chunk(lines, k);
    assert RowsFive(chunk);
    HeightsOf(chunk[1..6])
  }

  // Parsing: locks and keys.

  /** The locks among the first n schematics, in order. */
  function Locks(lines: seq<string>, n: nat): (r: seq<Heights>)
    requires n <= |lines| / 8 && Framed(lines)
    ensures forall i :: 0 <= i < |r| ==> Bounded(r[i])
  {
    if n == 0 then []
    else if AllHash(lines[8 * (n - 1)]) then Locks(lines, n - 1) + [SchematicHeights(lines, n - 1)]
    else Locks(lines, n - 1)
  }

  /** The keys among the first n schematics, in order. */
  function Keys(lines: seq<string>, n: nat): (r: seq<Heights>)
    requires n <= |lines| / 8 && Framed(lines)
    ensures forall i :: 0 <= i < |r| ==> Bounded(r[i])
  {
    if n == 0 then []
    else if AllHash(lines[8 * (n - 1)]) then Keys(lines, n - 1)
    else Keys(lines, n - 1) + [SchematicHeights(lines, n - 1)]
  }

  /** Each of the first n schematics is a lock or a key. */
  lemma {:induction false} LocksAndKeysCount(lines: seq<string>, n: nat)
    requires n <= |lines| / 8 && Framed(lines)
    ensures |Locks(lines, n)| + |Keys(lines, n)| == n
  {
    if n > 0 {
      LocksAndKeysCount(lines, n - 1);
    }
  }

  /** A schematic is a lock exactly when its top row is all '#'. */
  lemma {:induction false} LocksMembers(lines: seq<string>, n: nat, h: Heights)
    requires n <= |lines| / 8 && Framed(lines)
    ensures h in Locks(lines, n) <==> exists k :: 0 <= k < n && AllHash(lines[8 * k]) && h == SchematicHeights(lines, k)
  {
    if n > 0 {
      LocksMembers(lines, n - 1, h);
      if h in Locks(lines, n) && h !in Locks(lines, n - 1) {
        assert AllHash(lines[8 * (n - 1)]) && h == SchematicHeights(lines, n - 1);
      }
    }
  }

  /** Every other schematic is a key. */
  lemma {:induction false} KeysMembers(lines: seq<string>, n: nat, h: Heights)
    requires n <= |lines| / 8 && Framed(lines)
    ensures h in Keys(lines, n) <==> exists k :: 0 <= k < n && !AllHash(lines[8 * k]) && h == SchematicHeights(lines, k)
  {
    if n > 0 {
      KeysMembers(lines, n - 1, h);
      if h in Keys(lines, n) && h !in Keys(lines, n - 1) {
        assert !AllHash(lines[8 * (n - 1)]) && h == SchematicHeights(lines, n - 1);
      }
    }
  }

  predicate Bounded(h: Heights)
  {
    |h| == 5 && forall c :: 0 <= c < 5 ==> h[c] <= 5
  }

  /** get_locks_and_keys as written: the for_each over array_chunks of
      eight lines. A trailing partial chunk is dropped. */
  method ParseChunks(lines: seq<string>) returns (locks: seq<Heights>, keys: seq<Heights>)
    requires Framed(lines)
    ensures locks == Locks(lines, |lines| / 8) && keys == Keys(lines, |lines| / 8)
  {
    locks, keys := [], [];
    var k := 0;
    while k < |lines| / 8
      invariant k <= |lines| / 8
      invariant locks == Locks(lines, k) && keys == Keys(lines, k)
    {
      var chunk := Chunk(lines, k);
      assert RowsFive(chunk);
      var heights := HeightsOf(chunk[1..6]);
      if AllHash(chunk[0]) {
        locks := locks + [heights];
      } else {
        keys := keys + [heights];
      }
      k := k + 1;
    }
  }

  /** A file of n schematics whose last line is the last schematic's
      bottom row has 8n - 1 lines; array_chunks then yields n - 1 chunks,
      so the last schematic is neither a lock nor a key. */
  lemma LastSchematicDropped(lines: seq<string>)
    requires Framed(lines) && |lines| % 8 == 7
    ensures |Locks(lines, |lines| / 8)| + |Keys(lines, |lines| / 8)| == (|lines| + 1) / 8 - 1
  {
    LocksAndKeysCount(lines, |lines| / 8);
  }

  /** The lines with the separator the last schematic lacks restored. */
  function Padded(lines: seq<string>): (r: seq<string>)
    ensures |r| / 8 == (|lines| + 1) / 8 && |lines| <= |r|
    ensures r[..|lines|] == lines
  {
    if |lines| % 8 == 7 then lines + [""] else lines
  }

  lemma PaddedFramed(lines: seq<string>)
    requires Framed(lines) && TailFramed(lines)
    ensures Framed(Padded(lines))
  {
    var p := Padded(lines);
    forall k | 0 <= k < |p| / 8
      ensures RowsFive(Chunk(p, k))
    {
      if k < |lines| / 8 {
        assert Chunk(p, k) == Chunk(lines, k);
      } else {
        assert Chunk(p, k)[..7] == lines[|lines| - 7..];
      }
    }
  }

  /** Parsing every schematic, the last one included: each of the
      (|lines| + 1) / 8 schematics is a lock or a key. */
  method Parse(lines: seq<string>) returns (locks: seq<Heights>, keys: seq<Heights>)
    requires Framed(lines)
    requires TailFramed(lines)
    ensures Framed(Padded(lines))
    ensures locks == Locks(Padded(lines), (|lines| + 1) / 8) && keys == Keys(Padded(lines), (|lines| + 1) / 8)
    ensures |locks| + |keys| == (|lines| + 1) / 8
  {
    PaddedFramed(lines);
    locks, keys := ParseChunks(Padded(lines));
    LocksAndKeysCount(Padded(lines), (|lines| + 1) / 8);
  }

  // Matching.

  /** The largest component: Vector5::max. */
  function MaxOf(v: seq<nat>): (m: nat)
    requires |v| > 0
  {
    if |v| == 1 then v[0] else var rest := MaxOf(v[..|v| - 1]); if v[|v| - 1] > rest then v[|v| - 1] else rest
  }

  lemma {:induction false} MaxOfAtMost(v: seq<nat>, b: nat)
    requires |v| > 0
    ensures MaxOf(v) <= b <==> forall i :: 0 <= i < |v| ==> v[i] <= b
  {
    if |v| > 1 {
      MaxOfAtMost(v[..|v| - 1], b);
      assert forall i :: 0 <= i < |v| - 1 ==> v[..|v| - 1][i] == v[i];
    }
  }

  /** The lock and the key stacked column by column. */
  function Add(lock: Heights, key: Heights): (r: seq<nat>)
    requires |lock| == 5 && |key| == 5
    ensures |r| == 5 && forall c :: 0 <= c < 5 ==> r[c] == lock[c] + key[c]
  {
    seq(5, c requires 0 <= c < 5 => lock[c] + key[c])
  }

  /** The filter of part_1: the largest column sum is at most five. */
  predicate Fits(lock: Heights, key: Heights)
    requires |lock| == 5 && |key| == 5
  {
    MaxOf(Add(lock, key)) <= 5
  }

  /** A pair fits exactly when no column overlaps. */
  lemma FitsColumns(lock: Heights, key: Heights)
    requires |lock| == 5 && |key| == 5
    ensures Fits(lock, key) <==> forall c :: 0 <= c < 5 ==> lock[c] + key[c] <= 5
  {
    MaxOfAtMost(Add(lock, key), 5);
  }

  predicate FiveWide(hs: seq<Heights>)
  {
    forall i :: 0 <= i < |hs| ==> |hs[i]| == 5
  }

  /** The keys that fit one lock, counted. */
  function FitCount(lock: Heights, keys: seq<Heights>): nat
    requires |lock| == 5 && FiveWide(keys)
  {
    if keys == [] then 0
    else FitCount(lock, keys[..|keys| - 1]) + (if Fits(lock, keys[|keys| - 1]) then 1 else 0)
  }

  /** part_1: the fitting pairs of the lock × key product, counted. */
  function Matching(locks: seq<Heights>, keys: seq<Heights>): nat
    requires FiveWide(locks) && FiveWide(keys)
  {
    if locks == [] then 0
    else Matching(locks[..|locks| - 1], keys) + FitCount(locks[|locks| - 1], keys)
  }

  /** The fitting (lock, key) index pairs. */
  ghost function Pairs(locks: seq<Heights>, keys: seq<Heights>): set<(nat, nat)>
    requires FiveWide(locks) && FiveWide(keys)
  {
    set i: nat, j: nat | i < |locks| && j < |keys| && Fits(locks[i], keys[j]) :: (i, j)
  }

  /** The keys fitting one lock, by index. */
  ghost function Fitting(lock: Heights, keys: seq<Heights>): set<nat>
    requires |lock| == 5 && FiveWide(keys)
  {
    set j: nat | j < |keys| && Fits(lock, keys[j])
  }

  lemma {:induction false} FitCountCard(lock: Heights, keys: seq<Heights>)
    requires |lock| == 5 && FiveWide(keys)
    ensures FitCount(lock, keys) == |Fitting(lock, keys)|
  {
    if keys != [] {
      var init := keys[..|keys| - 1];
      FitCountCard(lock, init);
      var last := |keys| - 1;
      var extra: set<nat> := if Fits(lock, keys[last]) then {last} else {};
      forall j: nat
        ensures j in Fitting(lock, keys) <==> j in Fitting(lock, init) + extra
      {
        if j < last {
          assert keys[j] == init[j];
        }
      }
      assert Fitting(lock, keys) == Fitting(lock, init) + extra;
    }
  }

  /** The pairs of a fixed lock index with a set of key indices. */
  ghost function Row(i: nat, s: set<nat>): set<(nat, nat)>
  {
    set j | j in s :: (i, j)
  }

  /** Pairing a fixed first index with a set keeps its size. */
  lemma {:induction false} RowCard(i: nat, s: set<nat>)
    ensures |Row(i, s)| == |s|
    decreases |s|
  {
    if s != {} {
      var x :| x in s;
      RowCard(i, s - {x});
      assert Row(i, s) == Row(i, s - {x}) + {(i, x)};
    }
  }

  /** The fitting pairs of all locks are those of all but the last, plus
      the last lock's row. */
  lemma PairsSplit(locks: seq<Heights>, keys: seq<Heights>)
    requires FiveWide(locks) && FiveWide(keys) && locks != []
    ensures Pairs(locks, keys) == Pairs(locks[..|locks| - 1], keys) + Row(|locks| - 1, Fitting(locks[|locks| - 1], keys))
    ensures Pairs(locks[..|locks| - 1], keys) !! Row(|locks| - 1, Fitting(locks[|locks| - 1], keys))
  {
    var n := |locks| - 1;
    var init := locks[..n];
    forall p | p in Pairs(locks, keys)
      ensures p in Pairs(init, keys) + Row(n, Fitting(locks[n], keys))
    {
      if p.0 < n {
        assert init[p.0] == locks[p.0];
      } else {
        assert p.1 in Fitting(locks[n], keys);
      }
    }
    forall p | p in Pairs(init, keys)
      ensures p in Pairs(locks, keys)
    {
      assert init[p.0] == locks[p.0];
    }
  }

  /** part_1's count is the number of fitting (lock, key) pairs. */
  lemma {:induction false} MatchingPairs(locks: seq<Heights>, keys: seq<Heights>)
    requires FiveWide(locks) && FiveWide(keys)
    ensures Matching(locks, keys) == |Pairs(locks, keys)|
  {
    if locks != [] {
      var n := |locks| - 1;
      var init := locks[..n];
      MatchingPairs(init, keys);
      FitCountCard(locks[n], keys);
      RowCard(n, Fitting(locks[n], keys));
      PairsSplit(locks, keys);
    }
  }

  /** part_1: parse every schematic and count the fitting pairs. */
  method Part1(lines: seq<string>) returns (matching: nat)
    requires Framed(lines)
    requires TailFramed(lines)
    ensures Framed(Padded(lines))
    ensures matching == Matching(Locks(Padded(lines), (|lines| + 1) / 8), Keys(Padded(lines), (|lines| + 1) / 8))
    ensures matching == |Pairs(Locks(Padded(lines), (|lines| + 1) / 8), Keys(Padded(lines), (|lines| + 1) / 8))|
  {
    var locks, keys := Parse(lines);
    matching := Matching(locks, keys);
    MatchingPairs(locks, keys);
  }
}
