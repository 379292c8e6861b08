/** Day 9: a disk map alternates file sizes and free-space sizes. Part 1
    compacts the disk one block at a time with two cursors, moving blocks
    from the end into the leftmost free space; part 2 moves whole files into
    the leftmost free span that fits them. Both answers are checksums of the
    resulting layout. */
module Day09 {
  import opened Common

  /** One block of the expanded disk: a file id, or None for free space. */
  type Cell = Option<nat>

  /** Entry i of the disk map is file i/2 when i is even and free space otherwise. */
  function Tag(i: nat): (r: Cell)
    ensures r.Some? <==> i % 2 == 0
    ensures r.Some? ==> r.value * 2 == i
  {
    if i % 2 == 0 then Some(i / 2) else None
  }

  /** The blocks of entry i. */
  function EntryBlocks(sizes: seq<nat>, i: nat): (r: seq<Cell>)
    requires i < |sizes|
    ensures |r| == sizes[i]
  {
    seq(sizes[i], _ => Tag(i))
  }

  /** The disk position where entry i begins. */
  function Start(sizes: seq<nat>, i: nat): nat
    requires i <= |sizes|
  {
    if i == 0 then 0 else Start(sizes, i - 1) + sizes[i - 1]
  }

  lemma {:induction false} StartMonotone(sizes: seq<nat>, i: nat, j: nat)
    requires i <= j <= |sizes|
    ensures Start(sizes, i) <= Start(sizes, j)
    decreases j - i
  {
    if i < j {
      StartMonotone(sizes, i, j - 1);
    }
  }

  /** The blocks of the first n entries. */
  function DiskUpTo(sizes: seq<nat>, n: nat): (r: seq<Cell>)
    requires n <= |sizes|
    ensures |r| == Start(sizes, n)
  {
    if n == 0 then [] else DiskUpTo(sizes, n - 1) + EntryBlocks(sizes, n - 1)
  }

  /** The whole expanded disk. */
  function Disk(sizes: seq<nat>): (r: seq<Cell>)
    ensures |r| == Start(sizes, |sizes|)
  {
    DiskUpTo(sizes, |sizes|)
  }

  /** Block k of entry i sits at disk position Start(i) + k. */
  lemma {:induction false} DiskAt(sizes: seq<nat>, n: nat, i: nat, k: nat)
    requires i < n <= |sizes| && k < sizes[i]
    ensures Start(sizes, i) + k < Start(sizes, n) && DiskUpTo(sizes, n)[Start(sizes, i) + k] == Tag(i)
    decreases n
  {
    if i < n - 1 {
      DiskAt(sizes, n - 1, i, k);
    }
  }

  /** Every position inside a free entry holds None. */
  lemma FreeBetween(sizes: seq<nat>, j: nat, lo: nat, hi: nat)
    requires j < |sizes| && j % 2 == 1
    requires Start(sizes, j) <= lo <= hi <= Start(sizes, j + 1)
    ensures hi <= |Disk(sizes)|
    ensures forall k :: lo <= k < hi ==> Disk(sizes)[k].None?
  {
    StartMonotone(sizes, j + 1, |sizes|);
    forall k | lo <= k < hi ensures Disk(sizes)[k].None? {
      DiskAt(sizes, |sizes|, j, k - Start(sizes, j));
    }
  }

  /** The ids in a block, as a sequence of zero or one element. */
  function Ids(c: Cell): (r: seq<nat>)
    ensures |r| <= 1
  {
    if c.Some? then [c.value] else []
  }

  /** The file ids of the window d[a..b], left to right, free space skipped. */
  function FileIds(d: seq<Cell>, a: nat, b: nat): (r: seq<nat>)
    requires a <= b <= |d|
    ensures |r| <= b - a
    decreases b - a
  {
    if a == b then [] else FileIds(d, a, b - 1) + Ids(d[b - 1])
  }

  lemma {:induction false} FileIdsFront(d: seq<Cell>, a: nat, b: nat)
    requires a < b <= |d|
    ensures FileIds(d, a, b) == Ids(d[a]) + FileIds(d, a + 1, b)
    decreases b - a
  {
    if a + 1 < b {
      FileIdsFront(d, a, b - 1);
      var x, m, y := Ids(d[a]), FileIds(d, a + 1, b - 1), Ids(d[b - 1]);
      assert FileIds(d, a, b) == FileIds(d, a, b - 1) + y == (x + m) + y;
      assert FileIds(d, a + 1, b) == m + y;
      assert (x + m) + y == x + (m + y);
    } else {
      assert FileIds(d, a, a) == [];
      assert FileIds(d, a + 1, a + 1) == [];
    }
  }

  /** Block-by-block compaction of the window d[a..b], the reference for
      part 1: trailing free space is dropped, a file block at the front
      stays, and a free block at the front is filled with the last file
      block. */
  function CompactWin(d: seq<Cell>, a: nat, b: nat): seq<nat>
    requires a <= b <= |d|
    decreases b - a
  {
    if a == b then []
    else if d[b - 1].None? then CompactWin(d, a, b - 1)
    else if d[a].Some? then [d[a].value] + CompactWin(d, a + 1, b)
    else [d[b - 1].value] + CompactWin(d, a + 1, b - 1)
  }

  function Compact(d: seq<Cell>): seq<nat>
  {
    CompactWin(d, 0, |d|)
  }

  /** CompactWin(d, a, b) holds the file blocks of d[a..b]. */
  ghost predicate KeepsFiles(d: seq<Cell>, a: nat, b: nat)
    requires a <= b <= |d|
  {
    SameBlocks(CompactWin(d, a, b), FileIds(d, a, b))
  }

  /** c and f hold the same blocks, possibly in another order. */
  ghost predicate SameBlocks(c: seq<nat>, f: seq<nat>)
  {
    multiset(c) == multiset(f) && |c| == |f|
  }

  lemma {:induction false} KeepsFilesTrailing(d: seq<Cell>, a: nat, b: nat)
    requires a < b <= |d| && d[b - 1].None?
    ensures KeepsFiles(d, a, b)
    decreases b - a, 0
  {
    CompactWinKeepsFiles(d, a, b - 1);
    assert CompactWin(d, a, b) == CompactWin(d, a, b - 1);
    assert FileIds(d, a, b) == FileIds(d, a, b - 1) + [];
  }

  lemma {:induction false} KeepsFilesFront(d: seq<Cell>, a: nat, b: nat)
    requires a < b <= |d| && d[a].Some? && d[b - 1].Some?
    ensures KeepsFiles(d, a, b)
    decreases b - a, 0
  {
    CompactWinKeepsFiles(d, a + 1, b);
    WinFileFront(d, a, b);
    FileIdsFront(d, a, b);
    var x, rest, f := d[a].value, CompactWin(d, a + 1, b), FileIds(d, a + 1, b);
    SameFront(x, rest, f);
    assert CompactWin(d, a, b) == [x] + rest && FileIds(d, a, b) == Ids(d[a]) + f;
  }

  lemma {:induction false} KeepsFilesGap(d: seq<Cell>, a: nat, b: nat)
    requires a < b <= |d| && d[a].None? && d[b - 1].Some?
    ensures KeepsFiles(d, a, b)
    decreases b - a, 0
  {
    WinGapFront(d, a, b);
    CompactWinKeepsFiles(d, a + 1, b - 1);
    FileIdsBack(d, a, b);
    var x, rest, f := d[b - 1].value, CompactWin(d, a + 1, b - 1), FileIds(d, a + 1, b - 1);
    SwapEnds(x, rest, f);
    assert CompactWin(d, a, b) == [x] + rest && FileIds(d, a, b) == f + [x];
  }

  /** With a free block in front, the window's ids are the inner window's
      followed by the last block's. */
  lemma FileIdsBack(d: seq<Cell>, a: nat, b: nat)
    requires a + 1 < b <= |d| && d[a].None? && d[b - 1].Some?
    ensures FileIds(d, a, b) == FileIds(d, a + 1, b - 1) + [d[b - 1].value]
  {
    FileIdsFront(d, a, b - 1);
    assert FileIds(d, a, b - 1) == [] + FileIds(d, a + 1, b - 1);
  }

  lemma SameFront(x: nat, rest: seq<nat>, f: seq<nat>)
    requires SameBlocks(rest, f)
    ensures SameBlocks([x] + rest, [x] + f)
  {
    assert multiset([x] + rest) == multiset([x]) + multiset(rest);
    assert multiset([x] + f) == multiset([x]) + multiset(f);
  }

  lemma SwapEnds(x: nat, rest: seq<nat>, f: seq<nat>)
    requires SameBlocks(rest, f)
    ensures SameBlocks([x] + rest, f + [x])
  {
    calc {
      multiset([x] + rest);
      multiset([x]) + multiset(rest);
      multiset(f) + multiset([x]);
      multiset(f + [x]);
    }
  }

  lemma {:induction false} CompactWinKeepsFiles(d: seq<Cell>, a: nat, b: nat)
    requires a <= b <= |d|
    ensures KeepsFiles(d, a, b)
    decreases b - a, 1
  {
    if a == b {
    } else if d[b - 1].None? {
      KeepsFilesTrailing(d, a, b);
    } else if d[a].Some? {
      KeepsFilesFront(d, a, b);
    } else {
      KeepsFilesGap(d, a, b);
    }
  }

  /** Compaction neither loses nor duplicates a file block. */
  lemma CompactKeepsFiles(d: seq<Cell>)
    ensures multiset(Compact(d)) == multiset(FileIds(d, 0, |d|))
    ensures |Compact(d)| == |FileIds(d, 0, |d|)|
  {
    CompactWinKeepsFiles(d, 0, |d|);
  }

  /** Free blocks at the end of a window do not change its compaction. */
  lemma {:induction false} WinTrailingFree(d: seq<Cell>, a: nat, m: nat, b: nat)
    requires a <= m <= b <= |d|
    requires forall k :: m <= k < b ==> d[k].None?
    ensures CompactWin(d, a, b) == CompactWin(d, a, m)
    decreases b - m
  {
    if m < b {
      WinTrailingFree(d, a, m, b - 1);
    }
  }

  lemma WinFileFront(d: seq<Cell>, a: nat, b: nat)
    requires a < b <= |d| && d[a].Some? && d[b - 1].Some?
    ensures CompactWin(d, a, b) == [d[a].value] + CompactWin(d, a + 1, b)
  {
  }

  lemma WinGapFront(d: seq<Cell>, a: nat, b: nat)
    requires a < b <= |d| && d[a].None? && d[b - 1].Some?
    ensures a + 1 <= b - 1
    ensures CompactWin(d, a, b) == [d[b - 1].value] + CompactWin(d, a + 1, b - 1)
  {
  }

  /** The iterator's cursors into the disk map. */
  predicate Inv(sizes: seq<nat>, left: nat, leftRead: nat, right: nat, rightRead: nat)
  {
    right < |sizes| && right % 2 == 0 &&
    (left <= right ==>
      (leftRead == 0 || leftRead < sizes[left]) &&
      (rightRead == 0 || rightRead < sizes[right]) &&
      (left == right ==> (leftRead == 0 && rightRead == 0) || leftRead + rightRead < sizes[left]))
  }

  /** The unread blocks are the disk window [WinLo, WinHi): from block
      leftRead of entry left to the end of entry right, less its last
      rightRead blocks; empty once the cursors have crossed. */
  function WinLo(sizes: seq<nat>, left: nat, leftRead: nat, right: nat): nat
    requires right < |sizes|
  {
    if left > right then 0 else Start(sizes, left) + leftRead
  }

  function WinHi(sizes: seq<nat>, left: nat, right: nat, rightRead: nat): int
    requires right < |sizes|
  {
    if left > right then 0 else Start(sizes, right + 1) - rightRead
  }

  lemma WindowBounds(sizes: seq<nat>, left: nat, leftRead: nat, right: nat, rightRead: nat)
    requires Inv(sizes, left, leftRead, right, rightRead)
    ensures WinLo(sizes, left, leftRead, right) <= WinHi(sizes, left, right, rightRead) <= |Disk(sizes)|
  {
    StartMonotone(sizes, right + 1, |sizes|);
    if left < right {
      StartMonotone(sizes, left + 1, right);
    }
  }

  /** What the iterator has still to yield. */
  ghost function Pending(sizes: seq<nat>, left: nat, leftRead: nat, right: nat, rightRead: nat): seq<nat>
    requires Inv(sizes, left, leftRead, right, rightRead)
  {
    WindowBounds(sizes, left, leftRead, right, rightRead);
    CompactWin(Disk(sizes), WinLo(sizes, left, leftRead, right), WinHi(sizes, left, right, rightRead) as nat)
  }

  /** How many blocks are unread. */
  ghost function Width(sizes: seq<nat>, left: nat, leftRead: nat, right: nat, rightRead: nat): (r: nat)
    requires Inv(sizes, left, leftRead, right, rightRead)
  {
    WindowBounds(sizes, left, leftRead, right, rightRead);
    WinHi(sizes, left, right, rightRead) - WinLo(sizes, left, leftRead, right)
  }

  /** Skipping an empty entry on the left leaves the unread blocks as they are. */
  lemma SkipLeft(sizes: seq<nat>, left: nat, leftRead: nat, right: nat, rightRead: nat)
    requires Inv(sizes, left, leftRead, right, rightRead)
    requires left <= right && sizes[left] == 0
    ensures leftRead == 0 && Inv(sizes, left + 1, leftRead, right, rightRead)
    ensures Pending(sizes, left + 1, leftRead, right, rightRead) == Pending(sizes, left, leftRead, right, rightRead)
    ensures Width(sizes, left + 1, leftRead, right, rightRead) == Width(sizes, left, leftRead, right, rightRead)
  {
    assert Start(sizes, left + 1) == Start(sizes, left);
  }

  /** Skipping an empty file on the right drops only free blocks. */
  lemma SkipRight(sizes: seq<nat>, left: nat, leftRead: nat, right: nat, rightRead: nat)
    requires Inv(sizes, left, leftRead, right, rightRead)
    requires left <= right && sizes[left] != 0 && sizes[right] == 0
    ensures right >= 2 && rightRead == 0 && Inv(sizes, left, leftRead, right - 2, rightRead)
    ensures Pending(sizes, left, leftRead, right - 2, rightRead) == Pending(sizes, left, leftRead, right, rightRead)
    ensures Width(sizes, left, leftRead, right - 2, rightRead) <= Width(sizes, left, leftRead, right, rightRead)
  {
    var d := Disk(sizes);
    WindowBounds(sizes, left, leftRead, right, rightRead);
    WindowBounds(sizes, left, leftRead, right - 2, rightRead);
    var a, b, m := Start(sizes, left) + leftRead, Start(sizes, right + 1), Start(sizes, right - 1);
    if left == right - 1 {
      FreeBetween(sizes, right - 1, a, b);
      WinTrailingFree(d, a, a, b);
    } else {
      assert Start(sizes, right + 1) == Start(sizes, right);
      FreeBetween(sizes, right - 1, m, b);
      WinTrailingFree(d, a, m, b);
    }
  }

  /** The state after reading one block on the left. */
  function AdvanceLeft(left: nat, leftRead: nat, limit: nat): (nat, nat)
  {
    if leftRead + 1 >= limit then (left + 1, 0) else (left, leftRead + 1)
  }

  /** The state after reading one block on the right. */
  function AdvanceRight(right: nat, rightRead: nat, limit: nat): (int, nat)
  {
    if rightRead + 1 >= limit then (right - 2, 0) else (right, rightRead + 1)
  }

  /** Reading a file block on the left yields its id and consumes the first
      unread block. */
  lemma ReadFile(sizes: seq<nat>, left: nat, leftRead: nat, right: nat, rightRead: nat, l: nat, lr: nat)
    requires Inv(sizes, left, leftRead, right, rightRead)
    requires left < right && left % 2 == 0 && sizes[left] != 0 && sizes[right] != 0
    requires (l, lr) == AdvanceLeft(left, leftRead, sizes[left])
    ensures Inv(sizes, l, lr, right, rightRead)
    ensures Pending(sizes, left, leftRead, right, rightRead) == [left / 2] + Pending(sizes, l, lr, right, rightRead)
    ensures Width(sizes, l, lr, right, rightRead) < Width(sizes, left, leftRead, right, rightRead)
  {
    var d := Disk(sizes);
    var a, b := Start(sizes, left) + leftRead, Start(sizes, right + 1) - rightRead;
    WindowBounds(sizes, left, leftRead, right, rightRead);
    DiskAt(sizes, |sizes|, left, leftRead);
    DiskAt(sizes, |sizes|, right, sizes[right] - rightRead - 1);
    StartMonotone(sizes, left + 1, right);
    WinFileFront(d, a, b);
    assert WinLo(sizes, l, lr, right) == a + 1;
    WindowBounds(sizes, l, lr, right, rightRead);
  }

  /** Reading a free block on the left fills it with the last unread file
      block, consuming one block at each end. */
  lemma ReadGap(sizes: seq<nat>, left: nat, leftRead: nat, right: nat, rightRead: nat, l: nat, lr: nat, r: nat, rr: nat)
    requires Inv(sizes, left, leftRead, right, rightRead)
    requires left < right && left % 2 == 1 && sizes[left] != 0 && sizes[right] != 0
    requires (l, lr) == AdvanceLeft(left, leftRead, sizes[left])
    requires (r as int, rr) == AdvanceRight(right, rightRead, sizes[right])
    ensures Inv(sizes, l, lr, r, rr)
    ensures Pending(sizes, left, leftRead, right, rightRead) == [right / 2] + Pending(sizes, l, lr, r, rr)
    ensures Width(sizes, l, lr, r, rr) < Width(sizes, left, leftRead, right, rightRead)
  {
    GapFront(sizes, left, leftRead, right, rightRead);
    if r == right {
      GapKeepRight(sizes, left, leftRead, right, rightRead, l, lr, rr);
    } else {
      GapDropRight(sizes, left, leftRead, right, rightRead, l, lr, r);
    }
  }

  /** With a free block first among the unread blocks, the last file block
      fills it. */
  lemma GapFront(sizes: seq<nat>, left: nat, leftRead: nat, right: nat, rightRead: nat)
    requires Inv(sizes, left, leftRead, right, rightRead)
    requires left < right && left % 2 == 1 && sizes[left] != 0 && sizes[right] != 0
    ensures Start(sizes, left) + leftRead + 2 <= Start(sizes, right + 1) - rightRead <= |Disk(sizes)|
    ensures Pending(sizes, left, leftRead, right, rightRead) ==
      [right / 2] + CompactWin(Disk(sizes), Start(sizes, left) + leftRead + 1, Start(sizes, right + 1) - rightRead - 1)
    ensures Width(sizes, left, leftRead, right, rightRead) == Start(sizes, right + 1) - rightRead - Start(sizes, left) - leftRead
  {
    var d := Disk(sizes);
    var a, b := Start(sizes, left) + leftRead, Start(sizes, right + 1) - rightRead;
    WindowBounds(sizes, left, leftRead, right, rightRead);
    DiskAt(sizes, |sizes|, left, leftRead);
    DiskAt(sizes, |sizes|, right, sizes[right] - rightRead - 1);
    StartMonotone(sizes, left + 1, right);
    WinGapFront(d, a, b);
    assert d[b - 1] == Some(right / 2);
  }

  /** ReadGap when the right file still has unread blocks. */
  lemma GapKeepRight(sizes: seq<nat>, left: nat, leftRead: nat, right: nat, rightRead: nat, l: nat, lr: nat, rr: nat)
    requires Inv(sizes, left, leftRead, right, rightRead)
    requires left < right && left % 2 == 1 && sizes[left] != 0 && sizes[right] != 0
    requires (l, lr) == AdvanceLeft(left, leftRead, sizes[left])
    requires rr == rightRead + 1 < sizes[right]
    requires Start(sizes, left) + leftRead + 2 <= Start(sizes, right + 1) - rightRead <= |Disk(sizes)|
    ensures Inv(sizes, l, lr, right, rr)
    ensures Pending(sizes, l, lr, right, rr) ==
      CompactWin(Disk(sizes), Start(sizes, left) + leftRead + 1, Start(sizes, right + 1) - rightRead - 1)
    ensures Width(sizes, l, lr, right, rr) == Start(sizes, right + 1) - rightRead - Start(sizes, left) - leftRead - 2
  {
    StartMonotone(sizes, left + 1, right);
    assert WinLo(sizes, l, lr, right) == Start(sizes, left) + leftRead + 1;
  }

  /** ReadGap when the right file is used up: the cursor moves two entries
      left, over a free entry whose blocks do not change the compaction. */
  lemma GapDropRight(sizes: seq<nat>, left: nat, leftRead: nat, right: nat, rightRead: nat, l: nat, lr: nat, r: nat)
    requires Inv(sizes, left, leftRead, right, rightRead)
    requires left < right && left % 2 == 1 && sizes[left] != 0 && sizes[right] != 0
    requires (l, lr) == AdvanceLeft(left, leftRead, sizes[left])
    requires rightRead + 1 == sizes[right] && r == right - 2
    requires Start(sizes, left) + leftRead + 2 <= Start(sizes, right + 1) - rightRead <= |Disk(sizes)|
    ensures Inv(sizes, l, lr, r, 0)
    ensures Pending(sizes, l, lr, r, 0) ==
      CompactWin(Disk(sizes), Start(sizes, left) + leftRead + 1, Start(sizes, right + 1) - rightRead - 1)
    ensures Width(sizes, l, lr, r, 0) <= Start(sizes, right + 1) - rightRead - Start(sizes, left) - leftRead - 2
  {
    var d := Disk(sizes);
    var a, b := Start(sizes, left) + leftRead + 1, Start(sizes, right + 1) - rightRead - 1;
    assert b == Start(sizes, right);
    WindowBounds(sizes, l, lr, r, 0);
    if l > r {
      FreeBetween(sizes, right - 1, a, b);
      WinTrailingFree(d, a, a, b);
    } else {
      var m := Start(sizes, right - 1);
      StartMonotone(sizes, left + 1, right - 1);
      assert WinLo(sizes, l, lr, r) == a && WinHi(sizes, l, r, 0) == m;
      FreeBetween(sizes, right - 1, m, b);
      WinTrailingFree(d, a, m, b);
    }
  }

  /** With both cursors on the same file, the unread part of it is read
      from the left. */
  lemma ReadMeet(sizes: seq<nat>, left: nat, leftRead: nat, right: nat, rightRead: nat, l: nat, lr: nat)
    requires Inv(sizes, left, leftRead, right, rightRead)
    requires left == right && sizes[left] != 0
    requires rightRead <= sizes[left] && (l, lr) == AdvanceLeft(left, leftRead, sizes[left] - rightRead)
    ensures Inv(sizes, l, lr, right, rightRead)
    ensures Pending(sizes, left, leftRead, right, rightRead) == [left / 2] + Pending(sizes, l, lr, right, rightRead)
    ensures Width(sizes, l, lr, right, rightRead) < Width(sizes, left, leftRead, right, rightRead)
  {
    var d := Disk(sizes);
    var a, b := Start(sizes, left) + leftRead, Start(sizes, right + 1) - rightRead;
    WindowBounds(sizes, left, leftRead, right, rightRead);
    DiskAt(sizes, |sizes|, left, leftRead);
    DiskAt(sizes, |sizes|, right, sizes[right] - rightRead - 1);
    WinFileFront(d, a, b);
    WindowBounds(sizes, l, lr, right, rightRead);
    if l == left {
      assert WinLo(sizes, l, lr, right) == a + 1;
    } else {
      assert CompactWin(d, a + 1, b) == [];
    }
  }

  /** Day9Iterator: a read position in the first entry not yet used up and a
      read position in the last file not yet used up. */
  class Compactor {
    const sizes: seq<nat>
    var left: nat
    var leftRead: nat
    var right: nat
    var rightRead: nat

    ghost predicate Valid()
      reads this
    {
      Inv(sizes, left, leftRead, right, rightRead)
    }

    /** The compaction of the blocks still to be read. */
    ghost function Rest(): seq<nat>
      reads this
      requires Valid()
    {
      Pending(sizes, left, leftRead, right, rightRead)
    }

    /** The number of blocks still to be read. */
    ghost function Unread(): nat
      reads this
      requires Valid()
    {
      Width(sizes, left, leftRead, right, rightRead)
    }

    /** The disk map must have an odd length: it starts and ends with a file. */
    constructor (input: seq<nat>)
      requires |input| % 2 == 1
      ensures sizes == input && left == 0 && leftRead == 0 && right == |input| - 1 && rightRead == 0
      ensures Valid() && Rest() == Compact(Disk(input))
    {
      sizes := input;
      left := 0;
      leftRead := 0;
      right := |input| - 1;
      rightRead := 0;
      new;
      WindowBounds(input, 0, 0, |input| - 1, 0);
    }

    /** The skipping loops at the head of next: empty entries on the left
        and empty files on the right are passed over. */
    method SkipEmpty()
      requires Valid()
      modifies this
      ensures Valid() && Rest() == old(Rest()) && Unread() <= old(Unread())
      ensures old(left) <= left && right <= old(right)
      ensures left <= right ==> sizes[left] != 0 && sizes[right] != 0
    {
      while left <= right && sizes[left] == 0
        invariant Valid() && Rest() == old(Rest()) && Unread() == old(Unread())
        invariant old(left) <= left && right == old(right)
        decreases right + 1 - left
      {
        SkipLeft(sizes, left, leftRead, right, rightRead);
        left := left + 1;
      }
      while left <= right && sizes[right] == 0
        invariant Valid() && Rest() == old(Rest()) && Unread() <= old(Unread())
        invariant left <= right ==> sizes[left] != 0
        invariant old(left) <= left && right <= old(right)
        decreases right
      {
        SkipRight(sizes, left, leftRead, right, rightRead);
        right := right - 2;
      }
    }

    /** Yields the next block of the compacted disk: the result followed by
        what is still to come is what was still to come. */
    method Next() returns (r: Option<nat>)
      requires Valid()
      modifies this
      ensures Valid()
      ensures old(left) <= left && right <= old(right)
      ensures r.None? <==> old(Rest()) == []
      ensures r.None? ==> left > right
      ensures old(Rest()) == (if r.Some? then [r.value] else []) + Rest()
      ensures r.Some? ==> Unread() < old(Unread())
    {
      SkipEmpty();
      if left < right {
        var fileId;
        if left % 2 == 0 {
          fileId := ReadFileBlock();
        } else {
          fileId := FillGapBlock();
        }
        r := Some(fileId);
      } else if left == right {
        var fileId := ReadLastFile();
        r := Some(fileId);
      } else {
        r := None;
      }
    }

    /** The left cursor is on a file: its next block is yielded in place. */
    method ReadFileBlock() returns (fileId: nat)
      requires Valid() && left < right && left % 2 == 0 && sizes[left] != 0 && sizes[right] != 0
      modifies this
      ensures Valid() && old(left) <= left && right == old(right)
      ensures old(Rest()) == [fileId] + Rest() && Unread() < old(Unread())
    {
      ghost var (l0, lr0) := (left, leftRead);
      fileId := left / 2;
      leftRead := leftRead + 1;
      if leftRead >= sizes[left] {
        left := left + 1;
        leftRead := 0;
      }
      ReadFile(sizes, l0, lr0, right, rightRead, left, leftRead);
    }

    /** The left cursor is on free space: it is filled with the next block
        of the last unread file. */
    method FillGapBlock() returns (fileId: nat)
      requires Valid() && left < right && left % 2 == 1 && sizes[left] != 0 && sizes[right] != 0
      modifies this
      ensures Valid() && old(left) <= left && right <= old(right)
      ensures old(Rest()) == [fileId] + Rest() && Unread() < old(Unread())
    {
      ghost var (l0, lr0, r0, rr0) := (left, leftRead, right, rightRead);
      fileId := right / 2;
      leftRead := leftRead + 1;
      rightRead := rightRead + 1;
      if leftRead >= sizes[left] {
        left := left + 1;
        leftRead := 0;
      }
      if rightRead >= sizes[right] {
        right := right - 2;
        rightRead := 0;
      }
      ReadGap(sizes, l0, lr0, r0, rr0, left, leftRead, right, rightRead);
    }

    /** Both cursors on the same file: its unread part is yielded from the
        left. */
    method ReadLastFile() returns (fileId: nat)
      requires Valid() && left == right && sizes[left] != 0
      modifies this
      ensures Valid() && old(left) <= left && right == old(right)
      ensures old(Rest()) == [fileId] + Rest() && Unread() < old(Unread())
    {
      ghost var (l0, lr0) := (left, leftRead);
      fileId := left / 2;
      leftRead := leftRead + 1;
      if leftRead >= sizes[left] - rightRead {
        left := left + 1;
        leftRead := 0;
      }
      ReadMeet(sizes, l0, lr0, right, rightRead, left, leftRead);
    }
  }

  /** Sum of index * value, the checksum of a compacted disk. */
  function Checksum(s: seq<nat>): nat
  {
    if s == [] then 0 else Checksum(s[..|s| - 1]) + (|s| - 1) * s[|s| - 1]
  }

  /** Moving a yielded block from the pending part to the output. */
  lemma ShiftYielded(whole: seq<nat>, out: seq<nat>, before: seq<nat>, v: nat, after: seq<nat>)
    requires whole == out + before && before == [v] + after
    ensures whole == (out + [v]) + after
  {
  }

  /** One more block adds its index times its id to the checksum. */
  lemma ChecksumSnoc(s: seq<nat>, v: nat, index: nat, sum: nat)
    requires index == |s| && sum == Checksum(s)
    ensures Checksum(s + [v]) == sum + index * v
  {
    assert (s + [v])[..|s|] == s;
  }

  /** part_1: enumerate the iterator's output and sum index * file id. */
  method CompactedChecksum(input: seq<nat>) returns (sum: nat)
    requires |input| % 2 == 1
    ensures sum == Checksum(Compact(Disk(input)))
  {
    var it := new Compactor(input);
    ghost var whole := it.Rest();
    ghost var out: seq<nat> := [];
    var index: nat := 0;
    sum := 0;
    assert whole == out + it.Rest();
    while true
      invariant it.Valid() && it.sizes == input
      invariant whole == out + it.Rest()
      invariant index == |out| && sum == Checksum(out)
      decreases it.Unread()
    {
      ghost var before := it.Rest();
      var r := it.Next();
      if r.None? {
        assert before == [];
        assert out + before == out;
        return;
      }
      ShiftYielded(whole, out, before, r.value, it.Rest());
      ChecksumSnoc(out, r.value, index, sum);
      out := out + [r.value];
      sum := sum + index * r.value;
      index := index + 1;
    }
  }

  /** A span of the disk in part 2: a file with its id, or free space. */
  datatype Span = Span(fileId: Option<nat>, size: nat)

  /** The spans of the input disk map, entry by entry. */
  function InitialSpans(sizes: seq<nat>): (r: seq<Span>)
    ensures |r| == |sizes| && forall i :: 0 <= i < |sizes| ==> r[i] == Span(Tag(i), sizes[i])
  {
    seq(|sizes|, i requires 0 <= i < |sizes| => Span(Tag(i), sizes[i]))
  }

  function Repeat(x: Cell, n: nat): (r: seq<Cell>)
    ensures |r| == n && forall k :: 0 <= k < n ==> r[k] == x
  {
    seq(n, _ => x)
  }

  /** The blocks of a span sequence (flat_map over the spans). */
  function Layout(spans: seq<Span>): seq<Cell>
  {
    if spans == [] then [] else Layout(spans[..|spans| - 1]) + Repeat(spans[|spans| - 1].fileId, spans[|spans| - 1].size)
  }

  lemma {:induction false} LayoutAppend(a: seq<Span>, b: seq<Span>)
    ensures Layout(a + b) == Layout(a) + Layout(b)
    decreases |b|
  {
    if b == [] {
      assert a + b == a;
    } else {
      var b' := b[..|b| - 1];
      assert (a + b)[..|a + b| - 1] == a + b';
      assert (a + b)[|a + b| - 1] == b[|b| - 1];
      LayoutAppend(a, b');
    }
  }

  lemma {:induction false} LayoutInitial(sizes: seq<nat>, n: nat)
    requires n <= |sizes|
    ensures Layout(InitialSpans(sizes)[..n]) == DiskUpTo(sizes, n)
  {
    if n > 0 {
      assert InitialSpans(sizes)[..n][..n - 1] == InitialSpans(sizes)[..n - 1];
      LayoutInitial(sizes, n - 1);
      assert Repeat(Tag(n - 1), sizes[n - 1]) == EntryBlocks(sizes, n - 1);
    }
  }

  /** The initial spans lay out exactly the expanded disk. */
  lemma LayoutIsDisk(sizes: seq<nat>)
    ensures Layout(InitialSpans(sizes)) == Disk(sizes)
  {
    LayoutInitial(sizes, |sizes|);
    assert InitialSpans(sizes)[..|sizes|] == InitialSpans(sizes);
  }

  /** The file spans, in order. */
  function Files(spans: seq<Span>): (r: seq<Span>)
    ensures forall k :: 0 <= k < |r| ==> r[k].fileId.Some?
  {
    if spans == [] then [] else (if spans[0].fileId.Some? then [spans[0]] else []) + Files(spans[1..])
  }

  lemma {:induction false} FilesAppend(a: seq<Span>, b: seq<Span>)
    ensures Files(a + b) == Files(a) + Files(b)
  {
    if a != [] {
      assert (a + b)[0] == a[0] && (a + b)[1..] == a[1..] + b;
      FilesAppend(a[1..], b);
    } else {
      assert a + b == b;
    }
  }

  /** A free span big enough for size blocks. */
  predicate Fits(s: Span, size: nat)
  {
    s.fileId.None? && s.size >= size
  }

  /** The leftmost free span before right that can hold size blocks. */
  function FirstFit(spans: seq<Span>, right: nat, size: nat): (r: Option<nat>)
    requires right <= |spans|
    ensures r.Some? ==> r.value < right && Fits(spans[r.value], size)
    ensures r.Some? ==> forall j :: 0 <= j < r.value ==> !Fits(spans[j], size)
    ensures r.None? ==> forall j :: 0 <= j < right ==> !Fits(spans[j], size)
  {
    if right == 0 then None
    else
      match FirstFit(spans, right - 1, size)
      case Some(j) => Some(j)
      case None => if Fits(spans[right - 1], size) then Some(right - 1) else None
  }

  /** The inner search of part 2: a scan from the left that stops at the
      first free span that fits. */
  method FindSpace(spans: seq<Span>, right: nat, size: nat) returns (found: Option<nat>)
    requires right <= |spans|
    ensures found == FirstFit(spans, right, size)
  {
    for left := 0 to right
      invariant FirstFit(spans, left, size).None?
    {
      if spans[left].fileId.None? && spans[left].size >= size {
        return Some(left);
      }
    }
    return None;
  }

  /** The spans after one relocation: the file from right sits where the
      free span at left was, followed by what is left of that free span,
      and free space of the file's size takes the file's old place. */
  function MoveFile(spans: seq<Span>, left: nat, right: nat): (r: seq<Span>)
    requires left < right < |spans| && spans[left].size >= spans[right].size
    ensures |r| == |spans| + 1
  {
    spans[..left] + [spans[right], Span(None, spans[left].size - spans[right].size)] +
      spans[left + 1..right] + [Span(None, spans[right].size)] + spans[right + 1..]
  }

  lemma LayoutMid(a: seq<Span>, x: Span, b: seq<Span>)
    ensures Layout(a + [x] + b) == Layout(a) + Repeat(x.fileId, x.size) + Layout(b)
  {
    LayoutAppend(a + [x], b);
    LayoutAppend(a, [x]);
    assert [x][..0] == [];
  }

  lemma FilesMid(a: seq<Span>, x: Span, b: seq<Span>)
    ensures Files(a + [x] + b) == Files(a) + (if x.fileId.Some? then [x] else []) + Files(b)
  {
    var own := if x.fileId.Some? then [x] else [];
    assert Files([x]) == own by {
      assert [x][1..] == [];
    }
    FilesAppend(a, [x]);
    FilesAppend(a + [x], b);
  }

  /** A move rearranges the disk's blocks: the free blocks of the span
      gap are split in two and the file's blocks trade places with the
      free blocks left behind. */
  lemma MoveKeepsBlocks(a: seq<Span>, gap: Span, m: seq<Span>, file: Span, b: seq<Span>)
    requires Fits(gap, file.size)
    ensures multiset(Layout(a + [file, Span(None, gap.size - file.size)] + m + [Span(None, file.size)] + b)) ==
      multiset(Layout(a + [gap] + m + [file] + b))
  {
    var hole, freed := Span(None, gap.size - file.size), Span(None, file.size);
    var before := Layout(a) + Repeat(gap.fileId, gap.size) + Layout(m);
    var after := Layout(a) + Repeat(file.fileId, file.size) + Repeat(None, hole.size) + Layout(m);
    assert Layout(a + [gap] + m) == before by {
      LayoutMid(a, gap, m);
    }
    assert Layout(a + [gap] + m + [file] + b) == before + Repeat(file.fileId, file.size) + Layout(b) by {
      LayoutMid(a + [gap] + m, file, b);
    }
    assert Layout(a + [file, hole] + m) == after by {
      assert a + [file, hole] + m == (a + [file]) + [hole] + m;
      LayoutMid(a + [file], hole, m);
      LayoutMid(a, file, []);
      assert a + [file] + [] == a + [file];
    }
    assert Layout(a + [file, hole] + m + [freed] + b) == after + Repeat(None, freed.size) + Layout(b) by {
      LayoutMid(a + [file, hole] + m, freed, b);
    }
    assert Repeat(None, gap.size) == Repeat(None, hole.size) + Repeat(None, freed.size);
  }

  lemma FilesBefore(a: seq<Span>, gap: Span, m: seq<Span>, file: Span, b: seq<Span>)
    requires gap.fileId.None? && file.fileId.Some?
    ensures Files(a + [gap] + m + [file] + b) == Files(a) + Files(m) + [file] + Files(b)
  {
    FilesMid(a + [gap] + m, file, b);
    FilesMid(a, gap, m);
  }

  lemma FilesAfter(a: seq<Span>, hole: Span, m: seq<Span>, file: Span, freed: Span, b: seq<Span>)
    requires hole.fileId.None? && freed.fileId.None? && file.fileId.Some?
    ensures Files(a + [file, hole] + m + [freed] + b) == Files(a) + [file] + Files(m) + Files(b)
  {
    assert Files(a + [file]) == Files(a) + [file] by {
      FilesMid(a, file, []);
      assert a + [file] + [] == a + [file];
    }
    assert Files(a + [file, hole] + m) == Files(a) + [file] + Files(m) by {
      assert a + [file, hole] + m == (a + [file]) + [hole] + m;
      FilesMid(a + [file], hole, m);
    }
    FilesMid(a + [file, hole] + m, freed, b);
  }

  /** A move keeps the file spans, in some order. */
  lemma MoveKeepsFiles(a: seq<Span>, gap: Span, m: seq<Span>, file: Span, b: seq<Span>)
    requires Fits(gap, file.size) && file.fileId.Some?
    ensures multiset(Files(a + [file, Span(None, gap.size - file.size)] + m + [Span(None, file.size)] + b)) ==
      multiset(Files(a + [gap] + m + [file] + b))
  {
    FilesBefore(a, gap, m, file, b);
    FilesAfter(a, Span(None, gap.size - file.size), m, file, Span(None, file.size), b);
    var fa, fm, fb := Files(a), Files(m), Files(b);
    calc {
      multiset(fa + [file] + fm + fb);
      multiset(fa) + multiset([file]) + multiset(fm) + multiset(fb);
      multiset(fa + fm + [file] + fb);
    }
  }

  /** Sum of the indices (shifted by offset) of the file spans. */
  function FileIndexSum(spans: seq<Span>, offset: nat): nat
  {
    if spans == [] then 0
    else (if spans[0].fileId.Some? then offset else 0) + FileIndexSum(spans[1..], offset + 1)
  }

  lemma {:induction false} FileIndexSumAppend(a: seq<Span>, b: seq<Span>, offset: nat)
    ensures FileIndexSum(a + b, offset) == FileIndexSum(a, offset) + FileIndexSum(b, offset + |a|)
  {
    if a != [] {
      assert (a + b)[0] == a[0] && (a + b)[1..] == a[1..] + b;
      FileIndexSumAppend(a[1..], b, offset + 1);
    } else {
      assert a + b == b;
    }
  }

  /** Shifting a span sequence right by one adds at most one per span. */
  lemma {:induction false} FileIndexSumShift(s: seq<Span>, offset: nat)
    ensures FileIndexSum(s, offset + 1) <= FileIndexSum(s, offset) + |s|
  {
    if s != [] {
      FileIndexSumShift(s[1..], offset + 1);
    }
  }

  /** The termination measure of the relocation loop drops with each move:
      the file goes left past every span in between. */
  lemma MoveDecreases(spans: seq<Span>, left: nat, right: nat)
    requires left < right < |spans| && spans[right].fileId.Some?
    requires Fits(spans[left], spans[right].size)
    ensures FileIndexSum(MoveFile(spans, left, right)[..right + 1], 0) < FileIndexSum(spans[..right + 1], 0)
  {
    var r := MoveFile(spans, left, right);
    var file, gap := spans[right], spans[left];
    var hole := Span(None, gap.size - file.size);
    var a, m := spans[..left], spans[left + 1..right];
    assert spans[..right + 1] == a + [gap] + m + [file];
    assert r[..right + 1] == a + [file] + [hole] + m;
    assert FileIndexSum(a + [gap] + m + [file], 0) == FileIndexSum(a, 0) + FileIndexSum(m, left + 1) + right by {
      FileIndexSumAppend(a + [gap] + m, [file], 0);
      FileIndexSumAppend(a + [gap], m, 0);
      FileIndexSumAppend(a, [gap], 0);
    }
    assert FileIndexSum(a + [file] + [hole] + m, 0) == FileIndexSum(a, 0) + left + FileIndexSum(m, left + 2) by {
      FileIndexSumAppend(a + [file] + [hole], m, 0);
      FileIndexSumAppend(a + [file], [hole], 0);
      FileIndexSumAppend(a, [file], 0);
    }
    FileIndexSumShift(m, left + 1);
  }

  /** One relocation keeps the disk's blocks and files, and lowers the
      loop's measure. */
  lemma MoveStep(spans: seq<Span>, left: nat, right: nat)
    requires left < right < |spans| && spans[right].fileId.Some?
    requires Fits(spans[left], spans[right].size)
    ensures |MoveFile(spans, left, right)| == |spans| + 1
    ensures multiset(Layout(MoveFile(spans, left, right))) == multiset(Layout(spans))
    ensures multiset(Files(MoveFile(spans, left, right))) == multiset(Files(spans))
    ensures FileIndexSum(MoveFile(spans, left, right)[..right + 1], 0) < FileIndexSum(spans[..right + 1], 0)
  {
    var a, gap, m, file, b := spans[..left], spans[left], spans[left + 1..right], spans[right], spans[right + 1..];
    var before := a + [gap] + m + [file] + b;
    var after := a + [file, Span(None, gap.size - file.size)] + m + [Span(None, file.size)] + b;
    assert spans == before;
    assert MoveFile(spans, left, right) == after;
    MoveKeepsBlocks(a, gap, m, file, b);
    MoveKeepsFiles(a, gap, m, file, b);
    assert multiset(Layout(after)) == multiset(Layout(before));
    assert multiset(Files(after)) == multiset(Files(before));
    MoveDecreases(spans, left, right);
  }

  /** Dropping the span at right from the measured prefix does not raise it. */
  lemma {:induction false} FileIndexSumPrefix(s: seq<Span>, k: nat)
    requires 0 < k <= |s|
    ensures FileIndexSum(s[..k - 1], 0) <= FileIndexSum(s[..k], 0)
  {
    assert s[..k] == s[..k - 1] + [s[k - 1]];
    FileIndexSumAppend(s[..k - 1], [s[k - 1]], 0);
  }

  /** The three updates of one relocation, in the order part_2 makes them:
      the file's span becomes free, the free span shrinks, and the file is
      inserted at left. */
  method Move(spans: seq<Span>, left: nat, right: nat) returns (r: seq<Span>)
    requires left < right < |spans| && Fits(spans[left], spans[right].size)
    ensures r == MoveFile(spans, left, right)
  {
    var block := spans[right];
    r := spans[right := Span(None, block.size)];
    r := r[left := Span(None, r[left].size - block.size)];
    r := r[..left] + [block] + r[left..];
    assert r[left + 1..] == [Span(None, spans[left].size - block.size)] + spans[left + 1..right] +
      [Span(None, block.size)] + spans[right + 1..];
  }

  /** Cell k after a move: the spans before left stay, the file takes
      left, what is left of the free span follows it, the spans up to the
      file's old place shift one along, the file's old place is free space
      of its size, and the spans after it shift one along. */
  lemma MoveFileAt(spans: seq<Span>, left: nat, right: nat, k: nat)
    requires left < right < |spans| && spans[left].size >= spans[right].size && k <= |spans|
    ensures MoveFile(spans, left, right)[k] ==
      if k < left then spans[k]
      else if k == left then spans[right]
      else if k == left + 1 then Span(None, spans[left].size - spans[right].size)
      else if k <= right then spans[k - 1]
      else if k == right + 1 then Span(None, spans[right].size)
      else spans[k - 1]
  {
  }

  /** part_2's relocation loop from a given state, one iteration per call:
      a file at right that has a free span before it that fits moves into
      the leftmost such span and right stays on the same index (the `+= 1`
      undoes the `-= 1`); otherwise right moves one span left. */
  function RelocateFrom(spans: seq<Span>, right: nat): seq<Span>
    requires right < |spans|
    decreases FileIndexSum(spans[..right + 1], 0), right
  {
    if right == 0 then spans
    else if spans[right].fileId.Some? && FirstFit(spans, right, spans[right].size).Some? then
      var left := FirstFit(spans, right, spans[right].size).value;
      MoveDecreases(spans, left, right);
      RelocateFrom(MoveFile(spans, left, right), right)
    else
      FileIndexSumPrefix(spans, right + 1);
      RelocateFrom(spans, right - 1)
  }

  /** The file ids moved by RelocateFrom, in the order of the moves. */
  ghost function MovedIds(spans: seq<Span>, right: nat): seq<nat>
    requires right < |spans|
    decreases FileIndexSum(spans[..right + 1], 0), right
  {
    if right == 0 then []
    else if spans[right].fileId.Some? && FirstFit(spans, right, spans[right].size).Some? then
      var left := FirstFit(spans, right, spans[right].size).value;
      MoveDecreases(spans, left, right);
      [spans[right].fileId.value] + MovedIds(MoveFile(spans, left, right), right)
    else
      FileIndexSumPrefix(spans, right + 1);
      MovedIds(spans, right - 1)
  }

  /** The relocated disk of part 2. */
  function Relocated(sizes: seq<nat>): seq<Span>
    requires |sizes| >= 1
  {
    RelocateFrom(InitialSpans(sizes), |sizes| - 1)
  }

  /** When the file at right has a free span to go to, relocation moves it
      there and carries on from the same place, with a smaller measure. */
  lemma RelocateFromMove(spans: seq<Span>, left: nat, right: nat)
    requires right < |spans| && spans[right].fileId.Some?
    requires FirstFit(spans, right, spans[right].size) == Some(left)
    ensures left < right && Fits(spans[left], spans[right].size)
    ensures RelocateFrom(spans, right) == RelocateFrom(MoveFile(spans, left, right), right)
    ensures FileIndexSum(MoveFile(spans, left, right)[..right + 1], 0) < FileIndexSum(spans[..right + 1], 0)
  {
    MoveDecreases(spans, left, right);
  }

  /** When the span at right stays, relocation carries on from the span
      before it, without raising the measure. */
  lemma RelocateFromSkip(spans: seq<Span>, right: nat)
    requires 0 < right < |spans|
    requires spans[right].fileId.Some? ==> FirstFit(spans, right, spans[right].size).None?
    ensures RelocateFrom(spans, right) == RelocateFrom(spans, right - 1)
    ensures FileIndexSum(spans[..right], 0) <= FileIndexSum(spans[..right + 1], 0)
  {
    FileIndexSumPrefix(spans, right + 1);
  }

  /** Relocation keeps the disk's blocks and its files. */
  lemma {:induction false} RelocateFromKeeps(spans: seq<Span>, right: nat)
    requires right < |spans|
    ensures multiset(Layout(RelocateFrom(spans, right))) == multiset(Layout(spans))
    ensures multiset(Files(RelocateFrom(spans, right))) == multiset(Files(spans))
    decreases FileIndexSum(spans[..right + 1], 0), right
  {
    if right == 0 {
    } else if spans[right].fileId.Some? && FirstFit(spans, right, spans[right].size).Some? {
      var left := FirstFit(spans, right, spans[right].size).value;
      MoveStep(spans, left, right);
      RelocateFromKeeps(MoveFile(spans, left, right), right);
    } else {
      FileIndexSumPrefix(spans, right + 1);
      RelocateFromKeeps(spans, right - 1);
    }
  }

  /** No two file spans share an id. */
  ghost predicate DistinctIds(spans: seq<Span>)
  {
    forall i, j :: 0 <= i < j < |spans| && spans[i].fileId.Some? && spans[j].fileId.Some? ==>
      spans[i].fileId != spans[j].fileId
  }

  /** Every file span up to right whose id is in seen has no free span
      before it that could hold it. */
  ghost predicate Settled(spans: seq<Span>, right: nat, seen: set<nat>)
  {
    forall i :: 0 <= i <= right && i < |spans| && spans[i].fileId.Some? && spans[i].fileId.value in seen ==>
      forall j :: 0 <= j < i ==> !Fits(spans[j], spans[i].size)
  }

  lemma InitialDistinct(sizes: seq<nat>)
    ensures DistinctIds(InitialSpans(sizes))
  {
  }

  /** A move keeps the file ids distinct. */
  lemma MoveDistinct(spans: seq<Span>, left: nat, right: nat)
    requires left < right < |spans| && spans[left].size >= spans[right].size && DistinctIds(spans)
    ensures DistinctIds(MoveFile(spans, left, right))
  {
    var r := MoveFile(spans, left, right);
    forall i, j | 0 <= i < j < |r| && r[i].fileId.Some? && r[j].fileId.Some?
      ensures r[i].fileId != r[j].fileId
    {
      MoveFileAt(spans, left, right, i);
      MoveFileAt(spans, left, right, j);
    }
  }

  /** After the file at right moves into the leftmost free span that fits
      it, it is settled too, and so is every settled file up to right. */
  lemma MoveSettled(spans: seq<Span>, left: nat, right: nat, seen: set<nat>)
    requires left < right < |spans| && spans[right].fileId.Some? && DistinctIds(spans)
    requires FirstFit(spans, right, spans[right].size) == Some(left)
    requires Settled(spans, right, seen)
    ensures Settled(MoveFile(spans, left, right), right, seen + {spans[right].fileId.value})
  {
    var r := MoveFile(spans, left, right);
    var x := spans[right];
    var seen' := seen + {x.fileId.value};
    forall i | 0 <= i <= right && i < |r| && r[i].fileId.Some? && r[i].fileId.value in seen'
      ensures forall j :: 0 <= j < i ==> !Fits(r[j], r[i].size)
    {
      MoveFileAt(spans, left, right, i);
      forall j | 0 <= j < i
        ensures !Fits(r[j], r[i].size)
      {
        MoveFileAt(spans, left, right, j);
        if i > left + 1 {
          assert r[i] == spans[i - 1] && r[i].fileId.value in seen;
          if j == left + 1 {
            assert !Fits(spans[left], r[i].size);
          } else if j > left + 1 {
            assert r[j] == spans[j - 1];
          }
        }
      }
    }
  }

  /** No file id is moved twice, nor is a settled one moved at all. */
  lemma {:induction false} MovesOnce(spans: seq<Span>, right: nat, seen: set<nat>)
    requires right < |spans| && DistinctIds(spans) && Settled(spans, right, seen)
    ensures forall k :: 0 <= k < |MovedIds(spans, right)| ==> MovedIds(spans, right)[k] !in seen
    ensures forall k, l :: 0 <= k < l < |MovedIds(spans, right)| ==> MovedIds(spans, right)[k] != MovedIds(spans, right)[l]
    decreases FileIndexSum(spans[..right + 1], 0), right
  {
    if right == 0 {
    } else if spans[right].fileId.Some? && FirstFit(spans, right, spans[right].size).Some? {
      var left := FirstFit(spans, right, spans[right].size).value;
      var x := spans[right].fileId.value;
      MoveDecreases(spans, left, right);
      MoveDistinct(spans, left, right);
      MoveSettled(spans, left, right, seen);
      MovesOnce(MoveFile(spans, left, right), right, seen + {x});
    } else {
      FileIndexSumPrefix(spans, right + 1);
      MovesOnce(spans, right - 1, seen);
    }
  }

  /** Part 2's relocated disk holds the same blocks and the same files as
      the input disk. */
  lemma RelocatedKeeps(sizes: seq<nat>)
    requires |sizes| >= 1
    ensures multiset(Layout(Relocated(sizes))) == multiset(Disk(sizes))
    ensures multiset(Files(Relocated(sizes))) == multiset(Files(InitialSpans(sizes)))
  {
    LayoutIsDisk(sizes);
    RelocateFromKeeps(InitialSpans(sizes), |sizes| - 1);
  }

  /** Part 2 moves each file at most once. */
  lemma RelocatedMovesOnce(sizes: seq<nat>)
    requires |sizes| >= 1
    ensures var ids := MovedIds(InitialSpans(sizes), |sizes| - 1);
      forall k, l :: 0 <= k < l < |ids| ==> ids[k] != ids[l]
  {
    InitialDistinct(sizes);
    MovesOnce(InitialSpans(sizes), |sizes| - 1, {});
  }

  /** part_2's relocation loop: files are visited from the right, and each is
      moved into the leftmost free span before it that fits, if any. */
  method Relocate(sizes: seq<nat>) returns (spans: seq<Span>)
    requires |sizes| >= 1
    ensures spans == Relocated(sizes)
  {
    ghost var target := Relocated(sizes);
    spans := InitialSpans(sizes);
    var right := |spans| - 1;
    assert RelocateFrom(spans, right) == target;
    while right > 0
      invariant 0 <= right < |spans|
      invariant RelocateFrom(spans, right) == target
      decreases FileIndexSum(spans[..right + 1], 0), right
    {
      ghost var measure := FileIndexSum(spans[..right + 1], 0);
      var block := spans[right];
      if block.fileId.Some? {
        var found := FindSpace(spans, right, block.size);
        if found.Some? {
          var left := found.value;
          RelocateFromMove(spans, left, right);
          spans := Move(spans, left, right);
          right := right + 1;
        } else {
          RelocateFromSkip(spans, right);
        }
      } else {
        RelocateFromSkip(spans, right);
      }
      right := right - 1;
      assert FileIndexSum(spans[..right + 1], 0) <= measure;
    }
    assert RelocateFrom(spans, 0) == spans;
  }

  /** unwrap_or(0): free blocks count as 0 but keep their index. */
  function Unwrap(d: seq<Cell>): (r: seq<nat>)
    ensures |r| == |d|
    ensures forall k :: 0 <= k < |d| ==> r[k] == (if d[k].Some? then d[k].value else 0)
  {
    seq(|d|, k requires 0 <= k < |d| => if d[k].Some? then d[k].value else 0)
  }

  /** The spans that hold at least one block. */
  function NonEmpty(spans: seq<Span>): (r: seq<Span>)
    ensures forall k :: 0 <= k < |r| ==> r[k].size > 0
  {
    if spans == [] then []
    else NonEmpty(spans[..|spans| - 1]) + (if spans[|spans| - 1].size > 0 then [spans[|spans| - 1]] else [])
  }

  /** Dropping empty spans does not change the layout, so part_2's filter
      only saves work. */
  lemma {:induction false} NonEmptyLayout(spans: seq<Span>)
    ensures Layout(NonEmpty(spans)) == Layout(spans)
  {
    if spans != [] {
      var init, last := spans[..|spans| - 1], spans[|spans| - 1];
      NonEmptyLayout(init);
      if last.size > 0 {
        LayoutAppend(NonEmpty(init), [last]);
        assert [last][..0] == [];
      } else {
        assert NonEmpty(spans) == NonEmpty(init) + [];
        assert NonEmpty(init) + [] == NonEmpty(init);
        assert Layout(spans) == Layout(init) + Repeat(last.fileId, last.size);
        assert Repeat(last.fileId, last.size) == [];
        assert Layout(init) + [] == Layout(init);
      }
    }
  }

  /** Part 2's checksum over the relocated spans: the blocks of the
      non-empty spans, free blocks counting as 0. */
  function SpanChecksum(spans: seq<Span>): (r: nat)
    ensures r == Checksum(Unwrap(Layout(spans)))
  {
    NonEmptyLayout(spans);
    Checksum(Unwrap(Layout(NonEmpty(spans))))
  }

  /** part_2: relocate whole files, then sum index * file id over the
      blocks, free blocks counting 0. */
  method Part2(sizes: seq<nat>) returns (sum: nat)
    requires |sizes| >= 1
    ensures sum == Checksum(Unwrap(Layout(Relocated(sizes))))
  {
    var spans := Relocate(sizes);
    sum := SpanChecksum(spans);
  }
}
