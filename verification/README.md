# Advent of Code 2024 solutions, modelled in Dafny

This project models the puzzle solutions of the `aoc-2024` Rust crate, one
Dafny module per day (`Day01` … `Day25`, day 13 excepted, with the wide
warehouse of day 15 in its own module `Day15Wide`) plus a small shared module
`Common` (an `Option` type, sums, duplicate-free sequences and walks over a
neighbour relation).

Every puzzle input, which the crate embeds with `include_str!` and parses with
regular expressions or string splitting, is a parameter here: grids are
rectangular `seq<seq<T>>`, lists are `seq<nat>`, gate tables and adjacency are
`map`s. Each module follows the form of its Rust file:

- Code that updates an object's fields becomes a `class`. Examples are the
  day 3 machine, the day 6 guard map, the day 9 compacting iterator, the
  day 11 stone cache, the day 15 warehouses, the day 17 emulator and the
  maps of days 18 and 20.
- The in-place loops of the source become `while` loops proved against a
  specification function, for instance the breadth-first searches of days 18
  and 20, the flood fills of days 12 and 14 and the gate fixed point of day 24.
- Pure iterator chains and recursions become functions, with lemmas about them.

Rust's fixed-width arithmetic is modelled where the solutions rely on it:
saturating `u64` arithmetic in day 7, the 24-bit mask in day 22, `% 8` and
shifts in day 17, and the `usize::MAX` sentinels of days 16 and 20. Elsewhere
integers are unbounded. Where the source would panic or loop forever, the
model either requires the input to avoid it, when callers never trigger it,
or returns an explicit `None`.

## Model

| member | source | states |
|---|---|---|
| Day01.Insert | src/day_1/mod.rs:19-20 | inserting into a sorted list keeps it sorted and adds exactly that element |
| Day01.SortList | src/day_1/mod.rs:19-20 | `sort` yields a sorted permutation of the list |
| Day01.SortedUnique | src/day_1/mod.rs:19-20 | two sorted lists with the same elements are equal, so the sorted order is unique |
| Day01.PairedDistanceSelf | src/day_1/mod.rs:22-26 | a list paired with itself has total distance zero |
| Day01.PermutationDistanceZero | src/day_1/mod.rs:15-26 | when the two lists hold the same numbers, part 1's distance is zero |
| Day01.CountMap | src/day_1/mod.rs:32-36 | the fold's map has a key exactly for each value of the right list, mapped to its number of occurrences |
| Day01.PairScoreIsCount | src/day_1/mod.rs:40-45 | a left number scores itself times its number of occurrences in the right list |
| Day01.SimilarityIsPairwise | src/day_1/mod.rs:38-46 | the similarity through the count map equals the sum over all left/right pairs with equal values |
| Day02.IsSafe | src/day_2/mod.rs:14-30 | `is_safe` returns true exactly when the report is strictly monotone in the direction of its first two levels with steps of at most 3 |
| Day02.SafeIsGradual | src/day_2/mod.rs:14-30 | safety is the same as every adjacent step being 1 to 3 in one common direction |
| Day02.RemoveAt | src/day_2/mod.rs:48-50 | `remove(ind)` shortens the list by one, shifting the later levels left |
| Day02.GradualSlice | src/day_2/mod.rs:14-30 | every contiguous piece of a gradual report is gradual |
| Day02.SafeDropEnds | src/day_2/mod.rs:38-55 | removing the first or the last level of a safe report of length at least 3 keeps it safe |
| Day02.SafeIndicesCons | src/day_2/mod.rs:32-36 | the safe indices of a list are the first report, if safe, and the safe indices of the rest moved up by one |
| Day02.DampenedIndicesCons | src/day_2/mod.rs:38-57 | the same split for the reports safe with the dampener |
| Common.ShiftCard | src/day_2/mod.rs:32-36 | moving a set of indices up by one keeps its size |
| Day02.CountSafe | src/day_2/mod.rs:32-36 | part 1 is the number of indices whose report is safe |
| Day02.CountDampened | src/day_2/mod.rs:38-57 | part 2 is the number of indices whose report is safe with the dampener |
| Day02.CountSafeAtMostDampened | src/day_2/mod.rs:32-57 | every report safe for part 1 is also counted by part 2 |
| Day03.Machine.constructor | src/day_3/mod.rs:30-35 | a new machine is on with sum zero |
| Day03.Machine.Instruct | src/day_3/mod.rs:37-47 | `mul` adds the product only while on; `do`/`don't` switch the machine without touching the sum |
| Day03.SumEnabled | src/day_3/mod.rs:50-75 | folding the instructions through a machine returns the sum of the run from the initial state |
| Day03.RunPrefix | src/day_3/mod.rs:50-75 | after any prefix the machine is on exactly when the last switch was `do` (or none) and holds the sum of the enabled products |
| Day03.RunIsEnabledProducts | src/day_3/mod.rs:50-75 | part 2's sum is the sum of the products not disabled by a preceding `don't` |
| Day03.RunAtMostAll | src/day_3/mod.rs:3-14 | part 2's sum never exceeds part 1's sum of all products |
| Day03.NoOffAddsAll | src/day_3/mod.rs:3-14 | without `don't`, part 2 equals part 1 |
| Day04.RayInside | src/day_4/mod.rs:35-43 | when both ends of a straight ray are inside the grid, every letter position between them is too |
| Day04.Check | src/day_4/mod.rs:17-48 | `check` holds exactly when the direction is one of the eight unit steps and the whole word reads from (x, y) in that direction inside the grid |
| Day04.DirCountNext | src/day_4/mod.rs:57-63 | the next direction pair adds one exactly when the word reads that way from (x, y) |
| Day04.AtMostEightPerCell | src/day_4/mod.rs:57-63 | the zero direction never matches, so a cell starts at most eight words |
| Day04.CountAtCell | src/day_4/mod.rs:57-63 | the two direction loops count the matching directions at one cell |
| Day04.CountWord | src/day_4/mod.rs:50-67 | part 1's nested loops count, cell by cell and row by row, the matches in every direction |
| Day04.ArrangementsValue | src/day_4/mod.rs:69-93 | the four arrangements are the base X, its vertical flip, its transpose and the transposed flip, cell for cell |
| Day04.ArrangementsShape | src/day_4/mod.rs:69-93 | there are four arrangements of five cells within a 3x3 window, each with the 'A' at the centre |
| Day04.MatchesFive | src/day_4/mod.rs:101-105 | an arrangement matches exactly when each of its five cells holds its letter |
| Day04.ArrangementMatches | src/day_4/mod.rs:95-106 | each of the four arrangements matches exactly its own placement of the two M's, the A and the two S's |
| Day04.CheckPart2IsCrossedMas | src/day_4/mod.rs:95-106 | `check_part_2` holds exactly when both diagonals of the 3x3 window read MAS or SAM through a central 'A' |
| Day04.CheckPart2Four | src/day_4/mod.rs:101-105 | `any` over four arrangements is the disjunction of their matches |
| Day04.WindowFitsProof | src/day_4/mod.rs:104 | every arrangement cell of a window inside the grid can be read |
| Day04.CountCrossedMas | src/day_4/mod.rs:108-127 | part 2's loops count the crossed-MAS windows over corners 0..height-2 by 0..width-2 |
| Day05.GroupRules | src/day_5/mod.rs:15-18 | the rule map has a key exactly for each page with a rule, mapped to the pages it must precede in file order |
| Day05.SecondsMembers | src/day_5/mod.rs:15-18 | page b is listed under a exactly when the rule a before b is in the file |
| Day05.CheckPrecedence | src/day_5/mod.rs:33-45 | `check_precedence` holds exactly when no page comes after a page it must precede |
| Day05.FirstIndex | src/day_5/mod.rs:61-65 | the `find` returns the first index whose page is a mistake, or none when no page is |
| Day05.RotateRight | src/day_5/mod.rs:70 | `rotate_right(1)` on the slice m..=i moves page i to position m, shifts the rest of the slice one right, leaves the outside alone and keeps the pages |
| Day05.SameElems | src/day_5/mod.rs:47-78 | permuted updates hold the same set of pages |
| Day05.MistakesFacts | src/day_5/mod.rs:52-65 | at step i the loop's page is the original page i, it has earlier mistakes exactly when that page was out of order in the original, and then the first mistake lies before i |
| Day05.SortStepFacts | src/day_5/mod.rs:52-75 | one loop step keeps the loop invariant and the pages, and rotates exactly when page i was out of order |
| Day05.SortStepPlacement | src/day_5/mod.rs:61-72 | after a rotation the page lands before every page it must precede |
| Day05.SortLoopFacts | src/day_5/mod.rs:52-77 | the loop keeps the pages and reports a resort exactly when some remaining page was out of order |
| Day05.SortResultFacts | src/day_5/mod.rs:47-78 | `sort` returns none exactly for correctly ordered updates, and otherwise a permutation of at least two pages |
| Day05.Sort | src/day_5/mod.rs:47-78 | the imperative `sort` computes that result, with the same none-iff-ordered and permutation guarantees |
| Day05.PartsAreDisjoint | src/day_5/mod.rs:80-112 | no update contributes to both part 1 and part 2 |
| Day06.RotateRightCycle | src/day_6/mod.rs:17-26 | turning right four times is the identity, and one, two or three turns change the direction |
| Day06.MoveFacts | src/day_6/mod.rs:75-112 | one `move_guard` keeps the guard on the map, reports a loop exactly when the current (direction, cell) was seen before and then changes nothing, otherwise records the cell and the (direction, cell), leaves the map exactly when the cell ahead is off the grid, and else turns right in place exactly when the cell ahead is an obstacle and otherwise steps ahead |
| Day06.MoveShrinksUnseen | src/day_6/mod.rs:75-112 | a move that does not report a loop adds a new (direction, cell) state, so the unseen states shrink |
| Day06.RunFrom | src/day_6/mod.rs:114-123 | `run` stops with Exit exactly when the guard has left the map, with Loop only on a repeated (direction, cell), and never forgets a visited cell |
| Day06.Map.constructor | src/day_6/mod.rs:46-71 | a loaded map has the guard at the start facing up, nothing visited, and the given size and obstacles |
| Day06.Map.AddObstacle | src/day_6/mod.rs:147-148 | inserting an obstacle adds exactly that cell and leaves the guard state alone |
| Day06.Map.MoveGuard | src/day_6/mod.rs:75-112 | the method updates the fields exactly as one move of the reference and keeps the obstacles |
| Day06.Map.Run | src/day_6/mod.rs:114-123 | the method's final state and outcome are those of the reference run |
| Day06.VisitedCount | src/day_6/mod.rs:126-132 | part 1 reports the number of distinct visited cells when the guard leaves, and none when it would loop forever |
| Day06.StartNeverBlocked | src/day_6/mod.rs:143-146 | the start cell is never a trial obstacle, and every trial obstacle lies on the map |
| Day06.CountLoopingObstacles | src/day_6/mod.rs:134-155 | part 2 counts the visited cells other than the start whose added obstacle makes the guard loop |
| Day07.SaturatingAdd | src/day_7/mod.rs:13 | `saturating_add` is the sum capped at 2^64 - 1 |
| Day07.SaturatingMul | src/day_7/mod.rs:14 | `saturating_mul` is the product capped at 2^64 - 1 |
| Day07.DigitCountBounds | src/day_7/mod.rs:16 | a number lies below 10 to its digit count, and a positive one at or above 10 to one less |
| Day07.ConcatIsShiftAndAdd | src/day_7/mod.rs:15-18 | concatenation shifts a left by b's digit count and adds b, saturating when that passes 2^64 - 1 |
| Day07.ConcatExample | src/day_7/mod.rs:23-26 | concatenating 12 and 345 gives 12345 |
| Day07.OperateGrows | src/day_7/mod.rs:11-20 | with a positive operand no operator lowers the accumulator |
| Day07.Reverse | src/day_7/mod.rs:60-63 | reversal keeps the length and mirrors the indices (the operator list is built last first) |
| Day07.DfsSound | src/day_7/mod.rs:48-67 | a list `dfs` returns has one Add or Mul per operand and, replayed left to right, reaches the target |
| Day07.Dfs2Sound | src/day_7/mod.rs:69-88 | a list `dfs_2` returns has one operator per operand and reaches the target |
| Day07.ReplayGrows | src/day_7/mod.rs:48-51 | with positive operands a replay never ends below its start, which justifies the `acc > target` pruning |
| Day07.DfsComplete | src/day_7/mod.rs:48-67 | with positive operands, whenever some Add/Mul assignment reaches the target `dfs` finds one |
| Day07.Dfs2Complete | src/day_7/mod.rs:69-88 | with positive operands, whenever some assignment of the three operators reaches the target `dfs_2` finds one |
| Day07.PruningNeedsPositiveOperands | src/day_7/mod.rs:48-51 | with a zero operand the pruning misses a solution: 5 * 0 + 3 == 3 but `dfs(3, 5, [0, 3])` fails |
| Day07.DfsImpliesDfs2 | src/day_7/mod.rs:48-88 | every equation `dfs` solves, `dfs_2` solves |
| Day07.CalibrationAtMostCalibration2 | src/day_7/mod.rs:90-118 | part 1's sum is at most part 2's sum |
| Day08.RowCells | src/day_8/mod.rs:20-26 | the cells of row y are its characters paired with their (y, x) positions |
| Day08.GridCells | src/day_8/mod.rs:16-28 | a (character, position) pair is enumerated exactly when the grid holds that character there |
| Day08.GroupCells | src/day_8/mod.rs:19-28 | the node map never has '.' as a key, lists only cells holding its key, and lists every non-'.' cell under its character |
| Day08.Parse | src/day_8/mod.rs:12-34 | `new_from_file` takes the height and first-row width, and a position is listed under a frequency exactly when that antenna is there |
| Day08.Consec | src/day_8/mod.rs:43-45 | `consec(a, b)` is the point one step past b on the line from a, so b lies midway |
| Day08.ReflectionsCollinear | src/day_8/mod.rs:47-52 | both reflected points of a pair are collinear with it |
| Day08.Pairs | src/day_8/mod.rs:57-66 | `tuple_combinations` gives exactly the pairs (locs[i], locs[j]) with i < j |
| Day08.PairAntinodes | src/day_8/mod.rs:66-74 | a pair's in-bounds antinodes are exactly the map cells reflecting one antenna over the other |
| Day08.PairsAntinodes | src/day_8/mod.rs:65-75 | the flat map over pairs holds exactly the antinodes of some pair |
| Day08.KeysAntinodes | src/day_8/mod.rs:62-75 | the flat map over frequencies holds exactly the antinodes of some same-frequency pair |
| Day08.KeysAntinodesSound | src/day_8/mod.rs:62-78 | every point listed is a part 1 antinode |
| Day08.KeysAntinodesComplete | src/day_8/mod.rs:62-78 | every part 1 antinode is listed when all frequencies are visited |
| Day08.Antinodes1 | src/day_8/mod.rs:62-78 | after `unique`, `antinodes_1` lists each part 1 antinode exactly once |
| Day08.AlignedCheckSound | src/day_8/mod.rs:54-60 | when `aligned` holds, the cell is collinear with two same-frequency antennas |
| Day08.AlignedCheckComplete | src/day_8/mod.rs:54-60 | whenever the cell is collinear with two same-frequency antennas, `aligned` holds |
| Day08.Row | src/day_8/mod.rs:81-82 | row y of the cartesian product lists (y, 0) to (y, width - 1) |
| Day08.Cells | src/day_8/mod.rs:81-82 | the cartesian product lists every map cell exactly once |
| Day08.Filter | src/day_8/mod.rs:83 | the filter keeps exactly the aligned cells and adds no duplicates |
| Day08.Antinodes2 | src/day_8/mod.rs:80-85 | `antinodes_2` lists each map cell collinear with two same-frequency antennas exactly once |
| Day08.Antinodes1WithinAntinodes2 | src/day_8/mod.rs:62-85 | every part 1 antinode is a part 2 antinode |
| Day08.Antinode1IsAligned | src/day_8/mod.rs:43-60 | a reflection antinode is collinear with its pair |
| Common.DistinctCount | src/day_8/mod.rs:76 | a list without duplicates has as many elements as its set |
| Day08.DistinctSubsetCount | src/day_8/mod.rs:76-84 | a duplicate-free list contained in another is no longer |
| Day08.Part1AtMostPart2 | src/day_8/mod.rs:88-96 | part 1's count is at most part 2's |
| Day09.Tag | src/day_9/mod.rs:117-123 | entry i is a file with id i / 2 exactly when i is even, and free space otherwise |
| Day09.EntryBlocks | src/day_9/mod.rs:153 | entry i expands to as many blocks as its size |
| Day09.StartMonotone | src/day_9/mod.rs:117-125 | entries start at non-decreasing block offsets |
| Day09.DiskUpTo | src/day_9/mod.rs:150-154 | the first n entries expand to as many blocks as the start of entry n |
| Day09.Disk | src/day_9/mod.rs:150-154 | the expanded disk has as many blocks as the sizes add up to |
| Day09.DiskAt | src/day_9/mod.rs:117-125 | block k of entry i sits at its start plus k and carries the entry's tag |
| Day09.FreeBetween | src/day_9/mod.rs:117-123 | the blocks of an odd entry are free |
| Day09.FileIdsFront | src/day_9/mod.rs:42-93 | the file ids of a window are those of its first block followed by the rest |
| Day09.KeepsFilesFront | src/day_9/mod.rs:54-62 | taking a file block from the front keeps the window's files |
| Day09.KeepsFilesGap | src/day_9/mod.rs:63-78 | filling a front gap with the last file block keeps the window's files |
| Day09.KeepsFilesTrailing | src/day_9/mod.rs:47-49 | dropping a trailing free block keeps the window's files |
| Day09.CompactWinKeepsFiles | src/day_9/mod.rs:42-93 | compacting any window keeps exactly its file blocks |
| Day09.CompactKeepsFiles | src/day_9/mod.rs:42-103 | the compacted disk is a rearrangement of the disk's file blocks, no more and no fewer |
| Day09.WinTrailingFree | src/day_9/mod.rs:47-49 | trailing free blocks do not change the compaction |
| Day09.WinFileFront | src/day_9/mod.rs:54-62 | a file block at the front of a window is emitted first |
| Day09.WinGapFront | src/day_9/mod.rs:63-78 | a free block at the front of a window is filled by the window's last file block |
| Day09.WindowBounds | src/day_9/mod.rs:42-93 | the iterator's cursors delimit a window of the disk |
| Day09.SkipLeft | src/day_9/mod.rs:44-46 | skipping an empty left entry changes neither the pending output nor the window |
| Day09.SkipRight | src/day_9/mod.rs:47-49 | skipping an empty right file moves two entries left without changing the pending output |
| Day09.ReadFile | src/day_9/mod.rs:54-62 | reading a left file block emits its id, keeps the invariant and shrinks the window |
| Day09.ReadGap | src/day_9/mod.rs:63-78 | reading into a left gap emits the right file's id, keeps the invariant and shrinks the window |
| Day09.GapKeepRight | src/day_9/mod.rs:63-75 | the gap step when the right file still has blocks left |
| Day09.GapDropRight | src/day_9/mod.rs:63-75 | the gap step when the right file's last block was read |
| Day09.ReadMeet | src/day_9/mod.rs:79-88 | when the cursors meet, the shared file's remaining blocks, less those read from the right, are emitted |
| Day09.Compactor.constructor | src/day_9/mod.rs:27-36 | a new iterator starts at both ends with nothing read, and its pending output is the whole compaction |
| Day09.Compactor.SkipEmpty | src/day_9/mod.rs:43-49 | the skip loops keep the pending output and stop at non-empty entries |
| Day09.Compactor.ReadFileBlock | src/day_9/mod.rs:54-62 | reading a block of the left file emits the first pending id, drops it, and shrinks what is left to read |
| Day09.Compactor.FillGapBlock | src/day_9/mod.rs:63-78 | filling a block of the left gap emits the first pending id, taken from the right file, and shrinks what is left to read |
| Day09.Compactor.ReadLastFile | src/day_9/mod.rs:79-88 | when the cursors meet on a file, the next block emitted is the first pending id |
| Day09.Compactor.Next | src/day_9/mod.rs:42-93 | `next` returns the first pending file id and drops it, or none exactly when nothing is pending |
| Day09.CompactedChecksum | src/day_9/mod.rs:95-103 | part 1's sum is the index-weighted checksum of the block-by-block compaction |
| Day09.InitialSpans | src/day_9/mod.rs:114-125 | the initial blocks are the entries with their tag and size |
| Day09.Repeat | src/day_9/mod.rs:153 | a span expands to size copies of its file id |
| Day09.LayoutAppend | src/day_9/mod.rs:153 | the blocks of two span lists are the concatenation of their blocks |
| Day09.LayoutInitial | src/day_9/mod.rs:114-125 | the blocks of the first n initial spans are the first n entries of the disk |
| Day09.LayoutIsDisk | src/day_9/mod.rs:114-125 | the initial spans lay out the part 1 disk |
| Day09.Files | src/day_9/mod.rs:106-109 | the file spans are spans with an id |
| Day09.FilesAppend | src/day_9/mod.rs:106-109 | the files of two span lists are the concatenation of their files |
| Day09.FirstFit | src/day_9/mod.rs:132-145 | the leftmost free span before `right` that can hold the file, or none exactly when no free span before `right` can |
| Day09.FindSpace | src/day_9/mod.rs:132-145 | the scan from the left stops at the leftmost free span that fits, as FirstFit finds it |
| Day09.MoveFile | src/day_9/mod.rs:136-140 | a move lengthens the span list by exactly one span |
| Day09.LayoutMid | src/day_9/mod.rs:153 | the blocks of a list split around one span |
| Day09.FilesMid | src/day_9/mod.rs:106-109 | the files of a list split around one span |
| Day09.MoveKeepsBlocks | src/day_9/mod.rs:136-140 | the three in-place updates of a move keep the disk's multiset of blocks |
| Day09.FilesBefore | src/day_9/mod.rs:106-109 | the files before a move |
| Day09.FilesAfter | src/day_9/mod.rs:106-109 | the files after a move |
| Day09.MoveKeepsFiles | src/day_9/mod.rs:136-140 | a move keeps the multiset of files |
| Day09.FileIndexSumAppend | src/day_9/mod.rs:127-148 | the termination measure over a concatenation |
| Day09.FileIndexSumShift | src/day_9/mod.rs:127-148 | shifting files one place right raises the measure by at most their number |
| Day09.MoveDecreases | src/day_9/mod.rs:140-147 | after a move and `right += 1; right -= 1`, the files up to `right` have a smaller measure, so the loop ends |
| Day09.MoveStep | src/day_9/mod.rs:136-142 | a move adds one span, keeps the blocks and the files, and lowers the measure |
| Day09.FileIndexSumPrefix | src/day_9/mod.rs:147 | `right -= 1` does not raise the measure |
| Day09.Move | src/day_9/mod.rs:136-140 | the three in-place updates produce the moved span list |
| Day09.MoveFileAt | src/day_9/mod.rs:136-140 | after a move the file sits in the free span's place, what is left of that span follows it, free space of the file's size takes the file's old place, and every other span keeps its order |
| Day09.RelocateFromKeeps | src/day_9/mod.rs:127-148 | relocating from any state keeps the multiset of blocks and the multiset of files |
| Day09.RelocatedKeeps | src/day_9/mod.rs:111-148 | the relocated disk holds the same blocks and the same files as the input disk |
| Day09.MoveDistinct | src/day_9/mod.rs:136-140 | a move keeps every file id on one span only |
| Day09.MoveSettled | src/day_9/mod.rs:132-143 | a file moved into the leftmost free span that fits has no fitting free span before it afterwards, and files already in that state stay so |
| Day09.MovesOnce | src/day_9/mod.rs:127-148 | from a state where settled files have no fitting space before them, no file is moved twice and no settled file is moved |
| Day09.RelocatedMovesOnce | src/day_9/mod.rs:111-148 | part 2 moves each file at most once |
| Day09.Relocate | src/day_9/mod.rs:127-148 | the loop's spans are the relocated disk, one RelocateFrom step per iteration |
| Day09.Unwrap | src/day_9/mod.rs:155 | `unwrap_or(0)` keeps every index and counts free blocks as 0 |
| Day09.NonEmpty | src/day_9/mod.rs:152 | the filter keeps only spans of positive size |
| Day09.NonEmptyLayout | src/day_9/mod.rs:152-153 | dropping empty spans does not change the blocks |
| Day09.ChecksumSnoc | src/day_9/mod.rs:95-103 | one more block at index n adds n times its id to the checksum |
| Day09.SpanChecksum | src/day_9/mod.rs:150-156 | part 2's sum is the index-weighted checksum of the laid-out blocks, free blocks counting 0 |
| Day09.Part2 | src/day_9/mod.rs:111-159 | part 2's sum is the index-weighted checksum of the relocated disk's blocks, free blocks counting 0 |
| Day10.Height | src/day_10/mod.rs:24-26 | every map height is a digit, at most 9 |
| Day10.RowZeros | src/day_10/mod.rs:41-44 | the filter over a row lists each zero cell of the row once |
| Day10.ZerosUpTo | src/day_10/mod.rs:37-46 | the flat map over the first n rows lists each zero cell of those rows once |
| Day10.Trailheads | src/day_10/mod.rs:36-47 | `trailheads` lists each height-0 cell of the map exactly once |
| Day10.Neighbors | src/day_10/mod.rs:55-62 | the four guarded checks give exactly the in-map orthogonal neighbours, each once |
| Day10.Trails | src/day_10/mod.rs:49-73 | every path the search explores from p starts at p |
| Day10.TrailsVia | src/day_10/mod.rs:64-72 | every path explored through a candidate list starts at p and continues at one of the candidates |
| Day10.Prepend | src/day_10/mod.rs:69 | prefixing p to each path keeps their number |
| Day10.Ends | src/day_10/mod.rs:49-73 | the end of each path, in order |
| Day10.TrailsSound | src/day_10/mod.rs:49-73 | every explored path is a hiking trail: in the map, orthogonal steps, heights rising by one, ending at 9 |
| Day10.TrailsViaSound | src/day_10/mod.rs:64-72 | the same through a candidate list of neighbours |
| Day10.NoStepFromNine | src/day_10/mod.rs:51-54 | no trail continues past a 9 |
| Day10.TrailsComplete | src/day_10/mod.rs:49-73 | every hiking trail from p is explored |
| Day10.TrailsViaComplete | src/day_10/mod.rs:64-72 | every trail whose second cell is a candidate is explored |
| Day10.TrailsDistinct | src/day_10/mod.rs:49-73 | the search explores each trail once |
| Day10.TrailsViaDistinct | src/day_10/mod.rs:64-72 | the same through a duplicate-free candidate list |
| Day10.EndsAppend | src/day_10/mod.rs:72 | the ends of two path lists are the concatenation of their ends |
| Day10.DfsEnds | src/day_10/mod.rs:49-73 | `dfs` returns the ends of the explored trails, in order |
| Day10.DfsViaEnds | src/day_10/mod.rs:64-72 | the same for the flat map over the candidates |
| Day10.DfsSound | src/day_10/mod.rs:49-73 | every cell `dfs` returns ends a hiking trail from p |
| Day10.DfsComplete | src/day_10/mod.rs:49-73 | every end of a hiking trail from p is returned |
| Day10.DfsReaches | src/day_10/mod.rs:76-104 | a cell is returned exactly when some trail from p ends there (the part 1 score), and the list has one entry per distinct trail (the part 2 rating) |
| Day10.SumScoresBound | src/day_10/mod.rs:76-104 | the distinct ends never outnumber the trails, summed over the trailheads |
| Day10.Part1AtMostPart2 | src/day_10/mod.rs:76-104 | part 1's total score is at most part 2's total rating |
| Day11.Pow10Add | src/day_11/mod.rs:8-9 | powers of ten multiply by adding exponents |
| Day11.DigitCount | src/day_11/mod.rs:4 | `checked_ilog10().unwrap_or(0) + 1` is the number of decimal digits: the number lies below 10 to it, and at or above 10 to one less when positive |
| Day11.DigitCountUnique | src/day_11/mod.rs:4 | those bounds fix the digit count |
| Day11.DivMod | src/day_11/mod.rs:8-9 | quotient and remainder rebuild the stone |
| Day11.MulCancelLess | src/day_11/mod.rs:8-9 | products by a positive factor compare as their factors |
| Day11.DivBounds | src/day_11/mod.rs:8-9 | bounds on a quotient from bounds on the dividend |
| Day11.TransformSplit | src/day_11/mod.rs:7-10 | a stone with an even number of digits splits into a left half of exactly half the digits and a right half below 10 to that, which rebuild the stone |
| Day11.HalvesBounds | src/day_11/mod.rs:9 | the left half of a 2h-digit stone has h digits |
| Day11.TransformCases | src/day_11/mod.rs:3-14 | 0 becomes 1; an odd-digit stone is multiplied by 2024; a stone splits exactly when it is positive with an even number of digits |
| Day11.TransformExamples | src/day_11/mod.rs:16-21 | transform(0) == (1, None), transform(1234) == (12, Some(34)), transform(123) == (123 * 2024, None) |
| Day11.Count | src/day_11/mod.rs:41-56 | every stone remains at least one stone after any number of blinks |
| Day11.StoneCache.constructor | src/day_11/mod.rs:60 | the cache starts empty and consistent |
| Day11.StoneCache.MultiplyStones | src/day_11/mod.rs:41-56 | `multiply_stones` returns the number of stones after the given blinks, keeps every cache entry equal to that count and never drops one |
| Day11.CountAfter | src/day_11/mod.rs:58-67 | part 2's sum over the stones with one shared cache is the total count |
| Day11.Firsts | src/day_11/mod.rs:30-31 | each stone is replaced in place by the first part of its transform |
| Day11.BlinkLength | src/day_11/mod.rs:26-36 | a blink adds one stone per split stone |
| Day11.BlinkInPlace | src/day_11/mod.rs:27-35 | the `iter_mut` pass followed by `append` computes one blink |
| Day11.Simulate | src/day_11/mod.rs:23-39 | part 1's loop applies the blink the given number of times |
| Day11.CountAllAppend | src/day_11/mod.rs:61-64 | the count of a concatenation is the sum of the counts |
| Day11.CountAllStep | src/day_11/mod.rs:41-56 | counting after one more blink equals counting the blinked stones |
| Day11.SimulationCounts | src/day_11/mod.rs:23-67 | the simulated line after n blinks has exactly as many stones as the memoised count predicts |
| Day11.CountAllOnes | src/day_11/mod.rs:45-47 | with no blinks each stone counts once |
| Day11.BothParts | src/day_11/mod.rs:23-67 | on the puzzle's stones, simulation and memoised counting agree for any number of blinks |
| Day12.Cells | src/day_12/mod.rs:177-178 | the cartesian product of rows and columns covers exactly the map's cells |
| Day12.Neighbors | src/day_12/mod.rs:38-52 | `get_neighbors` lists, once each, the at most four orthogonal in-map cells with the same plant |
| Day12.Component | src/day_12/mod.rs:54-72 | the region of a start cell is the set of map cells reachable from it through same-plant neighbours |
| Day12.Area | src/day_12/mod.rs:91-93 | `area` is the number of cells in the region |
| Day12.FillStart | src/day_12/mod.rs:55-57 | the flood fill's invariant holds with the start alone on the stack |
| Day12.FillSkip | src/day_12/mod.rs:59-62 | popping an already-seen cell keeps the invariant |
| Day12.FillVisit | src/day_12/mod.rs:63-68 | visiting a new cell and pushing its neighbours keeps the invariant |
| Day12.FillDone | src/day_12/mod.rs:59-71 | when the stack is empty the seen set is exactly the start's region, closed under neighbours |
| Day12.PerimeterAdd | src/day_12/mod.rs:67 | adding a cell adds its fence sides to the perimeter |
| Day12.FewerUnseen | src/day_12/mod.rs:63 | visiting a new cell shrinks the unseen cells, so the fill ends |
| Day12.PopSplit | src/day_12/mod.rs:59 | popping splits the stack into its init and last element |
| Day12.VisitStep | src/day_12/mod.rs:63-68 | one visit keeps the invariant, adds `4 - neighbours` to the perimeter and shrinks the unseen cells |
| Day12.RegionFromPoint | src/day_12/mod.rs:54-72 | `get_region_from_point` returns the start's whole region, closed under neighbours, with the perimeter its fence count |
| Day12.ComponentSamePlant | src/day_12/mod.rs:50 | every cell of a region has the start's plant |
| Day12.ComponentShared | src/day_12/mod.rs:180-183 | regions that share a cell contain each other's start |
| Day12.Get8 | src/day_12/mod.rs:108-123 | the eight neighbours are the distinct cells around p, flagged present exactly when in the region |
| Day12.Get4 | src/day_12/mod.rs:95-106 | the four orthogonal neighbours are the odd entries of the eight, each adjacent to p |
| Day12.OppositeIff | src/day_12/mod.rs:155-160 | two of the four neighbours face each other through p exactly when their indices differ by 2 |
| Day12.PresentIndices | src/day_12/mod.rs:146-151 | the collected indices are the present neighbours, increasing |
| Day12.VertexCount | src/day_12/mod.rs:125-166 | a cell has at most four outline vertices at its corners |
| Day12.ConcaveMatches | src/day_12/mod.rs:132-143 | the concave count is the number of inner corners: two orthogonal neighbours present and the diagonal between them absent |
| Day12.ConvexOfFlags | src/day_12/mod.rs:152-162 | the convex match counts the pairs of consecutive absent orthogonal neighbours |
| Day12.ConvexByPresence | src/day_12/mod.rs:145-162 | the same for the four neighbours' presence flags |
| Day12.ConvexMatches | src/day_12/mod.rs:145-162 | the convex count is the number of outer corners: two consecutive orthogonal neighbours both absent |
| Day12.CornersAreVertices | src/day_12/mod.rs:125-166 | what `num_sides` adds for a cell is the number of its corners that are vertices of the region's outline, at most 4 |
| Day12.SidesBound | src/day_12/mod.rs:125-166 | a region has at most four sides per cell |
| Day12.SingleCellSides | src/day_12/mod.rs:125-166 | one cell has four sides |
| Day12.SingleCellPerimeter | src/day_12/mod.rs:54-72 | an isolated cell has perimeter 4 |
| Day12.DominoSides | src/day_12/mod.rs:125-166 | two cells side by side have four sides |
| Day12.TrominoCorners | src/day_12/mod.rs:125-166 | each cell of an L-tromino adds two vertices |
| Day12.TrominoSides | src/day_12/mod.rs:125-166 | an L-tromino has six sides |
| Day12.CountSides | src/day_12/mod.rs:125-166 | the loop over the cells sums their vertex counts |
| Day12.CoveredAppend | src/day_12/mod.rs:180 | a cell is covered after a push exactly when it was covered or lies in the new region |
| Day12.FreshRegionDisjoint | src/day_12/mod.rs:180-183 | a region started at an uncovered cell shares no cell with an earlier region |
| Day12.AddRegion | src/day_12/mod.rs:180-183 | pushing the region of an uncovered cell keeps the regions disjoint |
| Day12.FindRegions | src/day_12/mod.rs:177-185 | the fold yields disjoint regions covering exactly the map's cells |
| Day12.Union | src/day_12/mod.rs:177-185 | the union of the regions holds exactly the covered cells |
| Day12.UnionSize | src/day_12/mod.rs:177-188 | disjoint regions' areas add up to the size of their union |
| Day12.AreasCoverMap | src/day_12/mod.rs:177-188 | the areas of a partition add up to the number of map cells |
| Day12.SingleCellPrices | src/day_12/mod.rs:187-204 | an isolated cell costs 4 under both prices |
| Day12.Part1 | src/day_12/mod.rs:175-190 | part 1's cost is the area times perimeter summed over a partition of the map into regions |
| Day12.PriceBySides | src/day_12/mod.rs:203-205 | the loop sums area times sides |
| Day12.Part2 | src/day_12/mod.rs:192-207 | part 2's cost is the area times number of sides summed over a partition of the map into regions |
| Day14.ModUnique | src/day_14/mod.rs:47-48 | a value written as a multiple of m plus r with 0 <= r < m has remainder r, so `rem_euclid` is determined |
| Day14.ModShift | src/day_14/mod.rs:47-48 | adding any multiple of the board size leaves the wrapped coordinate unchanged |
| Day14.ModAddLeft | src/day_14/mod.rs:47-48 | wrapping before or after adding a step gives the same coordinate |
| Day14.PositionAfter | src/day_14/mod.rs:44-51 | the position after t turns lies on the board |
| Day14.PositionStep | src/day_14/mod.rs:44-51 | the position after t + 1 turns is the position after t turns moved one velocity step and wrapped |
| Day14.PositionPeriodic | src/day_14/mod.rs:44-51 | after width * height more turns every robot is where it was |
| Day14.Quadrant | src/day_14/mod.rs:54-63 | a tile has no quadrant exactly when it is on the middle column or row; otherwise the quadrant's parity says left or right and its half says top or bottom |
| Day14.Tally | src/day_14/mod.rs:53-66 | the fold yields four counts |
| Day14.InQuadrantSnoc | src/day_14/mod.rs:64 | one more robot joins the index set of its quadrant and no other |
| Day14.OnAxisSnoc | src/day_14/mod.rs:62 | one more robot on an axis joins the skipped indices |
| Day14.TallyCount | src/day_14/mod.rs:53-66 | count k of the fold is the number of robots whose tile lies in quadrant k |
| Day14.TallyTotal | src/day_14/mod.rs:53-66 | the four counts and the robots on the axes add up to all robots |
| Day14.TallyBound | src/day_14/mod.rs:53-66 | the four counts together never exceed the number of robots |
| Day14.SafetyScore | src/day_14/mod.rs:37-72 | the score is the product of the numbers of robots in the four quadrants after 100 turns |
| Day14.Positions | src/day_14/mod.rs:41-52 | robot i's entry is its position after the given number of turns |
| Day14.Cluster | src/day_14/mod.rs:98-114 | the cluster of p is the set of occupied tiles 4-connected to p |
| Day14.NeighborsIn | src/day_14/mod.rs:103-112 | the candidates pushed are exactly the occupied orthogonal neighbours |
| Day14.PopSplit | src/day_14/mod.rs:100 | popping splits the stack into its init and its last element |
| Day14.RemovalStart | src/day_14/mod.rs:98 | the removal invariant holds with the start alone on the stack |
| Day14.RemovalSkip | src/day_14/mod.rs:101 | popping a tile already removed keeps the invariant |
| Day14.RemovalVisit | src/day_14/mod.rs:101-112 | removing a tile and pushing its remaining neighbours keeps the invariant |
| Day14.RemovalDone | src/day_14/mod.rs:100-114 | when the stack is empty exactly the start's cluster has been removed |
| Day14.RemoveCluster | src/day_14/mod.rs:95-116 | the inner loop removes exactly the cluster of the picked tile, so the set shrinks |
| Day14.WalkRestrict | src/day_14/mod.rs:100-114 | a walk that stays inside a subset is a walk of the subset's adjacency |
| Day14.WalkWiden | src/day_14/mod.rs:100-114 | a walk of a subset is a walk of the whole set |
| Day14.ClusterOfClosed | src/day_14/mod.rs:92-116 | in a union of whole clusters, a tile's cluster is the same as in the whole set |
| Day14.SameCluster | src/day_14/mod.rs:115-116 | every tile of a cluster has that same cluster |
| Day14.RemoveKeepsClosed | src/day_14/mod.rs:92-116 | removing a whole cluster leaves a union of whole clusters |
| Day14.LargestCluster | src/day_14/mod.rs:90-124 | the running maximum ends as the larger of its old value and the largest cluster size |
| Day14.Occupied | src/day_14/mod.rs:80-90 | the set of positions holds exactly the tiles some robot occupies after t turns |
| Day14.ScanTurn | src/day_14/mod.rs:79-125 | after one turn of the scan the maximum is at least every cluster of that turn, never decreases, and is either unchanged or the size of a cluster of that turn |
| Day14.Part2 | src/day_14/mod.rs:74-125 | over all scanned turns the result bounds every cluster and, unless zero, is the size of some cluster of some turn; the turn returned is the last one the source prints, the first turn on which that largest cluster appears, every earlier turn's clusters being smaller |
| Day15.Get | src/day_15/mod.rs:53-55 | inside the map the tile read is the grid's cell at row y, column x |
| Day15.PutCells | src/day_15/mod.rs:57-59 | writing a cell changes that cell only and keeps every row's width |
| Day15.Step | src/day_15/mod.rs:61-68 | a step in one of the four directions moves to a different cell in the same row or column |
| Day15.RunEnd | src/day_15/mod.rs:82-95 | the first cell past a line of boxes: every cell before it holds a box and it does not |
| Day15.CanMove | src/day_15/mod.rs:82-95 | the line of boxes can be pushed exactly when the cell after it is empty, and then that cell is returned |
| Day15.PutSum | src/day_15/mod.rs:271-283 | overwriting one cell changes any per-cell sum by the difference of that cell's terms |
| Day15.PushEffects | src/day_15/mod.rs:71-76 | moving the first box of a line to the free cell at its end keeps the number of boxes and the walls, and shifts the score by the two cells' terms |
| Day15.MovedKeeps | src/day_15/mod.rs:61-80 | a move keeps the walls and the box count, and leaves the robot on an empty cell, either where it was or one step on |
| Day15.MovedBlocked | src/day_15/mod.rs:69-79 | a wall, or a line of boxes ended by a wall, leaves map and robot unchanged; an empty cell ahead is simply stepped into |
| Day15.Warehouse.constructor | src/day_15/mod.rs:39-42 | the warehouse holds the map with the robot on an empty cell |
| Day15.Warehouse.MoveRobot | src/day_15/mod.rs:61-80 | the new map and robot are those of the move, with the walls and the box count kept |
| Day15.Replay | src/day_15/mod.rs:272-274 | replaying any instructions keeps the walls and the box count and leaves the robot on an empty cell |
| Day15.Warehouse.Run | src/day_15/mod.rs:272-274 | after the loop the map and robot are the replay of all the instructions |
| Day15.DirOf | src/day_15/mod.rs:257-269 | each recognised character maps to a direction below 4 |
| Day15.DirOfArrow | src/day_15/mod.rs:261-266 | the four arrows and the four directions correspond one to one and every other character is refused |
| Day15.ArrowSteps | src/day_15/mod.rs:62-67 | direction 0 goes up, 1 right, 2 down and 3 left |
| Day15.Instructions | src/day_15/mod.rs:257-269 | the directions of every character, or no result exactly when some character is not an arrow |
| Day15.Part1 | src/day_15/mod.rs:271-288 | the score is the sum of 100 * y + x over the boxes of the map after all the moves |
| Day15Wide.WidenRow | src/day_15/mod.rs:119-131 | each cell becomes two: a wall two walls, a box a left and a right half, anything else two empty cells |
| Day15Wide.Widen | src/day_15/mod.rs:113-133 | every row of the wide map is the widened row |
| Day15Wide.WideAt | src/day_15/mod.rs:119-131 | the wide cell at column x is half x mod 2 of the narrow cell at column x / 2 |
| Day15Wide.WidenPaired | src/day_15/mod.rs:119-137 | the wide map is rectangular, every left half has its right half beside it, and the robot's doubled column is empty |
| Day15Wide.CanMoveFree | src/day_15/mod.rs:176-215 | can_box_move holds exactly when no cell the push would move stands right in front of a wall |
| Day15Wide.ConeClosed | src/day_15/mod.rs:183-214 | the cells a push moves hold box halves only, include both halves of every box they touch and every half right in front of one of them |
| Day15Wide.ForceEffects | src/day_15/mod.rs:217-254 | a push that can_box_move allows moves exactly the cells it reaches one step along, empties the cells behind them and keeps every tile count |
| Day15Wide.StepCounts | src/day_15/mod.rs:251-252 | moving a tile into an empty cell keeps the number of cells of every kind |
| Day15Wide.LiftCounts | src/day_15/mod.rs:240-243 | the four writes of a vertical push into two empty cells keep the number of cells of every kind |
| Day15Wide.ShiftPaired | src/day_15/mod.rs:217-254 | moving a closed set of box halves that faces no wall keeps every left half beside its right half |
| Day15Wide.ShiftWalls | src/day_15/mod.rs:217-254 | moving box halves that face no wall keeps the walls where they were |
| Day15Wide.MovedKeeps | src/day_15/mod.rs:156-174 | a move keeps the boxes whole, the walls and every tile count, leaves the robot on an empty cell where it was or one step on, and pushes exactly when nothing it moves faces a wall |
| Day15Wide.Replay | src/day_15/mod.rs:291-294 | replaying any instructions keeps the boxes whole, the walls and every tile count, and leaves the robot on an empty cell |
| Day15Wide.Warehouse.constructor | src/day_15/mod.rs:134-137 | the wide warehouse holds the map with the robot on an empty cell |
| Day15Wide.Warehouse.ForceBoxMove | src/day_15/mod.rs:217-254 | the map after the recursive pushes and writes is the push function's map, and the robot is unchanged |
| Day15Wide.Warehouse.MoveRobot | src/day_15/mod.rs:156-174 | the new map and robot are those of the move, with the walls and every tile count kept |
| Day15Wide.Warehouse.Run | src/day_15/mod.rs:291-294 | after the loop the map and robot are the replay of all the instructions |
| Day15Wide.Part2 | src/day_15/mod.rs:290-306 | the score is the sum of 100 * y + x over the left halves of the widened map after all the moves |
| Day16.Step | src/day_16/mod.rs:51-58 | a step moves one cell up, right, down or left |
| Day16.StepInside | src/day_16/mod.rs:58-61 | on a map closed by a wall border, a step from an open cell stays on the map, so the wall lookup is in range |
| Day16.CostBounds | src/day_16/mod.rs:63-65 | a route of n steps costs at least n and at most 1001 * n |
| Day16.RouteSnoc | src/day_16/mod.rs:62-70 | extending an open route by one step into an open cell adds 1, plus 1000 when the direction changes, and faces the new direction |
| Day16.Lookup | src/day_16/mod.rs:66 | a recorded cost is returned, and usize::MAX for a cell not yet seen |
| Day16.ExpandedNext | src/day_16/mod.rs:57-72 | a direction whose open neighbour is recorded extends the set of neighbours handled |
| Day16.ExpandedUpToGrows | src/day_16/mod.rs:48-72 | recording more cells keeps the neighbours already handled |
| Day16.SoundInsert | src/day_16/mod.rs:48-68 | recording a cost no lower than some open route's cost keeps every recorded cost backed by a route |
| Day16.ExpandedGrows | src/day_16/mod.rs:48-72 | every cell fully handled stays so when more cells are recorded |
| Day16.FindMinCost | src/day_16/mod.rs:41-74 | every recorded cost is at least the cost of some open route from the start; the current cell is recorded, and every newly recorded cell other than the end has all its open neighbours recorded |
| Day16.SearchReaches | src/day_16/mod.rs:41-74 | when every recorded cell except the end is handled, every cell reachable from the start without passing through the end is recorded |
| Day16.DescentReached | src/day_16/mod.rs:94-99 | every cell the descent visits is recorded, no dearer than where it began, and reachable by strictly cheaper steps |
| Day16.DescentWhichExists | src/day_16/mod.rs:93-99 | a cell found among the first n directions came from a cheaper recorded neighbour's descent |
| Day16.DescentWhich | src/day_16/mod.rs:93-99 | the direction through which a visited cell was found |
| Day16.ReachesSymmetricStep | src/day_16/mod.rs:97-99 | a cheaper step followed by a descent is a descent |
| Day16.DescentClosed | src/day_16/mod.rs:94-99 | the cells visited are closed under steps to cheaper recorded neighbours |
| Day16.DescentHas | src/day_16/mod.rs:94-99 | each cheaper recorded neighbour is visited |
| Day16.DescentSub | src/day_16/mod.rs:94-99 | the descent of each cheaper recorded neighbour is part of the descent |
| Day16.DescentIsReach | src/day_16/mod.rs:76-100 | get_path_after visits exactly the cells reachable from pos by steps to strictly cheaper recorded neighbours |
| Day16.PathAfter | src/day_16/mod.rs:76-100 | the path set grows by exactly the descent from pos |
| Day16.SoundRoutes | src/day_16/mod.rs:41-74 | a sound record backs every recorded cost by an open route from the start of no greater cost |
| Day16.Explore | src/day_16/mod.rs:61-71 | one neighbour of the for_each: records stay backed by routes and only grow; unless the search overflowed, an open neighbour ends up recorded and the cells handled so far stay handled |
| Day16.SearchFacts | src/day_16/mod.rs:41-74 | a sound record whose cells other than the end are all handled backs every cost by a route and holds the end whenever it is reachable |
| Day16.Search | src/day_16/mod.rs:108 | the call find_min_cost(start, 1, 0) leaves every recorded cost backed by a route and, without an overflow, records the end whenever it is reachable |
| Day16.Compute | src/day_16/mod.rs:103-114 | the result is the end's recorded cost paired with the number of cells get_path_after collects from the end, None exactly when the end was never recorded; every recorded cost is backed by an open route, and when the end is reachable without a cost reaching usize::MAX a result is reported |
| Day17.Combo | src/day_17/mod.rs:82-90 | operands 0 to 3 are literal, 4, 5 and 6 read registers A, B and C |
| Day17.Mod8 | src/day_17/mod.rs:69-74 | the low three bits are a value below 8 |
| Day17.XorBelow | src/day_17/mod.rs:68-73 | the XOR of two values below 2^n is below 2^n |
| Day17.ExecPc | src/day_17/mod.rs:61-72 | an instruction advances the counter by two, except a taken jnz, which jumps to its operand; the program is never changed |
| Day17.ExecTarget | src/day_17/mod.rs:66-77 | each instruction writes only its own target: adv A, bxl/bst/bxc/bdv B, cdv C, out the output |
| Day17.ExecOutput | src/day_17/mod.rs:74 | the output is kept or grows by one digit below 8 |
| Day17.ExecBst | src/day_17/mod.rs:69 | bst leaves a value below 8 in B |
| Day17.Emulator.NewWithInitialState | src/day_17/mod.rs:39-55 | the emulator starts with the puzzle's A, zero B, C and counter, the fixed program and no output |
| Day17.Emulator.ReadInstruction | src/day_17/mod.rs:57-80 | past the end of the program nothing changes and false is returned; otherwise the state becomes the executed instruction's and true is returned |
| Day17.Digits | src/day_17/mod.rs:93-104 | the program prints at least one digit |
| Day17.XorOneFive | src/day_17/mod.rs:95-97 | flipping bit 0 and then bits 0 and 2 flips bit 2 alone |
| Day17.EvalIsPass | src/day_17/mod.rs:93-104 | eval(a) is the digit one pass of the fixed program prints for A = a |
| Day17.StepOnTrack | src/day_17/mod.rs:57-80 | each instruction of the fixed program keeps its output plus what remains to print equal to the digits of the initial A, and makes progress |
| Day17.StepCompute | src/day_17/mod.rs:94-99 | the six computing instructions of a pass keep the run on track and move forward |
| Day17.DigitsHead | src/day_17/mod.rs:100-101 | the digits of a value are its own pass's digit followed by the digits of a >> 3, unless that is zero |
| Day17.StepOut | src/day_17/mod.rs:100 | the out instruction moves one digit from what remains to the output |
| Day17.StepJump | src/day_17/mod.rs:101 | the jump starts the next pass with a >> 3, or halts when A is zero |
| Day17.RunToHalt | src/day_17/mod.rs:108 | running until read_instruction fails appends exactly the digits of A and halts with A zero |
| Day17.Part1 | src/day_17/mod.rs:106-111 | part_1 outputs the digits of the initial A |
| Day17.KeepMembers | src/day_17/mod.rs:119-127 | the candidates kept from one solution are exactly the values 8 * sol + d with eval equal to the instruction |
| Day17.ExtendMembers | src/day_17/mod.rs:124-128 | one step of the loop keeps exactly the values whose a >> 3 was a solution and whose eval is the instruction |
| Day17.Min | src/day_17/mod.rs:131 | the minimum is absent only for no solutions, and otherwise is a solution no larger than any other |
| Day17.DigitsCons | src/day_17/mod.rs:123-128 | a value prints x followed by a tail ending in 0 exactly when its pass prints x and v / 8 prints the tail |
| Day17.DigitsSingle | src/day_17/mod.rs:118-122 | a value prints the single digit x exactly when it is below 8 and its pass prints x |
| Day17.DigitsExtend | src/day_17/mod.rs:123-128 | if the solutions print exactly a tail, the extended solutions print exactly x followed by it |
| Day17.FirstCandidates | src/day_17/mod.rs:118-122 | the first solutions are exactly the values that print the last instruction alone |
| Day17.ExtendPrints | src/day_17/mod.rs:123-129 | each loop step keeps the solutions equal to the values printing the remaining suffix of the program |
| Day17.Candidates | src/day_17/mod.rs:115-129 | the final solutions are exactly the values of A whose output is the program |
| Day17.Part2 | src/day_17/mod.rs:113-132 | the answer is the least A whose output is the program, and None only when no A does |
| Day18.Neighbors | src/day_18/mod.rs:50-56 | the four candidates are exactly the orthogonally adjacent cells |
| Day18.Enqueued | src/day_18/mod.rs:49-67 | every pair pushed is an admissible neighbour at distance + 1, and every admissible neighbour is pushed |
| Day18.FirstN | src/day_18/mod.rs:30-35 | the corrupted set holds exactly the first n corruptions |
| Day18.SearchStart | src/day_18/mod.rs:38-40 | the search invariant holds with nothing settled and the start queued at distance 0 |
| Day18.PopSettled | src/day_18/mod.rs:41-44 | skipping a cell already settled keeps the invariant |
| Day18.FrontierSkip | src/day_18/mod.rs:42-44 | skipping a settled cell keeps every settled cell's open neighbours settled or queued |
| Day18.RouteStep | src/day_18/mod.rs:58-66 | a route to p extends to a route one longer to an open neighbour of p |
| Day18.SortedAfter | src/day_18/mod.rs:41-67 | the queue stays ordered by distance after a pop and the push of distance + 1 entries |
| Day18.FrontierAfter | src/day_18/mod.rs:45-67 | settling a cell and pushing its admissible neighbours keeps every open neighbour of a settled cell settled no further than one more, or queued |
| Day18.FrontierOld | src/day_18/mod.rs:45 | neighbours of cells settled earlier stay covered after a new cell is settled |
| Day18.QueuedAppend | src/day_18/mod.rs:49 | appending to the queue keeps what was queued |
| Day18.PopNew | src/day_18/mod.rs:41-67 | settling an unsettled cell and pushing its neighbours keeps the invariant |
| Day18.SettledAfter | src/day_18/mod.rs:45 | the newly settled distance is backed by a route and no queued entry is cheaper |
| Day18.QueueRoutes | src/day_18/mod.rs:49-67 | every queued distance is the length of some open route from the start |
| Day18.SettledBelowRoutes | src/day_18/mod.rs:37-70 | once the queue is empty, every walk from the start ends on a settled cell whose distance is at most the walk's length |
| Day18.SearchDone | src/day_18/mod.rs:37-70 | when the queue empties, the exit is settled exactly when it is reachable, and its distance is the length of a shortest route |
| Day18.Map.constructor | src/day_18/mod.rs:13-28 | the map holds the corruptions and an empty corrupted set |
| Day18.Map.SetNCorruptions | src/day_18/mod.rs:30-35 | the corrupted set becomes exactly the first n corruptions |
| Day18.Map.FindPath | src/day_18/mod.rs:37-70 | a distance is returned exactly when the exit is reachable, and it is the length of a shortest route |
| Day18.Pop | src/day_18/mod.rs:41-67 | one turn of the loop skips a settled cell or settles the cell and pushes its admissible neighbours, keeping the invariant and making progress |
| Day18.Fewer | src/day_18/mod.rs:45 | settling a new in-bounds cell lowers the number of unsettled cells |
| Day18.Part1 | src/day_18/mod.rs:87-92 | with the first 1024 corruptions, the answer is the shortest route length, or none when the exit is cut off |
| Day18.Part2 | src/day_18/mod.rs:94-109 | the answer is the first count from 1025 whose corruptions cut the exit off, with the corruption that did it; None only when none does |
| Day19.SplitCons | src/day_19/mod.rs:35-45 | a split whose first towel is t is t as a prefix of the design followed by a split of the rest |
| Day19.SplitEmpty | src/day_19/mod.rs:34 | the empty design has exactly one split, the empty one |
| Day19.PrefixedCard | src/day_19/mod.rs:37-45 | putting one towel in front of each split of a set keeps the number of splits |
| Day19.SplitsMeaning | src/day_19/mod.rs:22-50 | the splits enumerated from index are exactly the splits of the design's suffix into towels |
| Day19.AboveMeaning | src/day_19/mod.rs:35-45 | the splits whose first towel ends beyond e are exactly the suffix's splits with a first towel longer than e - index |
| Day19.AboveFirst | src/day_19/mod.rs:35-45 | each split counted above e has a first towel longer than e - index |
| Day19.AboveApart | src/day_19/mod.rs:35-45 | splits with different first-towel ends are distinct, so the sum counts none twice |
| Day19.WaysCount | src/day_19/mod.rs:22-50 | path_counts(index) is the number of ways to split the design's suffix into towels |
| Day19.AboveCount | src/day_19/mod.rs:35-45 | the partial sum over ends above e counts exactly the splits whose first towel ends beyond e |
| Day19.Solvable | src/day_19/mod.rs:56-62 | a design has a positive count exactly when some split of it into towels exists |
| Day19.PathCounts | src/day_19/mod.rs:22-50 | the memoised recursion returns the number of splits, and the memo records only correct counts |
| Day19.Compute | src/day_19/mod.rs:52-74 | the two answers are the number of makeable designs and the total number of splits |
| Day19.SolvableCountMeaning | src/day_19/mod.rs:56-62 | the count of designs with a positive count is the number of designs that can be made |
| Day20.Neighbors | src/day_20/mod.rs:63-71 | the four neighbours are exactly the orthogonally adjacent cells |
| Day20.CellsOf | src/day_20/mod.rs:21-39 | the cells collected are exactly those whose character is of the given kinds |
| Day20.LastStart | src/day_20/mod.rs:20-32 | the start is the last 'S' in reading order, or the default (0, 0) when there is none |
| Day20.LastIn | src/day_20/mod.rs:29-32 | the last column of a row holding the character |
| Day20.Parse | src/day_20/mod.rs:15-39 | the map is read exactly when every character is '#', '.', 'S' or 'E'; walls are the '#' cells, track the others, and they are disjoint |
| Day20.Spread | src/day_20/mod.rs:63-72 | the four entries pushed are the adjacent cells, each at distance + 1 |
| Day20.SearchStart | src/day_20/mod.rs:50-52 | the search invariant holds with nothing recorded and the start queued at distance 0 |
| Day20.PopSkip | src/day_20/mod.rs:54-61 | skipping a non-track cell or one recorded at a smaller distance keeps the invariant |
| Day20.RouteStep | src/day_20/mod.rs:63-72 | a route to p extends by one to a track neighbour of p |
| Day20.SortedAfter | src/day_20/mod.rs:53-72 | the queue stays ordered by distance after a pop and the push of distance + 1 entries |
| Day20.FrontierAfter | src/day_20/mod.rs:62-72 | recording a cell and pushing all its neighbours keeps every track neighbour of a recorded cell recorded no further than one more, or queued |
| Day20.FrontierOld | src/day_20/mod.rs:62 | neighbours of cells recorded earlier stay covered after a new cell is recorded |
| Day20.QueueRoutes | src/day_20/mod.rs:63-72 | every queued track distance is the length of some route from the start |
| Day20.SettledAfter | src/day_20/mod.rs:62 | the newly recorded distance is backed by a route and no queued entry is cheaper |
| Day20.BoundedAfter | src/day_20/mod.rs:62-72 | queued distances stay within one of the largest recorded distance |
| Day20.PopExpand | src/day_20/mod.rs:53-72 | recording a track cell not recorded cheaper and pushing its neighbours keeps the invariant |
| Day20.SettledBelowRoutes | src/day_20/mod.rs:49-74 | once the queue is empty, every walk along the track from the start ends on a recorded cell whose distance is at most the walk's length |
| Day20.SearchDone | src/day_20/mod.rs:49-74 | when the queue empties, the recorded cells are exactly the track cells reachable from the start, each at its shortest route length |
| Day20.WeightAppend | src/day_20/mod.rs:63-72 | the queue's weight adds over concatenation |
| Day20.SpreadLighter | src/day_20/mod.rs:63-72 | four entries one further weigh less than the entry they replace |
| Day20.WeightLevel | src/day_20/mod.rs:63-72 | a queue of entries at one distance weighs its length times one entry's weight |
| Day20.FewerUnsettled | src/day_20/mod.rs:62 | recording a new track cell lowers the number of unrecorded track cells |
| Day20.Pop | src/day_20/mod.rs:53-72 | one turn of the loop skips or records the popped cell and pushes its neighbours, keeping the invariant and making progress |
| Day20.PopMeasure | src/day_20/mod.rs:53-72 | each turn lowers either the number of unrecorded track cells or the queue's weight |
| Day20.Distances | src/day_20/mod.rs:49-74 | the search ends with exactly the reachable track cells, each at its shortest distance from the start |
| Day20.WallWalkStep | src/day_20/mod.rs:133-135 | a walk through walls extends by an adjacent wall |
| Day20.Map.constructor | src/day_20/mod.rs:15-47 | the map holds the parsed walls, track and start, with every reachable track cell at its shortest distance |
| Day20.Map.SetDistances | src/day_20/mod.rs:49-74 | the distances become exactly the shortest distances of the reachable track cells, nothing else changing |
| Day20.Map.Saved | src/day_20/mod.rs:93-98 | the saturating saving is positive exactly when the later cell is more than two further along, and then it is the difference less two |
| Day20.Map.CheatSaving | src/day_20/mod.rs:82-99 | a race to p, a two-cell jump and the saving reported add up to no more than any race to q |
| Day20.Map.Part1Jumps | src/day_20/mod.rs:77-102 | every pair part_1 counts with a positive saving jumps over a cell between them that is off the track |
| Day20.Map.ThroughMiddle | src/day_20/mod.rs:49-74 | a race to p continuing over a track cell reaches the cell two away, so its recorded distance is at most two more |
| Day20.Map.BackThroughMiddle | src/day_20/mod.rs:49-74 | a cell reached by the race makes every track cell two track steps from it reached too |
| Day20.Between | src/day_20/mod.rs:83-90 | the cell halfway to a cell two away is adjacent to both |
| Day20.LevelsPush | src/day_20/mod.rs:133-135 | queueing an unseen wall next to a queued cell, within the budget and one step further, keeps every queued cell the end of a wall walk of its level |
| Day20.AscendingPush | src/day_20/mod.rs:133-135 | appending a new cell one step beyond the popped cell keeps the queue ascending and within one level |
| Day20.AscendingPop | src/day_20/mod.rs:122 | popping the head keeps the rest ascending, none below the head's level |
| Day20.CoverPop | src/day_20/mod.rs:122 | after a pop every queued cell not yet expanded is the popped one or still queued |
| Day20.CoverStep | src/day_20/mod.rs:129-146 | visiting a neighbour, which leaves the queue alone or appends one new cell, keeps every unexpanded cell queued |
| Day20.Map.ShortcutCount | src/day_20/mod.rs:112-151 | the count is exactly the number of good cheat ends from the cell: the track cells other than the start reachable by a run through walls of at most max(maxCheat, 1) steps whose recorded distance is at least dist + steps + minSave |
| Day20.Map.Expand | src/day_20/mod.rs:123-147 | visiting the four neighbours of the popped cell keeps the search state and leaves the cell expanded, every neighbour accounted for |
| Day20.Map.Visit | src/day_20/mod.rs:129-146 | after one neighbour is visited it is accounted for (a wall within the budget is queued one step further, a track cell far enough along is counted), and the queue and the levels gain at most that neighbour |
| Day20.Map.ScanPush | src/day_20/mod.rs:133-135 | queueing a wall neighbour one step further keeps the search state |
| Day20.Map.VisitTrack | src/day_20/mod.rs:136-145 | a track cell far enough along is counted once and marked seen, and is accounted for either way |
| Day20.Map.InnerStep | src/day_20/mod.rs:123-147 | one turn of the inner loop keeps every expanded cell's neighbours accounted for and adds the next neighbour of the popped cell |
| Day20.Map.ExpandDone | src/day_20/mod.rs:123-128 | once the four offsets are visited, every adjacent cell of the popped cell is accounted for |
| Day20.Map.ScanComplete | src/day_20/mod.rs:112-151 | when everything queued is expanded, the counted cells are exactly the good cheat ends |
| Day20.Map.WalkLevels | src/day_20/mod.rs:120-147 | the search is breadth-first: the i-th cell of a wall walk within the budget is queued at a level of at most i |
| Day20.Map.Tally | src/day_20/mod.rs:161-165 | the count from one track cell is the number of good (start, end) cheat pairs starting there |
| Day20.Map.CheatPairsAdd | src/day_20/mod.rs:158-166 | adding a start adds exactly its own pairs, disjoint from the others |
| Day20.Map.Part2 | src/day_20/mod.rs:153-171 | the total is the number of (start, end) pairs of track cells that are good cheats with a budget of 20 and a saving of at least 72 |
| Day20.PairCard | src/day_20/mod.rs:161-166 | pairing one start with a set of ends keeps the count |
| Day21.NumPositionsDistinct | src/day_21/mod.rs:29-43 | the keypad's eleven buttons sit on distinct cells, none of them the gap at (0, 0) |
| Day21.DirPositionsDistinct | src/day_21/mod.rs:130-138 | the direction pad's five buttons sit on distinct cells, none of them the gap at (0, 1) |
| Day21.OffsetBound | src/day_21/mod.rs:57-63 | a path of n presses moves at most n cells in Manhattan distance |
| Day21.Repeat | src/day_21/mod.rs:57 | vec![d; n] holds n copies of d |
| Day21.CountAppend | src/day_21/mod.rs:57 | counting a direction adds over concatenation |
| Day21.PlanOf | src/day_21/mod.rs:46-56 | the horizontal and vertical counts are the absolute differences, and the chosen directions, times those counts, cover the difference exactly |
| Day21.Prefixed | src/day_21/mod.rs:57-63 | putting one press in front of each path keeps the number of paths |
| Day21.PrefixedIndex | src/day_21/mod.rs:57-63 | path i of the prefixed list is the press followed by path i |
| Day21.PrefixedMember | src/day_21/mod.rs:57-63 | a path is prefixed exactly when it starts with the press and its rest is one of the paths |
| Day21.MixCons | src/day_21/mod.rs:57-63 | a mix of the plan starts with one of its two directions, followed by a mix of the rest |
| Day21.MixesMembers | src/day_21/mod.rs:57-63 | the distinct permutations are exactly the orderings of num_x horizontal and num_y vertical presses |
| Day21.AppendDistinct | src/day_21/mod.rs:62 | two duplicate-free lists with no path in common concatenate without duplicates |
| Day21.MixesDistinct | src/day_21/mod.rs:62 | the list of permutations has no duplicates, as unique() ensures |
| Day21.HeadsDiffer | src/day_21/mod.rs:62 | paths with different first presses are different |
| Day21.PrefixedDistinct | src/day_21/mod.rs:62 | prefixing keeps a list free of duplicates |
| Day21.TwoKinds | src/day_21/mod.rs:57-63 | in a path of two kinds of press the two counts add up to its length |
| Day21.Only | src/day_21/mod.rs:68 | a path of two kinds with none of the first is all the second |
| Day21.RepeatCount | src/day_21/mod.rs:57 | vec![y; n] counts n presses of y and none of any other |
| Day21.PrefixCounts | src/day_21/mod.rs:57-63 | every prefix of a mix has at most num_x and num_y presses of the two kinds, adding up to its length |
| Day21.OffsetMix | src/day_21/mod.rs:57-63 | a path of one horizontal and one vertical kind moves by the two counts in those directions |
| Day21.Track | src/day_21/mod.rs:57-63 | after k presses of a mix the finger is at the start moved by the counts so far |
| Day21.Corner | src/day_21/mod.rs:65-75 | a mix visits the corner across the other axis exactly when it begins with all presses of one kind |
| Day21.DropSpec | src/day_21/mod.rs:66-74 | filtering keeps exactly the paths the rule does not break, in order and without duplicates |
| Day21.GapOnTrack | src/day_21/mod.rs:57-75 | a mix crosses the gap exactly when some prefix of it lands on the gap |
| Day21.NumOperationsSpec | src/day_21/mod.rs:45-78 | the keypad's paths are exactly the shortest orderings of presses that never pass over the gap, without duplicates |
| Day21.NumGapRule | src/day_21/mod.rs:65-75 | the source's two filters drop exactly the paths that pass over the keypad's gap |
| Day21.DirOperationsSpec | src/day_21/mod.rs:140-175 | the direction pad's paths are exactly the shortest orderings of presses that never pass over the gap, without duplicates |
| Day21.DirGapRule | src/day_21/mod.rs:160-172 | the source's two filters drop exactly the paths that pass over the direction pad's gap |
| Day21.LastDown | src/day_21/mod.rs:166-171 | with one vertical press, a mix starts with all its horizontal presses exactly when its vertical press comes at index num_x |
| Day21.Shortest | src/day_21/mod.rs:57-63 | no path from one button to another is shorter than num_x + num_y presses |
| Day21.MixArrives | src/day_21/mod.rs:57-63 | every mix ends on the target button and has length num_x + num_y |
| Day21.Commit | src/day_21/mod.rs:80-84 | each path gets an A press appended |
| Day21.NumAll | src/day_21/mod.rs:86-95 | entry i is the committed paths from the previous button, starting from A |
| Day21.DirAll | src/day_21/mod.rs:183-192 | entry i is the committed paths from the previous button, starting from A |
| Day21.CommitSame | src/day_21/mod.rs:80-84 | pressing the button the finger is on takes the single path of one A press |
| Day21.NumFromChar | src/day_21/mod.rs:104-123 | a character is refused exactly when it is not a keypad label, and the error carries it |
| Day21.NumFromCharLabel | src/day_21/mod.rs:104-123 | parsing a button's label gives the button back, and a parsed character is the label of its button |
| Day21.DirChar | src/day_21/mod.rs:194-202 | every direction button has one of the five labels |
| Day21.DirCharDistinct | src/day_21/mod.rs:194-202 | different direction buttons have different labels |
| Day21.NumCaseOneToSix | src/day_21/tests.rs:6-14 | the paths from 1 to 6 are the three of the test, in its order |
| Day21.NumCaseAToFour | src/day_21/tests.rs:15-25 | the paths from A to 4 are the five of the test, in its order |
| Day21.NumCaseSevenToZero | src/day_21/tests.rs:26-34 | the paths from 7 to 0 are the three of the test, in its order |
| Day21.NumChainCase | src/day_21/tests.rs:36-61 | the four committed path lists for the code 5, 8, 6, A are, entry by entry, those the test expects |
| Day21.NumChainFirst | src/day_21/tests.rs:45-50 | the committed paths from A to 5 |
| Day21.NumChainSecond | src/day_21/tests.rs:51-52 | the committed path from 5 to 8 |
| Day21.NumChainThird | src/day_21/tests.rs:53-57 | the committed paths from 8 to 6 |
| Day21.NumChainFourth | src/day_21/tests.rs:58-59 | the committed path from 6 to A |
| Day21.DirCaseDownToA | src/day_21/tests.rs:69-73 | the paths from v to A are the two of the test |
| Day21.DirCaseLeftToUp | src/day_21/tests.rs:75-76 | the only path from < to ^ is right then up |
| Day21.DirCaseAToLeft | src/day_21/tests.rs:78-85 | the paths from A to < are the two of the test |
| Day22.Generate | src/day_22/mod.rs:6-12 | the next secret is below 2^24 |
| Day22.GenerateLow | src/day_22/mod.rs:6-12 | only the low 24 bits of a 64-bit secret decide the next secret |
| Day22.GenerateFromOneTwoThree | src/day_22/mod.rs:6-12 | generate takes 123 to 15887950, then 16495136, then 527345 |
| Day22.Nth | src/day_22/mod.rs:27-30 | after at least one step the secret is below 2^24 |
| Day22.NthAdd | src/day_22/mod.rs:27-30 | m steps followed by n steps are m + n steps |
| Day22.Evolve | src/day_22/mod.rs:25-31 | the loop of n steps yields the n-th secret |
| Day22.FinalSumAppend | src/day_22/mod.rs:23-32 | the sum over two groups of buyers is the sum of the two groups' sums |
| Day22.Part1 | src/day_22/mod.rs:21-35 | the answer is the sum of every buyer's 2000th secret |
| Day22.Prices | src/day_22/mod.rs:42-47 | n steps give n prices |
| Day22.PricesAt | src/day_22/mod.rs:43-46 | price i is the last digit of the (i + 1)-th secret, so at most 9 |
| Day22.PriceRun | src/day_22/mod.rs:42-47 | the loop collects exactly the prices |
| Day22.Windows | src/day_22/mod.rs:48-57 | one entry per window of five prices, keyed by its four changes, with the window's last price |
| Day22.Changes | src/day_22/mod.rs:50-56 | the key holds the four differences between consecutive prices, as signed values |
| Day22.ChangesBounded | src/day_22/mod.rs:50-56 | with prices at most 9, every change lies in -9..9 and every offer is at most 9 |
| Day22.FirstOffers | src/day_22/mod.rs:58-59 | the buyer's map has exactly the keys of its windows |
| Day22.FirstOffersFirst | src/day_22/mod.rs:58-59 | unique_by keeps the price of a key's first window |
| Day22.EarnedNone | src/day_22/mod.rs:74 | a key no buyer offers earns nothing |
| Day22.Buyers | src/day_22/mod.rs:39-61 | one map per buyer, built from that buyer's windows |
| Day22.KeysOf | src/day_22/mod.rs:65 | the keys of the windows in order |
| Day22.AllKeysMembers | src/day_22/mod.rs:63-67 | the keys gathered are exactly those of some buyer's window |
| Day22.Best | src/day_22/mod.rs:69-78 | the maximum is absent only for no keys, and otherwise is the earnings of some key and at least those of every key |
| Day22.Part2 | src/day_22/mod.rs:37-81 | the answer is the best earnings over all keys some buyer offers, with 2000 prices each |
| Day22.WindowsOf | src/day_22/mod.rs:39-61 | each buyer's windows over 2000 prices |
| Day22.BestOverall | src/day_22/mod.rs:69-78 | no key at all, offered or not, earns more than the answer |
| Day23.NamedLast | src/day_23/mod.rs:5-19 | a computer is named by the links exactly when the earlier links or the last one name it |
| Day23.LinkedLast | src/day_23/mod.rs:5-19 | two computers are linked exactly when the earlier links or the last one, either way round, join them |
| Day23.GraphOfSpec | src/day_23/mod.rs:5-19 | the graph's keys are exactly the named computers, and b is a neighbour of a exactly when a link joins them |
| Day23.GraphOfSymmetric | src/day_23/mod.rs:10-16 | every link is entered both ways, and without self-links no computer neighbours itself |
| Day23.GetGraph | src/day_23/mod.rs:5-19 | the loop builds the graph of the links |
| Day23.LexTotal | src/day_23/mod.rs:31-50 | any two names compare one way or the other |
| Day23.LexAntisymmetric | src/day_23/mod.rs:31-50 | names that compare both ways are equal |
| Day23.LexTransitive | src/day_23/mod.rs:31-50 | the name order is transitive |
| Day23.Sort2 | src/day_23/mod.rs:27-32 | a link is put in order, unchanged or swapped |
| Day23.Sort3 | src/day_23/mod.rs:48-52 | the triple comes out in order |
| Day23.Sort3Permutes | src/day_23/mod.rs:48-52 | sorting a triple only reorders its names |
| Day23.EdgeSetLinked | src/day_23/mod.rs:21-37 | an ordered pair is in the edge set exactly when a link joins the two |
| Day23.WithFirstMembers | src/day_23/mod.rs:45-47 | the combinations with a given first vertex are exactly the pairs of later vertices in order |
| Day23.CombosMembers | src/day_23/mod.rs:45-47 | the combinations are exactly the triples of vertices at increasing indices |
| Day23.Sorts | src/day_23/mod.rs:48-52 | one sorted triple per combination |
| Day23.SortsCons | src/day_23/mod.rs:48-52 | sorting the combinations sorts the first and then the rest |
| Day23.TrianglesMembers | src/day_23/mod.rs:45-59 | the triples kept are exactly the sorted combinations passing the filter |
| Day23.KeepLinked | src/day_23/mod.rs:53-58 | an ordered triple passes the filter exactly when some name starts with 't' and its three pairs are linked |
| Day23.SortedCombo | src/day_23/mod.rs:45-52 | a sorted combination is the sort of three vertices at increasing indices |
| Day23.Part1Reports | src/day_23/mod.rs:39-62 | a triple is in part_1's list exactly when it is the sorted form of three listed computers, one named t..., pairwise linked (the count is Part1Count) |
| Day23.Fan | src/day_23/mod.rs:45-47 | the triples pairing a and b with each later vertex, in order |
| Day23.CombosSplit | src/day_23/mod.rs:45-47 | an increasing index triple starts at the first vertex or lies wholly in the rest |
| Day23.BagDistinctAppend | src/day_23/mod.rs:45-47 | joining two lists of triples with no name set in common keeps every name set distinct |
| Day23.NoDuplicatesTail | src/day_23/mod.rs:35 | dropping the first of distinct vertices leaves distinct vertices, none equal to it |
| Day23.FanDistinct | src/day_23/mod.rs:45-47 | triples with two fixed names and distinct third names hold distinct name sets |
| Day23.FanApart | src/day_23/mod.rs:45-47 | no triple of later combinations holds the same names as a triple pairing the skipped vertex |
| Day23.WithFirstDistinct | src/day_23/mod.rs:45-47 | with distinct vertices, the combinations starting at one vertex hold pairwise different name sets |
| Day23.CombosApart | src/day_23/mod.rs:45-47 | combinations of later vertices never hold the same names as one holding the first vertex |
| Day23.CombosDistinct | src/day_23/mod.rs:45-47 | with distinct vertices no two combinations hold the same three names |
| Day23.SortsBag | src/day_23/mod.rs:48-52 | sorting a combination keeps its names |
| Day23.NotLater | src/day_23/mod.rs:45-59 | a triple reported from later combinations does not hold the first combination's names |
| Day23.BagDistinctTail | src/day_23/mod.rs:45-47 | the rest of a list with distinct name sets has distinct name sets |
| Day23.NoDuplicatesCons | src/day_23/mod.rs:45-59 | putting a new triple in front of a list without repeats leaves no repeats |
| Day23.TrianglesDistinct | src/day_23/mod.rs:45-59 | when the combinations hold distinct name sets, the list of reported triples has no repeats |
| Day23.ChiefTriangles | src/day_23/mod.rs:39-62 | the set holds exactly the sorted, pairwise linked triples of vertices with a name starting with 't' |
| Day23.ChiefTrianglesComplete | src/day_23/mod.rs:39-62 | every such triangle is found among the index triples |
| Day23.SetOfSeq | src/day_23/mod.rs:59-61 | a list and a set with the same members make the same set |
| Day23.Part1Count | src/day_23/mod.rs:21-62 | with the vertices drawn from a set, part_1's count equals the number of sorted pairwise linked triples with a name starting with 't' |
| Day23.Grow | src/day_23/mod.rs:75-79 | adding a joinable vertex keeps a clique, and the joinable set becomes the old one cut to the vertex's neighbours |
| Day23.Beyond | src/day_23/mod.rs:74-83 | every member of a larger clique outside r can join r |
| Day23.ReportedStays | src/day_23/mod.rs:64-84 | a clique reported stays reported as more are found |
| Day23.MoveOne | src/day_23/mod.rs:81-82 | moving v from P to X keeps their union |
| Day23.Shrinks | src/day_23/mod.rs:79 | the recursive call's P is smaller than the current P |
| Day23.BranchReady | src/day_23/mod.rs:75-79 | the recursive call's arguments meet its precondition |
| Day23.SoundStays | src/day_23/mod.rs:64-84 | cliques found by the recursive call are maximal and contain r |
| Day23.CompleteStays | src/day_23/mod.rs:74-83 | after each vertex of P, every maximal clique holding r and avoiding the updated X has been reported |
| Day23.CompleteAtEnd | src/day_23/mod.rs:64-84 | when P is exhausted, every maximal clique holding r and avoiding X has been reported |
| Day23.BronKerbosch | src/day_23/mod.rs:64-84 | the cliques added are maximal and contain r, and every maximal clique containing r and avoiding X is added |
| Day23.ExtendToMaximal | src/day_23/mod.rs:86-103 | every clique lies in some maximal clique |
| Day23.Largest | src/day_23/mod.rs:97 | the largest is absent only for no results, and otherwise is a result at least as large as every result |
| Day23.LargestIsMaximum | src/day_23/mod.rs:86-103 | when all maximal cliques are reported, the largest result is a maximum clique |
| Day23.Part2 | src/day_23/mod.rs:86-103 | part_2's answer is a maximal clique no smaller than any clique of the graph |
| Day24.Apply | src/day_24/mod.rs:72-76 | AND, OR and XOR compute conjunction, disjunction and inequality of the two inputs |
| Day24.GateMapSpec | src/day_24/mod.rs:62-65 | the gate map sends each output to its line's gate, the last line winning as collect does |
| Day24.GateMapKeys | src/day_24/mod.rs:62-65 | the gate map's keys are exactly the outputs of the lines |
| Day24.EvalMonotone | src/day_24/mod.rs:66-82 | a wire's value, once settled within n levels, stays the same at every deeper level |
| Day24.Fire | src/day_24/mod.rs:71-79 | a gate whose inputs are solved gets the value the circuit gives its output |
| Day24.Fired | src/day_24/mod.rs:78-79 | moving a fired gate from unsolved to solved keeps every solved value correct |
| Day24.ReadyBelow | src/day_24/mod.rs:66-82 | while gates remain and the circuit settles, some remaining gate has both inputs solved |
| Day24.Pass | src/day_24/mod.rs:67-81 | one pass over the unsolved gates solves at least one gate, keeping every solved value correct |
| Day24.ProgressStart | src/day_24/mod.rs:60-65 | the loop starts correct with the inputs solved and every gate unsolved |
| Day24.ProgressEnd | src/day_24/mod.rs:66 | when no gate remains, every wire is solved with the circuit's value |
| Day24.Solve | src/day_24/mod.rs:60-82 | the loop solves exactly the inputs and the gate outputs, keeps the inputs, and gives each output the circuit's value |
| Day24.SetBitSpec | src/day_24/mod.rs:90 | OR-ing in 1 << index sets bit index and keeps the others |
| Day24.BitZero | src/day_24/mod.rs:83 | the result starts with no bit set |
| Day24.Decimal | src/day_24/mod.rs:88 | a parsed index fits in a usize |
| Day24.Pack | src/day_24/mod.rs:83-94 | packing panics exactly when some z wire has no decimal index or a true one at 64 or more; otherwise bit i is set exactly when wire z with index i is true |
| Day24.Evaluate | src/day_24/mod.rs:60-95 | the result's bits are exactly the true z wires of the settled circuit, and it fails exactly when packing them would panic |
| Day24.Circuit | src/day_24/mod.rs:60-82 | the settled circuit assigns every input and every gate output |
| Day24.CircuitUnique | src/day_24/mod.rs:60-82 | any assignment that keeps the inputs and gives each gate its value is the settled circuit |
| Day24.TwoDigits | src/day_24/mod.rs:101-109 | a number below 100 is written as two decimal digits, zero-padded |
| Day24.WireIndex | src/day_24/mod.rs:88-101 | reading a formatted wire's digits back gives its number |
| Day24.BitsSpec | src/day_24/mod.rs:98-105 | the wires built are exactly prefix 00 to n-1, each carrying that bit of the value |
| Day24.TranslateInputsSpec | src/day_24/mod.rs:97-115 | the inputs are x00..x44 and y00..y44, each carrying its bit of x or y |
| Day24.GetNode | src/day_24/mod.rs:124-132 | the tree's root is the wire, with parents exactly when a gate drives it, namely that gate's operator and input wires |
| Day24.GetNodeValue | src/day_24/mod.rs:124-132 | evaluating the tree gives the circuit's value of the wire |
| Day25.Chunk | src/day_25/mod.rs:10-11 | chunk k is the eight lines starting at line 8 * k |
| Day25.ColumnHeight | src/day_25/mod.rs:20-21 | a column's height is at most the number of rows |
| Day25.ColumnHeightCount | src/day_25/mod.rs:20-21 | the height is the number of '#' cells in the column |
| Day25.HeightsOf | src/day_25/mod.rs:14-25 | five heights, one per column of the 5 by 5 block, each at most 5 |
| Day25.SchematicHeights | src/day_25/mod.rs:14-39 | every schematic yields five heights of at most 5 |
| Day25.Locks | src/day_25/mod.rs:12-25 | every lock's heights are bounded by 5 |
| Day25.Keys | src/day_25/mod.rs:26-39 | every key's heights are bounded by 5 |
| Day25.LocksAndKeysCount | src/day_25/mod.rs:8-41 | each full chunk becomes exactly one lock or one key |
| Day25.LocksMembers | src/day_25/mod.rs:12-25 | the locks are the heights of exactly the chunks whose first line is all '#' |
| Day25.KeysMembers | src/day_25/mod.rs:26-39 | the keys are the heights of exactly the other chunks |
| Day25.ParseChunks | src/day_25/mod.rs:4-44 | the loop over whole 8-line chunks yields the locks and keys of those chunks |
| Day25.LastSchematicDropped | src/day_25/mod.rs:10-11 | with no blank line after the last schematic, one schematic fewer than the input holds is read |
| Day25.Padded | src/day_25/mod.rs:10-11 | the padded input keeps the lines and holds as many whole chunks as schematics |
| Day25.PaddedFramed | src/day_25/mod.rs:10-11 | the padded input is still made of well-formed chunks |
| Day25.Parse | src/day_25/mod.rs:4-44 | with the last chunk completed, every schematic becomes exactly one lock or key |
| Day25.MaxOfAtMost | src/day_25/mod.rs:56 | the maximum is at most 5 exactly when every entry is |
| Day25.Add | src/day_25/mod.rs:51-55 | the sum adds the two heights column by column |
| Day25.FitsColumns | src/day_25/mod.rs:51-56 | a lock and key fit exactly when every column's heights add up to at most 5 |
| Day25.FitCountCard | src/day_25/mod.rs:48-57 | the count for one lock is the number of keys that fit it |
| Day25.RowCard | src/day_25/mod.rs:50 | pairing one lock index with a set of key indices keeps the count |
| Day25.PairsSplit | src/day_25/mod.rs:50 | the pairs of all locks are those of the earlier locks plus the last lock's, with none in common |
| Day25.MatchingPairs | src/day_25/mod.rs:48-57 | the count equals the number of (lock, key) index pairs that fit |
| Day25.Part1 | src/day_25/mod.rs:46-60 | the answer is the number of (lock, key) pairs that fit, over every schematic of the input |

## Left out

- `src/main.rs`: the command-line interface, the day dispatch, timing and printing are plumbing and are not modelled.
- `src/day_13/mod.rs` is not part of this model: its solver inverts a floating-point matrix and rounds the result.
- Input loading (`include_str!`) and the regular-expression and string parsing of every day are not modelled. Models take the parsed grids, lists and tables as parameters, and char-to-tile mappings are total functions.
- `println!` output and the PNG debug image of day 18 (`src/day_18/mod.rs:72-84`) are not modelled, because they are output only.
- The day 1 location lists live in a module that is not part of this model; they are parameters.
- Day 21 `part_1` (`src/day_21/mod.rs:222-269`) is not modelled: it is exploratory code with a hard-coded code, commented-out stages and no settled answer. The keypad operations it builds on are modelled.
- Day 24 `part_2` (`src/day_24/mod.rs:134-158`) is not modelled: it prints expression trees, and its answer was found by hand. `get_node`, which it uses, is modelled.
- Day14.Part2: the source prints "turn #i" and the cluster size each time the maximum grows, and the puzzle's answer is the last turn printed. The model returns that turn and the final maximum instead of printing; the intermediate lines printed for earlier, smaller maxima are not modelled. `Part2` takes the number of turns (10000 in the source) as a parameter.
- Overflow panics of `usize`/`u32`/`i32` arithmetic, and the wrapping casts from negative `isize`, are not modelled. Day 7's `10_u64.pow(digits)` in concatenation overflows when the right operand has 20 digits. `ConcatOperand` and `AllConcatOperands` exclude such operands, so that panic is not modelled either. Integers are unbounded, and grids carry a border-wall or in-bounds requirement where the source relies on one.
- `HashMap`/`HashSet` iteration order is not modelled. The answers do not depend on it. Where an order is needed, the model takes an explicit enumeration of the keys (day 8) or picks an arbitrary element (`:|`, day 23).
- itertools `permutations().unique()` is reproduced as the list of distinct rearrangements in first-occurrence order; the library's internal enumeration is not modelled.
- Day06.VisitedCount: part 1 steps until the guard is gone, which never ends in the source when the guard loops. The model runs `run` instead and returns `None` in that case.
- Day15Wide.Force: reads outside the grid give a wall and writes outside it are ignored. The source would panic there instead; this never happens for a push that `can_box_move` allows, on a map whose border is wall.
- Day16.FindMinCost: it keeps the source's turn-overwrite heuristic (`seen[pos]` is overwritten with cost+1000 before the recursion). It proves that every recorded cost is at least the cost of some open route from the start, and that every reachable cell gets expanded. The cost+1000 overwrite need not be the cost of any route. It does not claim that the recorded costs are minimal.
- Day17.Emulator.ReadInstruction: a shift by 64 or more panics in Rust. `Defined` excludes such states rather than modelling the panic.
- Day17.Candidates: it requires a program whose last element is 0, as the puzzle's program is; the search is not modelled for other programs.
- Day20.Map.ShortcutCount: the sum dist + traversed + 1 + minSave is unbounded; for a start cell still holding usize::MAX the source's `usize` addition overflows, which the model does not reproduce. The walls and the track are required disjoint, as parsing makes them.
- Day22.Generate: the step is proved to stay below 2^24 and checked on the sequence from 123, but it is not proved to be a bijection on 24-bit values.
- Day22.Part1: the sum is an unbounded integer; the source sums in `usize`, which cannot overflow for inputs of realistic size (each term is below 2^24), and the model does not reproduce a wrap.
- Day22.Part2: the source's `.max().unwrap()` panics when there are no keys; the model returns `None` then.
- Day23.BronKerbosch: it requires that no line links a computer to itself, because the source would recurse forever on such a link.
- Day24.Evaluate: it requires that the circuit settles: every gate is evaluable within a bounded depth, because on a cycle or a missing wire the source loops forever, and no gate outputs onto an input wire, a case the source handles by overwriting that wire's value in `solved` and which the model excludes.
- Day24.Pack: a true `z` wire with index 64 or more makes the shift `1 << index` overflow. That panics in a debug build and gives `None` here; a release build masks the shift amount to its low 6 bits instead, which is not modelled.
- Day24.GetNode: it requires the gates below the wire to nest at most a given (ghost) depth, that is, no cycle, because the source recurses forever on a cycle.

## Findings

| source | as written | input that shows it | evidently intended | confidence | as-written member | corrected member |
|---|---|---|---|---|---|---|
| src/day_25/mod.rs:10-11 | the schematic lines are read in chunks of exactly 8 with `array_chunks`, which drops a final chunk of fewer than 8 lines | an input of 8k+7 lines, whose last schematic has no blank line after it, loses that schematic | every schematic is read, including the last one | not executed | Day25.ParseChunks, Day25.LastSchematicDropped | Day25.Parse |
