# Advent of Code 2024 solvers, modelled in Dafny

This project models nineteen of the Python puzzle solvers of an Advent of Code 2024
repository (days 1 to 12, 14 to 19 and 23), one Dafny module per source file, and
proves what each solver computes. Every module follows the form of its source:
loops that update variables are methods with loop invariants, proved against a
specification function or predicate; objects and buffers the source updates in
place are classes and arrays; pure helpers are functions with lemmas beside them.
The shared modules model the Python built-ins the solvers rely on: `Wrappers`
(Option and small sequence lemmas), `Decimal` (decimal numerals, `str` and `int`
on natural numbers) and `PyText` (`str.split`, `str.join`, `str.strip`, `int()`
and `str()` over ASCII text).

Conventions used throughout:

- Python exceptions that a solver can raise on the inputs it accepts (`KeyError`,
  `IndexError`, `ValueError`, `RuntimeError`) become `None` of an `Option` result.
  The `None` that a solver itself returns is also `None`.
- Python `int` is unbounded, like Dafny's `int`. Python's `%` (floored) is written
  out where the operands can be negative (day 14).
- Python `dict` and `set` iteration order is left open (a `:|` choice or a proof
  that holds for every order). Each contract holds whatever the order is.
- Loops that the source may run forever are modelled in one of two ways. Either the
  loop gets a `fuel` bound, with an outcome that says whether it ran out, or a
  `requires` states what makes it stop. Each case is listed under "## Left out".
- File reading, `print`, `tqdm` progress bars and the `__main__` blocks are not
  modelled. The puzzle inputs reach the model as the values the solvers receive.
- Where a solver's code does not do what its docstring or the puzzle says, the code
  as written is modelled and proved to differ on a concrete input. A corrected
  version carries the intended property. Both are listed under "## Findings".

## Model

| member | source | states |
|---|---|---|
| Day1.Sort | day1/day1.py:12 | `sorted`: the result is ascending and holds the same multiset of numbers as the input |
| Day1.SortedUnique | day1/day1.py:12 | two ascending lists with the same multiset are equal, so the sorted order is unique |
| Day1.SortPermutationInvariant | day1/day1.py:12 | sorting depends only on the multiset of the list |
| Day1.TotalDistance | day1/day1.py:7-12 | the total pairwise distance of the two sorted lists is never negative |
| Day1.TotalDistanceReorder | day1/day1.py:7-12 | reordering either input list does not change part 1's answer |
| Day1.TotalDistanceSymmetric | day1/day1.py:7-12 | swapping the two lists does not change part 1's answer |
| Day1.TotalDistanceOfPermutation | day1/day1.py:7-12 | lists that are permutations of each other are at distance 0 |
| Day1.Occurrences | day1/day1.py:20-21 | the `Counter` lookup: the count equals the multiplicity of n in l2 |
| Day1.SimilarityReorder | day1/day1.py:15-21 | reordering l2 does not change part 2's similarity score, Day1.Similarity: the sum over n in l1 of n times its occurrences in l2 |
| Day2.FirstBad | day2/day2.py:15-17 | the loop's scan: None exactly when every later step is 1..3 in the committed direction; otherwise the first failing step |
| Day2.IsSafeUndampened | day2/day2.py:7-24 | without the dampener, `is_safe` (Day2.IsSafe) holds exactly when every step has magnitude 1..3 and the sign of the first step |
| Day2.SafeImpliesDampenedSafe | day2/day2.py:7-24 | a report safe on its own stays safe with the dampener |
| Day2.LastFailureForgiven | day2/day2.py:18-20 | a first failure at the last level is forgiven outright |
| Day2.DampenerRetries | day2/day2.py:18-22 | a first failure at i before the last level retries exactly two lists: from `report[i-1]` skipping `report[i]`, and from `report[i-2]` (Python's negative index when i = 1) continuing at `report[i]` |
| Day2.Without | day2/day2.py:21-22 | dropping level j keeps the levels before j and shifts the later ones down by one |
| Day2.DampenerAcceptsUnsafe | day2/day2.py:18-22 | the as-written dampener accepts [1,2,3,2,1], which no single removal makes safe |
| Day2.DampenerRejectsTolerable | day2/day2.py:18-22 | the as-written dampener rejects [1,5,6,7], which becomes safe once its first level is dropped |
| Day2.SafeWithDampener | day2/day2.py:12 | the documented dampener: accepts exactly the reports that are safe or become safe once one level is dropped |
| Day2.CheckSteps | day2/day2.py:14-24 | the undampened loop decides exactly "all steps 1..3, one direction" |
| Day2.Part1 | day2/day2.py:27-33 | counts exactly the reports whose steps are all safe (every report has the two levels `report[1]` needs) |
| Day2.Part2AsWritten | day2/day2.py:36-41 | counts the reports `is_safe(report, dampener=True)` accepts, as written |
| Day2.AsWrittenDampenerNeverLowersCount | day2/day2.py:27-41 | the as-written part 2 never counts fewer reports than part 1 |
| Day2.AsWrittenCountsUnsafe | day2/day2.py:36-41 | as written, part 2 counts [[1,2,3,2,1]] as 1 where the documented meaning gives 0 |
| Day2.AsWrittenMissesTolerable | day2/day2.py:36-41 | as written, part 2 counts [[1,5,6,7]] as 0 where the documented meaning gives 1 |
| Day2.Part2 | day2/day2.py:36-41 | counts exactly the reports that tolerate one bad level (the corrected dampener) |
| Day2.DampenerNeverLowersCount | day2/day2.py:27-41 | the corrected part 2 never counts fewer reports than part 1 |
| Day2.DroppingFirstHelps | day2/day2.py:12 | [1,5,6,7] becomes safe once its first level is dropped |
| Day2.NoSingleRemovalHelps | day2/day2.py:12 | no single removal makes [1,2,3,2,1] safe |
| Day3.LeadingDigits | day3/day3.py:10 | the greedy `\d+`: the run stops at the first non-digit or at the end of the text |
| Day3.LeadingDigitsAreDigits | day3/day3.py:10 | the run that `\d+` takes holds only digits |
| Day3.MatchMul | day3/day3.py:10 | a match of `mul\((\d+,\d+)\)` is at least 8 characters long and lies inside the text |
| Day3.MatchParts | day3/day3.py:10-15 | text laid out as `mul(`, digits, `,`, digits, `)` is matched with exactly those two operands and that length |
| Day3.MatchMulToken | day3/day3.py:10-15 | for numerals u and v, `mul(u,v)` followed by anything is matched with operands int(u) and int(v) |
| Day3.MulTokenContributes | day3/day3.py:13-15 | a `mul(u,v)` token adds exactly int(u) * int(v), and scanning resumes right after it |
| Day3.DecTokenContributes | day3/day3.py:13-15 | the token written with the decimal text of x and y adds exactly x * y |
| Day3.SkipNonMul | day3/day3.py:11 | a character other than 'm' is skipped without contributing |
| Day3.NoMulPrefixContributesNothing | day3/day3.py:11 | text with no letter 'm' contributes nothing in front of anything else |
| Day3.Part1 | day3/day3.py:6-16 | the accumulating loop returns the sum of x*y over the non-overlapping tokens `findall` finds |
| Day3.Part2 | day3/day3.py:19-36 | the loop with the `cond` flag returns the enabled-only sum, starting enabled |
| Day3.NoConditionalsSameSum | day3/day3.py:19-36 | without `do()` or `don't()` part 2 gives part 1's answer |
| Day3.DisabledCountsNothing | day3/day3.py:32-35 | once disabled, nothing is counted until a `do()` appears |
| Day4.DirectionsAreDistinctUnitSteps | day4/day4.py:11-12 | the eight direction entries are distinct non-zero unit steps |
| Day4.CrossSearch | day4/day4.py:6-18 | true exactly when the cells after (i, j) in direction d spell the target |
| Day4.FitsKeepsReadsInside | day4/day4.py:33-48 | part 1's guards on i and j keep every read of a three-letter search inside the grid |
| Day4.CountDir | day4/day4.py:34 | one guarded search adds one exactly when XMAS runs from (i, j) in that direction |
| Day4.CellMatches | day4/day4.py:32-48 | a cell contributes at most eight matches, and none unless it holds 'X' |
| Day4.CountCell | day4/day4.py:32-48 | the inner loop body adds the matches of the fitting directions of (i, j) |
| Day4.Part1 | day4/day4.py:21-49 | the double loop returns the number of XMAS strings over all cells and all eight directions |
| Day4.MatchesAtMostEightPerX | day4/day4.py:21-49 | part 1 counts at most eight matches per 'X' |
| Day4.SpellsTwo | day4/day4.py:66-78 | a two-letter target is spelled exactly by the next two cells |
| Day4.CountWindow | day4/day4.py:64-78 | a window counts one exactly when both of its diagonals read MAS or SAM |
| Day4.Part2 | day4/day4.py:52-79 | the double loop returns the number of 3x3 windows whose diagonals read MAS or SAM, and 0 when there is no window |
| Day5.ListIdx | day5/day5.py:7-14 | None exactly when o is absent; otherwise the first index holding o |
| Day5.CorrectlyOrdered | day5/day5.py:16-23 | as written: true exactly when no adjacent pair holds its pages in the reverse of a rule |
| Day5.AdjacentCheckMissesDistantViolation | day5/day5.py:16-23 | the adjacent-only check passes [1,2,3] under the rule that 3 comes before 1, although 3 follows 1 |
| Day5.ConformsToAll | day5/day5.py:18 | the documented check: true exactly when no pair of positions, adjacent or not, breaks a rule |
| Day5.AllPairsCoversAdjacent | day5/day5.py:16-23 | an adjacent violation is a violation, so the corrected check is at least as strict |
| Day5.BreaksAsWrittenImpliesBreaks | day5/day5.py:45 | every update the as-written check rejects, the corrected check rejects too |
| Day5.Relevant | day5/day5.py:25-35 | the filtered rules are never more than the given ones |
| Day5.RelevantMembers | day5/day5.py:25-35 | a rule is kept exactly when it is given and both of its pages occur in the update |
| Day5.RelevantConstraints | day5/day5.py:25-35 | the loop keeps the relevant rules in their original order |
| Day5.Misordered | day5/day5.py:45 | decides the filter of part 1 and part 2 under either check |
| Day5.MidSum | day5/day5.py:43-47 | the loop sums the middle page of every update the chosen check accepts |
| Day5.Part1AsWritten | day5/day5.py:38-47 | sums the middle pages of the updates `correctly_ordered` accepts |
| Day5.Part1 | day5/day5.py:38-47 | sums the middle pages of the updates that break no rule at all |
| Day5.MoveBefore | day5/day5.py:71 | `pages.insert(idx_b, pages.pop(idx_a))` keeps the length |
| Day5.MoveBeforeEffect | day5/day5.py:70-71 | the moved page lands at idx_b just before the page that was there; pages in between shift one to the right, and the others keep their places |
| Day5.MoveBeforePermutes | day5/day5.py:71 | a move loses and duplicates nothing |
| Day5.IndexOfIsFirst | day5/day5.py:67-68 | the index used is the first occurrence, as `list_idx` returns |
| Day5.StepTracked | day5/day5.py:64-74 | one pass keeps both pages of every queued or checked rule present in the update |
| Day5.RunDone | day5/day5.py:64 | the bounded loop reports done exactly when the queue is empty |
| Day5.RunPermutes | day5/day5.py:64-74 | any number of passes leaves a permutation of the update |
| Day5.ReorderStep | day5/day5.py:65-74 | one pass: pop the first rule, move page a before page b when a is behind, re-queue `csp[a]`, record the rule |
| Day5.RunLoop | day5/day5.py:64-74 | the while loop computes the bounded run of passes, and whether the queue emptied |
| Day5.ReorderUpdate | day5/day5.py:60-74 | one update's reordering is the run from its relevant rules and an empty `csp` |
| Day5.ReorderIsPermutation | day5/day5.py:60-74 | the reordered update is a permutation of the original, of the same length |
| Day5.ReorderedSum | day5/day5.py:57-79 | the loop sums the middle pages of the reordered updates that the chosen check rejects |
| Day5.Part2AsWritten | day5/day5.py:50-79 | part 2 filtered with `correctly_ordered`, as written |
| Day5.Part2 | day5/day5.py:50-79 | part 2 filtered with the corrected check |
| Day5.OrderedUpdatesSkipped | day5/day5.py:56-57 | updates the filter accepts contribute nothing to part 2 |
| Day5.AsWrittenSumsDiffer | day5/day5.py:38-79 | on [1,2,3] under the rule that 3 comes before 1, part 1 as written gives 2 where the corrected part 1 gives 0, and part 2 as written drops the update |
| Day5.CorrectedReordersExample | day5/day5.py:50-79 | the corrected part 2 reorders that update to [3,1,2] and counts its middle page 1 |
| Day6.RotateIsClockwiseQuarterTurn | day6/day6.py:11 | ROTATE turns a step (dx, dy) into (-dy, dx), never keeps the direction, and four turns are the identity |
| Day6.Ahead | day6/day6.py:13-15 | NEXT_XY moves to a 4-neighbour and keeps the heading: '^' and 'v' change only the row, '^' towards row 0, '<' and '>' only the column, '<' towards column 0 |
| Day6.MoveGuard | day6/day6.py:27-38 | moves ahead unless the cell ahead is an in-grid '#', where it turns clockwise on the spot |
| Day6.IterAdds | day6/day6.py:48-52 | a+b moves are a moves followed by b moves |
| Day6.Periodic | day6/day6.py:66-67 | a state that repeats while the guard stays inside the grid recurs forever, so the guard is trapped |
| Day6.TrappedExcludesLeaving | day6/day6.py:55-68 | a guard is trapped exactly when it never leaves the grid |
| Day6.Escaped | day6/day6.py:64-65 | leaving the grid once rules out being trapped |
| Day6.HasLoop | day6/day6.py:55-68 | true exactly when the guard never leaves the grid |
| Day6.TracePath | day6/day6.py:40-53 | the path holds the start and then every state after each move, up to the first move that leaves the grid |
| Day6.LocateGuard | day6/day6.py:17-25 | the first '^' in row-major order facing up, or None where the source raises ValueError |
| Day6.Part1 | day6/day6.py:71-77 | the number of distinct cells on the guard's path from the first '^', or None without one |
| Day6.Place | day6/day6.py:96-97 | the copy has a '#' at (x, y) and every other cell unchanged |
| Day6.AheadInside | day6/day6.py:91-94 | for every state of `path[:-1]` the cell ahead exists, so `map[_y][_x]` stays in range |
| Day6.ObstaclesGrow | day6/day6.py:91-99 | each pass adds the cell ahead exactly when it is free and blocking it traps the guard |
| Day6.TryBlock | day6/day6.py:92-98 | one pass decides whether the cell ahead is free and blocking it makes `has_loop` true |
| Day6.CountObstacles | day6/day6.py:90-101 | the loop over `path[:-1]` counts the distinct cells whose blocking traps the guard |
| Day6.Part2 | day6/day6.py:80-101 | the number of distinct free cells on the guard's way whose blocking traps the guard, or None without a '^' |
| Day7.ConcatIsDecimalJoin | day7/day7.py:20 | `int(str(in0) + str(in1))` is the value of the two decimal strings written one after the other |
| Day7.ApplyAtLeast | day7/day7.py:12-17 | with a positive right operand none of addition, multiplication and concatenation lowers its left operand, which is what makes the prune sound |
| Day7.EvalAtLeast | day7/day7.py:16-17 | with positive inputs a left-to-right evaluation never drops below its first value |
| Day7.PossibleImpliesReaches | day7/day7.py:8-26 | an equation the recursion accepts has a left-to-right choice of operators that hits the target |
| Day7.ReachesImpliesPossible | day7/day7.py:8-26 | every such choice of operators is found despite the prune |
| Day7.PossibleIffReaches | day7/day7.py:8-26 | for positive inputs `is_possible_equation` (Day7.Possible) holds exactly when some left-to-right choice of allowed operators evaluates to the target |
| Day7.SingleInput | day7/day7.py:14-15 | one input is possible exactly when it equals the target |
| Day7.ConcatOnlyAdds | day7/day7.py:19-26 | an equation possible with + and * stays possible once concatenation is allowed |
| Day7.SumStep | day7/day7.py:37-40 | one more equation adds its target exactly when the checker accepts it |
| Day7.SumPossible | day7/day7.py:29-41 | the loop of part1 and part2 returns the sum of the targets some choice of operators reaches |
| Day7.ConcatSumAtLeast | day7/day7.py:29-59 | part 2 never gives less than part 1 |
| Day8.VisitKeepsListed | day8/day8.py:15-18 | visiting a cell keeps every frequency's list exactly the antennas seen so far, in row-major order |
| Day8.ScanRow | day8/day8.py:16-18 | the inner loop lists row i's antennas under their own frequencies |
| Day8.GetFrequencies | day8/day8.py:10-19 | every list is non-empty and in row-major order; an antenna is listed under a character exactly when it holds that character other than '.' |
| Day8.RayStops | day8/day8.py:32-36 | once a step leaves the map, the loop has added exactly the steps before it |
| Day8.RayOnce | day8/day8.py:38-39 | without resonance only the first step is added, when it is inside the map |
| Day8.Ray | day8/day8.py:31-49 | one stepping loop adds exactly the in-map steps along the ray, only the first one without resonance |
| Day8.GetAntinodes | day8/day8.py:21-51 | the result is exactly the antinodes of the pair: the antennas themselves under resonance, plus both rays |
| Day8.PlainAntinodes | day8/day8.py:21-51 | without resonance the antinodes are the in-map points 2·l1−l2 and 2·l2−l1 |
| Day8.AntinodesInside | day8/day8.py:35-45 | every antinode other than a resonating antenna lies inside the map |
| Day8.AntinodesSymmetric | day8/day8.py:21-51 | swapping the two antennas gives the same antinodes |
| Day8.PairsFrom | day8/day8.py:63-66 | the pairs with first element a contribute exactly the in-map antinodes of (a, b) for every later b |
| Day8.PairAntinodes | day8/day8.py:63-66 | the loop over `combinations(antennas, r=2)` collects exactly the in-map antinodes of its pairs |
| Day8.CountAntinodes | day8/day8.py:54-83 | part1 (no resonance) and part2 (resonance) count the distinct in-map antinodes of pairs of two distinct antennas of one frequency |
| Day8.PairsAreAntennaPairs | day8/day8.py:62-63 | the listed pairs of one frequency are exactly the pairs of distinct antennas sharing a frequency |
| Day8.AntennaPairIsListed | day8/day8.py:54-83 | every antinode of a pair of same-frequency antennas is produced from the frequency lists |
| Day8.ListedPairIsAntennaPair | day8/day8.py:54-83 | everything produced from the frequency lists is an antinode of a pair of same-frequency antennas |
| Day9.Rep | day9/day9.py:20-31 | `[id] * n` has n elements, none when n <= 0 |
| Day9.FileSizes | day9/day9.py:11 | the file queue is the digits at even indices |
| Day9.FreeSizes | day9/day9.py:12 | the free queue is the digits at odd indices |
| Day9.CompactDropsFree | day9/day9.py:8-9 | a free block at the end of the disk changes nothing in the compacted disk |
| Day9.CompactKeepsFiles | day9/day9.py:20 | file blocks in front stay in front |
| Day9.CompactDisk | day9/day9.py:8-9 | the span after the last file never reaches the output |
| Day9.FillPastHead | day9/day9.py:26-29 | as written, the inner loop on file sizes [1, 1] with two free blocks places file 1 and then, with tail_idx past file 0, places file 0 a second time |
| Day9.CompactedSmallDisk | day9/day9.py:8-9 | the compacted disk of [1,2,1] is [0,1]: file 0 appears once |
| Day9.CompactBlocks | day9/day9.py:8-9 | the compacted disk holds every block of every file exactly once and nothing else |
| Day9.CompactifyAgrees | day9/day9.py:6-34 | compactify as written (Day9.CompactifyAsWritten, with Python's negative indexing and None for an IndexError) returns the compacted disk whenever no inner loop takes tail_idx below head_idx |
| Day9.Compactify | day9/day9.py:6-34 | with the inner loop guarded by head_idx <= tail_idx, the output is the compacted disk: file blocks in place, each free block filled by the last file block left, trailing free space dropped; so each file k appears exactly `disk_map[2k]` times |
| Day9.ChecksumIsIndexSum | day9/day9.py:80-85 | the checksum is the sum of i * fs[i] over the positions |
| Day9.ChecksumAppendZero | day9/day9.py:85 | a trailing 0 block leaves the checksum unchanged |
| Day9.FileQueue | day9/day9.py:54-57 | one (size, position) entry per file |
| Day9.FreeQueue | day9/day9.py:59-64 | one (size, position) entry per free span |
| Day9.BuildQueues | day9/day9.py:49-64 | the queue-building loop returns each file and free span with its size and the sum of the entries before it as position |
| Day9.FirstFit | day9/day9.py:69-75 | the first free span before file k with room for it, or -1 (the `for ... else`) when there is none |
| Day9.WriteFilesystem | day9/day9.py:36-42 | the range start .. start+length-1 becomes val and every other block is unchanged |
| Day9.PlaceFile | day9/day9.py:68-76 | placing file k keeps the free queue, the first-fit choices, the disjoint runs and the disk in step, now for files k.. |
| Day9.Defragment | day9/day9.py:44-78 | the output is as long as the disk; each file moves to the first free span before it with room, given the later files, or stays; its id covers exactly its run, never right of its start; runs do not overlap; every other block is 0 |
| Day9.Part1AsWritten | day9/day9.py:88-93 | the checksum, as an index sum, of what compactify as written returns, None exactly where it raises; equal to the checksum of the compacted disk whenever no inner loop takes tail_idx below head_idx |
| Day9.AsWrittenChecksumDiffers | day9/day9.py:26-29 | as written, compactify on [1,3,1] returns [0,1,0,-1], whose checksum is -2, while the compacted disk has the checksum 1 |
| Day9.FillIntoNegativeIds | day9/day9.py:26-32 | as written, the inner loop on file sizes [1, 1] with three free blocks places file 1, file 0 again and a block with the id -1, ending at tail_idx -2 |
| Day9.CompactifyWritesNegativeIds | day9/day9.py:6-34 | as written, compactify on [1,3,1] returns [0,1,0,-1] |
| Day9.CompactedWideGap | day9/day9.py:8-9 | the compacted disk of [1,3,1] is [0,1] |
| Day9.Part1 | day9/day9.py:88-93 | with the guarded compactify, the checksum of the compacted disk |
| Day9.Part2 | day9/day9.py:96-101 | the checksum of a defragmented disk |
| Day9.CompactifyRepeatsPlacedFile | day9/day9.py:26-29 | as written, compactify on [1,2,1] returns [0,1,0], holding file 0 twice although the disk has one block of it |
| Day9.LayoutOf | day9/day9.py:49-64 | the spans of the file and free queues lie within the disk, in disk order, each free span between the file before it and the file after it |
| Day10.ZerosSpec | day10/day10.py:6-15 | the trailheads are exactly the 0-cells, in row-major order |
| Day10.FindTrailheads | day10/day10.py:6-15 | the double loop returns the 0-cells in row-major order |
| Day10.Accessible | day10/day10.py:17-36 | the accessible cells are exactly the in-map 4-neighbours one higher, listed up, down, left, right |
| Day10.SummitIsLast | day10/day10.py:59-61 | a 9 has no accessible cell |
| Day10.ReachUnfold | day10/day10.py:63-64 | what a cell reaches is itself plus what its accessible cells reach |
| Day10.ReachIsConnected | day10/day10.py:39-43 | the cells a trailhead reaches are exactly the ends of its hiking trails |
| Day10.CoverUnvisited | day10/day10.py:64 | dropping visited cells whose reach is already visited loses nothing |
| Day10.TrailheadDone | day10/day10.py:54-56 | once no cell of a trailhead is pending, its score is complete |
| Day10.TrailheadStart | day10/day10.py:54-57 | popping a trailhead adds the score so far to the total, clears the visited set and pushes its next steps |
| Day10.SegStep | day10/day10.py:51-64 | popping a pending cell marks it visited, counts a summit, and pushes its unvisited next steps |
| Day10.DfsPop | day10/day10.py:51-64 | one pass of part1's loop, as a function of the stack, visited set, score and total |
| Day10.PopStep | day10/day10.py:50-64 | one pass keeps part1's loop invariant |
| Day10.DfsDone | day10/day10.py:66-68 | with the stack empty, the total is the sum of all trailheads' scores |
| Day10.Part1 | day10/day10.py:39-68 | the total, over the trailheads, of the number of distinct summits each one reaches |
| Day10.TrailsCount | day10/day10.py:71-74 | the number of paths equals the number of listed trails |
| Day10.RatingCountsTrails | day10/day10.py:71-74 | a cell's rating is the number of distinct trails from it to a summit: the listed trails are exactly those trails, none twice |
| Day10.RatingPop | day10/day10.py:83-96 | popping a cell and pushing its next steps keeps the rating still to be counted |
| Day10.Part2 | day10/day10.py:71-100 | the total, over the trailheads, of the number of distinct trails to a summit |
| Day10.TrailsSound | day10/day10.py:71-74 | every listed trail climbs by one per step from the cell to a 9 |
| Day10.TrailsComplete | day10/day10.py:71-74 | every trail that climbs by one per step from the cell to a 9 is listed |
| Day10.TrailsDistinct | day10/day10.py:71-74 | no trail is listed twice |
| Day11.Split | day11/day11.py:7-12 | the two halves' values recombine to the stone's value, the right one below 10 to the power of its length |
| Day11.SplitDropsLeadingZeros | day11/day11.py:12 | `int()` drops the right half's leading zeros: '1000' splits into 10 and 0 |
| Day11.Evolve | day11/day11.py:14-25 | the rules in order: 0 becomes [1]; an even-length numeral splits into two stones that recombine to it; any other stone becomes [stone * 2024] |
| Day11.BlinkCount | day11/day11.py:34-39 | a blink keeps the number of stones or at most doubles it |
| Day11.BlinkAppend | day11/day11.py:36-38 | stones evolve independently: a blink distributes over concatenation |
| Day11.BlinkPermutation | day11/day11.py:36-38 | the order of the stones does not matter to which stones a blink yields, so counting per value is sound |
| Day11.Tally | day11/day11.py:32 | `Counter(stones)`: every present key has a positive count equal to its multiplicity |
| Day11.Credit | day11/day11.py:37-38 | `new_counter[new_stone] += count` for each successor adds count copies of each |
| Day11.BlinkCounter | day11/day11.py:35-39 | one iteration: the new counter counts the blink of every row the old counter counts |
| Day11.CountTotal | day11/day11.py:41 | `sum(counter.values())` is the number of stones counted |
| Day11.EvolveAndCount | day11/day11.py:27-41 | the count equals the length of the row after blinking `iterations` times |
| Day12.StepBack | day12/day12.py:31-42 | a same-plant move between 4-neighbours can be taken back |
| Day12.ComponentPlant | day12/day12.py:16-25 | the region holds its start, and every cell of it lies in the map and carries the start's plant |
| Day12.ComponentClosed | day12/day12.py:28-42 | the region is closed: every same-plant neighbour of a member is a member |
| Day12.ComponentLeast | day12/day12.py:16-44 | the region is the least closed set holding its start |
| Day12.ComponentMeets | day12/day12.py:114-117 | a region meets a closed set only if its start lies there, so the regions part1 prices are disjoint |
| Day12.GrownMembers | day12/day12.py:31-42 | one expansion adds exactly the same-plant neighbours outside the region, to both region and queue |
| Day12.SourceTests | day12/day12.py:31-40 | the source's bounds-and-plant tests are exactly the same-plant steps up, down, left and right |
| Day12.Visit | day12/day12.py:31-33 | one test adds its neighbour to the region and the back of the queue exactly when it passes and the neighbour is new |
| Day12.Expand | day12/day12.py:29-42 | one pop adds every new same-plant neighbour, in the order the source tries them |
| Day12.FillStep | day12/day12.py:28-42 | the flood-fill invariant survives a pop, and the pop makes progress |
| Day12.GetRegion | day12/day12.py:16-44 | the BFS returns exactly the cells a same-plant walk from start reaches |
| Day12.PerimeterMembers | day12/day12.py:46-60 | the perimeter is exactly the (outside neighbour, region cell) segments |
| Day12.Border | day12/day12.py:52-59 | the four tests for one region cell record its outside neighbours in order |
| Day12.OutsideSpec | day12/day12.py:52-59 | recording one cell adds exactly that cell's segments, each once |
| Day12.GetPerimeter | day12/day12.py:46-60 | every perimeter segment is listed exactly once, and nothing else |
| Day12.PerimeterLength | day12/day12.py:116 | `len(get_perimeter(region))` is the size of the perimeter |
| Day12.SweepAdd | day12/day12.py:114-117 | adding the region of an unvisited cell keeps the priced regions distinct and covering the visited cells |
| Day12.Part1 | day12/day12.py:104-119 | the priced regions are distinct regions of the map covering it, and the total is the sum of area times perimeter |
| Day12.ShiftShift | day12/day12.py:73-78 | moving a segment along its side keeps its orientation, composes by adding, and is injective |
| Day12.JoinAfter | day12/day12.py:91-92 | a segment right after a side's last segment extends that side |
| Day12.JoinBefore | day12/day12.py:93-94 | a segment right before a side's first segment extends it backwards |
| Day12.Merge | day12/day12.py:95-99 | a segment between two sides joins them into one straight side |
| Day12.StartsAdd | day12/day12.py:88-99 | adding a segment changes the number of side starts by +1, 0 or −1 exactly as the four cases of get_sides change the number of sides |
| Day12.StartsFewer | day12/day12.py:62-65 | a region has no more sides than perimeter segments |
| Day12.FindSides | day12/day12.py:80-86 | the search over `sides.items()` returns a side holding p1 and one holding p2, or None when no side holds one |
| Day12.Neighbours | day12/day12.py:73-78 | p1 and p2 are the segments before and after e along its side |
| Day12.Place | day12/day12.py:88-99 | the four cases keep the sides disjoint straight runs covering the placed segments, one per side start |
| Day12.GetSides | day12/day12.py:62-101 | the sides are disjoint, non-empty and together hold the perimeter; there is one side per segment that starts one |
| Day12.Pad | day12/day12.py:9-14 | the padded map is two rows and two columns larger |
| Day12.PadShape | day12/day12.py:9-14 | the frame holds c and cell (i, j) of the map moves to (i+1, j+1) |
| Day12.InnerComponent | day12/day12.py:127-136 | when the map holds no '#', a region starting inside the frame stays inside it |
| Day12.PriceRegion | day12/day12.py:133-136 | the region of an unvisited cell of the original map joins the sweep and adds area times number of sides |
| Day12.Part2 | day12/day12.py:122-138 | the priced regions are distinct regions of the padded map, each holding a cell of the original map (the frame is never priced on its own), together covering the original map, exactly the map when it holds no '#'; the total is area times sides summed |
| Day14.UntagPair | day14/day14.py:16-17 | `[2:]` takes any two-character tag off "u,w" again |
| Day14.FieldPair | day14/day14.py:16-18 | the pair of a tagged field reads back |
| Day14.FormatWords | day14/day14.py:15 | `split()` breaks a robot's line into its two fields, whatever white space ends it |
| Day14.ParseFields | day14/day14.py:15-18 | two words whose pairs parse make the robot with that position and velocity |
| Day14.ParseFormat | day14/day14.py:10-18 | parse_robot (Day14.ParseRobot, None where it raises ValueError) reads back the line "p=x,y v=vx,vy" of any robot, trailing newline included |
| Day14.PyMod | day14/day14.py:28-29 | Python's `%`: the remainder lies in [0, b) for b > 0 and in (b, 0] for b < 0 |
| Day14.Euclid | day14/day14.py:28-29 | the remainder of Euclidean division is unique |
| Day14.PyModAdd | day14/day14.py:28-29 | reducing before adding gives the same Python remainder |
| Day14.Move | day14/day14.py:27-30 | a robot keeps its velocity and on a map of positive size lands inside it |
| Day14.MoveTwice | day14/day14.py:28-29 | moving a steps and then b steps is moving a + b steps |
| Day14.Evolved | day14/day14.py:20-32 | each robot, in order, is moved by iters steps |
| Day14.EvolveMap | day14/day14.py:20-32 | the loop builds exactly that list |
| Day14.EvolvedTwice | day14/day14.py:20-32 | evolving by a and then by b is evolving by a + b |
| Day14.QuadrantOf | day14/day14.py:65-75 | a robot on the middle column or row lies in no quadrant; otherwise the comparisons with `size // 2` pick its quadrant |
| Day14.CountPartition | day14/day14.py:65-75 | every robot is counted once: in one quadrant or on the middle lines |
| Day14.Part1 | day14/day14.py:55-77 | the product of the four quadrant counts after 100 steps |
| Day14.ExampleMoves | day14/day14.py:101-103 | the twelve example robots on the 11 by 7 map after 100 steps |
| Day14.ExampleCounts | day14/day14.py:101-103 | their quadrant counts are 1, 3, 4 and 1 |
| Day14.ExampleFactor | day14/day14.py:101-103 | the safety factor of the example is 12, as the source asserts |
| Day15.Next | day15/day15.py:49-56 | one step for each of ^ v < >, and no step for any other character |
| Day15.NextBack | day15/day15.py:49-56 | a step and a step back return to the start |
| Day15.NextInjective | day15/day15.py:49-56 | different cells have different next cells, so moved boxes never collide with each other |
| Day15.DepthNext | day15/day15.py:49-56 | a step along a direction adds one to the depth along it |
| Day15.ConsistentUnique | day15/day15.py:101-120 | `box_lookup` is determined by `boxes`: the inverse map is unique |
| Day15.SearchStart | day15/day15.py:64-65 | the search starts from the robot's own step with no box queued |
| Day15.SkipStep | day15/day15.py:71-73 | a cell of a box already queued is skipped and the search invariant holds |
| Day15.PushStep | day15/day15.py:74-76 | queueing a newly met box appends the cells it steps into, last cell first, and keeps the invariant |
| Day15.SearchEnd | day15/day15.py:66 | with the check queue empty every cell stepped into has been checked |
| Day15.Enqueue | day15/day15.py:75-76 | the cells a box steps into are appended walking its cells backwards |
| Day15.Collect | day15/day15.py:63-76 | the worklist search: either a wall lies in the way of the robot or a queued box, or every cell stepped into is free or held by that box or a later queued one; the queued boxes are distinct, each reached from the robot or an earlier box |
| Day15.ShiftShaped | day15/day15.py:86-87 | a step keeps a box's cells side by side |
| Day15.ShiftSome | day15/day15.py:79-89 | the boxes in the queue move one step and the others stay |
| Day15.Store.MoveBox | day15/day15.py:82-89 | one box moves one step; all its cells leave `box_lookup` before any is written, and `box_lookup` stays the inverse of `boxes` |
| Day15.MoveBoxConsistent | day15/day15.py:80-89 | the maps MoveBox leaves are again each other's inverse |
| Day15.Vacancy | day15/day15.py:79-81 | moving back to front, every cell a box steps into is free or its own |
| Day15.PushAll | day15/day15.py:79-89 | the loop over `box_queue[::-1]` moves every queued box one step and keeps the lookup consistent |
| Day15.MoveRobot | day15/day15.py:58-91 | blocked by a wall: nothing changes and the robot stays; otherwise the robot steps, every pushed box steps, every other box stays, and `box_lookup` is again the inverse of `boxes` |
| Day15.Covered | day15/day15.py:66-76 | every box reached from the robot lies in any closed set of boxes |
| Day15.NoWall | day15/day15.py:69-70 | a closed set of boxes leaves no wall in the way of any reached box |
| Day15.OutcomeUnique | day15/day15.py:58-91 | whether a move is blocked, and which boxes it pushes, follow from the warehouse alone |
| Day15.StepOf | day15/day15.py:58-91 | a move made by move_robot is a step of the warehouse |
| Day15.StepDeterministic | day15/day15.py:58-91 | a move has one result |
| Day15.RunDeterministic | day15/day15.py:102-103 | the moves decide the whole run from its start |
| Day15.ExtendRun | day15/day15.py:102-103 | a run followed by one more step is a run one longer |
| Day15.Simulate | day15/day15.py:102-123 | the loop `for move in moves` performs a run of the moves; the box ids and box sizes are kept |
| Day15.AddBox | day15/day15.py:101-120 | entering the cells of box k extends the inverse lookup to the boxes below k + 1 |
| Day15.NarrowLookup | day15/day15.py:101 | `{v[0]: k for k, v in boxes.items()}` is the inverse of one-cell boxes |
| Day15.WideLookup | day15/day15.py:117-120 | entering both cells of each double-width box gives the inverse of the boxes |
| Day15.SumCoordinates | day15/day15.py:104-125 | the sum of 100·i + j over the first cell of every box |
| Day15.Part1 | day15/day15.py:94-104 | the score of the boxes at the end of the single run the moves determine |
| Day15.Part2 | day15/day15.py:107-125 | the same for double-width boxes |
| Day15.RowScanSound | day15/day15.py:20-21 | the row scan lists columns of row i holding the character, in increasing order |
| Day15.RowScanComplete | day15/day15.py:20-21 | the row scan misses no column holding the character |
| Day15.ScanSound | day15/day15.py:19-20 | the scan lists only cells holding the character |
| Day15.ScanSorted | day15/day15.py:19-20 | the scan lists cells in row-by-row order |
| Day15.ScanComplete | day15/day15.py:19-20 | the scan misses no cell holding the character |
| Day15.ParseWarehouse | day15/day15.py:8-29 | walls, numbered boxes and the robot are those of the row-by-row scan, each cell stretched to columns 2j and 2j+1 when wide |
| Day15.BoxMapNumbered | day15/day15.py:17-25 | the boxes are numbered 0, 1, … |
| Day15.BoxMapDisjoint | day15/day15.py:23-25 | parsed boxes share no cell |
| Day15.ParsedBoxes | day15/day15.py:23-25 | the k-th 'O' met is box k: one cell, or two side by side at columns 2j and 2j+1 when wide |
| Day15.ParsedWalls | day15/day15.py:21-22 | a cell is a wall exactly when the map character it comes from is '#' |
| Day15.ParsedRobot | day15/day15.py:16-27 | the robot is the last '@' of the scan, at column 2j when wide; none without one |
| Day16.Turns | day16/day16.py:12-13 | CW and CCW are inverse quarter turns, four turns either way are the identity, and the heading and its two turns are three different headings |
| Day16.StepIsNeighbour | day16/day16.py:8-10 | NEXT_P moves to a different tile exactly one row or one column away |
| Day16.StepBack | day16/day16.py:8-13 | a step after turning round twice returns to the tile the step started from |
| Day16.SuccessorsAtMostThree | day16/day16.py:35-57 | get_successors yields at most three entries |
| Day16.SuccessorsShape | day16/day16.py:42-57 | each successor is either one step ahead in the same heading at score + 1 or a quarter turn on the same tile at score + 1000, and in every case the tile one step ahead in the new heading is not a wall |
| Day16.SuccessorsAreMoves | day16/day16.py:42-57 | an entry of get_successors (Day16.Successors) is a successor exactly when its state is one of the moves the walls allow and its score is the old score plus that move's cost |
| Day16.ScanStep | day16/day16.py:24-31 | one cell of the scan keeps the wall set equal to the '#' cells seen so far and start/end equal to the last 'S'/'E' seen so far |
| Day16.ParseInput | day16/day16.py:17-33 | the walls are exactly the '#' cells; start and end are the last 'S' and the last 'E' in reading order, and None when there is none |
| Day16.ReachesStep | day16/day16.py:73-76 | a successor of a reachable entry is reachable |
| Day16.ReachesScore | day16/day16.py:65-73 | a reachable entry has a non-negative score, and score 0 only for the start state facing east |
| Day16.ClosedHoldsReached | day16/day16.py:66-76 | a set of states that holds the start state and is closed under moves holds every state a walk reaches |
| Day16.SearchStep | day16/day16.py:69-76 | popping an entry off the end tile and pushing its unvisited successors keeps the search invariant: queued states once each, visited = expanded + queued, queued entries reachable, expanded states have all successors visited |
| Day16.SearchExhausted | day16/day16.py:68-76 | a search whose queue runs dry without meeting the end tile proves that no walk reaches the end tile |
| Day16.PushNew | day16/day16.py:73-76 | the inner loop appends exactly the successors not yet visited, marks them visited, and leaves the rebound loop variable at the score of the last successor taken or at the popped score |
| Day16.Part1 | day16/day16.py:60-78 | the answer is 0 when start is end, is the score of a walk to the end tile whenever one exists, and is always the score of some reachable entry |
| Day16.Relax | day16/day16.py:102-108 | a strictly lower score replaces the record with this parent alone, an equal score adds this parent, a higher score changes nothing; the record never gets worse and holds only this parent or old parents of an equal record |
| Day16.Visit | day16/day16.py:101-108 | one successor is pushed and its record relaxed exactly when its score is no worse than its record; otherwise queue and records are unchanged |
| Day16.RelaxAll | day16/day16.py:101-108 | the inner loop over the successors, in any order, relaxes every successor's record and pushes exactly the successors that do not score worse |
| Day16.UpdatedMonotone | day16/day16.py:102-108 | relaxing loses no record, makes none worse, and adds records only for successor states |
| Day16.DijkstraStep | day16/day16.py:96-108 | popping an entry no higher than best and relaxing its successors keeps the search invariant |
| Day16.Expand | day16/day16.py:96-108 | one round keeps the invariant and strictly lowers the weight of the queue, so the loop terminates |
| Day16.DijkstraStops | day16/day16.py:97-99 | when the least queued entry is above best the records are settled: each is the cost of a walk, every state reachable within best has a record no higher, and records within best hold exactly the parents whose moves meet them |
| Day16.BestParents | day16/day16.py:93-108 | the search ends with the records settled in that sense |
| Day16.Seeds | day16/day16.py:111 | the reverse search starts from the end tile facing north and facing east, each exactly when its recorded score (0 when absent) is best |
| Day16.NewParents | day16/day16.py:116 | the new parents are exactly the recorded parents not yet visited |
| Day16.ReverseSearch | day16/day16.py:111-118 | fails exactly when some traced state has no record (the KeyError); otherwise returns exactly the states traced back from the seeds through recorded parents |
| Day16.UnwoundAll | day16/day16.py:114-118 | when the reverse queue is empty the visited states are exactly the traced states |
| Day16.Detour | day16/day16.py:81-87 | replacing a walk's prefix by another walk to the same state gives a walk whose cost changes by the difference |
| Day16.TracedOnBest | day16/day16.py:110-120 | every state the reverse search traces lies on a walk to the end tile facing north or east at score best that no walk reaches more cheaply |
| Day16.OnBestTraced | day16/day16.py:110-120 | every state on such a cheapest walk is traced by the reverse search |
| Day16.MissingSeed | day16/day16.py:111-116 | the reverse search meets a state with no record exactly when best is 0 and the end tile facing north or east is neither the start state nor one move from it |
| Day16.Answered | day16/day16.py:110-120 | the count of tiles of the traced states is the number of tiles on cheapest walks to the end tile facing north or east, and None exactly in the KeyError case |
| Day16.Part2 | day16/day16.py:81-120 | with best the score part1 returns, the answer is the number of tiles on walks to the end tile facing north or east at score best reached no cheaper, and None exactly when the source raises a KeyError |
| Day17.ParseAll | day17/day17.py:12-13 | `map(int, …)` over the pieces succeeds only with one integer per piece |
| Day17.ParseFormat | day17/day17.py:6-14 | parse_input (Day17.ParseInput, None where it raises) reads back the three registers and the program from their puzzle text, for any registers and any non-empty program |
| Day17.ReadRegisterLine | day17/day17.py:12 | the part after the colon of "Register X: n" reads back as n |
| Day17.ReadProgramLine | day17/day17.py:13 | the part after the colon of the program line, split at commas, reads back as the program |
| Day17.XorTwice | day17/day17.py:36-37 | bxl with the same literal twice restores B: exclusive or is its own inverse |
| Day17.XorZero | day17/day17.py:36-40 | exclusive or with 0 leaves a register unchanged |
| Day17.ShiftBounds | day17/day17.py:24-34 | the truncated quotient of A by 2 ** k is the largest q with q * 2 ** k <= A |
| Day17.Combo | day17/day17.py:17-21 | operands 4, 5 and 6 read registers A, B and C; every other operand stands for itself |
| Day17.Step | day17/day17.py:67-68 | one pass fails exactly for an opcode outside 0..7 or a missing operand; otherwise the pointer jumps to the operand on jnz with A != 0 and advances by two otherwise, at most one octal digit is printed, and the division opcodes store the quotient in the addressed register |
| Day17.HaltedPastEnd | day17/day17.py:66 | a halted run ends with the pointer past the program |
| Day17.HaltsAtEnd | day17/day17.py:66 | the loop stops at once, printing nothing more, exactly when the pointer starts past the program |
| Day17.RunPrints | day17/day17.py:50-53 | a run only appends values below 8 to the output |
| Day17.RunFuel | day17/day17.py:66-68 | more passes do not change a run that already ended |
| Day17.RunOn | day17/day17.py:66-68 | a run that can take one more pass is that pass followed by the run from the next machine |
| Day17.Computer.Cmb | day17/day17.py:17-21 | reads the operand's combo value from the registers |
| Day17.Computer.Adv | day17/day17.py:24-26 | A becomes A divided by 2 to the combo operand, truncated; nothing else changes |
| Day17.Computer.Bdv | day17/day17.py:28-30 | B becomes A divided by 2 to the combo operand, truncated; nothing else changes |
| Day17.Computer.Cdv | day17/day17.py:32-34 | C becomes A divided by 2 to the combo operand, truncated; nothing else changes |
| Day17.Computer.Bxl | day17/day17.py:36-37 | B becomes B xor the literal operand; nothing else changes |
| Day17.Computer.Bxc | day17/day17.py:39-40 | B becomes B xor C and the operand is ignored; nothing else changes |
| Day17.Computer.Bst | day17/day17.py:42-44 | B becomes the combo operand's low three bits; nothing else changes |
| Day17.Computer.Jnz | day17/day17.py:46-48 | the pointer jumps to the literal operand when A != 0 and otherwise advances by two |
| Day17.Computer.Out | day17/day17.py:50-53 | the combo operand's low three bits are appended to the output |
| Day17.Computer.Execute | day17/day17.py:55-67 | dispatching on the opcode performs that instruction |
| Day17.Computer.Cycle | day17/day17.py:66-68 | one pass performs the step and reports success exactly when the source would not raise, leaving the machine unchanged otherwise |
| Day17.Part1 | day17/day17.py:58-70 | within the given number of passes the run is the specified run from the caller's registers; those registers end holding the final A, B and C, and a halted run renders its output comma-separated |
| Day17.Shows | day17/day17.py:70 | one decimal string per printed value |
| Day17.RenderSplits | day17/day17.py:70 | the rendered output splits at its commas back into the printed values, and int() reads each one back |
| Day17.ExampleRuns | day17/day17.py:77-80 | from A = a the example program 0,1,5,4,3,0 halts after one round per printed value, having printed A halved round after round modulo 8, with A = 0 |
| Day17.ExampleOutput | day17/day17.py:77-80 | with A = 729 the example prints 4,6,3,5,6,3,5,2,1,0 |
| Day18.ParseInput | day18/day18.py:6-10 | one cell per line when parsing succeeds |
| Day18.ParseLines | day18/day18.py:6-10 | parse_input reads back the lines "x,y" of any list of cells |
| Day18.SuccessorsExactly | day18/day18.py:12-29 | from a cell on the map the successors (get_successors, Day18.Successors) are exactly the neighbours on the map that are not corrupted, at most four |
| Day18.SuccessorsInBox | day18/day18.py:20-27 | successors never leave the map |
| Day18.ReachWalks | day18/day18.py:32-49 | the cells within k moves of (0, 0) are exactly the ends of walks of at most k moves |
| Day18.ShortestWalk | day18/day18.py:32-36 | a search answer is the number of moves of a shortest walk of at least one move from (0, 0) to the end corner, and None exactly when no such walk exists |
| Day18.VisitFound | day18/day18.py:42-44 | the inner loop returns exactly when the end corner is among the successors |
| Day18.VisitPushed | day18/day18.py:45-47 | otherwise it appends each successor not yet visited, once, at distance d + 1, and marks it visited |
| Day18.Expand | day18/day18.py:42-47 | the inner loop's result is the one specified by Visit: found, or the new queue and visited set |
| Day18.PopKeeps | day18/day18.py:40-47 | popping the head at distance d and pushing its new successors keeps the breadth-first invariant: exact layered distances, visited = expanded + queued, and a shrinking unvisited part of the map |
| Day18.FoundEnd | day18/day18.py:43-44 | meeting the end among the successors of a head d moves away gives the shortest answer d + 1 |
| Day18.Exhausted | day18/day18.py:40-49 | an empty queue means no walk reaches the end corner |
| Day18.Round | day18/day18.py:40-47 | one round either finds the shortest answer or keeps the invariant while making progress |
| Day18.Part1 | day18/day18.py:32-49 | returns the length of a shortest walk from (0, 0) to the bottom-right corner, and None exactly when none exists |
| Day18.SingleCell | day18/day18.py:37-49 | on a 1x1 map the start is the end but there is no move, so part1 reports None |
| Day18.FirstTrueHolds | day18/day18.py:58-61 | the index part2 stops at is one after which the end is cut off |
| Day18.FirstTrueLeast | day18/day18.py:58-63 | no earlier index cuts the end off, and none at all when it runs off the end |
| Day18.CutOff | day18/day18.py:60 | the test `part1(...) is None` holds exactly when the fall of cell i cuts the end off |
| Day18.Part2 | day18/day18.py:52-63 | returns the first incoming cell whose fall cuts the end corner off, with the corrupted set holding exactly the cells fallen so far; None, the RuntimeError, with every incoming cell added when none does |
| Day18.ReachShrinks | day18/day18.py:58-60 | corrupting more cells leaves fewer cells within k moves |
| Day18.CutForGood | day18/day18.py:58-61 | once the fallen cells block the end every later fall keeps it blocked, so the first cut is where the corners part for good |
| Day18.StaysBlocked | day18/day18.py:58-60 | a blocked end corner stays blocked when more cells are corrupted |
| Day19.ParseInput | day19/day19.py:6-11 | a text that parses has at least one towel and at least one design; a text without exactly one blank line gives None, the unpacking's ValueError |
| Day19.ParseFormat | day19/day19.py:6-11 | parse_input reads back any non-empty towel list (no ',' or line break in a towel) and any non-empty list of non-empty one-line designs |
| Day19.TilingsExactly | day19/day19.py:30-48 | the enumeration counting_search counts holds exactly the sequences of towels, with repetition, that spell the target |
| Day19.TileableCount | day19/day19.py:13-48 | a target is possible exactly when it has at least one tiling, so part1 and part2 agree on which designs count |
| Day19.UpToDistinct | day19/day19.py:38-45 | with no towel listed twice no tiling is counted twice |
| Day19.TileWhole | day19/day19.py:19-20 | a towel equal to the target makes it possible |
| Day19.TileCons | day19/day19.py:22-25 | a towel that starts the target, before a possible rest, makes the target possible |
| Day19.TileSplit | day19/day19.py:19-28 | a possible target is a towel or starts with a towel before a possible rest, so returning False after the loop is sound |
| Day19.RecursiveSearch | day19/day19.py:13-28 | returns true exactly when the target is one or more towels in a row; the shared impossible set only grows, only ever holds targets with no tiling, and holds the target when the answer is false |
| Day19.CountingSearch | day19/day19.py:30-48 | returns the number of ordered towel sequences spelling the target; the shared cache keeps its entries, every entry is the count of its key, and the target gets an entry |
| Day19.WithinIff | day19/day19.py:58 | `t in pattern` holds exactly when t occurs at some position of the pattern |
| Day19.PiecesWithin | day19/day19.py:58 | every towel of a tiling occurs in the design it spells |
| Day19.Relevant | day19/day19.py:58 | the relevant towels are exactly the towels occurring in the design, each once |
| Day19.RelevantTilings | day19/day19.py:58-61 | restricting the towels to the relevant ones keeps exactly the same tilings |
| Day19.Part1 | day19/day19.py:51-62 | counts the designs that are one or more towels in a row |
| Day19.DesignWays | day19/day19.py:72-75 | what one design adds in part2 is a list holding exactly its tilings over all the towels, each once |
| Day19.Part2 | day19/day19.py:65-76 | sums, over the designs, the number of tilings over the relevant towels |
| Day19.TilingsComplete | day19/day19.py:38-45 | every sequence of towels spelling the target is enumerated |
| Day23.LinkedSymmetric | day23/day23.py:9-15 | the links join computers without direction |
| Day23.AdjacencyList | day23/day23.py:9-15 | the adjacency list has exactly the computers of the links as keys and, for each, exactly the computers it is linked to |
| Day23.AdjacencyShape | day23/day23.py:13-14 | the adjacency list is symmetric, and irreflexive when no link joins a computer to itself |
| Day23.AddTriad | day23/day23.py:24-25 | recording a triangle none of whose orderings is recorded keeps every recorded triad a triangle and no two recorded triads orderings of one another |
| Day23.AddTriads | day23/day23.py:23-25 | the innermost loop leaves every common neighbour c3 of c1 and c2 covered by some ordering of (c1, c2, c3), keeping the triads irredundant |
| Day23.TriadsAt | day23/day23.py:22-25 | the middle loop covers every triangle starting at c1 |
| Day23.FindTriads | day23/day23.py:17-27 | every triad found is a triangle of the links, every triangle is found in some ordering, and no triangle is found in two orderings |
| Day23.ImageSize | day23/day23.py:64 | a map that is one-to-one on a set has an image as large as the set |
| Day23.CountTriangles | day23/day23.py:57-64 | the triads with a member starting with 't' are exactly as many as the unordered triangles with such a member |
| Day23.Part1 | day23/day23.py:52-64 | returns the number of unordered triangles of the network with a computer whose name starts with 't' |
| Day23.BaseCase | day23/day23.py:40-41 | with P and X empty, R is a maximal clique and the only one reported |
| Day23.StepCall | day23/day23.py:43-46 | each recursive call is set up as the algorithm requires and its P is strictly smaller, so the recursion ends |
| Day23.Step | day23/day23.py:43-46 | one turn of the loop adds exactly the maximal cliques containing v and avoiding the vertices moved to X before, and none of them twice |
| Day23.EndReports | day23/day23.py:43-46 | once every vertex of P has been taken, the reports are all the maximal cliques extending R within P |
| Day23.BronKerbosch | day23/day23.py:36-46 | appends to the list exactly the maximal cliques that contain R, take their other members from P and none from X, each once |
| Day23.FindMaximalCliques | day23/day23.py:29-49 | returns every maximal clique of the network exactly once |
| Day23.ExtendToMaximal | day23/day23.py:67-73 | every clique extends to a maximal one, so the largest maximal clique is a largest clique |
| Day23.SortedUnique | day23/day23.py:74 | a set has only one sorted listing, so sorted() is determined |
| Day23.LessTotal | day23/day23.py:74 | Python's string order is total on distinct names |
| Day23.LessTransitive | day23/day23.py:74 | Python's string order is transitive |
| Day23.Insert | day23/day23.py:74 | inserting a name keeps the list sorted and adds exactly that name |
| Day23.SortNames | day23/day23.py:74 | lists the names in increasing string order |
| Day23.LastLargest | day23/day23.py:73 | `sorted(…, key=len)[-1]` picks a largest member, the last of the largest since the sort is stable |
| Day23.Part2 | day23/day23.py:67-74 | returns the names of the computers of a largest clique of the network, sorted and joined by commas |
| PyText.Word | day14/day14.py:15 | the leading word is the longest space-free prefix: it is followed by a space or by nothing |
| PyText.Words | day14/day14.py:15 | `split()` yields only non-empty space-free words |
| PyText.WordsOfJoin | day14/day14.py:15 | a word, then spaces, then more text splits into that word followed by the words of the rest |
| PyText.SplitOn | day17/day17.py:11-13 | `split(sep)` yields at least one piece |
| PyText.JoinSplit | day17/day17.py:11-13 | joining the pieces of `split(sep)` with sep gives the text back |
| PyText.SplitFirst | day17/day17.py:11-13 | a piece free of sep, then sep, then more text splits into that piece followed by the pieces of the rest |
| PyText.SplitJoin | day17/day17.py:11-13 | pieces without sep's first character, joined with sep, split back into the same pieces |
| PyText.Strip | day18/day18.py:10 | `strip()` leaves no space at either end |
| PyText.StripTrailing | day18/day18.py:10 | stripping a clean line with its trailing newline gives the line back |
| PyText.Show | day7/day7.py:20 | `str(n)` is a non-empty run of digits with an optional minus sign |
| PyText.ParseShow | day7/day7.py:20 | `int(str(n)) == n` for every integer n, where PyText.ParseInt models `int()` on text and gives None where it raises ValueError |
| PyText.ParseSpaced | day17/day17.py:12 | `int()` skips the space before a number, as in "Register A: 729" |
| PyText.ParsePairShow | day18/day18.py:10 | the two halves of "a,b" read back as (a, b) |
| Decimal.Dec | day11/day11.py:23 | `str(n)` of a natural number has `len(str(n))` digits as counted by Digits |
| Decimal.ValueOfDec | day7/day7.py:20 | reading back the decimal digits of n gives n |
| Decimal.ValueOfAppend | day7/day7.py:20 | the value of two digit strings put together is the first times 10 to the length of the second, plus the second |
| Decimal.ValueBounds | day11/day11.py:12 | a numeral of k digits has a value in [0, 10^k) |

## Left out

- day13/day13.py is not part of this model.
- The `__main__` block of every day, with its file reading and `print` calls, is left out. So is the parsing done only there: day 1's columns, day 3's memory text, day 4, 6, 8, 10 and 12's map lines, day 11's stone list, day 15's map/moves split and day 23's link lines. The model takes the values those lines produce.
- Day5.Part1: takes each rule string "a|b" as the pair Rule(a, b). The source splits the strings inside `relevant_constraints` and `part2` (day5.py:32, 66) and looks up the string `f'{pages[i]}|{pages[i - 1]}'` in `correctly_ordered` (day5.py:21). The two agree for rules written in plain decimal, as the puzzle writes them. The same holds for Day5.Part2, Day5.Part1AsWritten, Day5.Part2AsWritten, Day5.CorrectlyOrdered and Day5.RelevantConstraints. The updates are parsed in the `__main__` block.
- Day7.SumPossible: takes each equation as its target and list of inputs. The source splits "target: a b c" and converts its numbers with `int()` inside `part1` and `part2` (day7.py:38-39, 53-55).
- day14's `part2`, `coverage_ratio` and `draw_map`, day15's `print_warehouse` and day17's `part2` (an empty `TODO`) are left out: they produce output for a person to look at, or nothing.
- `tqdm` progress bars (day 7, day 14) are left out: they do not change any result.
- PyText.ParseInt: does not accept the `int()` forms "1_000" or non-ASCII digits. Python whitespace characters beyond ASCII are not treated as spaces. The puzzle inputs use none of these.
- Day2.Part1: requires every report to have at least two levels, because `is_safe` reads `report[1]` before its loop and raises IndexError on a shorter report. The same holds for Day2.Part2AsWritten and Day2.CountDampened.
- Day4.CrossSearch: requires every cell it reads to lie in the grid. Python's negative indexes would wrap, but part1's guards never let a read leave the grid. Day4.Part1 and Day4.Part2 require rows of one width and at least one row (`len(puzzle[0])`). Rows are taken without their line terminators.
- Day5.RunLoop: the reordering loop of `part2` is run for at most `fuel` passes, and `done` says whether its queue emptied. Day5.ReorderUpdate, Day5.ReorderedSum, Day5.Part2AsWritten and Day5.Part2 carry the same bound. Nothing proves that the source's loop always ends.
- Day5.Part1: requires every update to be non-empty, because `pages[len(pages) // 2]` raises IndexError on an empty update. The same holds for Part1AsWritten, ReorderedSum, Part2AsWritten and Part2.
- Day6.MoveGuard: requires rows of one width (Day6.Rect), as the source's `len(map[0])` bound assumes for every row, and at least one row. The same holds for every member of Day6 that reads the map.
- Day6.TracePath: requires that the guard eventually leaves the map. Otherwise the source's `while` loop never ends. Day6.Part1 and Day6.Part2 require the same of the guard found by `locate_guard`.
- Day7.SumPossible: requires every equation to have at least one input and only positive numbers, as `is_possible_equation`'s docstring demands. The prune `inputs[0] > target` is sound only for positive inputs.
- Day8.GetAntinodes: requires two different antennas when resonance is on, because equal antennas would step by (0, 0) forever. `combinations` never pairs an antenna with itself. Day8.CountAntinodes requires at least one row, because it reads `map[0]`.
- Day9.CompactifyAgrees: relates the as-written `compactify` to the compacted disk only when no inner loop takes `tail_idx` below `head_idx` (the predicate OuterStays). The inputs where it does are exactly the ones the finding below is about.
- Day9.Part1: checksums the disk compacted by the guarded `compactify`, the intended half of the day 9 findings. The source's part1, over the unguarded `compactify`, is Day9.Part1AsWritten.
- Day10.Part1: requires a rectangular map of digits 0 to 9, as the `__main__` block builds it with `map(int, row.strip())`. The same holds for Day10.Part2.
- Day10.Part2: the test `n not in visited` (day10.py:96) compares a cell with (cell, parent) pairs, so it never holds. The model pushes every next step. This changes nothing: the rating is the number of distinct trails whatever this test does, and a test on (cell, parent) pairs would wrongly skip trails that share a step.
- Day12.Part1: requires rows of one width. Day12.Part2 also requires at least one row, because `pad` reads `map[0]`.
- Day14.EvolveMap: requires a map size with no zero side, because Python's `%` by zero raises ZeroDivisionError. The same holds for Day14.Evolved and Day14.Part1. Day14.ParseFormat's Untag drops the first two characters of each field without checking that they are "p=" or "v=", as the source's slicing does.
- Day15.ParseWarehouse: returns `None` for the robot when the map has no '@'. The source's `(None, None)` would fail at the first move. Day15.Part1 and Day15.Part2 take a robot position.
- Day16.Part1: does not promise the least score, only the score of a walk to the end tile. The source marks a state visited when it is pushed, not when it is popped, so a state first pushed at a higher score is never improved. No concrete maze is proved to show the difference, so this is not listed as a finding.
- Day16.Part1: the heap is modelled as a queue from which any least entry may be popped. Each contract holds whichever least entry `heapq` picks on a tie. The same holds for Day16.BestParents.
- Day16.Part1: takes a ghost set of tiles that the walls enclose and that holds the start. The search then stays in a finite area. The source's search stops when it pops the end tile; on an open maze in which no walk reaches the end it would never stop. The same holds for Day16.Part2.
- The example mazes of day16.py:124-132, with answers 7036 and 45 and answers 11048 and 64, are not reproduced. Running the searches on them by proof is too costly.
- Day17.Computer.Adv: `int(a / 2 ** b)` is float division in Python, which rounds once A passes 2 ** 53. The model uses exact floor division on non-negative registers. The same holds for Bdv and Cdv.
- Day17.Part1: runs for at most `fuel` passes of the interpreter loop, because a program may loop forever. Registers are non-negative, which is what the puzzle gives. Negative registers, where truncation and `^` differ, are not modelled.
- Day17.ParseFormat: the round trip needs a non-empty program. An input whose fifth line is missing, or whose fields do not read as integers, gives `None`.
- Day18.ParseInput: a line that does not split into exactly two integers gives `None`. The source would build a tuple of another length and fail later.
- Day18.Part2: `None` stands for the RuntimeError raised when no incoming cell cuts the corners apart.
- Day19.Part1: requires every towel to be non-empty. An empty towel is in every design, so both searches would recurse without end (RecursionError). The same holds for Day19.Part2, Day19.RecursiveSearch and Day19.CountingSearch. The iteration order of the set of relevant towels is taken as list order. Neither result depends on it.
- Day23.Part2: does not say which of several largest cliques is named. The source's choice depends on Python's set iteration order. Part2 requires that no link joins a computer to itself, which would make `bron_kerbosch` recurse forever.
- Day23.FindTriads: the iteration orders of the adjacency dict and sets are left open. The set of triads may differ between orders, but only in which ordering of each triangle is kept. Part1's count is the same for every order.

## Findings

| source | as written | input that shows it | evidently intended | confidence | as-written member | corrected member |
|---|---|---|---|---|---|---|
| day2/day2.py:18-22 | on the first bad step the dampener retries only two lists, from `report[i-1]` without `report[i]` and from `report[i-2]`, and forgives a failure at the last level outright | [1,2,3,2,1] is accepted although no single removal makes it safe; [1,5,6,7] is rejected although dropping 1 makes it safe | a report is safe with the dampener when it is safe or becomes safe once any one level is removed | not executed | Day2.AsWrittenCountsUnsafe | Day2.SafeWithDampener |
| day5/day5.py:16-23 | `correctly_ordered` checks each rule only on adjacent pages | with the rule that 3 comes before 1, the update [1,2,3] passes, so part 1 adds 2 and part 2 leaves the update out | an update is correctly ordered when it conforms to every rule among its pages, as the docstring says | not executed | Day5.AsWrittenSumsDiffer | Day5.ConformsToAll |
| day9/day9.py:26-29 | the inner loop of `compactify` moves file blocks from the tail without checking that `tail_idx` stays at or above `head_idx` | the disk map [1,2,1] gives [0,1,0]: file 0 is written a second time | every file block appears exactly once, so [1,2,1] compacts to [0,1] | not executed | Day9.CompactifyRepeatsPlacedFile | Day9.Compactify |
| day9/day9.py:88-93 | part1 checksums what the unguarded `compactify` returns, so the ids it writes twice or reads through negative indexes reach the answer | the disk map [1,3,1] compacts to [0,1,0,-1] with checksum -2 | the checksum of the compacted disk [0,1], which is 1 | not executed | Day9.AsWrittenChecksumDiffers | Day9.Part1 |
