# Advent of Code 2021 solvers, modelled in Dafny

This project models the puzzle solvers of the Rust workspace
`advent-of-code-2021-rust-tdd`: the shared `common` crate (a generic
`Stack` and the padding of a number grid with a frame of tens) and the
solvers of days 1 to 13, including the copy of the day 1 solver at the
workspace root. Each source file becomes one Dafny module in one file:

| module | file | models |
|---|---|---|
| `Wrappers` | `wrappers.dfy` | the `Option` type used for Rust's `Option` and for panics |
| `Common` | `common.dfy` | `common/src/lib.rs`: `Stack` as a class, `get_extended_metrix` |
| `SonarRoot` | `root.dfy` | `src/main.rs`: sonar-sweep increases |
| `Sonar` | `day1.dfy` | sonar-sweep increases, single and by sliding window |
| `Dive` | `day2.dfy` | submarine course, plain and by aim |
| `Diagnostic` | `day3.dfy` | gamma and epsilon rates |
| `Bingo` | `day4.dfy` | bingo boards, first and last winner, unmarked sum |
| `Vents` | `day5.dfy` | hydrothermal vent lines on a grid, overlap count |
| `Lanternfish` | `day6.dfy` | lanternfish population, per fish and by histogram |
| `Crabs` | `day7.dfy` | crab alignment fuel, linear and triangular |
| `Segments` | `day8.dfy` | seven-segment wiring deduction and decoding |
| `Basins` | `day9.dfy` | low points and basin flood fill on a framed height map |
| `Brackets` | `day10.dfy` | syntax scoring: corrupted and incomplete lines |
| `Octopus` | `day11.dfy` | flashing octopus grid, the flash cascade |
| `Caves` | `day12.dfy` | cave graph construction and path enumeration |
| `Origami` | `day13.dfy` | transparent-paper folding and dot count |

Loops of the source stay loops: each solver is a `method` proved against
a specification function (or, for day 11 and day 12, a ghost
characterisation: the least closed set of flashing octopuses, and a
recursive enumerator of cave paths), and the properties the puzzle relies
on are proved as lemmas about those functions. Grids the source takes by
value and mutates are `seq<seq<int>>` updated cell by cell; the stacks the
source mutates through `&mut self` are classes. Rust integers are
unbounded `int`s here; a source panic (an `unwrap` on `None`, an index out
of range the code does not guard) is either excluded by a precondition
that names the condition or returned as `None`, as each row says.

## Model

| member | source | states |
|---|---|---|
| Common.Stack.constructor | common/src/lib.rs:14-16 | a new stack holds no elements |
| Common.Stack.Default | common/src/lib.rs:39-43 | the default stack, like `new`, holds no elements |
| Common.Stack.Push | common/src/lib.rs:26-28 | the contents become the old contents with the item on top |
| Common.Stack.Pop | common/src/lib.rs:22-24 | on an empty stack: `None` and nothing changes; otherwise returns the top element and the contents lose exactly that element |
| Common.Stack.IsEmpty | common/src/lib.rs:30-32 | true exactly when the stack holds no elements |
| Common.Stack.Peek | common/src/lib.rs:34-36 | `None` exactly when empty, otherwise the top element, contents untouched |
| Common.PushThenPop | common/src/lib.rs:22-28 | pop after push returns the pushed item and restores the previous contents |
| Common.PopFresh | common/src/lib.rs:14-24 | a fresh stack is empty and popping it yields `None` |
| Common.Tens | common/src/lib.rs:101 | a border row: `n` cells, all 10 |
| Common.PaddedCells | common/src/lib.rs:98-105 | the extended matrix has two more rows, a frame of 10s, and cell `(i+1, j+1)` equal to input cell `(i, j)` |
| Common.UnpadPadded | common/src/lib.rs:98-105 | stripping the one-cell frame from the extended matrix gives back the input |
| Common.ExtendedMetrix | common/src/lib.rs:98-105 | the loop that splices each input row into a grid of 10s yields exactly the framed matrix |
| SonarRoot.IncreaseCount | src/main.rs:23-34 | the count is the number of readings greater than the one before, at most `len - 1` |
| SonarRoot.SampleGivesSeven | src/main.rs:57-62 | the test readings give 7 increases |
| Sonar.SumOfThree | day1/src/main.rs:39-42 | a three-reading window sums its three readings |
| Sonar.Increases_Bound | day1/src/main.rs:20-31 | at most `len - 1` increases |
| Sonar.WindowIncreases_Bound | day1/src/main.rs:33-49 | at most one increase per window comparison |
| Sonar.WindowIsGap | day1/src/main.rs:39-46 | window `i+1` beats window `i` exactly when reading `i+3` beats reading `i` |
| Sonar.IncreaseCount | day1/src/main.rs:20-31 | the count is the number of readings greater than the one before, at most `len - 1` |
| Sonar.SlidingWindowIncreaseCount | day1/src/main.rs:33-49 | 0 for at most three readings; otherwise the number of windows whose sum beats the previous window's, equal to the gap-of-three count |
| Sonar.SampleCounts | day1/src/main.rs:75-87 | the test readings give 7 increases and 5 window increases |
| Dive.DecodeDirection | day2/src/main.rs:36-41 | a direction is decoded exactly for the words `forward`, `up`, `down`, and it is the direction that word names; any other word is the unknown-direction error |
| Dive.DecodeToken | day2/src/main.rs:36-41 | decoding the word of each direction gives back that direction |
| Dive.AimRunTotals | day2/src/main.rs:63-79 | in aim mode the aim ends at start plus downs minus ups, and the horizontal position at start plus all forwards |
| Dive.FinalDivingPosition | day2/src/main.rs:49-61 | horizontal = start + sum of forward lengths; depth = start + downs - ups |
| Dive.FinalDivingPositionByAim | day2/src/main.rs:63-79 | the loop ends at the aim-mode position, and horizontal = start + sum of forward lengths |
| Dive.SampleProducts | day2/src/main.rs:111-160 | the six test commands give products 150 and 900 |
| Diagnostic.Pow2 | day3/src/main.rs:45-52 | the doubling weight is at least 1 |
| Diagnostic.GammaBit | day3/src/main.rs:39-43 | each majority bit is 0 or 1 |
| Diagnostic.GammaBits | day3/src/main.rs:39-43 | one majority bit per position of the first reading |
| Diagnostic.Complement | day3/src/main.rs:50 | the epsilon bits have the same length as the gamma bits |
| Diagnostic.ComplementSum | day3/src/main.rs:45-52 | a bit string and its complement add up to `2^width - 1` |
| Diagnostic.PowerConsumption | day3/src/main.rs:28-55 | gamma is the binary value of the majority bits, first position most significant; epsilon is the value of their complement; together they sum to `2^width - 1` |
| Diagnostic.BitSums | day3/src/main.rs:30-37 | each column sum is the sum of that position's digits over every reading that has it |
| Diagnostic.AddReading | day3/src/main.rs:34-36 | one reading's digits are added at their own positions and nothing else changes |
| Diagnostic.MajorityBackwards | day3/src/main.rs:39-43 | the list holds the majority bit of every position, last position first |
| Diagnostic.Accumulate | day3/src/main.rs:45-52 | with doubling weights over the reversed bits, gamma is the value of the bits read first-most-significant, and epsilon that of their complement |
| Bingo.NewBoard | day4/src/main.rs:47-52 | a parsed board has the 5x5 shape, nothing marked and no full line |
| Bingo.Mark | day4/src/main.rs:74-80 | a number not on the board changes nothing; otherwise exactly its cell becomes 1 and exactly its row and column sums grow by one |
| Bingo.Visit | day4/src/main.rs:69-91 | a won board is skipped; otherwise the board is marked, it is recorded as won exactly when it holds the number and now has a full line, the count grows exactly on a new win, and other boards are untouched |
| Bingo.Step | day4/src/main.rs:69-100 | a finished play stays finished; a new stop is at the visited board and number, on a new win, and in last-winner play only when every board has won; a board that has won stays won and unchanged |
| Bingo.Round | day4/src/main.rs:69-101 | visiting boards in order keeps the shape of the play, and a board that has won stays won and unchanged through the round |
| Bingo.Rounds | day4/src/main.rs:68-102 | calling the numbers in order keeps the shape of the play |
| Bingo.Start | day4/src/main.rs:64-66 | play starts running, with the given boards, nothing won and count 0 |
| Bingo.HasFullLine | day4/src/main.rs:81-90 | the scan reports true exactly when some sum equals 5 |
| Bingo.VisitBoard | day4/src/main.rs:69-100 | the inner-loop body computes exactly `Visit` on the board, win record and count |
| Bingo.CallNumber | day4/src/main.rs:68-101 | one pass over the boards equals `Round`, and reports the board where play stopped, if any |
| Bingo.GetWinnerBingoBoard | day4/src/main.rs:59-105 | the method returns exactly `Winner`: the early return's board index, number and board, or `(None, 0, None)` |
| Bingo.NextVisit | day4/src/main.rs:69-100 | the round after board `i` stops there exactly on a new win that ends the play, otherwise keeps running with the visited state |
| Bingo.RoundFinished | day4/src/main.rs:95-98 | after an early return the remaining boards of the round change nothing |
| Bingo.RoundsFinished | day4/src/main.rs:95-98 | after an early return the remaining numbers change nothing |
| Bingo.WonBoardsFrozen | day4/src/main.rs:70-72 | a board that has won stays won and unchanged through all later numbers |
| Bingo.Wins | day4/src/main.rs:66 | the number of boards recorded as won is at most the number of boards |
| Bingo.WinsRecord | day4/src/main.rs:91-92 | recording a new winner raises the number of winners by one |
| Bingo.WinsAll | day4/src/main.rs:94 | the number of winners equals the board count exactly when every board has won |
| Bingo.WinsNone | day4/src/main.rs:66 | no winners exactly when no board is recorded as won |
| Bingo.StepInv | day4/src/main.rs:69-100 | one visit keeps the invariant: count = recorded winners, each with a full line, and a stop only where the mode allows it |
| Bingo.RoundInv | day4/src/main.rs:69-101 | a round keeps that invariant |
| Bingo.RoundsInv | day4/src/main.rs:68-102 | the whole play keeps that invariant |
| Bingo.RoundStopsAtCall | day4/src/main.rs:95-98 | a round that stops reports the number it called |
| Bingo.RoundsStopAtCall | day4/src/main.rs:95-98 | the reported number is one of the called numbers |
| Bingo.FirstWinner | day4/src/main.rs:59-105 | first-winner play stops at a board with a full line, on a called number, and that board is the only one recorded as won; if it runs out of numbers, no board won |
| Bingo.LastWinner | day4/src/main.rs:59-105 | last-winner play stops only when every board has won, at a board with a full line, on a called number; if it runs out of numbers, some board has not won |
| Bingo.Ones | day4/src/main.rs:78 | the number of marked cells in a line is at most the line's length |
| Bingo.Column | day4/src/main.rs:78 | column `y` of the board holds cell `y` of every row |
| Bingo.OnesMark | day4/src/main.rs:78 | marking an unmarked cell raises the line's marked count by one |
| Bingo.OnesFull | day4/src/main.rs:82 | a line has 5 marks exactly when every cell is marked |
| Bingo.OnesZero | day4/src/main.rs:49 | an unmarked line has no marks |
| Bingo.NewBoardTallied | day4/src/main.rs:47-52 | on a parsed board every sum counts the marks of its line |
| Bingo.MarkKeepsTally | day4/src/main.rs:78-80 | marking an unmarked cell keeps every sum equal to the marks of its line |
| Bingo.TalliedWon | day4/src/main.rs:81-90 | on a tallied board a win is exactly a fully marked row or column |
| Bingo.RepeatedCallOvercounts | day4/src/main.rs:78-80 | calling a number whose cell is already marked leaves the cells as they are but adds one to the row sum, so the tally breaks |
| Bingo.Pick | day4/src/main.rs:109 | the chosen number lies in the set |
| Bingo.SetSumRemove | day4/src/main.rs:108-114 | the sum of a set is any member plus the sum of the rest, so the order of the map does not matter |
| Bingo.SetSumAdd | day4/src/main.rs:111 | adding a new number to a set adds it to the sum |
| Bingo.UnmarkedInAdd | day4/src/main.rs:110-112 | examining one more number adds it to the unmarked ones exactly when its cell is 0 |
| Bingo.SumOfUnmarked | day4/src/main.rs:107-115 | the loop returns the sum of the numbers whose cell is unmarked |
| Bingo.NewBoardUnmarked | day4/src/main.rs:47-52 | on a parsed board every number is unmarked |
| Bingo.MarkUnmarked | day4/src/main.rs:107-115 | calling a number removes exactly it from the unmarked ones and lowers the score by it if it was unmarked |
| Vents.DiagonalCovers | day5/src/main.rs:103-120 | a drawn diagonal passes through a point exactly when it is one of its points `0..steps` |
| Vents.DivisionIsSign | day5/src/main.rs:118-119 | a non-zero difference divided by its absolute value is its sign |
| Vents.DrawVertical | day5/src/main.rs:67-84 | the grid gains one exactly on the cells of the vertical line, between the lower and the upper y |
| Vents.DrawHorizontal | day5/src/main.rs:85-102 | the grid gains one exactly on the cells of the horizontal line, between the lower and the upper x |
| Vents.DiagonalPointIndex | day5/src/main.rs:113-119 | the `k`-th point of a diagonal is `k` steps from the start along x |
| Vents.DiagonalStep | day5/src/main.rs:115-120 | one turn of the diagonal loop adds one at the point it visits and extends the drawn prefix |
| Vents.DiagonalUnitSteps | day5/src/main.rs:111-119 | on a 45-degree line `(end - start) / steps` is the unit step towards the end in each coordinate |
| Vents.DiagonalNext | day5/src/main.rs:118-119 | a unit step from point `i` reaches point `i + 1` |
| Vents.DrawDiagonal | day5/src/main.rs:103-120 | the grid gains one exactly on the `steps + 1` cells of the diagonal |
| Vents.WalkDiagonal | day5/src/main.rs:113-120 | given the unit steps towards the end, the loop adds one exactly on the `steps + 1` cells of the diagonal and nowhere else |
| Vents.DiagonalDone | day5/src/main.rs:115 | after `steps + 1` turns the whole diagonal is drawn |
| Vents.DiagonalPrefixStep | day5/src/main.rs:115 | the first `i + 1` points are the first `i` plus point `i` |
| Vents.DiagonalOnMap | day5/src/main.rs:117 | every point of a diagonal between two cells of the map is on the map |
| Vents.DrawReading | day5/src/main.rs:66-121 | each reading adds one exactly on the cells its line covers; a line of any other slope, or a diagonal when they are not checked, changes nothing |
| Vents.Painted | day5/src/main.rs:66-122 | the drawn grid keeps the map's shape |
| Vents.CountOverlaps | day5/src/main.rs:124-131 | the count is the number of cells holding 2 or more |
| Vents.GetNumberOfOverlappingPoints | day5/src/main.rs:61-134 | the result is the number of points where the initial count plus the lines through the point reach 2 |
| Vents.PaintedStep | day5/src/main.rs:66-122 | drawing one more reading onto the grid of the earlier ones gives the grid of all of them |
| Vents.PaintedNothing | day5/src/main.rs:66 | with no readings the grid is the initial one |
| Vents.HitsMonotone | day5/src/main.rs:103-106 | at every point, the lines drawn without diagonals are at most those drawn with them |
| Vents.RowOverlapsMonotone | day5/src/main.rs:127 | a row that is pointwise larger has at least as many overlap cells |
| Vents.OverlapsMonotone | day5/src/main.rs:124-131 | a grid that is pointwise larger has at least as many overlap cells |
| Vents.DiagonalsNeverFewer | day5/src/main.rs:103-131 | checking diagonals never lowers the number of overlap points |
| Lanternfish.Ticked | day6/src/main.rs:32-39 | the scan updates every timer in place, in order: 0 becomes 6, others count down |
| Lanternfish.NextDay | day6/src/main.rs:31-41 | one day adds one newborn per timer that was 0 |
| Lanternfish.SimulateGrows | day6/src/main.rs:30-43 | the population never shrinks, and each day it grows by the number of zero timers |
| Lanternfish.SimulateInRange | day6/src/main.rs:33-40 | timers that start in 0..8 stay in 0..8 |
| Lanternfish.SpawnDay | day6/src/main.rs:31-42 | one pass of the day loop yields exactly the next day's timers |
| Lanternfish.FishCount | day6/src/main.rs:28-45 | the result is the population size after the given days (the start size for a non-positive number of days), never below the start size |
| Lanternfish.Histogram | day6/src/main.rs:33-40 | fish are counted in nine timer groups |
| Lanternfish.HistogramDay | day6/src/main.rs:33-40 | a day on the nine groups yields nine groups |
| Lanternfish.HistogramRun | day6/src/main.rs:30 | running the groups for some days yields nine groups |
| Lanternfish.CountAppend | day6/src/main.rs:41 | counting a timer value over two joined lists adds the counts |
| Lanternfish.CountTicked | day6/src/main.rs:32-39 | after a tick, timer 6 holds the old 7s and 0s and every other value `k` holds the old `k + 1`s |
| Lanternfish.CountConstant | day6/src/main.rs:40 | the newborn block holds only 8s |
| Lanternfish.HistogramOfNextDay | day6/src/main.rs:31-41 | on timers 0..8 the per-fish day agrees with the nine-group day |
| Lanternfish.CountOutOfRange | day6/src/main.rs:33-40 | no timer lies outside 0..8 |
| Lanternfish.TotalOfHistogram | day6/src/main.rs:44 | the nine groups account for every fish |
| Lanternfish.SimulateByHistogram | day6/src/main.rs:28-45 | after any number of days the per-fish simulation and the group recurrence give the same groups and the same size |
| Lanternfish.HistogramRunSplit | day6/src/main.rs:30 | running `a + b` days is running `a` days then `b` days |
| Lanternfish.SampleHistogramRun | day6/src/main.rs:59-71 | the groups of the five-fish sample total 26 after 18 days and 5934 after 80 |
| Lanternfish.SampleGrowth | day6/src/main.rs:59-71 | the population 3,4,3,1,2 has 26 fish after 18 days and 5934 after 80 |
| Crabs.TriangleClosedForm | day7/src/main.rs:34 | the expensive cost of `n` steps, `1 + 2 + ... + n`, is `n(n+1)/2` |
| Crabs.TriangleMonotone | day7/src/main.rs:34 | the expensive cost of a move grows with its distance and is never below it |
| Crabs.CostsCompare | day7/src/main.rs:21-36 | the plain cost never exceeds the expensive one, and it is 0 exactly when every crab is at the target |
| Crabs.LeastFuelCost | day7/src/main.rs:38-49 | as written: the result is the cost of some target in `0..len-1` and no target in that range costs less |
| Crabs.IndexRangeMissesPositions | day7/src/main.rs:41-48 | one crab at 100: every target the index range offers costs 100, while target 100 costs 0 |
| Crabs.Min | day7/src/main.rs:41 | the leftmost crab position: no crab is further left, and some crab is there |
| Crabs.Max | day7/src/main.rs:41 | the rightmost crab position: no crab is further right, and some crab is there |
| Crabs.CostBelowRange | day7/src/main.rs:21-36 | in both modes, a target left of every crab costs no less than the leftmost crab position |
| Crabs.CostAboveRange | day7/src/main.rs:21-36 | in both modes, a target right of every crab costs no less than the rightmost crab position |
| Crabs.LeastFuelCostOverPositions | day7/src/main.rs:38-49 | corrected: trying every target from the leftmost to the rightmost crab gives the least cost over every integer target |
| Crabs.SampleCosts | day7/src/main.rs:63-98 | the costs the tests name: 37, 41, 39 and 71 plain; 206 and 168 expensive |
| Crabs.SampleLeastCosts | day7/src/main.rs:80-97 | on the sample no index-range target beats 37 plain or 168 expensive |
| Crabs.SamplePlainLeast | day7/src/main.rs:80-81 | on the sample no index-range target costs less than 37 in plain mode |
| Crabs.SampleExpensiveLeast | day7/src/main.rs:96-97 | on the sample no index-range target costs less than 168 in expensive mode |
| Segments.UniqueNumberCount | day8/src/main.rs:51-60 | the count is the number of output tokens, over all lines, of length 2, 3, 4 or 7 |
| Segments.Pattern | day8/src/main.rs:74-116 | every digit lights only segments `a`-`g` |
| Segments.UniqueLengthDigits | day8/src/main.rs:56 | the lengths 2, 3, 4 and 7 belong exactly to the digits 1, 4, 7 and 8 |
| Segments.ImageSize | day8/src/main.rs:75 | a rewiring keeps the number of lit segments |
| Segments.ImageSubset | day8/src/main.rs:85-110 | a rewiring keeps inclusion both ways, so superset and subset tests see through it |
| Segments.Sets | day8/src/main.rs:64-72 | one letter set per token, in order |
| Segments.LastWhere | day8/src/main.rs:74-116 | the last index whose set passes the test, or none when none passes |
| Segments.FirstWhere | day8/src/main.rs:84-98 | the first index whose set passes the test, or none when none passes |
| Segments.LastWhereStep | day8/src/main.rs:74-116 | a later match replaces an earlier one |
| Segments.FirstWhereStep | day8/src/main.rs:84-98 | the search stops at the first match |
| Segments.FirstWhereUnique | day8/src/main.rs:84-98 | a set that passes, with none passing before it, is what the first search finds |
| Segments.LastWhereUnique | day8/src/main.rs:74-116 | a set that passes, with none passing after it, is what the last search finds |
| Segments.RemoveAt | day8/src/main.rs:87-95 | removing a found set shortens the list by one; without a match nothing is removed |
| Segments.SizePass | day8/src/main.rs:74-82 | digits 1, 7, 4 and 8 become the last set of size 2, 3, 4 and 7; every other digit is untouched |
| Segments.TakeFirst | day8/src/main.rs:84-98 | the first set passing the test becomes digit `k` and is taken out of the list; others untouched |
| Segments.SplitPass | day8/src/main.rs:100-116 | 0 and 6 become the last 6-set covering and not covering 7; 5 and 2 the last 5-set inside and not inside 9; others untouched |
| Segments.PickStep | day8/src/main.rs:74-116 | one more set seen: the slot takes it when it passes the test and otherwise keeps the last set that passed |
| Segments.SizeStep | day8/src/main.rs:75-80 | one set seen by the size pass: each of slots 1, 7, 4 and 8 takes it when its size fits; all other slots are untouched |
| Segments.SplitStep | day8/src/main.rs:101-115 | one set seen by the last pass: slots 0, 6, 5 and 2 take it when it passes their test against 7 or 9; all other slots are untouched |
| Segments.LetterSets | day8/src/main.rs:64-72 | the loop builds the letter set of every token, in order |
| Segments.GenerateDecodeInputSet | day8/src/main.rs:62-119 | the four passes build exactly the decode table of the letter sets |
| Segments.TableOfIsDecodeTable | day8/src/main.rs:62-119 | a table holding what each of the ten digit searches found is the decode table |
| Segments.Matches | day8/src/main.rs:144-149 | every index reported matches the output set |
| Segments.Reverse | day8/src/main.rs:142 | reading the outputs backwards keeps their number |
| Segments.LsdAppend | day8/src/main.rs:147-148 | a digit appended with the current weight adds `digit * 10^position` |
| Segments.LsdReverse | day8/src/main.rs:140-148 | reading digits least significant first from the back gives the decimal value of the digits in order |
| Segments.DecodeOutput | day8/src/main.rs:140-151 | the output number is the value of the matched digits, the last token least significant |
| Segments.AddMatches | day8/src/main.rs:144-149 | for one output set, the value and weight grow exactly as appending its matching table positions as the next digits |
| Segments.DecodeLine | day8/src/main.rs:123-151 | one output line decodes to the value of its digits under the table of its input line |
| Segments.GetDecodeNumbers | day8/src/main.rs:121-156 | one value per output line, decoded with the table of the input line at the same index |
| Segments.HoldsWired | day8/src/main.rs:85-115 | each decoding test holds of a rewired set exactly when it holds of the original |
| Segments.RemoveAtIndex | day8/src/main.rs:87-95 | taking out element `j` keeps the ones before it and shifts the ones after it down by one |
| Segments.RemoveShown | day8/src/main.rs:87-95 | taking out the set showing one digit leaves the other digits shown |
| Segments.FindShown | day8/src/main.rs:74-116 | when a test singles out one digit among those shown, both searches find the one set showing it, and taking it out leaves the rest shown |
| Segments.PicksOne | day8/src/main.rs:76 | size 2 singles out digit 1 |
| Segments.PicksSeven | day8/src/main.rs:77 | size 3 singles out digit 7 |
| Segments.PicksFour | day8/src/main.rs:78 | size 4 singles out digit 4 |
| Segments.PicksEight | day8/src/main.rs:79 | size 7 singles out digit 8 |
| Segments.PicksThree | day8/src/main.rs:85 | a 5-set covering 7 singles out digit 3 |
| Segments.PicksNine | day8/src/main.rs:93 | once 3 is out, a 6-set covering 3 singles out digit 9 |
| Segments.PicksZeroSix | day8/src/main.rs:101-106 | once 3 and 9 are out, a 6-set covering 7 is 0 and one not covering it is 6 |
| Segments.PicksFiveTwo | day8/src/main.rs:109-115 | once 3 and 9 are out, a 5-set inside 9 is 5 and one not inside it is 2 |
| Segments.FirstPassesCorrect | day8/src/main.rs:74-90 | on a scrambled display, the first passes find the wired patterns of 1, 7, 4, 8 and 3 |
| Segments.NinePassCorrect | day8/src/main.rs:92-98 | then the pass for 9 finds the wired pattern of 9 |
| Segments.ZeroFound | day8/src/main.rs:101-103 | then 0 is found |
| Segments.SixFound | day8/src/main.rs:104-105 | then 6 is found |
| Segments.FiveFound | day8/src/main.rs:109-111 | then 5 is found |
| Segments.TwoFound | day8/src/main.rs:112-113 | then 2 is found |
| Segments.DigitsFound | day8/src/main.rs:74-116 | on a scrambled display each of the ten searches finds the wired pattern of its digit |
| Segments.TableFromDigits | day8/src/main.rs:62-119 | when the ten searches find ten given patterns, the decode table is exactly those patterns in digit order |
| Segments.DecodeTableCorrect | day8/src/main.rs:62-119 | for any injective wiring and any order of the ten input tokens, table entry `d` is the wired pattern of digit `d` |
| Segments.DigitOfPattern | day8/src/main.rs:74-116 | a correctly wired pattern reads back as its digit |
| Segments.PatternsDistinct | day8/src/main.rs:145 | no two digits light the same segments, so an output matches at most one table entry |
| Segments.MatchesWired | day8/src/main.rs:144-149 | on a wired table, the wired pattern of `d` matches entry `d` and no other |
| Segments.DigitsWired | day8/src/main.rs:142-150 | on a wired table the matched digits are the shown digits, last first |
| Segments.LineValueCorrect | day8/src/main.rs:121-156 | a line whose tokens show the ten digits in any order and whose outputs show `digits`, through one wiring, decodes to the decimal number `digits` spell |
| Segments.SegmentSetSize | day8/src/main.rs:56-70 | a token without repeated letters has as many letters as its letter set |
| Segments.UniqueInLineCountsEasyDigits | day8/src/main.rs:51-60 | on a scrambled output line whose tokens repeat no letter, part one counts exactly the shown digits 1, 4, 7 and 8 |
| Basins.GetExtendedHeightmap | day9/src/main.rs:20-34 | the heightmap framed by 10s, with its padded height and width |
| Basins.PaddedFramed | day9/src/main.rs:20-34 | the framed map is rectangular, at least 3x3, with 10 on every border cell |
| Basins.RowLowsExact | day9/src/main.rs:44-57 | the scan of one row reports exactly its low points, in strictly increasing column order |
| Basins.AppendReported | day9/src/main.rs:55 | joining two lists of genuine low points gives a list of genuine low points |
| Basins.AppendLists | day9/src/main.rs:55 | a point listed in either part is listed in the join |
| Basins.AppendInOrder | day9/src/main.rs:43-57 | the join of two ordered lists, the first wholly before the second, is ordered |
| Basins.LowsSound | day9/src/main.rs:43-58 | the scan of the first rows reports only their low points |
| Basins.LowsComplete | day9/src/main.rs:43-58 | the scan of the first rows reports every one of their low points |
| Basins.LowsOrdered | day9/src/main.rs:43-58 | the scan of the first rows reports in strictly increasing row-major order |
| Basins.GetLowPoints | day9/src/main.rs:36-61 | the nested loop returns the low points of the framed map in scan order |
| Basins.ScanRow | day9/src/main.rs:44-57 | the inner loop appends exactly the low points of row `x`, left to right |
| Basins.LowPointsExact | day9/src/main.rs:36-61 | the low points reported are exactly the cells below their four neighbours, each once, in row-major order |
| Basins.LowInOriginal | day9/src/main.rs:20-48 | for a map of digits the frame never matters: a cell is low exactly when it is below each neighbour the original map has |
| Basins.IsValid | day9/src/main.rs:63-65 | a cell may join exactly when it is below 9 and not yet in the basin |
| Basins.ExtendWalk | day9/src/main.rs:81-96 | a reached cell's open neighbour is reached too |
| Basins.InsideFrame | day9/src/main.rs:63-65 | a cell that is not 10 lies inside the frame, so the flood never leaves the map |
| Basins.FloodAdd | day9/src/main.rs:81-96 | a valid neighbour of the front cell joins both the basin and the end of the check list, keeping the flood invariant |
| Basins.TryAdd | day9/src/main.rs:81-84 | one neighbour check keeps the flood invariant, lets the neighbour in when it is open, never grows the measure |
| Basins.TryAddTwo | day9/src/main.rs:81-96 | two neighbour checks in a row do the same for both neighbours |
| Basins.FloodStep | day9/src/main.rs:79-98 | one pass of the flood loop keeps the invariant and strictly decreases the measure, so the loop ends |
| Basins.FloodBasin | day9/src/main.rs:75-99 | the flood yields exactly the cells reached from the low point through cells below 9, all inside the frame |
| Basins.DropFront | day9/src/main.rs:98 | dropping the inspected cell once its neighbours are in keeps the invariant |
| Basins.ClosedHoldsWalk | day9/src/main.rs:78-99 | a set holding the start and closed under open steps holds the end of every walk |
| Basins.FloodIsBasin | day9/src/main.rs:78-99 | when the check list is empty the flooded set is the basin |
| Basins.LowReported | day9/src/main.rs:43-58 | every reported low point lies inside the frame, where the flood may start |
| Basins.GetBasinSizes | day9/src/main.rs:67-106 | one size per low point, in low-point order, each the size of that point's basin |
| Basins.BasinShape | day9/src/main.rs:63-77 | a basin holds its low point, and any other cell of it lies inside the frame below 9 |
| Brackets.OpenerOf | day10/src/main.rs:33-39 | every closer expects an opener |
| Brackets.CloserOf | day10/src/main.rs:97-101 | every opener is completed by a closer |
| Brackets.OpenerCloserInverse | day10/src/main.rs:33-101 | a closer completes exactly the opener it expects, and the two maps invert each other |
| Brackets.Stack.constructor | day10/src/main.rs:158-160 | a new stack holds no elements |
| Brackets.Stack.Pop | day10/src/main.rs:166-168 | on an empty stack: `None` and nothing changes; otherwise returns the top element and removes exactly it |
| Brackets.Stack.Push | day10/src/main.rs:170-172 | the contents become the old contents with the item on top |
| Brackets.Stack.IsEmpty | day10/src/main.rs:174-176 | true exactly when the stack holds no elements |
| Brackets.FoldPrefix | day10/src/main.rs:29-58 | accepting a prefix is accepting its first sign and then the rest |
| Brackets.ScanSpec | day10/src/main.rs:27-67 | against a stack reference: complete exactly when the signs leave an empty stack; incomplete exactly with the non-empty stack they leave; corrupted by `c` exactly when `c` is the first closer not accepted; a panic exactly when an unknown sign comes first |
| Brackets.ScanAfter | day10/src/main.rs:29-58 | accepted signs can be skipped: the scan goes on from the stack they leave |
| Brackets.ScanKeepsOpeners | day10/src/main.rs:31-65 | an incomplete line's stack holds openers only |
| Brackets.GetLineState | day10/src/main.rs:27-67 | the loop over one line with a fresh stack computes exactly its scan |
| Brackets.GetLineStates | day10/src/main.rs:24-70 | one status per line, in input order, or the panic |
| Brackets.LineStatesExact | day10/src/main.rs:24-70 | a panic exactly when some line panics; otherwise one status per line, each the scan of that line |
| Brackets.Corrupteds | day10/src/main.rs:76-80 | no more corrupted lines than lines |
| Brackets.CorruptedsAppend | day10/src/main.rs:76-80 | the filter distributes over joined lists |
| Brackets.CorruptedsSound | day10/src/main.rs:76-80 | every reported illegal character is that of some corrupted line |
| Brackets.ScanCorruptedIsCloser | day10/src/main.rs:32-53 | a line is corrupted only by a closer |
| Brackets.GetCorruptedLines | day10/src/main.rs:72-83 | the illegal character of every corrupted line, in order, or the panic |
| Brackets.Points | day10/src/main.rs:118-124 | each closer scores some points, anything else none |
| Brackets.TotalOfBounds | day10/src/main.rs:115-128 | the total lies between 3 and 25137 points per line |
| Brackets.TotalOfAppend | day10/src/main.rs:115-128 | the total is additive over lines |
| Brackets.GetTotalPoints | day10/src/main.rs:115-128 | the loop returns the sum of the points of every line |
| Brackets.CompletionShape | day10/src/main.rs:94-104 | one closer per stacked opener, the top of the stack first |
| Brackets.CompletionCloses | day10/src/main.rs:94-104 | reading the completion after the openers empties the stack |
| Brackets.CompletionCompletes | day10/src/main.rs:85-113 | appending its completion string to an incomplete line makes it complete |
| Brackets.Incompletes | day10/src/main.rs:89-93 | no more incomplete lines than lines |
| Brackets.ScansHaveOpenerStacks | day10/src/main.rs:24-70 | each incomplete status carries a stack of openers |
| Brackets.IncompletesOpeners | day10/src/main.rs:89-93 | every stack of an incomplete line holds openers only |
| Brackets.IncompletesFrom | day10/src/main.rs:89-93 | every stack reported is that of some incomplete line |
| Brackets.Complete | day10/src/main.rs:94-104 | popping until empty yields the closer of each opener, top first |
| Brackets.GetIncompletedLines | day10/src/main.rs:85-113 | the completion string of every incomplete line, in order, or the panic |
| Brackets.CompleteLines | day10/src/main.rs:88-110 | each incomplete status in order gives one completion line, the closers of its stack from the top down, and every such stack holds openers only |
| Brackets.IncompletesNext | day10/src/main.rs:89-93 | the stacks of the first `i + 1` statuses extend those of the first `i` by the next status's stack, if it is incomplete |
| Brackets.IncompletesAppend | day10/src/main.rs:89-93 | the filter distributes over joined lists |
| Brackets.Digit | day10/src/main.rs:137-143 | each closer is one of the digits 1-4, anything else 0 |
| Brackets.Pow5 | day10/src/main.rs:136 | the base-5 weight is at least 1 |
| Brackets.ScoreBounds | day10/src/main.rs:130-150 | a closer string of length `n` scores in `[(5^n - 1)/4, 5^n)` |
| Brackets.ScoreFromShifts | day10/src/main.rs:134-144 | the loop's fold onto `acc` shifts `acc` one base-5 digit per closer and adds the score |
| Brackets.ShiftDigit | day10/src/main.rs:136-137 | arithmetic step of the fold |
| Brackets.ScoreFront | day10/src/main.rs:134-144 | the first closer is the most significant digit |
| Brackets.ScoreInjective | day10/src/main.rs:130-150 | different closer strings score differently |
| Brackets.GetCompletionStringScores | day10/src/main.rs:130-150 | one score per line, in order, each the base-5 value of its completion |
| Brackets.SampleTotalPoints | day10/src/main.rs:220-227 | the five illegal characters of the test score 26397 |
| Brackets.SampleScore | day10/src/main.rs:240-261 | the first completion string of the test scores 288957 |
| Brackets.SampleThirdTail | day10/src/main.rs:248 | the last five closers of the third completion string bring the score of its first four closers to 1480781 |
| Brackets.SampleSecondScore | day10/src/main.rs:244-262 | the second completion string of the test scores 5566 |
| Brackets.SampleThirdScore | day10/src/main.rs:248-263 | the third completion string of the test scores 1480781 |
| Brackets.SampleFourthScore | day10/src/main.rs:252-264 | the fourth completion string of the test scores 995444 |
| Brackets.SampleFifthScore | day10/src/main.rs:256-265 | the fifth completion string of the test scores 294 |
| Brackets.SampleCompletionScores | day10/src/main.rs:237-265 | scoring the five completion strings the test lists gives 288957, 5566, 1480781, 995444 and 294, in that order |
| Octopus.IsValid | day11/src/main.rs:10-16 | true exactly for a cell inside the square grid that has not flashed in this step |
| Octopus.Settled | day11/src/main.rs:37-72 | the grid after the flashes keeps its square shape |
| Octopus.Step | day11/src/main.rs:18-81 | one step keeps the square shape |
| Octopus.Steps | day11/src/main.rs:89-93 | any number of steps keeps the square shape |
| Octopus.FlashCounts | day11/src/main.rs:87-93 | one flash count per step, the k-th being the number of octopuses that flash in step k+1 |
| Octopus.CellsInBounds | day11/src/main.rs:10-16 | the grid's cells are exactly the in-bounds positions |
| Octopus.FlashedNearMono | day11/src/main.rs:41-72 | more flashes never give fewer flashed neighbours |
| Octopus.FlashedNearAdd | day11/src/main.rs:41-72 | a new flash adds one flashed neighbour to the octopuses around it and none elsewhere |
| Octopus.FlashesLeast | day11/src/main.rs:28-78 | the set of octopuses that flash in a step is closed, and it is the least closed set |
| Octopus.StepLevels | day11/src/main.rs:18-81 | after a step every level is at most 9, and from non-negative levels an octopus is 0 exactly when it flashed |
| Octopus.GridExt | day11/src/main.rs:18-81 | two square grids with the same cells are equal |
| Octopus.FlashForced | day11/src/main.rs:37-39 | an octopus pushed above 9 belongs to every closed set, so its flash was forced |
| Octopus.SettledIs | day11/src/main.rs:37-72 | a grid settled cell by cell is the settled grid |
| Octopus.FlashCell | day11/src/main.rs:37-72 | one more flash sets its cell to 0 and raises each unflashed neighbour by one |
| Octopus.FlashSettles | day11/src/main.rs:37-72 | the grid after the flash of one octopus is the settled grid of the larger flashed set |
| Octopus.Queue | day11/src/main.rs:41-44 | each check queues at most one cell |
| Octopus.ValidAroundAppend | day11/src/main.rs:41-72 | joining two lists of valid neighbours gives a list of valid neighbours |
| Octopus.QueuedValid | day11/src/main.rs:41-72 | the eight checks queue only valid neighbours: on the grid, adjacent and not yet flashed, at most eight of them |
| Octopus.QueuedComplete | day11/src/main.rs:41-72 | every valid neighbour is queued by one of the eight checks |
| Octopus.QueuedHas | day11/src/main.rs:41-72 | a given valid neighbour is queued by the check for its offset |
| Octopus.Bump | day11/src/main.rs:41-44 | a valid neighbour is raised by one and queued; nothing else changes |
| Octopus.BumpTwo | day11/src/main.rs:41-48 | two checks on different neighbours raise and queue each of them when valid |
| Octopus.BumpSides | day11/src/main.rs:41-56 | the four side checks raise exactly the unflashed side neighbours and queue them in source order |
| Octopus.BumpCorners | day11/src/main.rs:57-72 | the four corner checks raise exactly the unflashed diagonal neighbours and queue them in source order |
| Octopus.Flash | day11/src/main.rs:37-73 | a flashing octopus drops to 0 and is recorded; each unflashed neighbour on the grid is raised by one; the queued cells are the valid neighbours in source order |
| Octopus.DropChecked | day11/src/main.rs:74 | taking a front cell that is not above 9 off the list keeps every pending octopus covered |
| Octopus.PushedCover | day11/src/main.rs:41-72 | after a flash, every octopus newly above 9 is among the queued neighbours |
| Octopus.FlashKeeps | day11/src/main.rs:37-73 | the flash of a pending front octopus keeps the cascade invariant and leaves one fewer unflashed octopus |
| Octopus.CheckFront | day11/src/main.rs:34-75 | one turn of the check-list loop keeps the grid settled and the cascade invariant, and strictly decreases a measure, so the loop ends |
| Octopus.Cascade | day11/src/main.rs:32-75 | the check-list loop ends with the grid settled, every flash forced and nothing pending before the next scan position |
| Octopus.ScanDone | day11/src/main.rs:28-78 | once the scan has passed the last row, the flashed set is exactly the step's flashes |
| Octopus.IncrementAll | day11/src/main.rs:19-26 | every level rises by one |
| Octopus.AddedOneToMetrix | day11/src/main.rs:18-81 | the step's grid is the settled grid of the least closed flash set, and the count is the number of octopuses that flashed |
| Octopus.GetOctopusesSnapshot | day11/src/main.rs:83-95 | the grid after `step` steps (none for a non-positive `step`) and, in order, the flash count of each step |
| Caves.EnterRank | day12/src/main.rs:77-92 | entering a small cave visited at most once, or a big cave right after a small one, lowers the termination measure |
| Caves.EnterInv | day12/src/main.rs:77-92 | entering a cave by either branch keeps the path invariant: starts at start, no end, small caves once except the one remembered cave twice and only in the extended mode |
| Caves.Enter | day12/src/main.rs:77-92 | entering a neighbour keeps the path invariant and lowers the termination measure |
| Caves.Leave | day12/src/main.rs:66-69 | popping the top cave restores the invariant of the shorter path, clearing the remembered cave exactly when it was the one popped |
| Caves.Pop | day12/src/main.rs:65-69 | the stacks below the top are again a search state, with the remembered cave cleared if the top was it |
| Caves.StepLeave | day12/src/main.rs:65-70 | an exhausted side list leaves its cave in one loop turn and the remaining work is that of the stacks below |
| Caves.TurnLeave | day12/src/main.rs:66-70 | leaving a cave as a whole loop turn keeps a search state, records nothing, loses no remaining path and shrinks the remaining work |
| Caves.StepNext | day12/src/main.rs:72-73 | taking the last neighbour off the top side list splits the remaining work into that neighbour's paths followed by the rest, in that order |
| Caves.StepEnter | day12/src/main.rs:80-82 | pushing a cave with its full neighbour list (also lines 89-92) turns the remaining work into that cave's paths followed by what remained before |
| Caves.StepStart | day12/src/main.rs:57-60 | the initial stacks are a search state whose remaining paths are those of the recursive enumerator from start |
| Caves.TopIndexed | day12/src/main.rs:72-75 | the neighbour taken next is listed for the top cave and indexes the label list in range |
| Caves.TurnEnter | day12/src/main.rs:77-92 | a cave that may be entered is pushed; the remaining paths are unchanged and the remaining work shrinks |
| Caves.TurnEnd | day12/src/main.rs:98-105 | reaching end records the current path plus end first, and what remains after it is the rest of the paths, with less work |
| Caves.TurnSkip | day12/src/main.rs:93-94 | a small cave that may not be entered again is skipped without losing a path, with less work |
| Caves.TriedOk | day12/src/main.rs:72-73 | taking the last neighbour off the top side list keeps a search state, the neighbour is listed for the top cave, and the lists below are unchanged |
| Caves.Visit | day12/src/main.rs:80-105 | pushing a non-end cave extends both stacks by the cave and its neighbour list; pushing end records the path with end and leaves both stacks as they were, clearing the remembered cave if it was end |
| Caves.Descend | day12/src/main.rs:72-107 | one loop turn on a non-empty side list keeps the stacks a search state; the paths recorded followed by the remaining paths are the paths that remained before, and the work strictly shrinks |
| Caves.Turn | day12/src/main.rs:62-107 | one loop turn on a non-empty main stack keeps a search state; the paths recorded followed by the remaining paths are those that remained before, and the work strictly shrinks |
| Caves.ProgressKeepsSearch | day12/src/main.rs:62-107 | such a turn keeps the loop's account: the paths recorded so far followed by the remaining paths stay the same, and the work shrinks |
| Caves.GetAllPathsFromStartToEnd | day12/src/main.rs:47-109 | the loop returns exactly the paths of the recursive enumerator, in its order; a path is returned if and only if it is a valid path for the chosen mode; and when no neighbour list names a cave twice, no path is returned twice, so the length the program reports is the number of valid paths |
| Caves.CountTwo | day12/src/main.rs:77-78 | a label at two positions of a path occurs at least twice in it |
| Caves.EndCounts | day12/src/main.rs:83-92 | on a search path, small caves occur once, except the remembered cave which occurs twice and only in the extended mode |
| Caves.EndValid | day12/src/main.rs:98-99 | a search path that steps along an edge to end is a valid path |
| Caves.ChildSound | day12/src/main.rs:77-105 | every path found through one neighbour is valid |
| Caves.ListSound | day12/src/main.rs:65-105 | every path found while working through a side list is valid |
| Caves.ExploreSound | day12/src/main.rs:62-106 | every path listed from a reachable search state is valid |
| Caves.WalkStep | day12/src/main.rs:75-82 | a walk extended along a listed edge is a walk |
| Caves.PrefixCount | day12/src/main.rs:77-87 | a path counts each label at least as often as its prefix, plus the next label |
| Caves.ChildComplete | day12/src/main.rs:77-105 | every valid path that continues the current path through the given neighbour is found through it |
| Caves.RevisitAllowed | day12/src/main.rs:83-92 | a valid path that returns to a small cave already on the current path is one the extended mode allows there: no cave has been visited twice yet and the cave is not start |
| Caves.ListComplete | day12/src/main.rs:65-105 | every valid path that continues the current path through a neighbour still in the side list is found |
| Caves.ExploreComplete | day12/src/main.rs:62-106 | every valid path that extends a search state is listed from it |
| Caves.PathsExact | day12/src/main.rs:47-109 | the enumerator from start lists a path if and only if it is valid |
| Caves.SimpleWithinExtended | day12/src/main.rs:111-121 | every path counted in the first part is also counted in the extended mode of the second |
| Caves.ExtendsThrough | day12/src/main.rs:80-92 | a path that begins with the current path plus one cave goes on from the current path through that cave |
| Caves.ChildExtends | day12/src/main.rs:77-105 | every path found through one neighbour begins with the current path followed by that neighbour |
| Caves.ListExtends | day12/src/main.rs:65-105 | every path found while working through a side list begins with the current path followed by one of the caves in that list |
| Caves.ExploreExtends | day12/src/main.rs:62-106 | every path listed from a search state begins with that state's path |
| Caves.NoRepeatsAppend | day12/src/main.rs:98-99 | two lists of paths without repeats and with no path in common give a list without repeats when joined |
| Caves.ChildNoRepeats | day12/src/main.rs:77-105 | on a graph whose neighbour lists name each cave once, no path is found twice through one neighbour |
| Caves.ListNoRepeats | day12/src/main.rs:65-105 | on such a graph no path is found twice while working through a side list, since paths through different neighbours differ right after the current path |
| Caves.ExploreNoRepeats | day12/src/main.rs:62-106 | on such a graph no path is listed twice from a search state |
| Caves.NoRepeatsCount | day12/src/main.rs:116-120 | a list of paths without repeats holds as many distinct paths as entries |
| Caves.ValidPaths | day12/src/main.rs:47-109 | the set of valid paths of a searchable graph for the chosen mode: a path is in it exactly when it is valid |
| Caves.PathCount | day12/src/main.rs:116-120 | on a graph whose neighbour lists name each cave once, the search from start lists no path twice and the number of paths reported equals the number of valid paths |
| Caves.GetPositionInVector | day12/src/main.rs:10-13 | the result is the first position holding the label |
| Caves.AddNode | day12/src/main.rs:26-34 | the label is present afterwards and every label keeps a neighbour list of in-range positions |
| Caves.AddPair | day12/src/main.rs:22-39 | one input line keeps every label with a neighbour list of in-range positions |
| Caves.Build | day12/src/main.rs:22-40 | the built graph has a neighbour list of in-range positions for every label |
| Caves.Flat | day12/src/main.rs:22-25 | the labels read from the lines are two per line |
| Caves.ReadAdjacencyMatrix | day12/src/main.rs:15-45 | the loop over the lines builds exactly the graph `Build` describes |
| Caves.PositionExact | day12/src/main.rs:10-13 | a position holding the label with no earlier occurrence is the one returned |
| Caves.PositionAppend | day12/src/main.rs:26-37 | appending labels does not move the position of a label already present |
| Caves.PositionDistinct | day12/src/main.rs:10-13 | in a list of distinct labels, the label at a position is found at that position |
| Caves.AddNodeOk | day12/src/main.rs:26-34 | adding a label keeps the builder's shape, appends it only when new with an empty neighbour list, and leaves other lists alone |
| Caves.PushOk | day12/src/main.rs:38-39 | pushing an in-range position onto a neighbour list keeps the builder's shape |
| Caves.AddPairOk | day12/src/main.rs:22-39 | one line keeps the builder's shape and appends labels as the two label additions do |
| Caves.BuildOk | day12/src/main.rs:22-40 | the builder's shape holds after every line: keys are exactly the labels, each label once, positions in range |
| Caves.ShapeOne | day12/src/main.rs:26-34 | adding one label keeps the label list equal to the labels read, in order of first appearance |
| Caves.BuildShape | day12/src/main.rs:22-40 | the built graph has the builder's shape and its label list holds exactly the labels of the lines, each once, in order of first appearance |
| Caves.BuildLabels | day12/src/main.rs:22-40 | the built label list holds exactly the labels of the lines, in order of first appearance |
| Caves.IncidenceAbsent | day12/src/main.rs:22-40 | a label absent from the lines is joined to nothing |
| Caves.IncidenceSymmetric | day12/src/main.rs:38-39 | the number of lines joining two labels does not depend on their order |
| Caves.IncidenceWitness | day12/src/main.rs:22-25 | two labels that are joined are the two ends of one of the lines |
| Caves.PushLinks | day12/src/main.rs:36-39 | the two pushes add one entry of the second label to the first and one of the first to the second, and nothing else |
| Caves.AddPairAppends | day12/src/main.rs:26-34 | one line appends its first label when new, then its second when new and different |
| Caves.LinksStep | day12/src/main.rs:22-39 | after one line, the neighbour count between two known labels grows by one per direction the line joins them |
| Caves.PositionLabels | day12/src/main.rs:10-13 | two labels of a list of distinct labels have the same position exactly when they are equal |
| Caves.BuildLinks | day12/src/main.rs:22-40 | how often one label lists another equals how often the lines join them |
| Caves.NewLinks | day12/src/main.rs:26-39 | a line that brings in a new label joins it only by itself |
| Caves.NewLinksZero | day12/src/main.rs:26-34 | a new label starts with no neighbours and is no one's neighbour |
| Caves.PositionBeyond | day12/src/main.rs:26-37 | a label first appended later is found after the earlier labels |
| Caves.LinksSymmetric | day12/src/main.rs:38-39 | the built graph is symmetric: each label lists the other as often as it is listed by it |
| Caves.FlatMember | day12/src/main.rs:22-25 | every label read comes from one of the lines |
| Caves.BuildSearchable | day12/src/main.rs:47-109 | a graph built from lines with non-empty labels, a start cave and no line joining two big caves meets what the search needs |
| Caves.EdgeIndexed | day12/src/main.rs:36-39 | every neighbour entry of the built graph names a labelled cave with a neighbour list |
| Caves.EdgeOk | day12/src/main.rs:36-39 | every neighbour entry of the built graph names a labelled cave, and at least one of the two caves is small |
| Caves.IncidenceOnce | day12/src/main.rs:22-40 | when no line joins a cave to itself and no two lines join the same two caves, any two caves are joined at most once |
| Caves.ListedTwice | day12/src/main.rs:38-39 | a position listed twice in a neighbour list is counted at least twice |
| Caves.BuildSimple | day12/src/main.rs:22-40 | lines that join no cave to itself and repeat no edge build neighbour lists that name each cave at most once |
| Origami.Zeros | day13/src/main.rs:71-91 | a row of `n` empty cells |
| Origami.OrOperation | day13/src/main.rs:115-117 | cellwise OR, as long as the shorter input |
| Origami.OrOntoZeros | day13/src/main.rs:98-103 | ORing a row onto an empty row of its length gives the row |
| Origami.YFoldRect | day13/src/main.rs:84-103 | the row fold has the new height, every row the paper's width |
| Origami.FoldAsWritten | day13/src/main.rs:56-113 | a fold that succeeds drops exactly the first instruction and yields a rectangular (or empty) sheet |
| Origami.FoldAsWrittenDefined | day13/src/main.rs:56-113 | the fold fails exactly when the source panics: no instruction; a column fold outside the paper or with a right part wider than the left; a row fold below -1 or past the last row |
| Origami.XFold | day13/src/main.rs:64-81 | the loops yield, row by row, the first `pos` columns with column `c` past the fold ORed into column `width - 1 - c` |
| Origami.YCopyUpper | day13/src/main.rs:84-96 | a sheet of the new height with the upper rows copied to its bottom and empty rows above them |
| Origami.YMergeLower | day13/src/main.rs:98-103 | each row past the fold is ORed into row `height - 1 - row` |
| Origami.YFold | day13/src/main.rs:84-103 | the row fold as written |
| Origami.GetFoldedPaperAndRemainingInstructions | day13/src/main.rs:56-113 | the method performs the as-written fold of the first instruction and drops it, or reports the panic |
| Origami.RowDotsBounds | day13/src/main.rs:121-127 | a row has at most as many dots as cells, and none exactly when every cell is 0 |
| Origami.DotsZero | day13/src/main.rs:119-129 | no visible dot exactly when every cell is 0 |
| Origami.GetVisibleDotsFromPaper | day13/src/main.rs:119-129 | the loops count exactly the cells above 0 |
| Origami.MirrorRow | day13/src/main.rs:64-81 | corrected column fold: the new width is the longer side |
| Origami.MirrorLine | day13/src/main.rs:98-103 | a mirrored row keeps the paper's width |
| Origami.MirrorRows | day13/src/main.rs:84-103 | corrected row fold: the new height is the longer side, every row the paper's width |
| Origami.MirrorRowExact | day13/src/main.rs:64-81 | every column off the fold lands inside the new sheet at its mirror image, and a new column has a dot exactly when one of its preimages has |
| Origami.MirrorRowsExact | day13/src/main.rs:84-103 | the same for rows, in every column |
| Origami.MirrorCellExact | day13/src/main.rs:98-103 | one cell of the mirrored paper has a dot exactly when one of its preimages has |
| Origami.FoldMirrored | day13/src/main.rs:56-113 | the corrected fold drops exactly the first instruction |
| Origami.XFoldCentred | day13/src/main.rs:64-81 | on a centred column fold the source's row is the mirror image |
| Origami.YFoldLowerLonger | day13/src/main.rs:84-103 | when the part below the fold is at least as tall as the part above, the source's row fold is the mirror image |
| Origami.FoldAsWrittenMirrors | day13/src/main.rs:56-113 | on those inputs the source's fold succeeds and equals the corrected fold |
| Origami.XFoldOffCentre | day13/src/main.rs:64-81 | the row `0,0,0,1` folded at column 2 gives `1,0` as written, `0,1` by mirroring |
| Origami.YFoldOffCentre | day13/src/main.rs:84-103 | the column `0,0,0,1` folded at row 2 gives `1,0` as written, `0,1` by mirroring |

## Left out

- File reading and line parsing are not modelled: `lines_from_file`, `numbers_from_first_line_in_file`, `parse_numbers_without_split_sign_from_lines_in_file` and `parse_strings_without_split_sign_from_lines_in_file` (common/src/lib.rs:45-96), and every day's `read_*`/`get_*_from_file` function. Each solver takes the values these functions would have parsed. The one exception is the day 2 direction word (day2/src/main.rs:36-41), which is modelled by `Dive.DecodeDirection`.
- Every `main` function is left out: it only reads a fixed input file and prints.
- The day 6 `main` runs for 80 and 256 days. Those two runs are not modelled. The same is true of the dive, crab and cave counts `main` prints.
- The test fixture files are not part of this model. Where a test's value could be reached from the published puzzle sample cheaply, the sample is written out and its answer is proved: day 1, day 2, day 6 and day 7. For day 10 the sample's lines are not written out. Instead, the five illegal characters the test lists are shown to score 26397 (`Brackets.SampleTotalPoints`). The five completion strings it lists are shown to score 288957, 5566, 1480781, 995444 and 294 (`Brackets.SampleCompletionScores`). The samples of days 3, 4, 5, 8, 9, 11, 12 and 13 are not modelled.
- Rust's fixed-width integers are modelled as unbounded `int`/`nat`: `i64` everywhere, `u32` in day 3 and `usize` values. Cast wrap-around and overflow panics are not modelled.
- `Dive.Action`: the getters `get_action_direction` and `get_action_length` (day2/src/main.rs:10-18) are the datatype's field selectors.
- `Diagnostic.PowerConsumption` requires a non-empty list with no reading longer than the first. The source sizes its bit sums from the first reading, so a longer one indexes out of range and panics.
- `Bingo.MarkKeepsTally`: the marked-count tallies match the marked cells only when no number is called twice. `Bingo.RepeatedCallOvercounts` shows the overcount a repeated call causes.
- `Vents.ValidMap` asks for the `[x][y]` shape the solver indexes: `x_max` rows of `y_max` counters. The reader allocates the transposed shape, `y_max` rows of `x_max` counters (day5/src/main.rs:54-56). On the reader's maps this holds only when the map is square, and a non-square map makes the source panic in the counting loop (day5/src/main.rs:125-127). `Vents.ReadingsOnMap` asks that every reading's end points lie on the map. A reading off the map would make the source panic at an index.
- `Segments.GetDecodeNumbers` requires no more output lines than input lines. The source indexes the input lines by each output line's position and would panic otherwise.
- Day 9 `main` sorts the basin sizes and multiplies the three largest. That step is not modelled; `Basins.GetBasinSizes` is proved to return each low point's basin size.
- `Basins.GetLowPoints` and `Basins.GetBasinSizes` require a rectangular heightmap, every row as long as row 0. The source does not check this: the reader builds one row per line (common/src/lib.rs:62-74), and the scan takes its width from row 0 (day9/src/main.rs:21) and visits only that many columns (day9/src/main.rs:44). A row shorter than row 0 makes the source panic at an index. A longer row is accepted, and its cells past row 0's width are never scanned but can still be compared as neighbours: `[[5],[5,1]]` gives no low point. The model does not cover ragged maps.
- `Basins.IsValid` is only modelled on cells inside the padded map. The source calls it only on neighbours of interior cells, which lie inside the frame.
- Day 10 signs are modelled as `char`s rather than one-character `String`s. An unknown sign, where the source panics, gives `None`.
- Day 10 `main`'s sort and median of the completion scores is not modelled.
- Day 11 is modelled on square grids. `is_valid` (day11/src/main.rs:10-16) compares both coordinates with the row count.
- The cave labels of day 12 are taken as already split into label pairs. The splitting of each line at `-` (day12/src/main.rs:23-25) is not modelled.
- `Caves.GetAllPathsFromStartToEnd` requires `Caves.Searchable`. It asks that "start" has a neighbour list, every neighbour position names a labelled cave with its own list, labels are non-empty, and no two big caves are neighbours. Without the last condition the source loops for ever. `Caves.BuildSearchable` derives this from conditions on the input lines.
- Input lines that repeat an edge, or join a cave to itself, give repeated neighbour entries. The search then finds the same path more than once. `Caves.GetAllPathsFromStartToEnd` promises that its length is the number of valid paths only when no neighbour list names a cave twice (`Caves.SimpleLinks`). `Caves.BuildSimple` derives this from lines with no repeated edge. For other graphs only membership is stated, not how often each path is listed.
- `Caves.Small` models `char::is_lowercase` on ASCII letters only (`'a'` to `'z'`). A non-ASCII lower-case letter in a label is not counted as lower case.
- Day 8 token lengths are `String::len` byte counts. The model counts characters instead, which is the same only for the ASCII letters `a` to `g` the displays use.
- Some preconditions exclude exactly an input on which the source panics. `Common.ExtendedMetrix` and `Common.Padded` require a non-empty map, because the source reads the width of row 0 (common/src/lib.rs:100). `Crabs.LeastFuelCost` requires a non-empty position list (day7/src/main.rs:48). `SonarRoot.IncreaseCount` (src/main.rs:25) and `Sonar.IncreaseCount` (day1/src/main.rs:22) require a non-empty reading list.
- Day 13 sheet cells are modelled as bits (0 or 1). The source stores them as `i64`, but only ever writes 0 or 1.
- `Origami.FoldAsWritten` returns `None` where the source panics: an empty instruction list, an x-fold whose right part is wider than the left, or a fold position outside the range the indexing allows.

## Findings

| source | as written | input that shows it | evidently intended | confidence | as-written member | corrected member |
|---|---|---|---|---|---|---|
| day7/src/main.rs:41-48 | the candidate targets are the indices `0..len` of the position list, not the positions themselves | one crab at position 100: the only target tried is 0, at cost 100, although target 100 costs 0 | try every target from the least to the greatest position, so the result is the least cost over all targets | not executed | Crabs.IndexRangeMissesPositions | Crabs.LeastFuelCostOverPositions |
| day13/src/main.rs:64-81 | a fold along column `pos` sends column `c` to `width - 1 - c`, which is its mirror image only when the fold line is the centre; the rows sized by the new width on line 71 are replaced by the left part on line 74 | row 0,0,0,1 folded at column 2 gives 1,0 | the dot at column 3 lands on column `2 * pos - c` = 1, giving 0,1 | not executed | Origami.XFoldOffCentre | Origami.MirrorRowExact |
| day13/src/main.rs:84-103 | a fold along row `pos` whose upper part is longer than the lower one sends the rows below the fold to the wrong rows | the one-column sheet 0,0,0,1 folded at row 2 gives 1,0 | the dot on row 3 lands on row 1, giving 0,1 | not executed | Origami.YFoldOffCentre | Origami.MirrorRowsExact |
