# Advent of Code 2021 solutions, modelled in Dafny

This project models the computational core of a set of independent daily
puzzle programs written in Rust (one crate per day, plus a small `utils`
crate).  Every program reads a text file, computes one or two answers and
prints them; the models keep the computation and drop the file reading and
printing.  Each modelled day is one Dafny module
(`Day01` ... `Day25`, file `dayNN.dfy`), and a few days have a second module
for their search or their stateful reader: `Day11Octopus` (the octopus
board), `Day15Search` (the lowest-risk search), `Day16Bits` (the bit
reader), `Day23Moves` and `Day23Search` (legality of amphipod moves and the
uniform-cost search), `Day24Search` (the model-number search), and for
day 18 `Day18Snail` (snailfish numbers as trees and the puzzle's reduction
rules on them) and `Day18Arena` (the storage arena, its parent map and the
layout that ties an arena to the tree it stands for).  Day 17
is not modelled (see "Left out").  `Common` holds `Option`/`Result`, `Text` the parts of
Rust's string library the parsers use (`split`, `lines`,
`split_ascii_whitespace`, `parse`), and `Utils` the shared
`consecutive_pairs` iterator.

Modelling conventions:

- Rust `usize`/`u64`/`i64` values are Dafny `nat`/`int`; overflow of the
  accumulating sums and products is not modelled (see "Left out").  Where the
  program relies on unsigned subtraction not going below zero, the model
  states that as a `requires` (a panic in the program).
- `HashMap`/`HashSet`/`BinaryHeap` are Dafny `map`/`set`/`multiset`; where
  the program's result depends on the iteration order of a hash container,
  the model fixes an order or leaves it unconstrained and says so.
- Iterators and `fold`s become recursive functions over sequences; loops
  that update variables become methods with loop invariants, proved against
  a specification function; structs whose methods update fields become
  classes.
- `day2/src/direction.rs` is a verbatim public copy of the command type of
  `day2/src/main.rs`, and `day4/src/bingo.rs` a copy of the board code of
  `day4/src/main.rs`; each is modelled once and the rows below cite one of
  the two copies.

## Model

| member | source | states |
|---|---|---|
| `Utils.Zip` | utils/src/lib.rs:3 | `zip` stops at the shorter input; element i pairs the i-th elements |
| `Utils.PairsOf` | utils/src/lib.rs:1-4 | `consecutive_pairs` yields exactly (s[i], s[i+1]) for i < n-1 in order: n-1 pairs for n >= 1, none for n <= 1 |
| `Utils.PairComponents` | utils/src/lib.rs:2-3 | the first components are s without its last element, the second components s without its first |
| `Day01.MeasureIncrease` | day1/src/main.rs:6-12 | the total grows by one exactly when the next reading is larger, otherwise stays |
| `Day01.IncreasesAreRises` | day1/src/main.rs:14-20 | `measurement_increases` equals the number of positions i with s[i+1] > s[i] |
| `Day01.IncreasesBound` | day1/src/main.rs:14-20 | no increases for fewer than two readings, at most len-1 otherwise |
| `Day01.WindowSums` | day1/src/main.rs:22-28 | a window of three sums to more than the previous one exactly when its new reading beats the dropped one |
| `Day01.WindowIncreasesAreRises` | day1/src/main.rs:22-28 | `measurement_window_increases` counts the i with sum(s[i+1..i+4]) > sum(s[i..i+3]); zero with three readings |
| `Day01.WindowIncreasesShort` | day1/src/main.rs:22-28 | zero for fewer than three readings (no window at all) |
| `Day02.ParseDirection` | day2/src/main.rs:28-43 | accepts exactly "forward/up/down N" with N a usize as the first two words; anything else is `DirectionInvalidFormat` |
| `Day02.ParseWritten` | day2/src/direction.rs:26-41 | a command written as "name units" parses back to the same command |
| `Day02.Process` | day2/src/main.rs:47-53 | forward changes only the horizontal position, up/down change only the depth by -u/+u; up needs depth >= u |
| `Day02.ProcessAimed` | day2/src/direction.rs:53-62 | forward adds u horizontally and aim*u to depth, keeping aim; up/down change only the aim |
| `Day02.FinalPositionSums` | day2/src/main.rs:74-78 | the fold from (0,0) ends at (sum of forwards, sum of downs - sum of ups) |
| `Day02.AimedSums` | day2/src/main.rs:80-86 | the aimed fold from (0,0,0) ends with horizontal = sum of forwards, aim = downs - ups, depth = sum over forwards of aim-so-far * u; the result drops the aim |
| `Day03.Bits` | day3/src/main.rs:108-112 | a row has one bit per character, set exactly where the character is '1' |
| `Day03.CountOnes` | day3/src/main.rs:44-45 | the ones of a column never outnumber its bits, so the zeros are the rest |
| `Day03.ReportVerticals` | day3/src/main.rs:14-30 | one column per character of the first line; column j collects bit j of every line in line order |
| `Day03.ColumnsTranspose` | day3/src/main.rs:21-27 | with lines at least j + 1 wide, column j has one bit per line and bit i is line i's character j being '1' |
| `Day03.PowerConsumption` | day3/src/main.rs:32-55 | the answer is gamma times epsilon, gamma's bit j set when column j has more ones than zeros and epsilon's when it has more zeros than ones, most significant bit first |
| `Day03.Rates` | day3/src/main.rs:42-49 | one rate bit per column looked at |
| `Day03.RatesAppend` | day3/src/main.rs:47-48 | each column appends exactly its own bit to gamma and to epsilon |
| `Day03.RatesExclusive` | day3/src/main.rs:47-48 | a gamma bit and the matching epsilon bit are never both set, and both are clear exactly when the column has as many ones as zeros |
| `Day03.LoadAppend` | day3/src/main.rs:51-52 | loading most significant bit first: appending a bit doubles the value and adds the bit |
| `Day03.ComplementRates` | day3/src/main.rs:47-54 | with no tied column, epsilon is the complement of gamma, so gamma + epsilon = 2^width - 1 |
| `Day03.Swap` | day3/src/main.rs:66 | swapping two entries keeps the length and the multiset of entries |
| `Day03.PartitionReport` | day3/src/main.rs:57-75 | the returned count c: the first c rows have the bit, the rest of the first len rows do not, those len rows are permuted, the rows after them are untouched, and columns stay the transpose of rows |
| `Day03.PartitionStep` | day3/src/main.rs:64-72 | one loop turn extends the matching prefix by row i exactly when row i has the bit, keeping the permutation and the transpose |
| `Day03.SwapPrefix` | day3/src/main.rs:66 | a swap inside the first len entries permutes those and leaves the rest as they were |
| `Day03.SwapRows` | day3/src/main.rs:66-69 | the row swap and the same swap in every column leave the rows swapped and the columns still their transpose |
| `Day03.Keep` | day3/src/main.rs:65 | the rows with the chosen bit, in order, never more than there were |
| `Day03.KeepCount` | day3/src/main.rs:64-72 | each row value is kept exactly as often as it occurs if its bit matches, and never otherwise |
| `Day03.KeepPermutation` | day3/src/main.rs:98 | which rows are kept depends on the multiset of candidates, not on their order |
| `Day03.OnesInColumn` | day3/src/main.rs:88-90 | the ones counted in a column prefix are the rows of that prefix with the bit set |
| `Day03.KeepPartitioned` | day3/src/main.rs:57-75 | after partitioning on a bit, keeping that bit gives exactly the matching prefix |
| `Day03.KeepConcat` | day3/src/main.rs:64-72 | keeping rows distributes over concatenation |
| `Day03.KeepAll` | day3/src/main.rs:64-72 | rows that all match are all kept |
| `Day03.KeepNone` | day3/src/main.rs:64-72 | rows that all differ are all dropped |
| `Day03.Settled` | day3/src/main.rs:84-86 | once one candidate is left, further columns change nothing (the loop breaks) |
| `Day03.Panicked` | day3/src/main.rs:88 | once the search has indexed a missing column it stays panicked |
| `Day03.WithinWidth` | day3/src/main.rs:83-98 | a search over no more columns than the report has never panics |
| `Day03.SearchColumns` | day3/src/main.rs:77-102 | the search with the loop bound as a parameter: None exactly when the candidate function panics; otherwise the first row is loaded, the first rows of the array are the candidates, rows stay a permutation and columns their transpose |
| `Day03.CountCandidates` | day3/src/main.rs:88-91 | the ones in the candidate part of column i are the candidates with bit i set |
| `Day03.Narrowed` | day3/src/main.rs:98 | after partitioning the candidate part, its first m rows are the kept candidates and the array as a whole is a permutation |
| `Day03.NarrowColumn` | day3/src/main.rs:88-98 | one pass of the loop advances the array from the candidates after column i to those after column i + 1 |
| `Day03.SearchVariable` | day3/src/main.rs:77-102 | `search_variable` as written, bounded by the number of rows: None exactly when that many columns panic; a single remaining candidate is the loaded value |
| `Day03.SearchAllColumns` | day3/src/main.rs:77-102 | the corrected search over every column with the intended rules never panics, and a single remaining candidate is the loaded value |
| `Day03.SoleCandidate` | day3/src/main.rs:101 | a prefix holding exactly the one candidate starts with it, so row 0 is loaded |
| `Day03.Rows` | day3/src/main.rs:106-113 | one bit row per line, row k being line k's bits |
| `Day03.ReportArrays` | day3/src/main.rs:105-113 | the column and row arrays of a report: rows are the lines' bits and columns their transpose |
| `Day03.LifeSupportRating` | day3/src/main.rs:104-119 | as written: None exactly when the oxygen or the CO2 search panics over as many columns as there are rows; when both end with one row, the rating is the product of those rows' values |
| `Day03.LifeSupportRatingIntended` | day3/src/main.rs:104-119 | corrected: for a report of distinct rows both searches end with one row and the rating is the product of their values |
| `Day03.SameCandidates` | day3/src/main.rs:115-116 | the CO2 search run on the order the oxygen search left panics or settles exactly as on the original order |
| `Day03.KeepSize` | day3/src/main.rs:90 | reordered candidates give the same count of ones |
| `Day03.CandidatesPermutation` | day3/src/main.rs:77-99 | the candidates after any number of columns depend only on the multiset of rows |
| `Day03.StepPermutation` | day3/src/main.rs:83-98 | one search step maps equal multisets of candidates to equal multisets |
| `Day03.NarrowPermutation` | day3/src/main.rs:88-98 | narrowing on one column maps equal multisets of candidates to equal multisets |
| `Day03.KeepRectangular` | day3/src/main.rs:98 | kept rows keep the report's width, and the rows with a 1 and those with a 0 in a column make up all rows |
| `Day03.KeepsCandidate` | day3/src/main.rs:92-96 | the oxygen rule and the intended CO2 rule never empty the candidates |
| `Day03.KeepIn` | day3/src/main.rs:65 | a kept row is a candidate whose bit is the kept one |
| `Day03.Narrowing` | day3/src/main.rs:83-98 | with distinct rows, after i columns the oxygen and intended CO2 candidates are non-empty, distinct, and share their first i bits unless one is left |
| `Day03.NarrowAgrees` | day3/src/main.rs:88-98 | one narrowing step extends the shared prefix of the candidates by one bit |
| `Day03.AllSame` | day3/src/main.rs:101 | a sequence of equal rows holds that row as often as it is long |
| `Day03.Decides` | day3/src/main.rs:77-102 | with distinct rows, the oxygen search and the intended CO2 search over all columns each end with exactly one row |
| `Day03.Co2CanEmpty` | day3/src/main.rs:92-93 | the CO2 rule as written drops both rows 01 and 00 on their shared first bit |
| `Day03.Co2IntendedKeeps` | day3/src/main.rs:92-96 | the intended CO2 rule keeps 01 and 00 on the shared bit, then takes 00 on the tie |
| `Day03.RowBoundStopsEarly` | day3/src/main.rs:83 | two three-bit rows 000 and 001 are both still candidates after two columns, the third deciding for 001 |
| `Day03.RowBoundPanics` | day3/src/main.rs:83-88 | two equal one-bit rows make the search index a second, absent column |
| `Day04.BingoBoardBuilder.constructor` | day4/src/bingo.rs:19-26 | a new builder is at row 0 with no numbers and every (total, marked) pair (0, 0) |
| `Day04.BingoBoardBuilder.FillRow` | day4/src/bingo.rs:45-53 | each number maps to (current row, its column), its row and column totals grow by it, and the row counter advances by one |
| `Day04.PlaceContents` | day4/src/main.rs:50-58 | after a row is filled a number is on the board iff it was before or is in the row; a row number sits on that row in a column that holds it |
| `Day04.FillBalanced` | day4/src/main.rs:50-58 | filling a row adds its sum to both the row totals and the column totals; marked sums are untouched |
| `Day04.BingoBoardBuilder.Build` | day4/src/bingo.rs:28-43 | gives a board exactly when five rows were filled; the board has not won and carries the builder's cells and sums |
| `Day04.ReadRowsIff` | day4/src/bingo.rs:56-81 | the reader skips empty lines and succeeds exactly when five non-empty lines remain; otherwise it consumes all lines |
| `Day04.TryFrom` | day4/src/main.rs:64-86 | `try_from` builds the board of the next five non-empty lines, or reports `InvalidData` when the lines run out |
| `Day04.BingoBoard.Mark` | day4/src/bingo.rs:84-113 | marking follows `MarkValue`: no effect on a won board or an unknown number; otherwise the number joins its row's and column's marked sums and a completed row or column latches `won` and scores (column totals - marked) * number |
| `Day04.MarkBalanced` | day4/src/main.rs:90-103 | a mark adds the number to the marked sum of the number's own row and of its own column, leaves every other row and column and every total as it was, and keeps marked and total sums balanced; won boards and unknown numbers change nothing |
| `Day04.WonStaysSilent` | day4/src/bingo.rs:91-92 | a board that has won answers None to every later number and stays unchanged |
| `Day04.WinsOnce` | day4/src/bingo.rs:102 | over any sequence of drawn numbers a board reports a score at most once |
| `Day04.ReadGuesses` | day4/src/main.rs:115-119 | None exactly when no line is left |
| `Day04.GuessesRoundTrip` | day4/src/main.rs:115-119 | numbers written comma-separated on one line are read back unchanged |
| `Day06.SimulateGrowth` | day6/src/main.rs:3-26 | the result is the sum of the histogram after `days` applications of the daily update to the initial histogram |
| `Day06.NextDay` | day6/src/main.rs:11-21 | one day: new[i-1] = old[i] for i in 1..8, then old[0] added to new[6] and new[8] |
| `Day06.HistogramCounts` | day6/src/main.rs:4-7 | entry a of the initial histogram is the number of fish with timer a |
| `Day06.HistogramSize` | day6/src/main.rs:4-7 | the initial histogram holds every fish once |
| `Day06.DayGrowth` | day6/src/main.rs:13-21 | the population after a day is the one before plus the fish at timer 0 |
| `Day06.NoDays` | day6/src/main.rs:9-25 | with zero days the result is the number of fish given |
| `Day06.GrowthStep` | day6/src/main.rs:9-25 | each further day adds the fish at timer 0, so the population never decreases |
| `Day05.YAxisOverlap` | day5/src/main.rs:21-33 | true iff one of the other vent's y endpoints lies between this vent's two y values, in either order |
| `Day05.Orientation` | day5/src/main.rs:35-43 | Vertical iff the x values are equal (checked first), Horizontal iff only the y values are equal, Diagonal otherwise |
| `Day05.OrderedPositions` | day5/src/main.rs:45-56 | the bounding box corners: lower corner <= upper corner on both axes, each axis holding exactly the two endpoint values |
| `Day05.Walk` | day5/src/main.rs:66-76 | the coordinates from `from` to `to` one by one (reversed range when descending), the distance between them plus one of them |
| `Day05.StraightPoints` | day5/src/main.rs:62-64 | a horizontal or vertical vent lists its max - min + 1 cells in ascending order, and a cell is listed iff it lies on the segment |
| `Day05.DiagonalPoints` | day5/src/main.rs:65-79 | a diagonal vent starts at its start point and steps by one on both axes towards its end; a 45-degree vent has one more cell than its horizontal extent and ends at its end point |
| `Day05.PointsInBox` | day5/src/main.rs:58-81 | every listed cell lies in the vent's bounding box |
| `Day05.ParseVent` | day5/src/main.rs:87-111 | a line without " -> " is malformed; a side with a comma piece that is not a usize is an invalid number; otherwise the line parses exactly when both sides hold at least two numbers, and the vent runs from the first two numbers of the left side to the first two of the right |
| `Day05.ParseWritten` | day5/src/main.rs:87-111 | a vent written "x1,y1 -> x2,y2" parses back to the same vent |
| `Day05.MaxCoord` | day5/src/main.rs:186-187 | the maximum bounds every endpoint coordinate on its axis |
| `Day05.AllPointsInGrid` | day5/src/main.rs:189-196 | every vent cell lies in the grid spanned by the maximal coordinates, so the board indexing stays in bounds |
| `Day05.GridCountsDangerous` | day5/src/main.rs:198-201 | counting grid cells with more than one vent cell counts exactly the cells covered at least twice |
| `Day05.MarkVents` | day5/src/main.rs:192-196 | after the loop each board cell holds the number of vent cells (with repetition) on it |
| `Day05.CountDangerous` | day5/src/main.rs:198-201 | the row-by-row count of board cells above one |
| `Day05.OverlappingVentsBrute` | day5/src/main.rs:185-205 | the result is the number of cells covered by at least two vent cells; 0 for no vents |
| `Day07.LinearFuelCost` | day7/src/main.rs:40-42 | the cost is non-negative, zero exactly when crab and target coincide, and equals crab - target or target - crab, whichever is not below the other |
| `Day07.LinearCostSymmetric` | day7/src/main.rs:40-42 | moving from a to b costs what moving from b to a costs |
| `Day07.TriangleClosedForm` | day7/src/main.rs:47-49 | twice 1 + 2 + ... + n is (1 + n) * n, the identity behind the closed form |
| `Day07.IncreasingFuelCost` | day7/src/main.rs:44-53 | the cost of moving d steps, d the distance between crab and target, is 1 + 2 + ... + d, zero exactly when crab and target coincide |
| `Day07.OptimalCrabAlignmentGeneric` | day7/src/main.rs:19-38 | the result is a target p in 0..=max with its total fuel c; no target in 0..=max costs less and every earlier target costs more (the first minimum wins) |
| `Day07.FirstMinimum` | day7/src/main.rs:33-37 | `min_by_key` over the enumerated costs returns the index of the first smallest cost |
| `Day07.PartitionPivot` | day7/src/main.rs:55-70 | the pivot value ends at the returned offset p, everything before it is at most the pivot, everything after it larger, the slice is a permutation of itself and the rest of the array is untouched |
| `Day07.Swap` | day7/src/main.rs:57 | `slice.swap` exchanges two entries and keeps the slice's elements |
| `Day07.PartitionRound` | day7/src/main.rs:88-92 | after partitioning the search slice the array is still a permutation of the collection and splits (all before <= all after) at the slice ends and on both sides of the pivot |
| `Day07.Select` | day7/src/main.rs:79-102 | the loop returns the k-th smallest value of the copy (the largest when k is past the end); it answers None only after using every pivot choice it was given |
| `Day07.FindKthElement` | day7/src/main.rs:72-105 | as written: with k = 0 the first element of the collection; with k > 0 the k-th smallest value (the largest for k >= n); None only once every pivot choice is used |
| `Day07.FindKthElementCorrected` | day7/src/main.rs:72-105 | without the early exit for k = 0 the result is the k-th smallest value for every k; None only once every pivot choice is used |
| `Day07.FirstIsNotSmallest` | day7/src/main.rs:80-82 | for [5, 1] the early exit's answer 5 is not the 0-th smallest value, which is 1 |
| `Day07.BelowPermutation` | day7/src/main.rs:74-75 | rank counts depend only on the multiset of elements, so working on a permuted copy keeps every order statistic |
| `Day07.RankOfSplit` | day7/src/main.rs:94-98 | an element with nothing larger before it and nothing smaller after it is the order statistic of its position |
| `Day07.KthOrdered` | day7/src/main.rs:118-121 | a smaller rank never has a larger value, so the lower middle element is at most the upper one |
| `Day07.HalfBetween` | day7/src/main.rs:123 | the truncating average of two ordered values lies between them |
| `Day07.MedianOptimal` | day7/src/main.rs:107-112 | a target with at least half the crabs at or below it and at least half at or above it has the least linear cost of all integer targets |
| `Day07.OptimalCrabAlignmentL1` | day7/src/main.rs:113-134 | the median target: the middle element for odd n, for even n the average, truncated towards zero, of the (n/2 - 1)-th and (n/2)-th smallest; its cost is the sum of the distances to the median, which no integer target beats |
| `Day07.GenericMatchesMedian` | day7/src/main.rs:113-134 | for non-negative positions the generic search with the linear cost reaches the same least fuel as the median |
| `Day08.AsciiOrd` | day8/src/notepad.rs:13-15 | for a letter from 'a' up to U+00FF the result is its offset from 'a'; below 'a' the byte subtraction underflows and the result is None |
| `Day08.CountUnique` | day8/src/notepad.rs:18-25 | the count of output words whose length is 2, 3, 4 or 7 never exceeds the number of words |
| `Day08.UniqueCountIsEasyDigits` | day8/src/notepad.rs:18-25 | when every output word shows a digit through some wiring, the count equals the number of words showing 1, 4, 7 or 8 |
| `Day08.CountEasy` | day8/src/notepad.rs:18-25 | counting by word length agrees with counting by digit whenever each word's length is unique exactly for an easy digit |
| `Day08.EasyWord` | day8/src/notepad.rs:19 | a word showing digit d has length 2, 3, 4 or 7 exactly when d is 1, 4, 7 or 8 |
| `Day08.SegmentsToDigit` | day8/src/notepad.rs:173-191 | a result d is below 10 and the input is the d-th canonical string; None (the panic) exactly for strings outside the ten canonical ones |
| `Day08.CanonicalSorted` | day8/src/notepad.rs:173-184 | each canonical string is sorted and maps back to its own digit |
| `Day08.SortChars` | day8/src/notepad.rs:160 | the sorted letters are in ascending order |
| `Day08.SortCharsPermutes` | day8/src/notepad.rs:160 | sorting keeps exactly the word's letters (a permutation) |
| `Day08.InsertPermutes` | day8/src/notepad.rs:160 | inserting a letter into a sorted word adds exactly that letter |
| `Day08.SortedUnique` | day8/src/notepad.rs:160-161 | two sorted words with the same letters are equal, so the sorted string depends only on the letters lit |
| `Day08.Translate` | day8/src/notepad.rs:155-158 | translation succeeds exactly when every letter indexes the wiring, and then yields the wiring's entry for each letter in order |
| `Day08.DecodedPermutation` | day8/src/notepad.rs:155-158 | words with the same letters translate to strings with the same letters |
| `Day08.FindsNine` | day8/src/notepad.rs:86-92 | among ten valid patterns the first six-letter pattern containing four's letters exists and shows 9 |
| `Day08.FindsSix` | day8/src/notepad.rs:94-97 | the first six-letter pattern not containing all of one's letters exists and shows 6 |
| `Day08.FindsZero` | day8/src/notepad.rs:99-102 | the first six-letter pattern other than six and nine exists and shows 0 |
| `Day08.FindByLength` | day8/src/notepad.rs:58-79 | the first pattern of length 2, 3, 4 or 7 exists and shows 1, 7, 4 or 8 respectively |
| `Day08.FoundA` | day8/src/notepad.rs:69-72 | the letter of seven absent from one is the wire of segment a |
| `Day08.FoundCDE` | day8/src/notepad.rs:109-122 | eight's letters absent from six, zero and nine are the wires of segments c, d and e |
| `Day08.FoundFB` | day8/src/notepad.rs:124-132 | one's letter other than c's wire is f's wire; four's letter outside c, d, f is b's wire |
| `Day08.SlotLeft` | day8/src/notepad.rs:142-145 | after a..f are written, the only slot still holding 'x' is the slot of g's wire |
| `Day08.FillSlots` | day8/src/notepad.rs:135-149 | writing a..f into the slots of the six found wires and g into the one left undoes the wiring |
| `Day08.UnscrambleCorrect` | day8/src/notepad.rs:27-150 | for the ten digits shown through any wiring, in any order, unscrambling succeeds and maps the wire of every segment back to that segment |
| `Day08.DecodeWord` | day8/src/notepad.rs:154-162 | through the recovered wiring, an output word showing digit d is read as d |
| `Day08.OutputSumCorrect` | day8/src/notepad.rs:164-170 | when every word reads as its digit, the sum from position pos is the decimal value of those digits at places 3 - pos, 2 - pos, ... |
| `Day08.TooManyWords` | day8/src/notepad.rs:168 | a fifth word makes 3 - pos underflow, so the sum is None (the panic) |
| `Day08.FourDigits` | day8/src/notepad.rs:164-170 | four digits at places 3, 2, 1, 0 give 1000 d0 + 100 d1 + 10 d2 + d3 |
| `Day08.OutputValueCorrect` | day8/src/notepad.rs:152-171 | for ten valid patterns and four output words showing d0..d3 through the same wiring, the value is the four-digit number d0 d1 d2 d3 |
| `Day08.TooManyOutputs` | day8/src/notepad.rs:164-170 | a note with more than four output words panics (None) |
| `Day08.ParseEntryFails` | day8/src/notepad.rs:198-216 | parsing fails exactly for a line without a bar separator |
| `Day08.ParseWrittenEntry` | day8/src/notepad.rs:198-216 | patterns and output words written on one line around a bar are parsed back unchanged |
| `Day09.NewHeightmap` | day9/src/main.rs:13-22 | an empty grid is an error, and only then; otherwise the height is the row count and the width the first row's length |
| `Day09.InBoundsOnly` | day9/src/main.rs:39-44 | the bounds filter keeps exactly the in-bounds candidates |
| `Day09.Neighbours` | day9/src/main.rs:31-45 | at most four cells, every one in bounds and orthogonally adjacent, and every in-bounds adjacent cell among them |
| `Day09.NeighbourSymmetric` | day9/src/main.rs:31-45 | q is a neighbour of p exactly when p is one of q |
| `Day09.LowPointTest` | day9/src/main.rs:50-53 | testing only the listed neighbours decides the low-point property over all adjacent cells |
| `Day09.ProductWhereSpec` | day9/src/main.rs:48-54 | the filtered cartesian product holds exactly the accepted cells, each once, ordered by x then y |
| `Day09.LowPointsSpec` | day9/src/main.rs:47-55 | the low points are exactly the cells strictly lower than all their neighbours, in cartesian-product order without repeats |
| `Day09.RiskBounds` | day9/src/main.rs:24-29 | every cell adds at least 1 and, for a digit height, at most 10 to the risk |
| `Day09.RiskLevelBounds` | day9/src/main.rs:24-29 | the risk level lies between the number of low points and ten times that number |
| `Day09.LowestIsLowPoint` | day9/src/main.rs:47-55 | a cell lower than every other cell is a low point |
| `Day09.FlatHasNoLowPoints` | day9/src/main.rs:47-55 | a map of equal heights with more than one cell has no low points |
| `Day09.CountGridSet` | day9/src/main.rs:66 | relabelling one cell moves one count from its old label to its new one |
| `Day09.Basins` | day9/src/main.rs:57-87 | one basin per low point, numbered 1, 2, ... in low-point order; each size is the number of cells labelled with its number and is at least 1; the low points carry their own labels; every labelled cell is its basin's low point or joined from a strictly lower neighbour of the same basin; no labelled cell has an unlabelled, higher, non-9 neighbour left; the sizes sum to at most the map's area |
| `Day09.NotLow` | day9/src/main.rs:74 | a cell taken in for being higher than its neighbour is never a low point, so no basin swallows another's low point |
| `Day09.JoinedKept` | day9/src/main.rs:76-79 | labelling a cell that joins a basin keeps every earlier labelled cell joined |
| `Day09.ClosedKept` | day9/src/main.rs:73-77 | labelling a cell never reopens a closed cell |
| `Day09.Grow` | day9/src/main.rs:70 | the open basin's size goes up by one and the total by one |
| `Day09.DigitToUsize` | day9/src/main.rs:90-104 | a digit character gives its value below 10, any other character the error naming it |
| `Day09.ParseRow` | day9/src/main.rs:112-113 | a line parses exactly when all its characters are digits, to their values in order |
| `Day09.ParseRows` | day9/src/main.rs:110-114 | the lines parse exactly when every line is all digits; then row k holds the digit values of line k, in order; otherwise the error names a non-digit character of some line |
| `Day09.ParseHeightmap` | day9/src/main.rs:109-117 | succeeds exactly for a non-empty text of digit lines, the grid's cell (k, i) being the value of the i-th digit of line k; the height is the line count and the width the first line's length; an empty text is the empty-heightmap error |
| `Day10.Partner` | day10/src/parser.rs:50-51 | every opening bracket's partner at the same table index is a closing bracket |
| `Day10.PartnerInjective` | day10/src/parser.rs:50-51 | different opening brackets have different partners |
| `Day10.NavigationLineParser.constructor` | day10/src/parser.rs:53-58 | a new parser holds the line and an empty bracket stack |
| `Day10.NavigationLineParser.Parse` | day10/src/parser.rs:60-93 | the loop returns what the bracket-by-bracket reading `Day10.Scan` of the line gives from the parser's stack: Corrupted at the first closer that meets an empty stack or the wrong opener, Err at a non-bracket character, otherwise Incomplete with the openers left |
| `Day10.ScanKeepsOpening` | day10/src/parser.rs:62-86 | only opening brackets are ever on the stack; a corrupting character is a closing bracket; a panicking one is no bracket |
| `Day10.ScanAppend` | day10/src/parser.rs:60-93 | the parse of u + v continues from the stack u leaves; a corrupted or panicking u decides the parse of u + v |
| `Day10.CorruptedAt` | day10/src/parser.rs:64-83 | a line corrupted by c has c at a position whose prefix parses incomplete with c not closing its innermost opener |
| `Day10.CorruptedBy` | day10/src/parser.rs:64-83 | an incomplete prefix followed by a closer that does not match its innermost opener corrupts the line, whatever follows |
| `Day10.FirstIllegal` | day10/src/parser.rs:13-19 | Some exactly for a corrupted result, holding its bracket |
| `Day10.CloserIsPartner` | day10/src/parser.rs:30-36 | the completion table agrees with the parser's bracket table on every opening bracket |
| `Day10.Closers` | day10/src/parser.rs:26-37 | one closer per open bracket, innermost first |
| `Day10.Completion` | day10/src/parser.rs:21-40 | None exactly for a corrupted result, otherwise the closers of the open brackets in reverse order |
| `Day10.ClosersClose` | day10/src/parser.rs:26-37 | reading the closers of open brackets pops exactly those brackets |
| `Day10.CompletionCompletes` | day10/src/parser.rs:21-40 | an incomplete line followed by its completion parses with nothing left open |
| `Day10.LineSyntaxScore` | day10/src/main.rs:12-19 | an incomplete line adds 0 |
| `Day10.CorruptedLineScore` | day10/src/main.rs:13-19 | a corrupted line adds 3, 57, 1197 or 25137 |
| `Day10.SyntaxScoreAppend` | day10/src/main.rs:7-21 | the syntax score of joined line lists is the sum of their scores |
| `Day10.ClosingValue` | day10/src/main.rs:31-37 | a completion character is worth at most 4 |
| `Day10.CompletionScoreDecodes` | day10/src/main.rs:30-40 | reading the fold's score back in base 5 gives the completion again |
| `Day10.CompletionScoreInjective` | day10/src/main.rs:30-40 | two completions with the same score are equal |
| `Day10.CompletionClosing` | day10/src/parser.rs:26-37 | the completion of an incomplete line consists of closing brackets |
| `Day10.ScoresFailTogether` | day10/src/main.rs:7-42 | both totals panic on exactly the same inputs, at the same character |
| `Day10.Insert` | day10/src/main.rs:44 | inserting into an ascending list gives an ascending list with one more element, holding the same values plus the new one |
| `Day10.Sort` | day10/src/main.rs:44 | the result is ascending, of the same length and with the same values |
| `Day10.SortCount` | day10/src/main.rs:44 | sorting keeps the number of elements with any property |
| `Day10.SortedRank` | day10/src/main.rs:45 | in an ascending list at most k elements lie below the k-th and at most len - 1 - k above it |
| `Day10.AutocompletionIsMedian` | day10/src/main.rs:23-46 | it panics exactly when no line is incomplete; otherwise it is one of the scores, with at most half the scores below it and at most half above |
| `Day11.DigitValue` | day11/src/main.rs:21 | a value below 256 that is the digit's value for the characters 0 to 9 |
| `Day11.ParseGrid` | day11/src/main.rs:14-25 | a 10 x 10 board |
| `Day11.ParseDigits` | day11/src/main.rs:14-25 | for ten lines of ten digits each cell holds its digit's value, between 0 and 9 |
| `Day11Octopus.OctopusGrid.constructor` | day11/src/main.rs:14-25 | the new board holds `ParseGrid` of the input: the first ten characters of the first ten lines, 0 elsewhere |
| `Day11.KeepAroundKeeps` | day11/src/main.rs:90-97 | the filter keeps exactly the candidates on the board other than the centre, each once, and no more of them |
| `Day11.CandidatesCover` | day11/src/main.rs:86-89 | the nine offsets give nine different cells, the centre fifth, covering every cell around the centre |
| `Day11.NeighboursDistinct` | day11/src/main.rs:85-98 | at most eight neighbours, none listed twice |
| `Day11.NeighboursAround` | day11/src/main.rs:85-98 | every neighbour is on the board and at most one step away on each axis, and is not the cell itself |
| `Day11.NeighboursComplete` | day11/src/main.rs:85-98 | every board cell around the cell is a neighbour |
| `Day11.NeighbourSymmetric` | day11/src/main.rs:85-98 | q is a neighbour of p exactly when p is a neighbour of q |
| `Day11.FlashedAdd` | day11/src/main.rs:62-63 | one more flashed cell raises exactly its neighbours' flash counts, by one |
| `Day11Octopus.OctopusGrid.IncrementAll` | day11/src/main.rs:45-49 | every level goes up by one |
| `Day11Octopus.OctopusGrid.FlashPositions` | day11/src/main.rs:51-54 | each cell at 10 or more exactly once, and no other cell |
| `Day11Octopus.OctopusGrid.RaiseNeighbours` | day11/src/main.rs:62-68 | the loop leaves the levels, `already_flashed` and the work list as `Day11.RaiseAll` raises the neighbours one by one, flagging and pushing each that reaches 10 for the first time |
| `Day11.RaiseAllKeeps` | day11/src/main.rs:62-68 | raising the neighbours of a popped cell keeps the loop state: levels are the incremented ones plus one per flashed neighbour, the flagged cells are those at 10 or more, each justified by earlier flags, and the work list holds the flagged cells not yet popped |
| `Day11.FlashRound` | day11/src/main.rs:59-69 | popping a cell and raising its neighbours takes one loop state to the next, with one more flashed cell, never more than 100 |
| `Day11.Settled` | day11/src/main.rs:59-69 | once the work list is empty every flagged cell flashed, and the flagged set is a fixed point: a cell is in it exactly when its incremented level plus its flashed neighbours reaches 10 |
| `Day11Octopus.OctopusGrid.Cascade` | day11/src/main.rs:56-69 | the flash loop ends with a justified fixed point of the flash rule, each cell raised by its flashed neighbours, and counts one flash per flagged cell, at most 100 |
| `Day11.LeastFlashSet` | day11/src/main.rs:56-69 | the cells flagged in a justified order lie inside every set closed under the flash rule |
| `Day11.FlashSetUnique` | day11/src/main.rs:56-69 | two justified fixed points are the same set, so the flashed set does not depend on the order of the work list |
| `Day11Octopus.OctopusGrid.ResetFlashed` | day11/src/main.rs:71-73 | the flashed cells go to 0 and nothing else changes |
| `Day11.StepPhases` | day11/src/main.rs:42-76 | increment, flash and reset together make one step of the board |
| `Day11Octopus.OctopusGrid.Step` | day11/src/main.rs:42-76 | the new board and the returned count are one step of the old board, with at most 100 flashes |
| `Day11.StepDeterministic` | day11/src/main.rs:42-76 | a board has one next board and one flash count |
| `Day11.AfterStepBounded` | day11/src/main.rs:42-76 | after a step the flashed cells are exactly those at 0 that reached 10, and every level is at most 9 |
| `Day11.RunDeterministic` | day11/src/main.rs:104 | runs of the same length from the same board agree on every board and every count |
| `Day11.SumBound` | day11/src/main.rs:104-108 | k steps flash at most 100 k times |
| `Day11Octopus.OctopusGrid.FlashesOver` | day11/src/main.rs:104-108 | the total is the sum of the counts of a run of the given number of steps from the old board to the new one |
| `Day11Octopus.OctopusGrid.SynchronizedStep` | day11/src/main.rs:78-83 | Some(k) exactly when step k is the first to flash all 100 octopuses; None when none of the first `limit` steps does |
| `Day12.ParseCave` | day12/src/main.rs:23-30 | "start" and "end" give the two end caves; any other name is small exactly when it has no capital letter A to Z, big otherwise, and keeps its name |
| `Day12.LowerFixed` | day12/src/main.rs:27 | a name equals its ASCII lower-case form exactly when it has no capital letter |
| `Day12.CaveRoundTrip` | day12/src/main.rs:23-30 | parsing the name of any cave parsing can produce gives that cave back |
| `Day12.CaveKinds` | day12/src/main.rs:34-49 | a parsed cave may be re-entered exactly when its name has a capital and is not reserved, is small exactly when it has none, and is never both |
| `Day12.ParsePassage` | day12/src/main.rs:59-67 | a line is a passage exactly when splitting it at '-' gives a second piece; the two pieces parsed are its ends, otherwise the error names the input |
| `Day12.PassagesMeaning` | day12/src/main.rs:58-74 | reading the lines fails exactly when some line has no '-', with the second-cave error; otherwise it yields one passage per line, in order |
| `Day12.PassagesStep` | day12/src/main.rs:58-74 | one more well-formed line appends its passage |
| `Day12.PassagesFail` | day12/src/main.rs:64-66 | one line without '-' makes the whole input an error |
| `Day12.AdjacencyStep` | day12/src/main.rs:69-73 | a passage read last adds b to a's list and a to b's list of the system built so far |
| `Day12.LinkAdds` | day12/src/main.rs:69-73 | linking a-b adds entries for a and b and lists b for a and a for b, and nothing else |
| `Day12.AdjacencyKeys` | day12/src/main.rs:55-77 | the system has an entry for a cave exactly when some passage ends there |
| `Day12.AdjacencyLists` | day12/src/main.rs:55-77 | a cave's list holds exactly the caves joined to it by some passage, in either direction |
| `Day12.AdjacencySymmetric` | day12/src/main.rs:69-73 | if b is listed for a then a has an entry and b's list holds a |
| `Day12.AdjacencyClosed` | day12/src/main.rs:55-77 | every cave in any list has its own entry, so the searches never index a missing key below the start |
| `Day12.ParseSystem` | day12/src/main.rs:55-77 | the loop over the lines yields the system built from all passages, or the second-cave error of the first line lacking '-' |
| `Day12.Ranked` | day12/src/main.rs:89-99 | entering a cave that is not used lowers the number of unused caves unless the cave is big |
| `Day12.Enter` | day12/src/main.rs:94-99 | entering an admissible neighbour is a smaller search and leaves the used set as it was; a used small cave is already counted as used |
| `Day12.Visited.constructor` | day12/src/main.rs:150-154 | the used set starts empty |
| `Day12.DepthFirst` | day12/src/main.rs:81-107 | returns the number of walks `Paths` gives from the cave with the used set on entry, and leaves the used set as on entry without the cave |
| `Day12.DepthFirstStep` | day12/src/main.rs:94-100 | one pass of the loop adds the walks through the i-th neighbour, none through the start or a used cave, and restores the used set |
| `Day12.DepthFirstTwice` | day12/src/main.rs:109-148 | returns the count `Twice` gives, and leaves the used set as on entry without the cave, or with it when it is the cave being visited twice |
| `Day12.DepthFirstTwiceStep` | day12/src/main.rs:124-135 | one pass of the loop adds the second visit of a used small cave while none was made and the walks through an unused neighbour, and restores the used set |
| `Day12.WalksCounted` | day12/src/main.rs:81-107 | `depth_first` counts exactly one per enumerated walk |
| `Day12.WalksSound` | day12/src/main.rs:81-107 | every enumerated walk goes from the cave along passages to the end cave, never back to the start, never into a used cave, never twice into a cave that is not big |
| `Day12.WalksComplete` | day12/src/main.rs:81-107 | every such walk is enumerated |
| `Day12.Extend` | day12/src/main.rs:94-99 | a walk from an admissible neighbour with the cave put in front is a walk from the cave |
| `Day12.Shorten` | day12/src/main.rs:94-99 | a walk from a cave other than the end continues with a walk from an admissible neighbour |
| `Day12.SpentTwice` | day12/src/main.rs:109-148 | after a second visit has been made, `depth_first_twice` counts exactly what `depth_first` counts |
| `Day12.TwiceCovers` | day12/src/main.rs:109-148 | allowing one second visit never counts fewer walks than `depth_first` |
| `Day12.WalksTwiceCounted` | day12/src/main.rs:109-148 | `depth_first_twice` counts exactly one per enumerated part-two walk |
| `Day12.WalksTwiceSound` | day12/src/main.rs:109-148 | every enumerated part-two walk goes from the cave along passages to the end cave, never back to the start, and makes at most one revisit (a step into a used cave or into a cave that is not big and was entered before), only into a small cave and only while no second visit was made |
| `Day12.WalksTwiceComplete` | day12/src/main.rs:109-148 | every such part-two walk is enumerated |
| `Day12.ExtendTwice` | day12/src/main.rs:124-135 | a part-two walk from a neighbour, entered new or entered as the one revisit, with the cave put in front is a part-two walk from the cave |
| `Day12.ShortenTwice` | day12/src/main.rs:124-135 | a part-two walk from a cave other than the end continues with a part-two walk from its second cave, with the second visit made exactly when that cave is the revisit |
| `Day12.WalkIsWalkTwice` | day12/src/main.rs:109-148 | every part-one walk is a part-two walk, so part two counts every walk part one counts |
| `Day12.PathsCount` | day12/src/main.rs:150-154 | the count from the start cave with nothing used, or None when the start cave has no entry and the lookup panics |
| `Day12.PathsCountSmallTwice` | day12/src/main.rs:156-160 | the part-two count from the start cave with no second visit made, or None when the start cave has no entry |
| `Day13.ParseFold` | day13/src/main.rs:22-41 | a line without the "fold along " prefix is a missing-prefix error; a parsed fold line is a `usize` |
| `Day13.FoldRoundTrip` | day13/src/main.rs:22-41 | reading "fold along x=n" or "fold along y=n" gives the fold along that axis at n |
| `Day13.ParseDot` | day13/src/main.rs:97-107 | a parsed dot has two `usize` coordinates |
| `Day13.DotRoundTrip` | day13/src/main.rs:97-107 | reading "x,y" gives the dot (x, y) |
| `Day13.ParsePage` | day13/src/main.rs:85-112 | the loop over the lines pushes folds and dots as `ParseLines` reads them, and returns the first error |
| `Day13.ParseFails` | day13/src/main.rs:89-109 | once a line fails, the lines after it do not change the result |
| `Day13.ReadLine` | day13/src/main.rs:89-109 | the last line is read into the page given by the lines before it |
| `Day13.AddDotLine` | day13/src/main.rs:97-107 | a dot line written out appends its dot and leaves the folds alone |
| `Day13.AddFoldLine` | day13/src/main.rs:94-95 | a fold line written out appends its fold and leaves the dots alone |
| `Day13.ReadDots` | day13/src/main.rs:89-109 | lines of dots read back to the same dots, in order |
| `Day13.ReadFolds` | day13/src/main.rs:89-109 | lines of folds after a read page append the same folds, in order |
| `Day13.PageRoundTrip` | day13/src/main.rs:85-112 | the lines of a page (dots, a blank line, folds) read back to that page |
| `Day13.Translate` | day13/src/main.rs:116-137 | a dot on or before the line stays; one beyond it moves to its mirror image on the other side; the other coordinate is unchanged; None exactly when the subtraction underflows |
| `Day13.TranslateIdempotent` | day13/src/main.rs:116-137 | folding a folded dot again along the same line leaves it where it is |
| `Day13.TranslateMirror` | day13/src/main.rs:120-135 | a dot and its mirror image across the line land on the same dot |
| `Day13.TranslateShrinks` | day13/src/main.rs:120-135 | a fold never moves a dot right or down |
| `Day13.FoldDotAppend` | day13/src/main.rs:146-148 | folding along a list of folds then another is folding along their concatenation |
| `Day13.FoldDotShrinks` | day13/src/main.rs:146-148 | folding never moves a dot right or down |
| `Day13.FoldDotWithin` | day13/src/main.rs:146-148 | after the folds a dot lies on or before every fold line of its axis |
| `Day13.FoldEach` | day13/src/main.rs:141-151 | one folded dot per dot, in order, each the dot folded along the folds; None exactly when some dot's fold panics |
| `Day13.Taken` | day13/src/main.rs:146 | the first `count` folds, or all of them when the count is None or too large |
| `Day13.FinalDotsOrder` | day13/src/main.rs:141-151 | the final dots keep the number and order of the dots and are each folded along the taken folds |
| `Day13.CountDots` | day13/src/main.rs:153-157 | the number of distinct final dots: at most the number of dots, at least one when there are dots |
| `Day13.SetOfSize` | day13/src/main.rs:153-157 | a sequence has at most as many distinct elements as it is long, and one at least when not empty |
| `Day13.MirrorsMerge` | day13/src/main.rs:141-157 | two dots that mirror each other across the first fold end up as one dot |
| `Day14.ParseRule` | day14/src/main.rs:16-44 | a line without " -> " is an error; a parsed rule's pair is the line's first two characters |
| `Day14.RuleSides` | day14/src/main.rs:16-44 | for `p -> q`: an empty `p` fails on the first element, a one-character `p` on the second, an empty `q` on the product; otherwise the rule is `p[0] p[1] -> q[0]` and the rest is ignored |
| `Day14.RuleRoundTrip` | day14/src/main.rs:16-44 | a rule written as `AB -> C` reads back as the same rule |
| `Day14.RuleWithoutArrow` | day14/src/main.rs:17-23 | a line with no arrow fails for want of a product |
| `Day14.Tracked` | day14/src/main.rs:83-87 | only pairs that have a rule are ever tracked |
| `Day14.TrackedListCounts` | day14/src/main.rs:83-87 | a pair with a rule is counted once per occurrence among the adjacent pairs; a pair without one is not counted |
| `Day14.TrackedPairs` | day14/src/main.rs:83-87 | counting `consecutive_pairs` one by one gives the adjacent pairs of the polymer that have a rule |
| `Day14.CountElements` | day14/src/main.rs:77-80 | the initial element counts are the occurrences of each element in the polymer |
| `Day14.CountProducingPairs` | day14/src/main.rs:81-87 | the initial pair counter holds each adjacent pair with a rule as often as it occurs |
| `Day14.VisitPair` | day14/src/main.rs:91-106 | a pair AB with count n adds n to its product C, and n to AC and to CB, each only when that pair has a rule |
| `Day14.StepCounters` | day14/src/main.rs:89-108 | one step, in any order of the pairs: the element counter gains the products of all tracked pairs, the new pair counter is what they turn into, and the total count grows by the number of tracked pairs |
| `Day14.StepTotal` | day14/src/main.rs:97 | each tracked pair adds exactly one element, so a step adds as many elements as there are tracked pairs |
| `Day14.GrowElements` | day14/src/main.rs:89-108 | the counters follow the polymer itself: the elements of the polymer after one insertion step are the old ones plus the products of the tracked pairs |
| `Day14.GrowPairs` | day14/src/main.rs:89-108 | the tracked pairs of the polymer after one step are exactly the AC/CB pairs the old tracked pairs turn into |
| `Day14.SimulatePolymerisation` | day14/src/main.rs:72-126 | after `steps` steps the answer is the most common count minus the least common count of the polymer grown by `steps` insertion steps; an empty polymer has no answer (the program panics) |
| `Day14.Extremes` | day14/src/main.rs:110-125 | the largest count minus the smallest over a non-empty counter; None for an empty one |
| `Day14.SpreadUnique` | day14/src/main.rs:110-125 | the difference between the most and least common counts is one number, whatever elements hold them |
| `Day15.RiskOf` | day15/src/main.rs:66 | a digit character gives its value; a character below '0' makes the byte subtraction underflow (None) |
| `Day15.RowValues` | day15/src/main.rs:65-67 | the values exist exactly when every character has one, and then there is one value per character, in order |
| `Day15.RowOf` | day15/src/main.rs:59-68 | a row that parses has exactly the map's width |
| `Day15.Rows` | day15/src/main.rs:64-68 | the rows parse exactly when every line does; each row is that line's row and has the map's width |
| `Day15.CaveMapOf` | day15/src/main.rs:53-75 | a parsed map is well formed (height = number of lines, at least one, every row as wide as the first line); an empty text gives None |
| `Day15.ParseCaveMap` | day15/src/main.rs:53-75 | the grid of 10s overwritten line by line is the map `CaveMapOf` describes, with the same failures |
| `Day15.FillRow` | day15/src/main.rs:65-67 | overwriting a row of 10s character by character gives that line's row, None on a character below '0' or past the first line's width |
| `Day15.RowsSnoc` | day15/src/main.rs:64-68 | the rows of one more line are the earlier rows followed by that line's row |
| `Day15.RowsFail` | day15/src/main.rs:64-68 | once a line fails the whole text fails |
| `Day15.DigitRow` | day15/src/main.rs:59-68 | a line of digits no wider than the map gives the digit values, the columns past its end keeping 10 |
| `Day15.NeighboursSpec` | day15/src/main.rs:85-112 | the neighbours are exactly the cells next to (x, y) horizontally or vertically that lie inside the cave of max_x·multiplier by max_y·multiplier |
| `Day15.NeighboursDistinct` | day15/src/main.rs:101-111 | at most four neighbours, none listed twice |
| `Day15.CostInRange` | day15/src/main.rs:114-128 | with every level of the map in 1..9, every cell of the full cave has a level in 1..9 |
| `Day15.CostNextTileRight` | day15/src/main.rs:117-127 | one tile to the right every level is one higher, 9 wrapping round to 1 |
| `Day15.CostNextTileDown` | day15/src/main.rs:117-127 | one tile down every level is one higher, 9 wrapping round to 1 |
| `Day15.SquareAgrees` | day15/src/main.rs:114-128 | on a square map the written `cost_of` (column modulo the height) equals the intended one |
| `Day15.WrongColumn` | day15/src/main.rs:120 | on the map "12" (one row, two columns) the written `cost_of` gives 2 at (3, 0), where the intended level is 3 |
| `Day15Search.Pop` | day15/src/main.rs:18-35 | `pop` yields a point that no point of the heap is greater than under the reversed cost order, i.e. a cheapest one, and removes one copy of it |
| `Day15Search.LowestRiskLevel` | day15/src/main.rs:130-155 | None exactly when the map has no columns (the target's `max_x * multiplier - 1` underflows); otherwise, when the bottom-right cell is reachable, the lowest total risk of a route to it (the risk of each cell entered, the start not counted), and usize::MAX when it is not |
| `Day15Search.Offer` | day15/src/main.rs:146-151 | the `for_each` pushes exactly `Pushed` (one point per unused neighbour) and marks every neighbour used |
| `Day15Search.PushedSpec` | day15/src/main.rs:146-151 | each pushed point is for a neighbour not used before, at the popped cost plus that cell's level, pushed once; every unused neighbour is pushed |
| `Day15Search.Started` | day15/src/main.rs:131-134 | the heap holding Point(0, 0, 0) and `used` = {(0, 0)} satisfy the search invariant |
| `Day15Search.Frontier` | day15/src/main.rs:141-152 | a route to a cell not yet popped passes a point in the heap that costs no more than the route |
| `Day15Search.Detour` | day15/src/main.rs:146-151 | a route to a cell first reached from the popped point costs at least the popped cost plus the cell's level, so the first push of a cell already carries its lowest risk |
| `Day15Search.Found` | day15/src/main.rs:141-144 | when the target is popped its cost is the lowest risk of any route to it |
| `Day15Search.Drained` | day15/src/main.rs:141-154 | when the heap runs empty the target cannot be reached |
| `Day15Search.Expand` | day15/src/main.rs:141-152 | one pop-and-push round keeps the invariant: the used cells are those with a point pushed, each unpopped used cell has exactly one point in the heap, each pushed cost is the risk of a route to its cell and no route is cheaper, and points leave the heap in order of cost |
| `Day15Search.PointsKept` | day15/src/main.rs:141-151 | after a round every heap point stands, once, for a used cell not popped, at the cost recorded for it |
| `Day15Search.CellsKept` | day15/src/main.rs:141-151 | after a round every used cell not popped still has its point in the heap |
| `Day15Search.PoppedInOrder` | day15/src/main.rs:141 | every popped cell, the new one included, was pushed no dearer than the point just popped |
| `Day15Search.PushedInOrder` | day15/src/main.rs:141-151 | every point left in the heap or pushed in the round costs at least as much as the point just popped |
| `Day15Search.Fewer` | day15/src/main.rs:141 | each round pops a cell that was not popped before, so the loop ends |
| `Day15Search.CornerRoute` | day15/src/main.rs:85-112 | the route along the top row and down the last column reaches any cell of the cave |
| `Day15Search.TargetReachable` | day15/src/main.rs:154 | the bottom-right cell is always reachable, so the usize::MAX return is never taken |
| `Day16.NibbleOf` | day16/src/main.rs:214-220 | a digit gives its value and 'A'..'F' give 10..15; any other character gives its byte less 'A' plus 10, and None (the underflow panic) when that byte is below 'A' |
| `Day16.HexDigit` | day16/src/main.rs:214-220 | the upper-case digit written for a value below 16 reads back as that value |
| `Day16.HexStream` | day16/src/main.rs:205-240 | a text of hexadecimal digits yields four bits per digit, most significant first, and ends intact |
| `Day16.Take` | day16/src/main.rs:66-88 | reading `len` bits gives a value below 2^len and leaves the stream after those bits; it fails exactly when the stream breaks before `len` bits are read |
| `Day16.TakeCons` | day16/src/main.rs:69-73 | the first bit read weighs 2^(len-1) and the other len-1 bits are read from what follows it |
| `Day16.TakeBitsOf` | day16/src/main.rs:66-88 | a value below 2^len written in `len` bits reads back as itself, leaving the bits after it |
| `Day16.Read` | day16/src/main.rs:66-88 | a read leaves a suffix of the stream, shorter when the value is not 0, and fails only with BadHexDigit |
| `Day16.Groups` | day16/src/main.rs:90-102 | the 5-bit groups up to the first whose leading bit is 0 give at least one value below 16 each and leave a suffix of the stream |
| `Day16.ShiftedIsHexadecimal` | day16/src/main.rs:104-111 | combining nibble i shifted left by 4·(n-1-i) bits gives the base-16 value of the nibbles, which is below 16^n |
| `Day16.Literal` | day16/src/main.rs:90-111 | a literal that reads is at most usize::MAX and leaves a suffix of the stream |
| `Day16.LiteralRoundTrip` | day16/src/main.rs:90-111 | any value up to usize::MAX, written as 5-bit groups of its digits, reads back as itself, leaving the bits after it |
| `Day16.GroupsOfLiteral` | day16/src/main.rs:93-102 | groups written with the leading bit set on all but the last read back as their nibbles, stopping after the last group |
| `Day16.Digits` | day16/src/main.rs:104-111 | the base-16 digits of a value are at least one, each below 16, and read back as the value |
| `Day16.DigitsFit` | day16/src/main.rs:104-111 | a value below 16^k has at most k digits, so a usize needs at most 16 groups |
| `Day16.OperatorOf` | day16/src/main.rs:175-188 | a type id names an operation exactly when it is below 8 and not 4 |
| `Day16.OperatorIds` | day16/src/main.rs:175-188 | an id names an operation exactly when it is that operation's id: no two ids share an operation and no id names two |
| `Day16.ParsePacket` | day16/src/main.rs:12-64 | a packet that parses leaves a suffix of the stream and has a 3-bit version and literals that fit a usize |
| `Day16.ParseOperator` | day16/src/main.rs:24-61 | an operator that parses is an operator payload whose subpackets are all bounded, leaving a suffix of the stream |
| `Day16.ParseSpan` | day16/src/main.rs:28-37 | the subpackets of a bit-length operator are bounded and leave a suffix of the stream |
| `Day16.ParseCount` | day16/src/main.rs:47-57 | a count-mode operator that parses has exactly `count` subpackets, all bounded, leaving a suffix of the stream |
| `Day16.Decode` | day16/src/main.rs:156-161 | a decoded packet has 3-bit versions and literals that fit a usize |
| `Day16.EncodeParse` | day16/src/main.rs:12-64 | any writable packet, written out in either length mode, parses back as itself and leaves the bits that follow it |
| `Day16.EncodeParseOperator` | day16/src/main.rs:24-61 | an operator's length mode, length and subpackets parse back as its payload |
| `Day16.MaxOf` | day16/src/main.rs:127-130 | the maximum is one of the values and no value exceeds it |
| `Day16.MinOf` | day16/src/main.rs:131-134 | the minimum is one of the values and no value is below it |
| `Day16.ProductChecked` | day16/src/main.rs:126 | the usize product is the product exactly when no running product overflows, and Overflow otherwise |
| `Day16.Apply` | day16/src/main.rs:124-150 | sum and product give the total and the product, or Overflow past usize::MAX; maximum and minimum fail exactly on no operands; each comparison fails exactly with fewer than two operands and is 1 exactly when its relation holds between the first two, otherwise 0; a result from operands that fit a usize fits one |
| `Common.Collect` | day16/src/main.rs:119-122 | all values exactly when every operand evaluates, in order; otherwise the first error |
| `Day16.Evaluate` | day16/src/main.rs:114-153 | the value of a bounded packet fits a usize |
| `Day16.EvaluateMeans` | day16/src/main.rs:114-153 | a value the evaluation returns is what the packet means in unbounded arithmetic, and it fails with anything but Overflow only where the packet means nothing |
| `Day16.ApplyMeans` | day16/src/main.rs:124-150 | applying an operation agrees with its arithmetic meaning, apart from overflow |
| `Day16.Versions` | day16/src/main.rs:243-251 | a packet's own version comes first among the versions it contains |
| `Day16.VersionSumOfVersions` | day16/src/main.rs:243-251 | `version_sum` adds up every version in the packet, each once |
| `Day16Bits.Step` | day16/src/main.rs:230-240 | a step yields a bit exactly when bits are left, and that bit is the first of them; it panics exactly when none are left and the stream is broken |
| `Day16Bits.BitsIter.constructor` | day16/src/main.rs:205-212 | a fresh iterator has the text's bits still to come and has processed none |
| `Day16Bits.BitsIter.Next` | day16/src/main.rs:230-240 | `next` yields what a step of the pending bits yields and leaves the rest; processed plus pending bits stay the same |
| `Day16Bits.NibbleBit` | day16/src/main.rs:236 | `current >> (3 - bit_idx) & 1` is the next of the nibble's four bits, most significant first |
| `Day16Bits.ReadTo` | day16/src/main.rs:66-88 | the loop over `take(len)` reads what `Take` reads from the pending bits and leaves the rest pending; on a broken stream it panics (BadHexDigit) exactly when `Take` fails |
| `Day16Bits.ReadStep` | day16/src/main.rs:69-73 | one turn of the loop keeps the running read in step with `Take`; at the end of the text the result so far is the read, on a broken stream the read fails |
| `Day16Bits.ReadLiteral` | day16/src/main.rs:90-112 | the loop over 5-bit groups and the fold compute `Literal` of the pending bits, with the same errors |
| `Day16Bits.ShiftFold` | day16/src/main.rs:104-111 | the fold gives the shifted nibbles combined, and ShiftOverflow exactly when there are more than 16 of them |
| `Day16Bits.Parse` | day16/src/main.rs:12-64 | `parse` on the iterator returns what `ParsePacket` returns on the pending bits, with the same errors, and leaves the bits after the packet pending |
| `Day16Bits.ReadOperator` | day16/src/main.rs:24-61 | the operator arm returns what `ParseOperator` returns on the pending bits, with the same errors |
| `Day16Bits.ReadBySpan` | day16/src/main.rs:28-37 | the `processed_bits` loop collects what `ParseSpan` collects, failing with Diverges where a subpacket consumes nothing |
| `Day16Bits.ReadByCount` | day16/src/main.rs:54-56 | the count loop collects what `ParseCount` collects, stopping at the first error |
| `Day16Bits.TryFrom` | day16/src/main.rs:156-161 | parsing from a fresh iterator over a text decodes that text |
| `Day21.ParseWritten` | day21/src/main.rs:14-32 | the two lines "Player 1 starting position: a" and "Player 2 starting position: b", each ended by a line feed, read back as the starting spaces a and b, for any u64 a and b |
| `Day21.DieValue` | day21/src/main.rs:51-62 | the k-th face of the deterministic die lies in 1..100 |
| `Day21.DieCycles` | day21/src/main.rs:51-62 | the die repeats every hundred rolls, and each face is the previous one plus one, 100 being followed by 1 |
| `Day21.DeterministicDice.constructor` | day21/src/main.rs:47-49 | a fresh die shows 1 and has made no rolls |
| `Day21.DeterministicDice.Roll` | day21/src/main.rs:51-62 | a roll returns the face for the number of rolls made so far and counts one more roll, the die staying in step with `DieValue` |
| `Day21.Turn` | day21/src/main.rs:75-85 | a turn uses three rolls and passes the move on; the mover lands on a space below 10 and adds that space plus one to its score, the other player is untouched |
| `Day21.TakeTurn` | day21/src/main.rs:76-78 | one branch of the loop advances the mover by the next three faces, wraps round ten spaces and scores the landing space, using exactly three rolls |
| `Day21.SimulateGame` | day21/src/main.rs:65-93 | `simulate_game` returns the scores and roll count of the game played turn by turn until a score reaches 1000; None where a starting space 0 underflows |
| `Day21.PlayEnds` | day21/src/main.rs:74-86 | a game that is not over lasts at least one turn, ends with exactly one score at 1000 or more, and uses three rolls per turn |
| `Day21.LoserScored` | day21/src/main.rs:139-146 | part one's answer is the losing score, the one below 1000, times the number of rolls, which is a multiple of three |
| `Day21.FrequenciesTotal` | day21/src/main.rs:95 | the frequencies of `POSSIBLE_ROLLS` add up to the 27 outcomes of three three-sided rolls |
| `Day21.TimesIsProduct` | day21/src/main.rs:122-123 | counting a pair of win counts n times multiplies both by n |
| `Day21.WeightedIsProduct` | day21/src/main.rs:121-123 | the weighting of an entry adds freq times the sub-game's second count to the first and freq times its first count to the second |
| `Day21.WinsStep` | day21/src/main.rs:114-124 | the sum over one more possible roll adds that roll's sub-game, swapped, weighted by its frequency |
| `Day21.WinsCountUniverses` | day21/src/main.rs:95-128 | the memoised count by grouped roll sums equals the count over every universe the three-sided die splits the game into, three rolls a turn |
| `Day21.RollsSpread` | day21/src/main.rs:95 | three rolls of 1, 2 or 3 reach the sums 3..9 in 1, 3, 6, 7, 6, 3, 1 ways |
| `Day21.WinsSpread` | day21/src/main.rs:95-124 | the loop over `POSSIBLE_ROLLS` weighs the sub-games after the sums 3..9 by 1, 3, 6, 7, 6, 3, 1 |
| `Day21.RankDrops` | day21/src/main.rs:115-120 | the sub-game after any roll is strictly closer to the end of the game, so the recursion ends |
| `Day21.FillingStart` | day21/src/main.rs:111-113 | before the loop, every other state up to the current rank is remembered correctly and the current state has no entry |
| `Day21.SubtreeAfter` | day21/src/main.rs:115-120 | the sub-game the loop counts is the other player's game after the mover's space and score are updated |
| `Day21.FillingStep` | day21/src/main.rs:120-123 | after one more roll the entry of the state holds the sum over one more roll, and every other remembered state stays correct |
| `Day21.KeptThrough` | day21/src/main.rs:120 | a recursive call that keeps the states above its own rank keeps those above the caller's |
| `Day21.KeptUpdate` | day21/src/main.rs:121 | writing the current state's entry leaves the states of higher rank as they were |
| `Day21.FillingDone` | day21/src/main.rs:124-126 | after the seventh roll the entry of the state holds its wins and every state up to its rank is remembered correctly |
| `Day21.Memo.constructor` | day21/src/main.rs:155 | `HashMap::default()` remembers nothing |
| `Day21.CountStates` | day21/src/main.rs:98-128 | `count_states` returns the wins of both players from the state, leaves every remembered state up to its rank correct, and leaves the states of higher rank as they were |
| `Day21.CountRoll` | day21/src/main.rs:115-123 | one turn of the loop over `POSSIBLE_ROLLS` adds the next roll's weighted sub-game to the entry of the state, the memo staying correct elsewhere |
| `Day21.CountWins` | day21/src/main.rs:150-156 | part two from the starting spaces with a fresh memo gives the wins from that state; None where a starting space 0 underflows |
| `Day23.Room` | day23/src/main.rs:49-50 | room r of a board is the D cells starting at 11 + r·D, its slot i being cell 11 + r·D + i |
| `Day23.SlotBelowEnd` | day23/src/main.rs:49-50 | every slot of the four rooms lies on the board, before cell 11 + 4·D |
| `Day23.SlotInjective` | day23/src/main.rs:26 | two (room, slot) pairs name the same cell only when they are equal |
| `Day23.Letters` | day23/src/main.rs:24-25 | one kind 1..4 per letter A..D of the text, never more kinds than characters |
| `Day23.LettersPrefix` | day23/src/main.rs:24 | the letters of a prefix of the text are a prefix of the text's letters |
| `Day23.ParseState` | day23/src/main.rs:20-30 | the board is all zeros with the kind of the k-th letter written at cell 11 + D·(k % 4) + k / 4 |
| `Day23.LetterCell` | day23/src/main.rs:26 | the parser's cell arithmetic is slot k / 4 of room k % 4 |
| `Day23.PlacedAppend` | day23/src/main.rs:26 | writing one more letter changes only that letter's cell |
| `Day23.LetterSlotInRooms` | day23/src/main.rs:26 | the cell of the k-th letter lies in the rooms whenever k < 4·D |
| `Day23.PlacedCells` | day23/src/main.rs:20-30 | with at most 4·D letters, each letter's cell holds its kind and the hallway stays empty |
| `Day23.PlacedOthers` | day23/src/main.rs:24-27 | writing the last letter leaves the cells of all earlier letters alone |
| `Day23.Apply` | day23/src/main.rs:38-45 | the new board swaps source and destination and keeps every other cell (the same multiset of cells); the energy is COSTS[kind - 1] times the steps |
| `Day23.IsCompleteIff` | day23/src/main.rs:47-58 | a board is complete exactly when every slot of room r holds kind r + 1 |
| `Day23.FirstOccupied` | day23/src/main.rs:65 | the topmost occupied slot of a room, every slot above it empty; None exactly when the room is empty |
| `Day23.FirstOccupiedFrom` | day23/src/main.rs:65 | the first occupied slot at or after slot i, or None when there is none |
| `Day23.MultisetAllEqual` | day23/src/main.rs:87-88 | a room holding only kind v holds v as often as it is deep |
| `Day23.RoomHasSpace` | day23/src/main.rs:87-88 | on a well-formed board a hallway amphipod whose room is ready finds a free slot there, so `unwrap_or(ROOM_DEPTH) - 1` never goes below zero |
| `Day23.CountsOutsideRoom` | day23/src/main.rs:87-88 | an amphipod in the hallway is counted outside every room |
| `Day23.RoomOccupancy` | day23/src/main.rs:63-65 | the topmost occupied slot of each of the four rooms, room by room |
| `Day23.HallwayMoveAt` | day23/src/main.rs:69-96 | one turn of the hallway loop yields the entry of the amphipod at cell h that the move specification proposes |
| `Day23.RoomExitAt` | day23/src/main.rs:109-123 | one turn of the inner room loop yields the exit to h that the move specification proposes |
| `Day23.NextMoves` | day23/src/main.rs:60-129 | the generated moves are the hallway entries by hallway stop, then the room exits by room and stop, which `Day23Moves.MovesSpecIff` proves to be exactly the legal moves |
| `Day23.HallwayToRoomMoves` | day23/src/main.rs:68-97 | the hallway phase collects the entries of all seven stops in stop order |
| `Day23.RoomToHallwayMoves` | day23/src/main.rs:100-126 | the room phase collects the exits of the four rooms in room order |
| `Day23.RoomMovesAt` | day23/src/main.rs:101-125 | an empty room contributes no exits; otherwise its topmost amphipod's exits |
| `Day23.RoomExitsOf` | day23/src/main.rs:108-124 | the exits of the topmost amphipod to the seven stops in stop order |
| `Day23Moves.EnterIff` | day23/src/main.rs:68-97 | the generator proposes a move from hallway cell h exactly when it is a legal entry from h |
| `Day23Moves.EnterSound` | day23/src/main.rs:85-94 | a proposed entry starts at h and is legal |
| `Day23Moves.RouteProposed` | day23/src/main.rs:72-85 | a proposed entry has a clear corridor to its own room, which holds no other kind |
| `Day23Moves.TargetProposed` | day23/src/main.rs:86-94 | a proposed entry ends on the deepest free slot of the room, with the corridor length plus depth as steps |
| `Day23Moves.TargetAtDepth` | day23/src/main.rs:87-93 | the slot above the topmost amphipod (or the bottom slot) is the entry target |
| `Day23Moves.AboveTopmost` | day23/src/main.rs:87-88 | the slot just above the topmost amphipod (or the bottom slot) is free and the one below is occupied or absent |
| `Day23Moves.DeepestFree` | day23/src/main.rs:65 | in a settled room, a free slot with an amphipod or the bottom below it lies just above the topmost amphipod |
| `Day23Moves.EnterComplete` | day23/src/main.rs:68-97 | every legal entry from h is the one move proposed for h |
| `Day23Moves.EnterDepth` | day23/src/main.rs:87-93 | the target of a legal entry lies just above the topmost amphipod of the room, or at its bottom |
| `Day23Moves.FreeAboveTopmost` | day23/src/main.rs:87-88 | a free slot of a settled room with an amphipod or the bottom just below it is the slot above the topmost amphipod |
| `Day23Moves.EntryProposed` | day23/src/main.rs:85-94 | once its corridor and room are ready, a legal entry is exactly the proposed move |
| `Day23Moves.ExitIff` | day23/src/main.rs:108-124 | the generator proposes a move of the topmost amphipod of room r to h exactly when it is a legal exit to h |
| `Day23Moves.TopOccupied` | day23/src/main.rs:65 | the topmost occupied slot of a room is occupied and every slot above it is empty |
| `Day23Moves.ExitSound` | day23/src/main.rs:116-122 | a proposed exit goes to h and is legal |
| `Day23Moves.ExitComplete` | day23/src/main.rs:108-124 | every legal exit from room r is the one move proposed for its stop |
| `Day23Moves.InHallwayMovesUpTo` | day23/src/main.rs:68-97 | the first j hallway stops contribute exactly the legal entries from those stops |
| `Day23Moves.InRoomExitsUpTo` | day23/src/main.rs:108-124 | the first j stops contribute exactly the legal exits to those stops |
| `Day23Moves.InRoomMoves` | day23/src/main.rs:100-126 | the moves out of room r are exactly its legal exits |
| `Day23Moves.InRoomMovesUpTo` | day23/src/main.rs:100-126 | the first k rooms contribute exactly the legal exits from those rooms |
| `Day23Moves.RoomMovesUpToSound` | day23/src/main.rs:100-126 | a move collected from the first k rooms is a legal exit from one of them |
| `Day23Moves.RoomMovesUpToComplete` | day23/src/main.rs:100-126 | a legal exit from one of the first k rooms is collected |
| `Day23Moves.MovesSpecIff` | day23/src/main.rs:60-129 | the generated moves are exactly the legal moves |
| `Day23Moves.SlotOwner` | day23/src/main.rs:63-64 | a slot of one room lies in another room's range only when the rooms coincide |
| `Day23Moves.WriteRoom` | day23/src/main.rs:41-42 | writing a cell changes a room only at the slot that cell is |
| `Day23Moves.SettledFill` | day23/src/main.rs:90-94 | filling the free slot just above the topmost amphipod keeps a room settled |
| `Day23Moves.SettledTake` | day23/src/main.rs:118-122 | emptying the topmost occupied slot keeps a room settled |
| `Day23Moves.LegalBounds` | day23/src/main.rs:38-42 | a legal move takes an amphipod of kind 1..4 from its cell to a different, empty cell on the board |
| `Day23Moves.FillKeepsSettled` | day23/src/main.rs:90-94 | filling the deepest free slot of a settled room keeps it settled |
| `Day23Moves.TakeKeepsSettled` | day23/src/main.rs:118-122 | emptying the topmost occupied slot of a settled room keeps it settled |
| `Day23Moves.EnterKeepsSettled` | day23/src/main.rs:90-94 | an entry keeps every settled room settled |
| `Day23Moves.ExitKeepsSettled` | day23/src/main.rs:118-122 | an exit keeps every settled room settled |
| `Day23Moves.EnterKeepsRooms` | day23/src/main.rs:90-94 | a legal entry keeps all four rooms settled |
| `Day23Moves.ExitKeepsRooms` | day23/src/main.rs:118-122 | a legal exit keeps all four rooms settled |
| `Day23Moves.StepPreservesWf` | day23/src/main.rs:38-45 | applying a legal move keeps the board well formed: cells 0..4, rooms settled, no kind outnumbering a room's slots |
| `Day23Search.Succ` | day23/src/main.rs:149-150 | a generated move is applicable, and the board it yields is well formed |
| `Day23Search.Walk` | day23/src/main.rs:149-150 | following generated moves from a well-formed board ends on a well-formed board; the empty path stays put at energy 0 |
| `Day23Search.WalkAppend` | day23/src/main.rs:149-153 | extending a path by a generated move adds that move's energy |
| `Day23Search.Frontier` | day23/src/main.rs:137-156 | a path below the u64 ceiling to a board not yet expanded is undercut by some heap entry |
| `Day23Search.HeapHasMin` | day23/src/main.rs:137 | a non-empty heap has an entry of least energy |
| `Day23Search.CheaperThan` | day23/src/main.rs:137 | descending through strictly cheaper entries reaches one of least energy |
| `Day23Search.PopMin` | day23/src/main.rs:137 | `pop` on `Reverse(cost)` removes one entry of least energy |
| `Day23Search.CoveredGrow` | day23/src/main.rs:153 | pushing entries keeps a move covered |
| `Day23Search.InitInv` | day23/src/main.rs:133-135 | the initial heap and table satisfy the loop invariant |
| `Day23Search.SkipKeepsInv` | day23/src/main.rs:138-142 | dropping a popped entry the table already beats keeps the invariant |
| `Day23Search.LeastBeatsFrontier` | day23/src/main.rs:137-146 | no path below the ceiling to an unexpanded board costs less than the least heap entry |
| `Day23Search.PopIsOptimal` | day23/src/main.rs:137-148 | the least entry, when the table does not beat it, is the least energy of any path to its board |
| `Day23Search.PopKeepsInv` | day23/src/main.rs:144-148 | recording the popped board as expanded keeps the invariant except the coverage of its own moves |
| `Day23Search.PopKeepsOptimal` | day23/src/main.rs:148 | the table entry written for the popped board is optimal, and so stay the others |
| `Day23Search.PopKeepsCover` | day23/src/main.rs:148 | popping keeps every other expanded board's moves covered |
| `Day23Search.CoversPrefixGrow` | day23/src/main.rs:149-155 | pushing entries keeps a covered prefix of the moves covered |
| `Day23Search.CoversPrefixEach` | day23/src/main.rs:149-155 | a covered prefix covers each of its moves |
| `Day23Search.Offer` | day23/src/main.rs:150-154 | the successor is pushed when its energy beats the table, keeping the heap sound and covering one more move |
| `Day23Search.PushSound` | day23/src/main.rs:153 | pushing an entry with a recorded path keeps every heap entry the end of its path at its energy |
| `Day23Search.NewMoveCovered` | day23/src/main.rs:152-154 | after a move's offer the move is covered: pushed, or already beaten by the table |
| `Day23Search.ShapeGrows` | day23/src/main.rs:153 | pushing entries keeps the bookkeeping of the start board |
| `Day23Search.Expand` | day23/src/main.rs:149-155 | the inner loop covers every generated move of the popped board and keeps the heap sound |
| `Day23Search.OrganizingCost` | day23/src/main.rs:132-159 | a reported energy is reached by some sequence of generated moves that completes the board, and no such sequence below the u64 ceiling costs less; an exhausted heap means no sequence completes below the ceiling |
| `Day25.NextOnGrid` | day25/src/main.rs:13-19 | on the grid, `next_east` and `next_south` stay on the grid and never send two cells to the same cell, wrapping at the width and the height |
| `Day25.AdvanceMeaning` | day25/src/main.rs:33-45 | in a half-step a member stays exactly when its next cell was occupied in the map before the half-step, otherwise it moves onto that free cell; nothing else appears, and the herd is unchanged exactly when nobody moves |
| `Day25.HalfStepGrows` | day25/src/main.rs:35-43 | one pass of the loop adds the member's cell or its next cell to the result and counts it exactly when it moved |
| `Day25.CucumberMap.PerformStep` | day25/src/main.rs:25-46 | returns the number of members whose next cell is free in the map and the herd after the half-step, in whatever order the set is visited |
| `Day25.CucumberMap.Step` | day25/src/main.rs:48-62 | the east herd moves against the map as it was, then the south herd against the moved east herd; returns the sum of both counts |
| `Day25.NoMovesFixed` | day25/src/main.rs:48-62 | a step returns 0 exactly when it leaves the map as it was |
| `Day25.AdvanceKeeps` | day25/src/main.rs:33-45 | a half-step keeps a herd on the grid, moves members only onto cells free before it, and loses no member |
| `Day25.AdvanceSize` | day25/src/main.rs:33-45 | distinct members of a herd on the grid end on distinct cells |
| `Day25.HalfStepKeeps` | day25/src/main.rs:48-62 | each half-step keeps the herds on the grid and apart, and keeps the size of the herd that moved |
| `Day25.StepKeepsWellFormed` | day25/src/main.rs:48-62 | a step keeps herds on the grid and apart, and keeps the number of cucumbers in each herd |
| `Day25.StepsToStop` | day25/src/main.rs:98-110 | on a copy of the map, the number of steps up to and including the first step that moves nobody, every earlier step having moved somebody; None when the first `fuel` steps all moved somebody |
| `Day25.StoppedForGood` | day25/src/main.rs:98-110 | after the first step that moves nobody, every later map is the same and every later step moves nobody |
| `Day25.CellsMeaning` | day25/src/main.rs:75-87 | a herd read from the lines holds a position exactly when that line has the herd's character at that column |
| `Day25.ParsedWellFormed` | day25/src/main.rs:68-95 | a map read from lines of equal length has its herds on the grid and apart, and can be stepped |
| `Day25.FromStr` | day25/src/main.rs:68-95 | None for an input without lines, where the program panics; otherwise '>' cells form the east herd, 'v' cells the south herd, and the boundaries are the first line's length and the line count |
| `Day18Arena.AccessorLaws` | day18/src/main.rs:24-71 | on a pair, `set_left`/`set_right` change only the child they name and `left`/`right` read it back; on a regular number `add_value` adds to the value and adding 0 changes nothing |
| `Day18Arena.MagnitudeAt` | day18/src/main.rs:142-149 | the recursive magnitude over the arena equals the magnitude of the number the arena stands for: n for a regular number, 3 times the left plus 2 times the right for a pair |
| `Day18Arena.LeafIdx` | day18/src/main.rs:212-258 | every layout has at least one regular number, listed by storage index from left to right |
| `Day18Arena.HoldsGrow` | day18/src/main.rs:301 | pushing to the end of the storage leaves every number already stored in it unchanged |
| `Day18Arena.HoldsFrame` | day18/src/main.rs:293-307 | a storage that agrees on a number's indices stands for the same number |
| `Day18Arena.IndicesBelow` | day18/src/main.rs:24-71 | every index a stored number reaches is inside the storage, so no indexing panics |
| `Day18Arena.SubShape` | day18/src/main.rs:212-273 | following left and right child indices from the root reaches exactly the nodes of the tree, and the node reached stands for the subtree at that path |
| `Day18Arena.ParentOf` | day18/src/main.rs:87-88 | in a stored number, the parent map sends every node other than the root to the pair above it |
| `Day18Arena.LeafCount` | day18/src/main.rs:212-258 | the leaf indices of a layout are as many as the tree's regular numbers and each holds a `Value` |
| `Day18Arena.LayoutAround` | day18/src/main.rs:212-258 | the leaf indices split into those left of a node, those under it and those right of it |
| `Day18Arena.LeftOfCount` | day18/src/main.rs:212-234 | there are as many leaf indices left of a node as regular numbers left of it in the tree |
| `Day18Arena.LeftOfTurn` | day18/src/main.rs:212-234 | going left adds no leaf on the left; going right adds the leaves of the left half |
| `Day18Arena.RightOfTurn` | day18/src/main.rs:236-258 | going right adds no leaf on the right; going left adds the leaves of the right half in front |
| `Day18Arena.BumpStore` | day18/src/main.rs:292-298 | adding v to the value at the j-th leaf index adds v to the j-th regular number of the tree and to nothing else |
| `Day18Arena.Relink` | day18/src/main.rs:304-308 | pointing the parent's child link at a new node replaces, in the tree, the subtree at that path by the new node's subtree |
| `Day18Arena.ReplaceDistinct` | day18/src/main.rs:300-331 | a node spliced in with fresh indices keeps every index used once and the root where it was |
| `Day18Arena.ReplaceParents` | day18/src/main.rs:322-325 | the parent links written for a spliced-in node, with the old links kept, hold for the new layout |
| `Day18Arena.HoldsShift` | day18/src/main.rs:194-202 | a storage whose pairs are moved up by m, placed m further on, stands for the same number with every index moved up by m |
| `Day18Arena.ShiftIndices` | day18/src/main.rs:194-202 | the indices of a shifted layout are exactly the old ones plus m |
| `Day18Arena.ParentsShift` | day18/src/main.rs:184-189 | parent links shifted by m, keys and values, hold for the shifted layout |
| `Day18.ScanText` | day18/src/main.rs:73-98 | the grammar `parse_inner` reads gives back any number written in the puzzle's notation and leaves the text after it |
| `Day18.ParseInner` | day18/src/main.rs:73-98 | succeeds exactly when the text reads as a number (otherwise the `unwrap`s panic); then the storage is the old one with the number pushed after it, children before their pair, the returned index is the last element pushed, the new parent links send both children of each new pair to it, and the old links are kept |
| `Day18.Parse` | day18/src/main.rs:17-22 | succeeds exactly when the text reads as a number; then the root, the parent map and the storage form an arena that stands for that number |
| `Day18.ParsedPair` | day18/src/main.rs:81-89 | pushing the pair after its two children and writing both children's parent gives an arena for the pair of the two numbers |
| `Day18.EntriesUnder` | day18/src/main.rs:349-361 | the queue for a pair is the queue of its left half followed by that of its right half |
| `Day18.QueueAfter` | day18/src/main.rs:278-308 | replacing the first queued pair leaves the rest of the queue pointing at the same indices and depths |
| `Day18.FirstBigNode` | day18/src/main.rs:269-271 | the leftmost regular number above 9 in a pair is in the left half when there is one there, else in the right half |
| `Day18.Above` | day18/src/main.rs:279-287 | the parent map sends a node to the index of the pair one step above it, and that pair holds it as its left or its right child |
| `Day18.LeftNeighbour` | day18/src/main.rs:212-234 | the nearest leaf on the left of a node is the last leaf index before it, the regular number just left of it in the tree |
| `Day18.RightNeighbour` | day18/src/main.rs:236-258 | the nearest leaf on the right of a node is the first leaf index after its own leaves |
| `Day18.ExplodeSite` | day18/src/main.rs:286-290 | a pair that explodes is stored as a `Pair` of two `Value`s, so `left`, `right` and `value` do not panic and read its two numbers |
| `Day18.BumpLeftArena` | day18/src/main.rs:292-294 | adding to the leaf `first_on_left` finds adds to the regular number just left of the pair and keeps the arena well formed |
| `Day18.BumpRightArena` | day18/src/main.rs:296-298 | adding to the leaf `first_on_right` finds adds to the regular number just right of the pair and keeps the arena well formed |
| `Day18.NoRightNeighbour` | day18/src/main.rs:296-298 | with no leaf on the right, nothing is added |
| `Day18.BumpedByLayout` | day18/src/main.rs:292-298 | the two additions of the program give the tree with the pair's values added to its neighbours |
| `Day18.ExplodeLinks` | day18/src/main.rs:300-308 | pushing `Value(0)`, linking it to the parent and relinking the parent's child gives an arena for the tree with the pair replaced by 0 |
| `Day18.SplitLinks` | day18/src/main.rs:313-331 | pushing the two halves and their pair, linking them and relinking the parent's child gives an arena for the split tree |
| `Day18.JoinStorage` | day18/src/main.rs:179-204 | the storage and parent map `add` builds form an arena, rooted at the new pair, that stands for the pair of the two numbers |
| `Day18.ShiftPairs` | day18/src/main.rs:194-202 | the elements from the offset on have both child indices moved up by m; regular numbers and the elements before are unchanged |
| `Day18.ExtendShifted` | day18/src/main.rs:184-189 | the joined map keeps the first number's links and adds each link of the other number with key and value moved up by m, and nothing else |
| `Day18.AddArena` | day18/src/main.rs:179-204 | the first storage, the new pair and the shifted copy, with the joined and redirected parent links, form an arena for the pair of the two numbers |
| `Day18.Number.constructor` | day18/src/main.rs:369-373 | a number built from a parsed arena stands for the parsed tree |
| `Day18.Number.Magnitude` | day18/src/main.rs:345-347 | the magnitude of the number the arena stands for |
| `Day18.Number.FirstOnLeft` | day18/src/main.rs:212-234 | None exactly when no regular number lies left of the child; otherwise the storage index of the nearest regular number on its left |
| `Day18.Number.FirstOnRight` | day18/src/main.rs:236-258 | None exactly when no regular number lies right of the child; otherwise the storage index of the nearest regular number on its right |
| `Day18.Number.FindSplit` | day18/src/main.rs:260-273 | None exactly when every regular number is at most 9; otherwise the index of the leftmost one above 9 and the start depth plus its depth |
| `Day18.Number.Reduce` | day18/src/main.rs:349-361 | appends the (index, depth 4) entries of the pairs inside exactly four pairs, left to right |
| `Day18.Number.AddToNeighbours` | day18/src/main.rs:286-298 | the arena now stands for the tree with the exploding pair's left value added to its nearest regular number on the left and its right value to the nearest on the right; the layout, parent map, root and size are unchanged |
| `Day18.Number.ExplodeAt` | day18/src/main.rs:286-308 | the arena now stands for the exploded tree: neighbours bumped and the pair replaced by 0; one element pushed |
| `Day18.Number.SplitAt` | day18/src/main.rs:313-331 | the arena now stands for the tree with the regular number split into the pair of its halves rounded down and up; three elements pushed |
| `Day18.Number.ExplodeQueued` | day18/src/main.rs:278-309 | the explosion loop: each turn is one reduction action, so the new tree is reached from the old one by `steps` actions; when the queue is used up no pair sits inside four pairs |
| `Day18.Number.SplitUntilDeep` | day18/src/main.rs:311-337 | the split loop: each turn is one reduction action; it returns the queue for the pairs now inside four pairs, and when it ends without a split every regular number is at most 9 |
| `Day18.Number.ApplyReduce` | day18/src/main.rs:275-343 | the new tree is reached from the old one by `steps` reduction actions, and is reduced (depth at most 4, every regular number at most 9) unless the fuel ran out |
| `Day18.Number.Join` | day18/src/main.rs:179-204 | after the copying half of `add` the number stands for the pair of the old number and `other` |
| `Day18.Number.Add` | day18/src/main.rs:178-210 | the sum is reached from the pair of the two numbers by `steps` reduction actions and is reduced unless the fuel ran out |
| `Day18Snail.FirstBig` | day18/src/main.rs:260-273 | the path found leads to a regular number above 9, and below the root when the number is a pair |
| `Day18Snail.NestedIff` | day18/src/main.rs:349-361 | a path is queued exactly when it leads to a pair that sits inside exactly four pairs |
| `Day18Snail.NestedSorted` | day18/src/main.rs:349-361 | the queued paths are in left-to-right order |
| `Day18Snail.NestedEmpty` | day18/src/main.rs:349-361 | nothing is queued exactly when no pair sits inside four pairs, that is depth at most 4 |
| `Day18Snail.NestedExplodes` | day18/src/main.rs:286-290 | in a number of depth at most 5 every queued pair holds two regular numbers, so its explosion does not panic |
| `Day18Snail.LeavesAround` | day18/src/main.rs:212-258 | the regular numbers of a tree are those left of a node, those under it and those right of it |
| `Day18Snail.BumpLeaves` | day18/src/main.rs:292-298 | adding v to the k-th regular number changes the k-th entry of the leaves by v and no other (nothing when there is no k-th) |
| `Day18Snail.BumpedLeaves` | day18/src/main.rs:286-298 | after the additions, the last regular number left of the pair grew by its left value, the first right of it by its right value, and the pair itself is unchanged |
| `Day18Snail.ExplodeLeaves` | day18/src/main.rs:286-308 | exploding [a,b] turns the leaves ...x, a, b, y... into ...x+a, 0, y+b... |
| `Day18Snail.SplitLeaves` | day18/src/main.rs:313-320 | splitting v turns it into v/2 followed by v - v/2 among the leaves |
| `Day18Snail.ReplaceNested` | day18/src/main.rs:278-308 | replacing the first queued pair by a regular number removes exactly that entry from the queue |
| `Day18Snail.DepthReplace` | day18/src/main.rs:300-331 | replacing a subtree gives depth at most the larger of the old depth and the depth of the new subtree at that place |
| `Day18Snail.ExplodeNested` | day18/src/main.rs:278-308 | exploding the first queued pair leaves the rest of the queue as it was and does not deepen the number |
| `Day18Snail.SplitNested` | day18/src/main.rs:333-336 | a split in a number with no pair inside four pairs queues the new pair exactly when it lies at depth 4 |
| `Day18Snail.SplitStep` | day18/src/main.rs:311-337 | when nothing explodes, the leftmost big number is at depth at most 4, and its split queues the new pair when it lands at depth 4 and keeps the depth at most 5 |
| `Day18Snail.SmallLeaves` | day18/src/main.rs:262-267 | no split applies exactly when every regular number is at most 9 |
| `Day18Snail.FirstBigLeftmost` | day18/src/main.rs:260-273 | `find_split` finds nothing exactly when every regular number is at most 9, and every regular number left of the one it finds is at most 9 |
| `Day18Snail.ReducedIffStops` | day18/src/main.rs:339-341 | below depth 6 a number is reduced exactly when no reduction action applies |
| `Day18Snail.IterateMore` | day18/src/main.rs:276-342 | one more action after k actions is the (k+1)-th |
| `Day18Snail.IterateAdd` | day18/src/main.rs:276-342 | a actions and then b actions are a + b actions |
| `Day18Snail.ReductionUnique` | day18/src/main.rs:275-343 | reduction is deterministic: a number reaches a reduced number after only one count of actions, and only one reduced number |
| `Day19.RotationsAreRotations` | day19/src/main.rs:11-84 | every entry of the table is a rotation: each row has one non-zero entry, 1 or -1, the rows read three different axes, and the determinant is 1 |
| `Day19.RotationsDistinct` | day19/src/main.rs:11-84 | the 24 entries are pairwise different |
| `Day19.RotationsComplete` | day19/src/main.rs:11-84 | every rotation of the axes (a signed permutation with determinant 1) is in the table, so the table is exactly the 24 orientations |
| `Day19.TimesKeepsLength` | day19/src/main.rs:239-246 | multiplying by a signed permutation keeps the Manhattan length of a point |
| `Day19.TimesMinus` | day19/src/main.rs:239-246 | the matrix product distributes over the difference of two points |
| `Day19.MoveKeepsDistance` | day19/src/main.rs:242-247 | `matrix * point + translation_v` keeps the Manhattan distance between any two beacons |
| `Day19.TimesInjective` | day19/src/main.rs:242-247 | a rotation moves different beacons to different points, so the translated set has as many beacons as the scanner |
| `Day19.ZeroInFingerprint` | day19/src/main.rs:182-197 | every beacon of the cloud has a distance set, and it holds 0, its distance to itself |
| `Day19.FingerprintSymmetric` | day19/src/main.rs:182-197 | the distance between two beacons is in the distance sets of both |
| `Day19.MoveKeepsFingerprint` | day19/src/main.rs:182-197 | moving a cloud by a rotation and a translation gives each moved beacon exactly the distance set of the original beacon, which is what lets `find_match` compare clouds seen in different frames |
| `Day19.PointCloudDistances` | day19/src/main.rs:182-197 | the outer loop over the cloud builds the map from each beacon, and only those, to the set of its distances to every beacon of the cloud |
| `Day19.BeaconDistances` | day19/src/main.rs:187-191 | the inner loop collects the distance from the beacon to every beacon of the cloud, and nothing else |
| `Day19.FindMatch` | day19/src/main.rs:201-214 | Some pair only when the two distance sets share at least twelve values; None exactly when no pair of the two maps does |
| `Day19.FirstFit` | day19/src/main.rs:238-255 | the first orientation, in table order, that puts at least twelve moved beacons on known beacons; no earlier orientation does; None when none does |
| `Day19.Orient` | day19/src/main.rs:238-255 | the rotation loop returns the first fitting orientation with its translation (the paired known beacon minus the rotated paired beacon) and the moved beacons, and fails exactly when no orientation fits |
| `Day19.Visit` | day19/src/main.rs:231-256 | visiting scanner i keeps the recorded origins, ids and known cloud equal to those of the accepted placements, with distinct ids; it records at most one placement, of scanner i, and the known cloud only grows |
| `Day19.OrientAccepted` | day19/src/main.rs:238-253 | the orientation the loop finds makes a placement the program accepts: a table rotation, a translation taking the paired beacon onto the known one, and twelve or more moved beacons already known |
| `Day19.RecordsExtend` | day19/src/main.rs:249-253 | recording an accepted placement of a scanner with a new id (extend the cloud, push `-translation_v` and the id) keeps the records of the placements |
| `Day19.Round` | day19/src/main.rs:229-257 | one round fingerprints the known cloud once and visits every scanner; it keeps the records and only appends placements |
| `Day19.ScannerPositions` | day19/src/main.rs:222-261 | every placement was accepted against the cloud known just before it, and the recorded ids are distinct; once the loop ends, the result is the recorded origins and the known cloud: scanner 0's beacons together with every placed scanner's moved beacons |
| `Day19.KnownOnlyGrows` | day19/src/main.rs:226-250 | the known cloud after any prefix of the placements is contained in the final one |
| `Day19.PlacedBeaconsKnown` | day19/src/main.rs:226-250 | scanner 0's beacons and the moved beacons of every placed scanner are in the final cloud |
| `Day19.OriginMirrorsPosition` | day19/src/main.rs:251 | the origin recorded for a placed scanner is the negation of its position (the image of its own origin) in the frame of scanner 0 |
| `Day19.MirrorKeepsDistance` | day19/src/main.rs:270-275 | negating both points keeps their distance, so the mirrored origins give the true largest distance between scanners |
| `Day19.IdsOfScanners` | day19/src/main.rs:232-252 | every recorded id is the id of one of the scanners |
| `Day19.EveryScannerPlaced` | day19/src/main.rs:228-258 | when the scanners' ids differ and the loop has ended, there are exactly as many origins as scanners and every scanner's id is recorded |
| `Day19.RowsHavePair` | day19/src/main.rs:270-275 | the distance of every ordered pair of origins is in the collected list |
| `Day19.RowsPair` | day19/src/main.rs:270-275 | every collected distance is the distance of some ordered pair of origins |
| `Day19.PairDistances` | day19/src/main.rs:270-275 | the nested loops collect each origin's distances to every origin, origin by origin, in order |
| `Day19.Largest` | day19/src/main.rs:279 | `max().unwrap()` on a non-empty list is one of its values, and no value is larger |
| `Day19.LargestSeparation` | day19/src/main.rs:270-280 | the second answer is the distance of some pair of origins and no pair of origins is farther apart |
| `Day19.StripSuffix` | day19/src/main.rs:104 | Some part exactly when the text ends with the suffix, and the part followed by the suffix is the text |
| `Day19.HeaderReads` | day19/src/main.rs:100-107 | the header "--- scanner N ---" written for an id that fits a usize reads back as that id |
| `Day19.PointReads` | day19/src/main.rs:112-122 | a beacon line written as three comma-separated i64 values reads back as that beacon |
| `Day19.BeaconsReadBack` | day19/src/main.rs:111-136 | beacon lines ending at the end of input or before an empty line are read as the set of their beacons, stopping just after the last one |
| `Day19.ReadBeacons` | day19/src/main.rs:109-136 | the beacon loop reads one line unconditionally and stops before an empty line or at the end; it fails where a line is missing or holds fewer than three numbers |
| `Day19.ReadScanner` | day19/src/main.rs:96-145 | `from_iter` reads the header and then the beacon loop; it fails where the header is missing or malformed, or the beacon loop fails |
| `Day19.ScannerFromStr` | day19/src/main.rs:148-154 | `Scanner::from_str` fails exactly when reading the first scanner fails, and gives the first scanner of the report whenever the whole report parses |
| `Day19.ReadScanners` | day19/src/main.rs:160-176 | the loop reads a scanner, then skips one line and reads the next until the input ends just after a scanner |
| `Day19.ParseScannerMap` | day19/src/main.rs:156-180 | `ScannerMap::from_str` reads the lines of the text as scanner reports |
| `Day19.LaidReports` | day19/src/main.rs:156-180 | lines laid out report by report (a header, the beacon lines, an empty line between reports) parse as the scanners of the reports, in order |
| `Day19.ParseWrittenReport` | day19/src/main.rs:156-180 | writing non-empty reports (ids within usize, coordinates within i64) one line per line feed and parsing the text gives back each report's id and its set of beacons, in order |
| `Day20.ExtentExists` | day20/src/main.rs:109-112 | a non-empty set of lit pixels has, along each axis, a least and a greatest coordinate, each attained by a lit pixel |
| `Day20.BoxOf` | day20/src/main.rs:109-115 | the ranges `x_r` and `y_r`: the box whose bounds are the smallest and largest x and y of the lit pixels |
| `Day20.BoxUnique` | day20/src/main.rs:109-112 | the four extremes are determined by the set: two boxes that both meet the definition are equal |
| `Day20.Extent` | day20/src/main.rs:109-112 | scanning the set returns the least and greatest coordinate along the axis, both attained; requires a non-empty set, where the program's `unwrap` panics |
| `Day20.Background` | day20/src/main.rs:73 | `self.2 & 1 & algorithm[0]`: 1 exactly when the step count is odd and the algorithm's first entry is odd, else 0 |
| `Day20.Pixel` | day20/src/main.rs:71-81 | inside the box, 1 exactly for a lit pixel; outside it, the background value |
| `Day20.BitsRoundTrip` | day20/src/main.rs:90-102 | a sequence of bits read as a binary number is below 2^n and the bits are recovered from it |
| `Day20.IndexIsWindow` | day20/src/main.rs:90-102 | the index is the nine pixels of the 3x3 window, top row first, read as a 9-bit number, so it is below 512 |
| `Day20.OutsideIsBackground` | day20/src/main.rs:71-104 | more than one cell away from the box every window is all background: the index is 511 on a lit background and 0 on a dark one |
| `Day20.EnhancedMeaning` | day20/src/main.rs:117-129 | a pixel is lit after a pass exactly when it lies in the box grown by one on each side and the algorithm maps its window to 1 |
| `Day20.TrenchMap.constructor` | day20/src/main.rs:66 | a map starts at step 0 with the algorithm and image read |
| `Day20.TrenchMap.Enhance` | day20/src/main.rs:107-134 | the new image is the set of enhanced pixels over the box of the old lit pixels; the step count goes up by one, the algorithm is unchanged, and the returned count is the size of the new set; requires a non-empty image, where the `unwrap`s panic |
| `Day20.StartPictures` | day20/src/main.rs:27-43 | the parsed lit pixels in their box, on a dark background, picture the infinite image before any step |
| `Day20.EnhanceIntended` | day20/src/main.rs:107-134 | the corrected pass: the region grows by one on each side and the background becomes the algorithm's entry for an all-background window |
| `Day20.IntendedTracks` | day20/src/main.rs:83-105 | a corrected pass over a faithful picture of the infinite image after k steps gives a faithful picture after k+1 steps, pixel for pixel |
| `Day20.ShrunkBoxMisread` | day20/src/main.rs:109-115 | with the algorithm lit at 0 and 16 only and the single pixel (0, 0), the program keeps (0, 0) after one pass and leaves nothing lit after two, while (0, 0) of the infinite image is lit after two steps |
| `Day20.ParseAlgorithm` | day20/src/main.rs:13-25 | None exactly for a line longer than 512 characters (the array write panics); otherwise 512 entries, 1 exactly where the line has '#' and 0 past its end |
| `Day20.LitMeaning` | day20/src/main.rs:30-42 | (x, y) is lit exactly when line y has '#' at column x |
| `Day20.ParseImage` | day20/src/main.rs:27-43 | the loops collect exactly the lit pixels of the lines |
| `Day20.ParseTrenchMap` | day20/src/main.rs:45-68 | None for fewer than two lines (`unwrap` panics) or an algorithm line longer than 512; otherwise step 0, the algorithm of the first line and the lit pixels of the lines after the second |
| `Day22.Inverse` | day22/src/main.rs:12-17 | the inverse instruction differs from the instruction |
| `Day22.InverseInvolution` | day22/src/main.rs:12-17 | inverting twice gives the instruction back |
| `Day22.Intersect` | day22/src/main.rs:32-53 | None exactly when no cube lies in both cuboids; otherwise a non-empty cuboid holding exactly the common cubes, inside both, with the receiver's instruction inverted |
| `Day22.IntersectSymmetric` | day22/src/main.rs:33-38 | the bounds of the intersection do not depend on the order of the two cuboids |
| `Day22.InLimitCubes` | day22/src/main.rs:55-66 | a non-empty cuboid is within the limit (min, max) exactly when all its cubes lie in the cube min..=max on every axis |
| `Day22.AreaCounts` | day22/src/main.rs:68-75 | the area of a non-empty cuboid is the number of its cubes, counted +1 each for On and -1 each for Off |
| `Day22.WeightIntersections` | day22/src/main.rs:162-168 | at every cube, the intersections of a step with the counted cuboids weigh minus the counted weight inside the step and nothing outside it |
| `Day22.MatchingWeighs` | day22/src/main.rs:160-175 | at every cube, the signed cuboids of `matching_cubes` add up to 1 when the last step containing the cube is On and to 0 otherwise |
| `Day22.MatchingInside` | day22/src/main.rs:160-175 | when all steps are non-empty and inside a region, so is every cuboid of `matching_cubes` |
| `Day22.WeightsSum` | day22/src/main.rs:177 | the sum of the areas equals the sum of the weights over the cubes of a region holding all the cuboids |
| `Day22.CountsCubesOn` | day22/src/main.rs:160-177 | the signed volume of `matching_cubes` is the number of cubes left on by the steps, over any region holding every step |
| `Day22.KeepInLimit` | day22/src/main.rs:150-155 | the filter keeps exactly the steps within the limit, in order |
| `Day22.IntersectAll` | day22/src/main.rs:163-168 | `new_intersects` holds the non-empty intersections of the counted cuboids with the step, in order |
| `Day22.SumAreas` | day22/src/main.rs:177 | the loop sums the signed areas of the cuboids |
| `Day22.OnCubesCount` | day22/src/main.rs:148-178 | the result is the signed volume of `matching_cubes` built from the steps the limit admits |
| `Day22.LimitedAll` | day22/src/main.rs:55-66 | without a limit every step is kept |
| `Day22.OnCubesCountMeaning` | day22/src/main.rs:148-178 | the count is the number of cubes left on by the steps the limit admits: over the limit's cube with a limit, over any region holding the steps without one |
| `Day22.ClippedSame` | day22/src/main.rs:148-158 | inside the limit's cube, clipping every step to the cube leaves every cube on or off as the steps themselves do |
| `Day22.ClippedCountsCubesOn` | day22/src/main.rs:148-158 | the corrected limited count, with steps clipped instead of dropped, is the number of cubes of the limit's cube that the steps leave on |
| `Day22.StraddlingStepDropped` | day22/src/main.rs:149-158 | turning on x = 0..=51 of the line y = z = 0 counts 0 with the limit (-50, 50), where 51 cubes of the limit's cube are on |
| `Day22.StripAxis` | day22/src/main.rs:89-93 | None exactly when the range starts with none of "x=", "y=", "z="; otherwise the text after the two-character prefix |
| `Day22.ParseBounds` | day22/src/main.rs:95-107 | two `isize` bounds; Ok exactly when there are at least two pieces around ".." and both parse |
| `Day22.ParseStep` | day22/src/main.rs:118-143 | an instruction other than "on" and "off" is an error; on success the instruction matches the word and the three bounds are those of the first three ranges |
| `Day22.ParseManual` | day22/src/main.rs:184-190 | Ok exactly when every line parses, with one cuboid per line in order; otherwise the error of the first line that fails |
| `Day22.SignedTextFree` | day22/src/main.rs:95-105 | the text of an `isize` has no '.', ',' or space, so it survives the splits |
| `Day22.RangeRoundTrip` | day22/src/main.rs:82-108 | a range written "x=lo..hi" reads back as (lo, hi) |
| `Day22.CuboidRoundTrip` | day22/src/main.rs:81-144 | a step written "on x=..,y=..,z=.." with `isize` bounds reads back as the same step |
| `Day08.ReadFourDigits` | day8/src/notepad.rs:164-170 | four readings that are the digits d0..d3, summed from place 3 down, give 1000 d0 + 100 d1 + 10 d2 + d3 |
| `Day24.Write` | day24/src/main.rs:23-33 | writing a register sets it to the value and leaves the other registers alone; None (the panic) exactly for a constant |
| `Day24.QuotRem` | day24/src/main.rs:178-186 | Rust's `/` and `%`: the quotient's magnitude is that of the magnitudes' quotient, the remainder carries the dividend's sign, and it is smaller than the divisor in magnitude |
| `Day24.NonNegativeQuotRem` | day24/src/main.rs:178-186 | for a non-negative dividend and positive divisor, Rust's `/` and `%` agree with the Euclidean ones |
| `Day24.Exec` | day24/src/main.rs:163-205 | one instruction: `EXC_MEM` exactly for `inp` on an empty tape or `div`/`mod` by zero; otherwise register a gets the instruction's value, which lies within `i64`, no other register changes, and `inp` pops the tape's front |
| `Day24.Execute` | day24/src/main.rs:152-209 | the loop runs the instructions in order from zeroed registers and returns the final registers, `EXC_MEM`, or the panic |
| `Day24.RunAppend` | day24/src/main.rs:160-206 | running two programs one after the other is running their concatenation |
| `Day24.RunConsumes` | day24/src/main.rs:198-204 | a run that gets to the end takes one input per `inp` from the front of the tape and keeps every register within `i64` |
| `Day24.ExecuteInI64` | day24/src/main.rs:152-209 | any registers `execute` returns are `i64` values |
| `Day24.OperandAt` | day24/src/main.rs:63-75 | a missing word is a missing-operand error; "x", "y", "w", "z" name their registers; any other word is a constant when it parses as an `i64` and an error otherwise |
| `Day24.ParseWords` | day24/src/main.rs:84-118 | no word is a missing operation, an unknown first word an unknown operation; on success the mnemonic is the first word and the operands are words 1 (and 2) |
| `Day24.ParseProgram` | day24/src/main.rs:122-129 | Ok exactly when every line parses, with one instruction per line in order; otherwise the error of the first line that fails |
| `Day24.OperationRoundTrip` | day24/src/main.rs:59-119 | an instruction written as "mnemonic a b" with constants in `i64` reads back as the same instruction |
| `Day24.DigitsOf` | day24/src/main.rs:132-141 | the loop collects `r % 10` and divides r by 10 until it is 0: the digits of n, least significant first |
| `Day24.DigitsMeaning` | day24/src/main.rs:132-141 | the digits stand for n, there are none exactly for 0, each lies in 0..9 (in -9..0 for a negative n), and the last is not 0 |
| `Day24.DigitsOfValue` | day24/src/main.rs:132-141 | digits 0..9 without a trailing most significant 0 are the digits of the number they stand for |
| `Day24Search.SearchSolutionSpace` | day24/src/main.rs:244-311 | returns the verdict of the search (None for the `bad_branches - 1` panic); on success `path` from `depth - 1` on holds the digits found, and the entries before it are untouched |
| `Day24Search.TryDigit` | day24/src/main.rs:258-306 | one turn of the loop: recurses with the z and `bad_branches` of the branch the test picks, and panics where a `bad_branches` of 0 would be decremented |
| `Day24Search.SearchStopsAt` | day24/src/main.rs:258-307 | the first turn of the loop that does not fail decides the search, and its digits follow w |
| `Day24Search.FindModelNumber` | day24/src/main.rs:318-326 | `main`'s loop over the first digit: the verdict of the first start that succeeds, with `path` holding its fourteen digits |
| `Day24Search.BlockOfComputes` | day24/src/main.rs:232-234 | the eighteen MONAD instructions of a block, run by the ALU on digit w, leave z as z / d when z % 26 + px == w and 26 (z / d) + w + py otherwise, consuming the digit |
| `Day24Search.BlockComputes` | day24/src/main.rs:232-236 | the block of each digit, with its constants, computes the z the search uses (`NextZ`) |
| `Day24Search.ChildIsNext` | day24/src/main.rs:259-300 | each branch of the loop searches on from the z the block leaves, and z stays below 26 to the power of one more than `bad_branches` |
| `Day24Search.StackFits` | day24/src/main.rs:229 | with at most seven pending drops, z stays below 26^8, well inside `i64` |
| `Day24Search.SolvedAccepted` | day24/src/main.rs:244-311 | a successful search found digits, the first being w, that the blocks from `depth` on accept: each 1..9 and bringing z to 0 |
| `Day24Search.AcceptedDigits` | day24/src/main.rs:244-311 | accepted digits are one per remaining block, each from 1 to 9 |
| `Day24Search.AcceptedRunsMonad` | day24/src/main.rs:237-238 | the ALU, running the blocks from `depth` on accepted digits, reads them all and ends with z at 0 |
| `Day24Search.MonadAccepts` | day24/src/main.rs:328-335 | MONAD run on fourteen accepted digits from z = 0 reads the whole tape and returns registers whose z is 0, a valid model number |
| `Day24Search.ModelNumberAccepted` | day24/src/main.rs:318-326 | the model number `main` finds has fourteen digits from 1 to 9 that the blocks accept |
| `Day24Search.PopsAfterPushes` | day24/src/main.rs:235-236 | before every block that divides z by 26, more blocks have divided it by 1 than by 26 |
| `Day24Search.PushMisses` | day24/src/main.rs:259-262 | a block that divides by 1 never passes its test from a non-negative z: its first constant exceeds every digit |
| `Day24Search.SearchNoUnderflow` | day24/src/main.rs:270-277 | with `bad_branches` at least the blocks so far that divided by 1 less those that divided by 26, the search never decrements a `bad_branches` of 0 |
| `Day24Search.ChildNoUnderflow` | day24/src/main.rs:259-306 | one turn of the loop under the same condition never panics |
| `Day24Search.FirstSolutionNoUnderflow` | day24/src/main.rs:318-345 | `main`'s searches on an order of digits 1..9 never panic, so the program's `bool` is always defined |

## Left out

- File reading, `main` functions and printing in every crate; the models take the file's lines or parsed values as parameters.
- Arithmetic overflow of `usize`/`u64` sums and products (bingo scores, fish counts, path counts, risk sums, polymer counts, cuboid volumes): Dafny integers are unbounded.
- `Day03.PowerConsumption`: requires a non-empty report whose first line is 1 to 64 characters wide and no shorter than any other line; the program panics on an empty report (`expect`), on a longer later line (an index past the columns) and when `load::<usize>` gets no bits or more than 64.
- `Day03.LifeSupportRating`: requires a report of equal-width lines (`Square`) 1 to 64 wide; on ragged lines the program's slicing of a short column or indexing of a short row panics, which is not modelled.  The same holds for `Day03.LifeSupportRatingIntended`.
- `Day03.LifeSupportRating`: states the rating only when each search ends with one candidate; where the CO2 search as written has emptied its candidates (see "Findings"), the program loads whichever row the partitions left first, and the model says only that it is row 0 of the array (`Day03.SearchVariable`).
- `Day03.ReportVerticals`, `Day03.SearchVariable`: bit vectors (`BitVec<Msb0>`) are sequences of booleans, and the vectors of rows and of columns are arrays of such sequences.
- `Day04.BingoBoard.Mark`: the score is the integer difference of column totals and marked sums; the `usize` underflow panic the program would hit if a number were marked twice on a board is not modelled.
- `Day04.TryFrom`: a board line with more than five numbers makes the program index past its column sums and panic; the model requires every line to hold at most five numbers.
- `optimal_crab_alignment_gauss_sum` (day7/src/main.rs:140-165) is not modelled: it rounds an `f64` average, and floating point is outside the model.
- `Day07.Select`: the random pivot choices become a finite list of draws, each taken modulo the slice length; with a short or unlucky list the model answers None where the program would keep drawing, so termination with probability one is not modelled.
- `Day07.FindKthElement`: answers None when its draws run out, as `Day07.Select`.
- `Day07.FindKthElementCorrected`: answers None when its draws run out, as `Day07.Select`.
- `Day07.OptimalCrabAlignmentL1`: answers None when either quickselect runs out of draws.  It uses the corrected quickselect (see "Findings"); with two crabs the program's own median is the first crab's position averaged with the larger one, which lies between the two and has the same least cost.
- Day08: the program compares `len()` of a segment word, a count of bytes, where the model counts characters (`|word|`); the two agree for text in ASCII, which the puzzle's letters a to g are.
- Day08.AsciiOrd: characters above U+00FF are truncated to their low byte as the `as u8` cast does; only letters up to U+00FF get a contract.
- Day08.Unscramble: the seven-slot `result` array is written by six straight-line assignments and one lookup; it is modelled as a value sequence updated by `Assign`, with the same slots and order.
- Day08.UnscrambleCorrect: proved for pattern sets that are the ten digits shown through a wiring; other inputs are only modelled (None wherever the program panics on `expect`).
- Day08.ParseEntry: Rust's `split('|')` always yields a first piece, so only a missing output part is an error; a third '|'-separated piece is ignored.
- Day09.Basins: requires every row to be at least as long as the first (`Readable`); on a ragged map the program indexes past a short row and panics.  The label grid `basin_map` is a local in the program and is returned here so the contract can speak of it.  Sorting the basins and multiplying the three largest is in `main` and not modelled.
- Day09.RiskLevel: requires `Readable`, as `Day09.Basins`.
- Day10.Sort: `sort_unstable` is a library call; it is modelled by an insertion sort, which yields the same ascending sequence.
- Day11Octopus.OctopusGrid.SynchronizedStep: the source repeats steps without bound until all 100 flash; the model stops after `limit` steps and returns None.
- Day11: levels are unbounded integers rather than `u8`; after a step of a board of digits every level is at most 9 (`AfterStepBounded`), so the increments never approach 255.
- Day11: `Display` for the board is output formatting and is not modelled.
- Day11Octopus.OctopusGrid.FlashPositions: the order of the product (x, y) is not stated; the flashed set and count do not depend on it (`FlashSetUnique`).
- Day12.DepthFirst: requires that no passage joins two big caves (`NoBigPair`); on such a system the program recurses without end.  Passages listed twice are walked twice, as in the program.
- Day12.DepthFirstTwice: requires `NoBigPair`, as `Day12.DepthFirst`.
- Day12.PathsCount and Day12.PathsCountSmallTwice: require `Valid`, as `Day12.DepthFirst`; a parsed system is always closed (`Day12.AdjacencyClosed`).
- Day12: `HashMap` and `HashSet` are modelled by `map` and `set`; the order of a cave's list is the order its passages were read, as with `Vec::push`.
- Day12.DepthFirstStep and Day12.DepthFirstTwiceStep: the loop bodies of the two searches are written as their own methods so that each search's proof stays small; they do what the loop body does.
- Day13.Translate: a dot more than twice the line away underflows `axis - (x - axis)`; the model answers None there, as for a panic, and `Day13.FinalDots` and `Day13.CountDots` answer None in turn.
- Day13: `DotMap`'s `Display` is output formatting and is not modelled; parse errors are a small error datatype instead of `anyhow` messages.
- Day14: `read_input` (the first line is the polymer, blank lines are skipped and a later rule for the same pair replaces an earlier one) reads the file and is not modelled beyond `Day14.ParseRule`; the simulation takes the polymer and the rule map as parameters.
- Day14: the `HashMap` counters are multisets; the order in which a step visits the pairs is an arbitrary choice, and the results do not depend on it.
- Day14: `chain.rs` is a module that `main.rs` never uses; it is not part of this model.
- Day15.CaveMapOf: `max_x` is the first line's length in bytes while the cells are filled per character; the model works on characters, so the two agree only for text in ASCII.
- Day15Search.LowestRiskLevel: the search uses the corrected `Day15.CostOf` (see "Findings"); with the program's own `cost_of` it agrees whenever the map is square (`Day15.SquareAgrees`). Costs are unbounded, so a usize overflow of `cost + cost_of` is not modelled; the order in which `BinaryHeap` breaks ties between equal costs is left arbitrary.
- Day15: `Display for CaveMap` renders the map and is not modelled.
- Day16: the panics of the decoder and evaluator are results: a character below 'A' that is not a digit (`as_nibble` underflows) is BadHexDigit, a literal of more than 16 groups (a shift of 64 bits or more) is ShiftOverflow, a usize overflow in `sum` or `product` is Overflow, and a comparison with fewer than two operands (an index out of bounds) is MissingOperand.  `anyhow` messages are error constructors.
- Day16.ParseSpan: where a subpacket of a bit-length operator consumes no bits (possible only at the end of the text), the program repeats the same step forever; the model answers Diverges there.
- Day16.ParseOperator: the arm for a length type other than 0 and 1 cannot be reached, because a 1-bit read is 0 or 1; it is not modelled.
- Day16.VersionSum: the `usize` overflow of the sum is not modelled (unbounded integers).
- Day16Bits.ReadTo: requires `len <= 16`, the widest read the program makes being 15 bits; `result |= 1 << (len - i - 1)` is modelled as an addition, since that bit is not yet set.  A `u8` or `u16` result never truncates at the widths used.
- Day16Bits.BitsIter: `processed_bits` and `bit_idx` are unbounded naturals; their `usize` and `u8` overflow is not modelled.
- Day16Bits.ReadTo: the loop body is written as the method `Day16Bits.ReadStep` so that the proof of each stays small; together they do what the loop does.
- Day 17 (day17/src/main.rs) is not modelled: its core solves quadratic inequalities with `f64` square roots and rounds them with `floor`/`ceil` (`solve_bounds`, day17/src/main.rs:10-28), and floating point is outside the model.
- Day18.Number.ApplyReduce: the number of reduction actions is bounded by `fuel`; when it runs out the model stops with `done` false, where `apply_reduce` (day18/src/main.rs:275-343) loops until no action applies.  That the puzzle's reduction always ends is not proved here.
- Day18.Number.Add: takes the same `fuel` and passes it to `Day18.Number.ApplyReduce`; `done` false means the fuel ran out, not a failure of the program.
- Day18.Number.ExplodeQueued and Day18.Number.SplitUntilDeep: the inner loops of `apply_reduce` are methods of their own, sharing the `fuel` bound; `finished` false means the fuel ran out.
- Day18.Number.Add: requires both numbers to have depth at most 4, as every number of the puzzle's input and every reduced sum has; `add` accepts deeper numbers, and then its explosions can meet a pair that does not hold two regular numbers, where the accessors (day18/src/main.rs:24-71) panic.
- Day18.Number.ApplyReduce: requires depth at most 5 and a queue of exactly the pairs inside four pairs, which is what `add` hands it; on deeper numbers the accessors would panic.
- Day18.ParseInner and Day18.Parse: where `parse_inner` panics (`iter.next().unwrap()` at the end of the text, or `to_digit(10).unwrap()` on a character that is not a digit, day18/src/main.rs:78-93) the model answers `ok == false`.
- Day18.Number.ExplodeAt and Day18.Number.AddToNeighbours: require that the pair holds two regular numbers (`Explodes`), standing in for the panics of `left`, `right` and `value` on the wrong variant; `Day18Snail.NestedExplodes` shows every queued pair meets it in `apply_reduce`.
- Day18.Number.ExplodeQueued: the program skips a queued entry whose pair is no longer a child of its parent (day18/src/main.rs:279-283); the model keeps that test, and its queue never holds such an entry, so the skip is never taken.
- Day18.Number.FirstOnLeft and Day18.Number.FirstOnRight: the depth they return beside the index is not stated; `apply_reduce` ignores it.
- Day18: `Display` and `represent` (day18/src/main.rs:100-175) are rendering only and are not modelled; `main`'s fold of the additions and its maximum over all ordered pairs (day18/src/main.rs:364-405) are not modelled, while each `add` and `magnitude` they call is.
- Day18: values and indices are unbounded naturals; the `usize` overflow of `add_value` and of `3 * l + 2 * r` in `magnitude` is not modelled.
- Day18: `add` takes the number by value and the model updates it in place (`Day18.Number.Add` modifies `this`); the caller's `clone` is not modelled.
- Day19.ScannerPositions: the number of rounds of the `while` loop is bounded by `fuel`, after which the model answers None; the program loops for ever when some scanner never matches, and when two scanners share an id it can never record as many origins as scanners.  `scanners[0]` on an empty map panics, modelled as the precondition `scanners != []`.
- Day19.ScannerPositions: points are unbounded integer triples, so the `i64` overflow of `matrix * point + translation_v` and of the distance sums is not modelled.
- Day19.FindMatch: `HashMap` iteration order is left open: the model may return any pair whose distance sets share twelve values, where the program returns the first in its own order.  `Day19.PointCloudDistances` and `Day19.Visit` are stated for every order.
- Day19.Visit: the recorded placement keeps the paired beacons and the twelve-beacon overlap, but not that `find_match` chose the pair by fingerprint; the contract speaks only of what the rotation loop checks.
- Day19.ReadScanner: the program panics (`expect`, an index past three values) on a missing or malformed header, a missing beacon line or a line with fewer than three numbers; the model answers None.  A beacon line's pieces that do not parse as `i64` are dropped, as `flat_map` does, and values after the third are ignored.
- Day19.ParseWrittenReport: stated for reports with at least one beacon each, ids within `usize` and coordinates within `i64`, written with the canonical decimal form; other texts are parsed by the model but have no round trip.
- Day19.LargestSeparation: the first answer of `main`, `points.len()`, is the size of the known cloud and is not stated separately; the vector of distances is collected first and its maximum taken afterwards, as in the program.
- Day21.ParseGameState: the `unwrap`s that panic (fewer than two lines, a missing prefix, a number that does not parse as u64) answer None.
- Day21.SimulateGame and Day21.CountWins: a starting space 0 underflows `one_pos - 1` in the program; the model answers None there. Scores, roll counts and win counts are unbounded, so a `u64` overflow is not modelled.
- Day21.TakeTurn: the two branches of the loop of `simulate_game` are the same code for the two players; they are written once as this method so that the proof of the loop stays small.
- Day21.CountRoll: the loop body of `count_states` is written as its own method for the same reason; `CountStates` and `CountRoll` call each other.
- Day21.CountStates: the memo is a `map` field of the class `Memo`; the partial entry the program writes for the current state while its loop runs is never read back, because every sub-game has a lower rank, and the contract says so.
- `Day23.ParseState`: requires the cell of every letter to lie on the board (at most 4·D letters A..D, and at least 11 cells); with more letters the program's array write goes out of bounds and panics.  The board size N, a const generic in the program (19 and 27), is a parameter.
- `Day23.Apply`: requires the source cell to hold an amphipod; the program only applies generated moves, which do (`Day23Moves.LegalBounds`), and on an empty cell `as usize - 1` would underflow.
- `Day23.NextMoves`: requires a well-formed board (`Day23.Wf`): cells 0..4, settled rooms, no kind with more amphipods than a room has slots.  The search only visits such boards (`Day23Moves.StepPreservesWf`); on other boards the depth `unwrap_or(ROOM_DEPTH) - 1` can go below zero, which panics in the program.
- `Day23Search.OrganizingCost`: requires a well-formed starting board, as `Day23.NextMoves`.  The number of heap pops is bounded by `fuel`; when it runs out the model answers OutOfFuel, where the program goes on searching.  The program ends because there are finitely many boards; that bound is not proved here.
- `Day23Search.OrganizingCost`: energies are unbounded naturals; `u64::MAX` stays the table's default, so an energy at or above it is never pushed, as in the program, but the wrap-around of `cost + move_cost` is not modelled.  `BinaryHeap`'s order among entries of equal energy is left arbitrary.
- Day23: the unfolding of the input for part two (splicing two lines into the text) is in `main` and not modelled; `Day23.ParseState` reads either text.
- Day25.StepsToStop: takes a bound `fuel` on the number of steps and answers None past it; the program loops for ever on a map that never settles (a lone east cucumber in an otherwise empty row moves round it for ever).
- Day25.CucumberMap.Step and Day25.CucumberMap.PerformStep: require `Steppable`, a non-zero width when there is an east herd and a non-zero height when there is a south herd; the program divides by zero otherwise (a first line that is empty but later lines with cucumbers).
- Day25.FromStr: the width is the first line's length in characters; the program takes its length in bytes, which differs for non-ASCII input.  Lines longer than the first are read as they are, as in the program; `Day25.ParsedWellFormed` and the size-keeping lemmas speak of maps whose lines have equal length.
- Day25.CucumberMap.PerformStep: the program walks the hash set in an unspecified order; the model picks members in an arbitrary order, on which the result does not depend.
- Day20.TrenchMap.Enhance: the image is a set of unbounded integer pairs, so the `i64` overflow of `min_x - 1` and similar bounds is not modelled; `HashSet`'s iteration order does not affect the extremes or the new set.
- Day20.ParseTrenchMap: the model reads the lit pixels of the lines after the second directly; the program joins them with "\n" and trims trailing whitespace first, which removes no '#'.
- Day20.EnhanceIntended: a value model; the program's `enhance` is kept as written in `Day20.TrenchMap.Enhance`.
- Day22: bounds, areas and sums are unbounded integers; the `isize` overflow of `x1 - x0 + 1` and of the products and the sum is not modelled.
- Day22.ParseStep: a range without ".." makes the program's second `unwrap` panic; the model answers `MissingEnd`.  Ranges after the third and words after the second are ignored, as in the program.
- Day22.CountsCubesOn: speaks of steps whose bounds are in order (`Proper`); for a range with lo > hi the program's `area` is a negative or wrong product, which is not characterised.
- Day22.KeepInLimit, Day22.IntersectAll and Day22.SumAreas: the filter, the inner loop and the final sum of `on_cubes_count` are written as methods of their own so that each proof stays small.
- `Day24.Exec`: the program is taken as built in Rust's debug profile, where an `i64` addition or multiplication that overflows panics (`Overflow`); in a release build it would wrap around instead, which is not modelled.
- `Day24Search.SearchSolutionSpace`: the program relies on the puzzle's MONAD program being fourteen blocks of the shape `Day24Search.BlockOf` with the constants `SUBROUTINE_COEFFS`; the model proves that the search's z is what such blocks compute (`Day24Search.BlockComputes`) but, like the program, does not check an input file against that shape.
- `Day24Search.TryDigit`: the loop body of `search_solution_space` is written as its own method so that the proofs of the two stay small; the two call each other as the program's function calls itself.
- `Day24Search.FindModelNumber`: after a search that fails, the digits left in `path` are not stated; `main` prints them but never relies on them.
- Day24: the panic of `bad_branches - 1` at 0 is modelled as `Underflow` and proved never to happen from `main`'s searches (`Day24Search.FirstSolutionNoUnderflow`).  `digits_of` is never called by `main`; it is modelled all the same.

## Findings

| source | as written | input that shows it | evidently intended | confidence | as-written member | corrected member |
|---|---|---|---|---|---|---|
| day7/src/main.rs:80-82 | `find_kth_element` leaves its loop at once when k = 0 and returns the first element of the collection | collection [5, 1], k = 0: returns 5 | the smallest element, 1 (the 0-th order statistic, as for every other k) | high; not executed | `Day07.FindKthElement` with `Day07.FirstIsNotSmallest` | `Day07.FindKthElementCorrected` |
| day15/src/main.rs:120 | outside the first tile `cost_of` reads column `x % max_y`, the remainder by the map's height | a map one row high and two columns wide, "12", cell (3, 0) of the full cave: reads column 3 % 1 = 0 (level 1) and gives 1 + 1 = 2 | column `x % max_x` = 1 (level 2), giving 2 + 1 = 3; the two agree only on square maps | high; not executed | `Day15.CostOfAsWritten` with `Day15.WrongColumn` | `Day15.CostOf` |
| day3/src/main.rs:83 | the search loop runs `for i in 0..verticals[0].len()`, the length of a column, which is the number of rows rather than the number of columns | rows 000 and 001: the loop stops after two columns with both rows left and loads 000, and the oxygen rating is 0 instead of 1 (`Day03.RowBoundStopsEarly`); rows 0 and 0: the loop indexes a second column that does not exist and panics (`Day03.RowBoundPanics`) | the loop runs over the columns, `0..verticals.len()` | high; not executed | `Day03.LifeSupportRating` with `Day03.RowBoundStopsEarly` | `Day03.LifeSupportRatingIntended` |
| day3/src/main.rs:92-93 | the CO2 search keeps the bit `ones_count < zeros_count`; when all remaining candidates share a bit, that keeps the bit none of them has and drops them all | rows 01 and 00: on the first column ones = 0 < zeros = 2, so rows with a 1 are kept and none is left (`Day03.Co2CanEmpty`); the program then loads whatever row comes first | a bit all remaining candidates share is kept (only the least common of two present bits narrows), so the candidates are never emptied and 00 is chosen on the tie of the second column (`Day03.Co2IntendedKeeps`) | medium; not executed | `Day03.LifeSupportRating` with `Day03.Co2CanEmpty` | `Day03.LifeSupportRatingIntended` with `Day03.Decides` |
| day20/src/main.rs:109-115 | each pass computes the box of the lit pixels afresh and reads every pixel outside it as background | algorithm lit at indices 0 and 16 only, image the single pixel (0, 0): after one pass (0, 0) is lit and its 8 neighbours are dark while everything else is lit; the box shrinks back to (0, 0), so the second pass reads the dark neighbours as lit and nothing is lit afterwards | the pixels of the grown region keep their own values and only pixels beyond it take the background, so (0, 0) is lit after two passes | medium; not executed | `Day20.TrenchMap.Enhance` with `Day20.ShrunkBoxMisread` | `Day20.EnhanceIntended` with `Day20.IntendedTracks` |
| day22/src/main.rs:149-158 | with a limit, a step is dropped whole unless all six of its bounds lie within the limit | the single step "on x=0..51,y=0..0,z=0..0" with the limit (-50, 50): the program counts 0 | the cubes of the limit's cube that are on are counted: each step is clipped to the cube, giving 51 | medium; not executed | `Day22.OnCubesCount` with `Day22.StraddlingStepDropped` | `Day22.OnCubesCountClipped` with `Day22.ClippedCountsCubesOn` |
