# Advent of Code 2022, days 1–5, in Dafny

A model of the puzzle solutions in `day1` to `day5` of the repository, with
the properties they are written to have stated and proved.

The centre of the model is day 5, the supply stacks. Its parts:

- **The loader.** `loadStacks` reads the drawing of the crate stacks into
  singly linked lists, one per stack, top crate first (`Diagram`,
  `DiagramText`).
- **The instruction reader.** `readInstruction` reads each
  `move c from f to t` line from its end back to its start (`Instructions`).
- **The two cranes.** `parseSequentialInstruction` moves crates one at a
  time; `parseBatchedInstruction` moves the whole block at once.
- **The report.** It gives the top crate of every stack.

The linked lists are an index arena: a class `CrateArena.Arena` whose nodes
are positions in `value`/`below` sequences, and whose `stacks` array holds the
head of each stack. Every arena method is proved to compute a function on
plain sequences of crate letters (`SupplyStacks`). The laws of the two cranes
are proved about those functions.

`Rearrangement` carries out a whole input: load, every move line, then the
report. It is a function `Solve` and a method `Rearrange` on the arena, and
`Rearrange` is proved to equal `Solve`. Where the C code would dereference
`NULL`, index outside `stacks` or read past the terminator, the model stops
with a `Fault` value.

The other days:

- **Day 1 (`CalorieCounting`).** The backward group-sum scanner of both
  parts. `checkMax` is a method on an array that keeps the three largest
  values.
- **Day 2 (`RockPaperScissors`).** The scoring tables and their two loops,
  checked against the rules of the game.
- **Day 3 (`Rucksack`).** Letter sets as 32-bit words (`Bitset`), the
  bit-position sum, and the shared letters of two halves or of three lines.
- **Day 4 (`CampCleanup`).** The two overlap tests and the backward
  `a-b,c-d` scanner. The scanner tracks the uninitialised locals of the C
  code.

`Samples` works the puzzle's example of day 5 through the model: its drawing,
its four moves with each crane and the answers `CMZ` and `MCD`. It also
proves that the loop carries out well-placed move lines in order, and shows
an input with a stack that gets no crate.

`Text.Find` is `strchr` on the characters of a C string before its
terminator. `Decimal` writes and reads decimal numbers, for the round trips
of the readers.

## Model

| member | source | states |
|---|---|---|
| Diagram.LoadMissingLineBreak | day5/day5.cpp:62-67 | loading fails with the `-1` result exactly when the input has no line break |
| Diagram.LoadColumns | day5/day5.cpp:73-75 | the number of stacks is the first line's length plus one, over four |
| Diagram.Cells | day5/day5.cpp:94-115 | one row's cells keep the number of stacks, end at or past the row's limit, and fail only on malformed drawings |
| Diagram.ReadRow | day5/day5.cpp:94-115 | the inner loop on the arena succeeds exactly when `Cells` does; it appends each crate below its stack's bottom node and keeps `builders` pointing at those bottom nodes |
| Diagram.LoadStacks | day5/day5.cpp:60-121 | the loader on a fresh arena succeeds exactly when `Load` does, with the same error; the arena then holds `Load`'s stacks and `start` is two past the blank line's line break |
| Diagram.TowerOverreads | day5/day5.cpp:117 | with the row advance as written, a three-row drawing of one stack fails; with rows one line apart it loads as `ABC` |
| DiagramText.FillMeaning | day5/day5.cpp:97-105 | reading the rows puts each stack's crates in top-row-first order: stack `c` is its old contents followed by column `c` |
| DiagramText.LoadLaidOut | day5/day5.cpp:88-120 | a drawing whose rows stand one width apart, followed by the label row and the blank line, loads as the columns filled row by row |
| DiagramText.LoadPicture | day5/day5.cpp:88-120 | loading a drawn picture succeeds; there are `n` stacks, each is its column from the top row down, and the instructions start two past the blank line's line break |
| Instructions.ReadInstruction | day5/day5.cpp:181-220 | the backward reader returns what `ReadLine` specifies, including its two error cases (stepping in front of the text, returning an unset field) |
| Instructions.ReadLaidOut | day5/day5.cpp:181-220 | when the three numbers stand at their places between the separators, reading back from the end of the line gives count, from minus one and to minus one |
| Instructions.ReadMoveLine | day5/day5.cpp:174-220 | reading `move c from f to t` back from its end gives count `c`, from `f - 1` and to `t - 1`, for numbers of any length |
| SupplyStacks.BatchedLaw | day5/day5.cpp:156-171 | a batched move puts the top `count` crates of `from` in order on top of `to`, leaves the rest of `from`, and changes no other stack |
| SupplyStacks.BatchedSelf | day5/day5.cpp:168-170 | a batched move onto its own stack changes nothing |
| SupplyStacks.SequentialLaw | day5/day5.cpp:130-146 | a one-at-a-time move puts the top `count` crates of `from` reversed on top of `to`, leaves the rest of `from`, and changes no other stack |
| SupplyStacks.OneCrateAgrees | day5/day5.cpp:130-171 | moving one crate gives the same stacks with either crane |
| SupplyStacks.BatchedKeepsCrates | day5/day5.cpp:156-171 | a batched move keeps the multiset of all crates |
| SupplyStacks.SequentialKeepsCrates | day5/day5.cpp:130-146 | a one-at-a-time move keeps the multiset of all crates |
| SupplyStacks.Tops | day5/day5.cpp:275-280 | the report has one letter per stack, the top crate of stack `i` at position `i` |
| CrateArena.Arena.constructor | day5/day5.cpp:78-86 | a fresh valid arena with `n` empty stacks and no nodes |
| CrateArena.Arena.AppendBelow | day5/day5.cpp:99-105 | a new node with the crate letter goes at the bottom of its stack; no other stack changes and the node is the new bottom |
| CrateArena.Relink | day5/day5.cpp:137-142 | after the counted loop, the moved nodes are linked in reverse on top of the target's list, the source list starts at the node after them, and every other list is intact |
| CrateArena.Arena.SequentialMove | day5/day5.cpp:130-146 | the arena stays valid and its stacks become `Sequential` of the old ones |
| CrateArena.Arena.BatchedMove | day5/day5.cpp:156-171 | the arena stays valid and its stacks become `Batched` of the old ones |
| CrateArena.SequentialDone | day5/day5.cpp:137-145 | once the loop has relinked `count` nodes and both heads are written back, the arena is well formed and spells `Sequential` of the old stacks |
| CrateArena.BatchedDone | day5/day5.cpp:163-170 | relinking the bottom node of the block onto the target's head and moving both heads leaves a well-formed arena that spells `Batched` of the old stacks |
| CrateArena.BatchedSelfDone | day5/day5.cpp:168-170 | on one stack the two writes put back the link and the head they found, so nothing changes |
| CrateArena.Arena.TopCrates | day5/day5.cpp:275-280 | the report loop returns `Report` of the stacks the arena holds |
| CrateArena.Arena.Depth | day5/day5.cpp:163-166 | following the links from a head counts exactly the crates of that stack |
| Rearrangement.WalkWraps | day5/day5.cpp:163-166 | the bottom-finding walk goes round the stack and its `NULL`: after `count` steps it ends at depth `(count - 1) mod (depth + 1)` |
| Rearrangement.WalkWithin | day5/day5.cpp:163-166 | within the stack the walk stops on the `count`-th crate |
| Rearrangement.Execute | day5/day5.cpp:130-171 | one instruction keeps the number of stacks, and every failure names the instruction |
| Rearrangement.ExecuteWithin | day5/day5.cpp:130-171 | an instruction within the stack and, for one at a time, between two stacks carries out exactly `Sequential` or `Batched` |
| Rearrangement.ExecuteKeepsCrates | day5/day5.cpp:130-171 | no successful instruction creates or loses a crate |
| Rearrangement.RunKeepsCrates | day5/day5.cpp:265-273 | no successful run of the instruction loop creates or loses a crate |
| Rearrangement.RunStopsAtLine | day5/day5.cpp:265-268 | a line that cannot be read stops the instruction loop with that reading error |
| Rearrangement.RunStopsAtMove | day5/day5.cpp:265-268 | a move that cannot be carried out stops the loop with that move |
| Rearrangement.RunGoesOn | day5/day5.cpp:265-273 | after a move the loop ends if the line ran to the terminator, and otherwise goes on after the line break with the new stacks |
| Rearrangement.Solve | day5/day5.cpp:253-285 | a result exists only when the drawing loads and gives every stack a crate, and it has one letter per stack |
| Rearrangement.SolveReportsTops | day5/day5.cpp:253-285 | a result is the top crate of every stack of some arrangement with the loaded number of stacks, no empty stack and the same multiset of crates |
| Rearrangement.Apply | day5/day5.cpp:267-268 | one instruction on the arena succeeds exactly when `Execute` does, and the arena then holds `Execute`'s stacks |
| Rearrangement.Turn | day5/day5.cpp:265-268 | one turn of the loop reads the next line and carries it out; the rest of `Run` from here is the rest from the next line, or its end, or its fault |
| Rearrangement.Perform | day5/day5.cpp:265-273 | the instruction loop on the arena ends with the stacks `Run` computes, or with the fault `Run` reports |
| Rearrangement.Rearrange | day5/day5.cpp:253-285 | `partOne` (one crate at a time) and `partTwo` (`day5/day5.cpp:300-332`, the block at once) on the linked stacks return exactly `Solve` |
| Samples.MoveLineAt | day5/day5.cpp:265-268 | from any place within a `move c from f to t` line the loop finds its end, and reading back from there gives count `c`, from `f - 1` and to `t - 1` |
| Samples.RunSteps | day5/day5.cpp:265-273 | over lines each of which reads as its move, one after the other up to the end of the text, the instruction loop carries out the moves in order |
| Samples.ExampleLoads | day5/day5.cpp:60-121 | the drawing of the puzzle's example loads as the stacks `NZ`, `DCM` and `P`, whatever follows it |
| Samples.ExampleMovesOne | day5/day5.cpp:130-146 | each of the example's four moves, one crate at a time, carries out its law, taking `NZ`, `DCM`, `P` step by step to `C`, `M`, `ZNDP` |
| Samples.ExampleMovesBlock | day5/day5.cpp:156-171 | each of the example's four moves, the block at once, carries out its law, taking `NZ`, `DCM`, `P` step by step to `M`, `C`, `DNZP` |
| Samples.ExampleAnswerOne | day5/day5.cpp:265-280 | the example's moves one crate at a time end on `C`, `M`, `ZNDP`, whose tops are `CMZ` |
| Samples.ExampleAnswerBlock | day5/day5.cpp:265-280 | the example's moves each block at once end on `M`, `C`, `DNZP`, whose tops are `MCD` |
| Samples.OneSidedLoads | day5/day5.cpp:88-120 | a two-stack drawing with crates only in the first column loads as `AB` and an empty second stack |
| Samples.OneSidedUnset | day5/day5.cpp:78-86 | on that input the run stops with `UnsetHead` whichever crane moves, since the second head is never written |
| SequentialAsWritten.Loop | day5/day5.cpp:137-142 | the loop as written keeps the number of links |
| SequentialAsWritten.MoveAsWritten | day5/day5.cpp:130-146 | the instruction as written keeps the numbers of links and heads |
| SequentialAsWritten.NoStackThroughSelfLink | day5/day5.cpp:139-141 | once node 0 links to itself, no list of crates starts at node 0 |
| SequentialAsWritten.HeadOwned | day5/day5.cpp:130-146 | in a well-formed arena the top node of a non-empty stack is owned by that stack |
| SequentialAsWritten.SharedHeadIllFormed | day5/day5.cpp:130-146 | no well-formed arena has two stacks with the same top node |
| SequentialAsWritten.OneCrateShared | day5/day5.cpp:137-145 | moving one crate as written leaves both heads on the moved node, which no well-formed arena allows, where one at a time gives `""` and `"A"` |
| SequentialAsWritten.TwoCratesSelfLink | day5/day5.cpp:137-145 | moving two crates as written leaves both heads on one node that links to itself, where one at a time gives `""` and `"BA"` |
| Rucksack.CalculateBits | day3/day3.cpp:44-54 | the loop leaves the two sets `Bits` describes |
| Rucksack.LetterBit | day3/day3.cpp:50-51 | bit `k` (1..26) of a class set is on exactly when that class's `k`-th letter occurs |
| Rucksack.OtherBit | day3/day3.cpp:50-51 | bit 0 of a class set is on exactly when some character outside the class occurs |
| Rucksack.HighBitClear | day3/day3.cpp:50-51 | no bit from 27 on is ever set |
| Rucksack.SumBitPositions | day3/day3.cpp:65-74 | the result is the sum of `base + j` over the set bits `j` of the word |
| Rucksack.LetterPriority | day3/day3.cpp:78-79 | the `k`-th letter is worth `k` in lower case and `26 + k` in upper case, which is the class base plus `k - 1` |
| Rucksack.PairSum | day3/day3.cpp:93-94 | the two shifted, intersected sums give the priorities of the distinct letters both parts share |
| Rucksack.TripleSum | day3/day3.cpp:130-131 | the same for the letters all three parts share |
| Rucksack.OneSharedLetter | day3/day3.cpp:139-142 | when exactly one letter is shared, the sum is that letter's priority |
| Rucksack.RucksackDuplicates | day3/day3.cpp:84-95 | the result is the priorities of the letters shared by the two halves, split at half the length |
| Rucksack.GroupBadge | day3/day3.cpp:104-132 | the result is the priorities of the letters shared by the three lines, and `*start` moves one past the third line's end |
| Rucksack.GroupOfLines | day3/day3.cpp:104-132 | on text made of terminated lines a group reads the first three lines and leaves `*start` on the fourth |
| Rucksack.PartOne | day3/day3.cpp:153-167 | the loop sums the score of every line from the start, the last one included |
| Rucksack.SplitJoin | day3/day3.cpp:158-164 | cutting lines joined by single breaks at each break gives the lines back |
| Rucksack.TotalOfJoin | day3/day3.cpp:153-167 | on lines joined by single breaks, part one sums every line's score, the last one included |
| Rucksack.PartTwo | day3/day3.cpp:184-194 | on groups of three terminated lines followed by a last piece without a line break, which the loop never reads, the loop sums every group's badge |
| CampCleanup.FullOverlapMeansContainment | day4/day4.cpp:40-46 | for well-formed ranges the full test holds exactly when one range contains every section of the other |
| CampCleanup.PartialOverlapMeansSharedSection | day4/day4.cpp:61-67 | for well-formed ranges testing the two start points holds exactly when the ranges share a section |
| CampCleanup.OverlapSymmetric | day4/day4.cpp:40-67 | neither test depends on which range comes first |
| CampCleanup.FullImpliesPartial | day4/day4.cpp:40-67 | for well-formed ranges a full overlap is a partial one |
| CampCleanup.TrailingBreakUndefined | day4/day4.cpp:111-135 | a text ending in a line break reads the never-written range variables |
| CampCleanup.ScanLine | day4/day4.cpp:109-163 | one `a-b,c-d` line read backwards leaves `firstUpper = d`, `firstLower = c`, `secondUpper = b` and `a` in `section`, all else unchanged |
| CampCleanup.ScanLines | day4/day4.cpp:100-164 | on `a-b,c-d` lines joined by line breaks, the backward scan ends on the first line's values with every later line counted, and reads nothing unset |
| CampCleanup.CountOverlaps | day4/day4.cpp:81-171 | the counting loop returns the count the backward scan specifies, when no range variable is read before it is written |
| CampCleanup.PartOne | day4/day4.cpp:81-171 | `partOne` counts with the full test |
| CampCleanup.PartTwo | day4/day4.cpp:183-273 | `partTwo` counts with the partial test |
| CampCleanup.CountOfLines | day4/day4.cpp:81-171 | on a list of `a-b,c-d` lines the run is defined and counts exactly the lines whose ranges overlap under the part's test |
| CalorieCounting.PartOne | day1/day1.cpp:37-95 | the result is at least every group sum the scanner sees, and it is one of them or 0 |
| CalorieCounting.ScanBlock | day1/day1.cpp:64-86 | within one elf's lines the open group's sum grows by the total of its numbers and no group is closed |
| CalorieCounting.GroupsOfInventory | day1/day1.cpp:62-90 | on a well-formed inventory the groups the scanner sees are the elves' totals, the last elf first |
| CalorieCounting.InsertionPoint | day1/day1.cpp:114-123 | the first loop stops one past the last slot greater than the value; no slot after it is greater |
| CalorieCounting.CheckMax | day1/day1.cpp:109-133 | the array becomes `InsertTop` of its old contents and the value |
| CalorieCounting.InsertTopKeepsLargest | day1/day1.cpp:109-133 | a sorted array stays sorted and the same size; a value below the smallest slot changes nothing; otherwise the new contents are the old ones plus the value, less the old smallest |
| CalorieCounting.XorTripleSwaps | day1/day1.cpp:127-129 | the three XOR assignments exchange the value and the slot |
| CalorieCounting.CheckMaxKeepsLargestThree | day1/day1.cpp:109-133 | if the array held the three largest of a pool, after `checkMax` it holds the three largest of the pool plus the value |
| CalorieCounting.TopAfterIsLargestThree | day1/day1.cpp:149-209 | after every group, the array holds the three largest of the three zero slots and the group sums |
| CalorieCounting.PartTwo | day1/day1.cpp:149-220 | the result is the sum of the array after every group sum, and that array holds the three largest of three zeros and the group sums |
| RockPaperScissors.RoundOneFollowsRules | day2/day2.cpp:42-61 | the opponent a response beats is not the one it draws with; a round scores the response's value plus its outcome score, between 1 and 9 |
| RockPaperScissors.StrategyReachesOutcome | day2/day2.cpp:92-97 | the part-two table names a real move, which reaches the asked outcome under part one's table with the same score |
| RockPaperScissors.PartOne | day2/day2.cpp:40-64 | the loop's score is the backward total of part-one rounds |
| RockPaperScissors.PartTwo | day2/day2.cpp:90-114 | the loop's score is the backward total of part-two rounds |
| RockPaperScissors.TotalOneVisitsEveryPair | day2/day2.cpp:49-61 | counting down from the end of `rounds` pairs, the loop scores every pair `(input[2i], input[2i + 1])` exactly once |
| RockPaperScissors.TotalTwoVisitsEveryPair | day2/day2.cpp:99-111 | the same for part two |
| RockPaperScissors.PartTwoPlaysPartOne | day2/day2.cpp:90-114 | part two's total over the pairs is part one's total over the moves it plays |

## Left out

- `main` in every file: `stdio_init_all`, `sleep_ms` and the `printf` output are device I/O. The day 5 report is returned as a value, not printed.
- `TEST_INPUT`, `ACTUAL_INPUT` and the constants of the `dayN.h` headers: the headers are not part of this model. Inputs are parameters. Day 2 takes the codes A/X, B/Y and C/Z as 0, 1, 2, and WIN, DRAW and LOSS as 6, 3 and 0, as the comments of `day2/day2.cpp` and its table indexing say.
- RockPaperScissors.PartOne: a code outside 0..2 is excluded by the type. The source would read outside its tables.
- `malloc`, `free` and `freeStacks`: the nodes are positions in an arena that is never freed. The undersized `malloc(sizeof(Stack_t*))` has no counterpart.
- Overflow of `int` and `uint32_t` sums: all sums and radixes are unbounded integers. The day 3 letter sets are words below 2^32, as in the source.
- CalorieCounting.CheckMax: the XOR swap is written as one parallel assignment. `XorTripleSwaps` shows that the three XOR steps on 32-bit words exchange the two values.
- CampCleanup.CountOverlaps: requires that no range variable is read before it is written, because the source reads uninitialised locals. `CampCleanup.TrailingBreakUndefined` shows that every text ending in a line break is such an input. The same holds for CampCleanup.PartOne and CampCleanup.PartTwo.
- Rucksack.PartTwo: requires groups of three lines that each end in a line break, then any last piece without one. The loop stops before that piece, so what it holds is never read. With a number of terminated lines that is not a multiple of three, the last group runs past the terminator or dereferences a `NULL` from `strchr`, which is undefined.
- Rucksack.GroupBadge: requires the two line breaks it dereferences.
- Day 5, undefined behaviour: the model stops with a `Fault` instead. Each case:
  - a `NULL` head or link is dereferenced. This happens with a batched count of 0, a walk that ends on `NULL`, a one-at-a-time count beyond the stack, or the report of an empty stack;
  - a stack index is outside `stacks`;
  - a crate falls in a column beyond the last stack, where the source writes `builders[N]`;
  - the loader or `strchr` reads past the terminator;
  - an instruction field is returned unset;
  - a stack's head is read after `malloc` left it unset (`UnsetHead`).
- CrateArena.Arena.constructor: starts every head at `Null`, where the `malloc` of `*stacks` leaves them unset and only a column that receives a crate gets its head written. Every run of the source reads every head, by a move or by the report, so `Rearrangement.Solve` and `Rearrangement.Rearrange` stop with `UnsetHead` when the drawing gives some stack no crate.
- The puzzle's example: no single lemma takes its whole text through `Rearrangement.Solve`. The steps are proved one by one: the drawing loads (`Samples.ExampleLoads`), each move line is found and read (`Samples.MoveLineAt`), the loop carries out located lines in order (`Samples.RunSteps`), and the moves give `CMZ` and `MCD` (`Samples.ExampleAnswerOne`, `Samples.ExampleAnswerBlock`).
- Rearrangement.Execute: a one-at-a-time move of one or more crates from a stack onto itself is a fault. Even with the intended pop and push, the loop would link the top node to itself. A negative count is also a fault, but the reader never produces one.
- Rearrangement.Walk: the batched walk is the source's loop. From `NULL` it steps back to the top crate, so a count beyond the stack wraps round; only a walk that ends on `NULL` is a fault.
- CrateArena.Arena.Depth: the source never counts a stack. The arena driver counts it first, so that a move deeper than the stack is reported instead of dereferencing `NULL`.
- Rearrangement.Solve: when `loadStacks` returns `-1`, the source goes on reading from `input - 1`; the model stops with `BadDiagram`. A start past the terminator stops with `StartPastEnd`. A trailing line break after the last move makes the final `readInstruction` return unset fields, so such an input stops with `BadLine(FieldUnset)`.
- Diagram.Load: rows are one row width apart, the width `loadStacks` takes from the first line. The row advance as written is under Findings.
- CrateArena.Arena.SequentialMove: advances `from` to the saved `temp`, as the function's pop-and-push design needs. The loop as written is under Findings.

## Findings

| source | as written | input that shows it | evidently intended | confidence | as-written member | corrected member |
|---|---|---|---|---|---|---|
| day5/day5.cpp:117 | the end of the next row moves on by `lineEnd + 1`, but rows are `lineEnd` characters apart | `[A]\n[B]\n[C]\n 1 \n\nmove 1 from 1 to 1`: the second row's scan runs into the third row and takes its `[` for a crate of a second stack that does not exist | move the row end on by `lineEnd`; the drawing then loads as the single stack `ABC` | not executed | Diagram.TowerOverreads | DiagramText.LoadPicture |
| day5/day5.cpp:139-141 | the loop saves `from->below` in `temp` but never moves `from` on to it, so the source's head is written back as it was | stacks `A` and empty, `move 1 from 1 to 2`: both heads name node `A`, so the one crate stands on both stacks (`SequentialAsWritten.OneCrateShared`); stacks `AB` (top `A`) and empty, `move 2 from 1 to 2`: node `A` links to itself and both heads end on it | `from = temp` after `to = from`, giving stacks empty and `BA` | not executed | SequentialAsWritten.TwoCratesSelfLink | CrateArena.Arena.SequentialMove |
