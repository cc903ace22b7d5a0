# aoc17 in Dafny

A model of the puzzle solvers of melngr/aoc17, Advent of Code 2017 in Python,
with proofs about them. Each solver file becomes one Dafny module named after
what it computes:

| module | file | what it computes |
|---|---|---|
| `Captcha` | `day01.py`, `17/day01.py` | the circular digit captcha: sums of digits equal to the next one, or to the one half way round |
| `Checksum` | `day02.py` | spreadsheet checksums: max minus min per row, and the quotient of the one evenly dividing pair |
| `Passphrase` | `day04.py`, `17/day04.py` | counts of passphrases without repeated words or without anagram pairs |
| `JumpMaze` | `day05.py`, `17/day05.py` | the jump-offset walk, with the plain and the "strange" offset update |
| `MemoryBanks` | `day06.py`, `17/day06.py` | memory-bank redistribution until a configuration repeats |
| `CondRegisters` | `day08.py` | conditional `inc`/`dec` instructions over a register dictionary |
| `Stream` | `solutions/day09.py` | the group and garbage stream scorer |
| `KnotHash` | `solutions/day10.py` | the knot hash: circular reversals, XOR blocks and hex rendering |
| `HexWalk` | `day11.py` | a walk on a hex grid in cube coordinates and its distances |
| `Firewall` | `day13.py` | scanner positions, trip severity and the first safe delay |
| `DiskGrid` | `solutions/day14.py` | the 128 by 128 bit grid made of knot hashes |
| `Generators` | `solutions/day15.py` | the two multiplicative generators and the judge's count |
| `Dance` | `day16.py` | the spin, exchange and partner dance with its memo cache |
| `Spinlock` | `solutions/day17.py` | the spinlock's circular buffer and the value after 0 |
| `RegisterBank` | `solutions/day18.py`, `day18.py`, `solutions/day23.py` | the `Registers` class shared by the three interpreters |
| `Duet` | `solutions/day18.py` | `sim_instructions`, the single-program sound interpreter |
| `DuetScheduler` | `solutions/day18.py` | `sim_dual`, two programs taking turns over message queues |
| `DuetLegacy` | `day18.py` | the older single-program interpreter |
| `Tubes` | `day19.py`, `solutions/day19.py` | the walk along the tube diagram |
| `Particles` | `day20.py` | particle kinematics, the closest particle and collision removal |
| `Virus` | `solutions/day22.py` | the virus carrier's simple and complex bursts |
| `Coprocessor` | `solutions/day23.py` | the `set/sub/mul/jnz` interpreter and the composite count `find_h` |
| `Bridges` | `day24.py` | bridge enumeration over components and the strongest bridges |
| `Turing` | `solutions/day25.py` | the six-state Turing machine and its checksum |

`PyLib` holds what the modules share from Python itself: exceptions as a
`Result` datatype (`ValueError`, `IndexError`, `KeyError`, `TypeError`,
`RuntimeError`, `ZeroDivisionError`, `SyntaxError`), `int()` on strings of an optional sign and ASCII digits, `str.split`, list
indexing with negative indices, floor `%`, `max`/`min` and `sum`.

The model keeps the form of the code. Loops that rewrite a list, a dictionary
or counters become methods with `while`/`for` loops. Each one is proved
against a specification function that states the same computation one step
at a time: `KnotHash.KnotHashRounds` against `KnotSpec`, `JumpMaze.FollowPlain`
against `Walk`, and so on. The properties are then lemmas about those
functions. The objects the code updates in place are classes:
`RegisterBank.Registers`, `Dance.Dancer` (the `memo` cache),
`Generators.Generator` (the generator's state), `Particles.Particle` and
`Particles.Swarm`, and `CondRegisters.Registers`. Pure code (`Bridges.Build`,
`gen_list`, `hex_dense`, `find_dist`) becomes functions.

Two conventions run through the model:

- A loop that may never end takes a `fuel` bound, and running out of fuel is
  an outcome of its own. This covers the interpreters, the maze, the memory
  banks, the firewall's delay search, the tube walk and the filtered
  generators.
- A fixed iteration count of the code is a parameter instead. This covers
  50000000 spinlock insertions, 10000 and 10000000 bursts, 12861455 Turing
  steps and a billion dances. `count_matches` keeps its own 40000000 and
  5000000 rounds (`Generators.Rounds`), because the count is chosen by the
  part inside the function. Its loop is specified by `Generators.Play`, which
  takes the number of rounds as an argument, and the lemmas about `Play` hold
  for every number of rounds.

`17/day04.py`, `17/day05.py` and `17/day06.py` hold the same functions as
`day04.py`, `day05.py` and `day06.py`, each seven lines earlier, only with
different readers. The members cited for the latter model both copies.
`17/day01.py` differs in `next_sum` alone, which is
`Captcha.NextSumWrapped`.

## Model

| member | source | states |
|---|---|---|
| Captcha.Term | day01.py:54-55 | a position adds its digit when it equals its partner and 0 otherwise; `int` fails exactly when a matching character is not a digit |
| Captcha.NextSum | day01.py:42-57 | the loop returns the running total of every digit equal to the next one round the circle, or the ValueError of the first non-digit match |
| Captcha.NextSumWrapped | 17/day01.py:36-54 | the explicit wrap of the older copy returns the same as `next_sum` above |
| Captcha.HalfSum | day01.py:66-83 | the loop returns the total for the partner half-way round the circle, or the first ValueError |
| Captcha.WrapIsMod | 17/day01.py:40-43 | `i + 1`, or 0 for the last index, is `(i + 1) % len` |
| Captcha.RaiseStops | day01.py:55 | once `int` raises, the exception is what the whole call returns |
| Captcha.EmptyCaptcha | day01.py:45-57 | the empty captcha sums to 0 |
| Captcha.TotalRaises | day01.py:54-55 | the sum raises if and only if some position matches its partner without being a digit, and the exception is ValueError |
| Captcha.TotalBounds | day01.py:43-57 | on a digit string the sum is defined and lies between 0 and 9 per position |
| Captcha.NoMatchZero | day01.py:54 | with no position equal to its partner, the sum is 0 whatever the characters |
| Captcha.TotalDigitStep | day01.py:54-55 | on a digit string each position adds its own term |
| Captcha.HalfTermMirror | day01.py:72 | for an even length the half-way pairing is symmetric: position `h + k` adds what position `k` adds |
| Captcha.HalfTotalSplit | day01.py:71-81 | the second half adds what the first half adds |
| Captcha.HalfSumSymmetric | day01.py:66-83 | for an even-length digit string `half_sum` is twice the sum over the first half |
| Checksum.ConvertRow | day02.py:65 | a row converts if and only if every cell parses as an integer, and then cell by cell; otherwise ValueError |
| Checksum.Convert | day02.py:63-69 | the sheet converts if and only if every row does, row by row; otherwise ValueError |
| Checksum.Render | day02.py:65 | writing a sheet out keeps its shape |
| Checksum.ConvertRender | day02.py:63-69 | reading back a written-out sheet gives the numbers back |
| Checksum.TotalChecksum | day02.py:77-81 | the loop returns the sum of the row spreads, an empty row adding 0 |
| Checksum.SpreadZero | day02.py:80 | a row's spread is never negative, and is 0 exactly when all its cells are equal |
| Checksum.ChecksumNonNegative | day02.py:77-81 | the checksum is never negative, and is 0 when every row holds a single value |
| Checksum.Insert | day02.py:92 | insertion into an ascending list keeps it ascending and adds exactly the one element |
| Checksum.Sort | day02.py:92 | `sorted(vals)` is ascending and a permutation of the row |
| Checksum.SumPairs | day02.py:92-94 | the pair loop of one sorted row returns the running sum over `combinations(vals, 2)`, or the first ZeroDivisionError |
| Checksum.EvenRowSum | day02.py:89-96 | the loops return the row sum of every sorted row in turn, or the first exception |
| Checksum.RowsRaised | day02.py:93 | an exception, once raised, is the result |
| Checksum.PairStep | day02.py:92-94 | each pair adds `y // x` when `x` divides `y`, and 0 otherwise |
| Checksum.RowPairs | day02.py:92 | the pairs with first element at position `i` are `(s[i], s[k])` for each later `k`, in order |
| Checksum.RestOrdered | day02.py:92 | in a sorted row every pair has `x <= y` and both come from the row |
| Checksum.CombinationsCount | day02.py:92 | `combinations(s, 2)` yields `len(s) * (len(s) - 1) / 2` pairs |
| Checksum.RunPositive | day02.py:93-94 | pairs of positive numbers never raise and never lower the sum |
| Checksum.PositiveCellsOk | day02.py:89-96 | on a sheet of positive cells the row sum is defined and not negative |
| Checksum.ZeroRowRaises | day02.py:92-93 | a sorted row of two or more non-negative cells holding 0 raises ZeroDivisionError at `y % 0` |
| Checksum.RunRaisesZeroDivision | day02.py:93 | ZeroDivisionError is the only exception the row sum raises |
| Checksum.ZeroCellRaises | day02.py:89-96 | with such a row anywhere in the sheet, `even_row_sum` raises ZeroDivisionError |
| Passphrase.CountNoDups | day04.py:48-58 | the loop counts exactly the phrases whose word list has as many words as its set |
| Passphrase.FindAnagramPair | day04.py:72-76 | the inner loop reports an anagram if and only if some two positions of the phrase hold words with equal letter counts |
| Passphrase.CountNoAnagrams | day04.py:68-83 | the loop counts exactly the phrases without a pair of anagrams |
| Passphrase.NoDupsDistinct | day04.py:52 | `len(phrase) == len(set(phrase))` holds if and only if the words are pairwise different |
| Passphrase.NoAnagramsNoDups | day04.py:52-74 | a phrase with no anagram pair has no repeated word |
| Passphrase.ShortPhrasesValid | day04.py:52-73 | phrases of no or one word pass both checks |
| Passphrase.AnagramPairSplitsCounts | day04.py:52-74 | two different words that are anagrams pass the first check and fail the second |
| Passphrase.CountsOrdered | day04.py:48-83 | the part-b count is at most the part-a count, which is at most the number of phrases |
| JumpMaze.Bump | day05.py:55-81 | every visited cell moves by exactly one, up or down |
| JumpMaze.Jump | day05.py:54-57 | one pass keeps the list's length, counts one step and jumps by the offset read before the cell changed |
| JumpMaze.Walk | day05.py:53-83 | the jumps until the index leaves the list (or the fuel runs out) keep the list's length |
| JumpMaze.FollowPlain | day05.py:49-62 | the loop rewrites the list in place and ends as the plain walk says: the step count once the index leaves the list, or out of fuel |
| JumpMaze.FollowStrange | day05.py:72-88 | the same for the rule that lowers offsets of 3 or more |
| JumpMaze.JumpChangesOneCell | day05.py:54-81 | a jump changes only the cell it leaves, by the rule |
| JumpMaze.EmptyListNoSteps | day05.py:53-62 | an empty list is left at once with 0 steps |
| JumpMaze.ExitOutside | day05.py:53-62 | the walk ends only outside `[0, len)`, returning the step count it reached, which is at most the fuel more than where it began |
| JumpMaze.PlainSum | day05.py:55-57 | under `follow_plain` the offsets only grow, and their sum grows by exactly the number of steps |
| JumpMaze.StrangeBounded | day05.py:78-81 | under `follow_strange` a cell never exceeds the larger of its first value and 3 |
| MemoryBanks.FirstMax | day06.py:59-60 | the donor index holds the maximum, and every bank before it holds less |
| MemoryBanks.FirstIndex | day06.py:60 | `list.index`: the first position holding the value |
| MemoryBanks.Spread | day06.py:63-66 | dealing blocks one by one round the list keeps the number of banks |
| MemoryBanks.Redistribute | day06.py:59-66 | one cycle keeps the number of banks |
| MemoryBanks.Cycle | day06.py:59-66 | one cycle on any list keeps its length |
| MemoryBanks.FindDuplicate | day06.py:51-73 | the loop rewrites the banks in place and returns what the recursive search returns, with the same final banks |
| MemoryBanks.Deal | day06.py:63-66 | the inner loop leaves the banks as `Spread` deals them |
| MemoryBanks.SearchStep | day06.py:56-68 | an unseen configuration is recorded under the current cycle number and cycled once |
| MemoryBanks.SpreadSum | day06.py:63-66 | dealing `m` blocks adds exactly `m` blocks in total and keeps every bank non-negative |
| MemoryBanks.RedistributeKeepsBlocks | day06.py:59-66 | a cycle keeps the total number of blocks and keeps the banks non-negative |
| MemoryBanks.EmptyBanksRaise | day06.py:57-59 | an empty list raises ValueError at `max` |
| MemoryBanks.RepeatFound | day06.py:56-57 | a configuration found in the history is the one recorded at that cycle, and recorded configurations are pairwise distinct |
| MemoryBanks.RecordNext | day06.py:57 | recording a new configuration under the next cycle number keeps the history exact |
| MemoryBanks.ExtendTrace | day06.py:57-68 | one more cycle extends the trace of configurations and its history together |
| MemoryBanks.RepeatHere | day06.py:56-73 | a repeat found at cycle `n` is reported with `1 <= loop <= n`, pointing back to an equal configuration, with no earlier repeat |
| MemoryBanks.StopsAtFirstRepeat | day06.py:55-73 | for any cycle function the search stops at the first repeated configuration, and `loop` is the length of the cycle it closes |
| MemoryBanks.FindDuplicateFirstRepeat | day06.py:51-73 | from the start, `find_duplicate` returns `(cycles, loop)` for the first repeat |
| CondRegisters.MaxValue | day08.py:68 | `max` of a non-empty set of values is one of them and bounds them all |
| CondRegisters.MaxExists | day08.py:68 | every non-empty finite set of integers has a largest element |
| CondRegisters.Registers.constructor | day08.py:32-37 | the dictionary `modify` updates starts with the given registers |
| CondRegisters.Modify | day08.py:54-70 | the loop leaves the dictionary as the instruction-by-instruction run does and returns its exception (SyntaxError for a condition literal with a leading zero such as `05`), or `max` of the final values for part `'a'` (ValueError when there are none) and `overall_max` otherwise |
| CondRegisters.LargestValue | day08.py:68 | the loop over the values finds the largest one |
| CondRegisters.InitialRegisters | day08.py:31-40 | the reader sets every named register, target and condition, to 0, and raises IndexError exactly when a line has fewer than 5 tokens |
| CondRegisters.StepFrame | day08.py:57-63 | a step changes at most its target register, keeps the set of registers, and changes nothing when its condition is false |
| CondRegisters.RuntimeErrorOnlyWhenTaken | day08.py:58-65 | RuntimeError is raised only for an operation other than `inc` and `dec` behind a true condition |
| CondRegisters.UnknownOpSkipped | day08.py:58 | an unknown operation behind a false condition is skipped without error, unless the condition literal does not compile, when SyntaxError is raised |
| CondRegisters.SyntaxErrorIff | day08.py:57-58 | an instruction raises SyntaxError if and only if it has seven tokens and its condition literal is not a Python 3 decimal literal (a non-zero value written with a leading zero), whatever the registers hold |
| CondRegisters.LeadingZeroRaises | day08.py:57-58 | `a inc 1 if a < 05` raises SyntaxError instead of running, from any registers |
| CondRegisters.StepKeepsBound | day08.py:59-63 | a step other than a `dec` by a negative amount keeps every register at or below `overall_max` |
| CondRegisters.RunKeepsBound | day08.py:55-65 | `overall_max` never falls and the set of registers never changes; without `dec` by a negative amount it keeps bounding every register |
| CondRegisters.PartBDominates | day08.py:55-70 | from all-zero registers and without `dec` by a negative amount, part `'b'` is never negative and at least part `'a'` |
| CondRegisters.NegativeDecMissed | day08.py:61-63 | `a dec -5 if a == 0` raises `a` to 5, yet part `'b'` answers 0 while part `'a'` answers 5 |
| CondRegisters.StepTrackedKeepsBound | day08.py:59-63 | with the maximum taken after every write, each step keeps all registers at or below it |
| CondRegisters.RunTrackedKeepsBound | day08.py:55-65 | the same over a whole program |
| CondRegisters.TrackedPartBDominates | day08.py:55-70 | with the maximum taken after every write, part `'b'` is at least part `'a'` for every program |
| CondRegisters.NoKeyError | day08.py:58-63 | with every named register present, no instruction raises KeyError |
| CondRegisters.ReaderRegistersSuffice | day08.py:22-65 | the registers the reader sets up are enough: running its own lines never raises KeyError |
| Stream.ScoreGroups | solutions/day09.py:43-73 | an empty stream raises RuntimeError; otherwise the loop ends in the state the character-by-character scan reaches, and returns its score for `'a'`, its garbage count for `'b'` and nothing for any other part |
| Stream.ScanAppend | solutions/day09.py:49 | scanning `a + b` is scanning `a` and then `b` from where it left off |
| Stream.ScanSane | solutions/day09.py:50-54 | `skip` is only ever set inside garbage |
| Stream.GScoreBound | solutions/day09.py:58 | each character adds at most one to the garbage count, and the count never falls |
| Stream.IgnoredOutsideGarbage | solutions/day09.py:67-68 | outside garbage, characters other than `{`, `}` and `<` change nothing |
| Stream.PlainGarbageCounted | solutions/day09.py:57-58 | inside garbage, characters other than `!` and `>` are each counted once |
| Stream.GarbageBlock | solutions/day09.py:55-66 | a `<...>` block without `!` adds its inner length to the garbage count and changes nothing else |
| Stream.CancelledPair | solutions/day09.py:51-54 | inside garbage, `!` and the character after it are not counted and change nothing |
| Stream.OpenRun | solutions/day09.py:60-61 | n opening braces raise the depth by n |
| Stream.CloseRun | solutions/day09.py:62-64 | n closing braces add depth, depth - 1, ..., depth - n + 1 to the score and lower the depth by n |
| Stream.NestedScore | solutions/day09.py:60-64 | n groups nested in one another score 1 + 2 + ... + n and the depth returns to 0 |
| KnotHash.GenList | solutions/day10.py:48-49 | `gen_list(n)` is `0, 1, ..., n - 1`, empty for a negative n |
| KnotHash.GenLengths | solutions/day10.py:57-58 | the character codes of the input in order, then the suffix 17, 31, 73, 47, 23 |
| KnotHash.Reverse | solutions/day10.py:76 | `sub[::-1]` keeps the length and the entries |
| KnotHash.ReverseAt | solutions/day10.py:76 | entry i of the reversal is entry `len - 1 - i` of the original |
| KnotHash.KnotHashRounds | solutions/day10.py:70-83 | rewrites the list in place and returns `curr` and `skip` as the specification of `knot_hash` says, including ZeroDivisionError on an empty list |
| KnotHash.ReadWindow | solutions/day10.py:72-74 | the first inner loop collects the entries at circular positions `curr, ..., curr + length - 1` |
| KnotHash.WriteWindow | solutions/day10.py:77-78 | the second inner loop writes the reversed entries back, in order, and nothing else |
| KnotHash.TwistAt | solutions/day10.py:72-78 | for a length of at most n, the position j steps after `curr` receives the entry `length - 1 - j` steps after it when j < length, and every other position keeps its entry |
| KnotHash.TwistDrawsFrom | solutions/day10.py:72-78 | whatever the length, every value after one length was in the list before |
| KnotHash.TwistPermutesWithin | solutions/day10.py:72-78 | for a length of at most n, one length only rearranges the list (same multiset) |
| KnotHash.WriteBackAppend | solutions/day10.py:77-78 | writing one run of values and then the next, from where the first stopped, is writing both runs in one loop |
| KnotHash.WriteBackFull | solutions/day10.py:77-78 | exactly n writes reach every position once: the list becomes the written values rotated right by `curr` |
| KnotHash.WriteBackFullPermutes | solutions/day10.py:77-78 | so exactly n writes leave the list holding the written values |
| KnotHash.LastWritesSurvive | solutions/day10.py:77-78 | with more than n writes the earlier ones are overwritten: the list holds exactly the last n values written |
| KnotHash.WindowFull | solutions/day10.py:73-74 | reading n entries from `curr` reads every entry of the list once |
| KnotHash.ReversedTail | solutions/day10.py:73-76 | for a length beyond n, the last n reversed values are the n entries from `curr` on, reversed |
| KnotHash.TwistPermutesBeyond | solutions/day10.py:72-78 | for a length beyond n, one length still only rearranges the list |
| KnotHash.TwistPermutes | solutions/day10.py:72-78 | whatever the length (a negative one reads and writes nothing), one length only rearranges the list |
| KnotHash.KnotSpecFacts | solutions/day10.py:70-83 | a call keeps the list's length, leaves `curr` in `[0, n)` once a length was applied, adds `len(lengths)` to `skip`, draws every value from the input, and returns a permutation of the input list whatever the lengths |
| KnotHash.KnotSpecOk | solutions/day10.py:74-80 | a non-empty list never raises |
| KnotHash.EmptyListRaises | solutions/day10.py:74-80 | an empty list raises ZeroDivisionError as soon as there is a length, and is returned unchanged otherwise |
| KnotHash.XorBound | solutions/day10.py:98 | XOR of two k-bit naturals is a k-bit natural |
| KnotHash.XorFoldBound | solutions/day10.py:96-98 | folding bytes with XOR gives a byte |
| KnotHash.Block | solutions/day10.py:94 | the slice `hashed[16*i : 16*(i+1)]` holds at most 16 entries |
| KnotHash.BlockEmpty | solutions/day10.py:94-96 | block i is empty (so `sub[0]` raises) exactly when the list ends by position `16 * i` |
| KnotHash.DenseHash | solutions/day10.py:91-100 | the two loops compute sixteen left-to-right XORs of consecutive blocks, or raise IndexError for a list of at most 240 entries |
| KnotHash.XorBlock | solutions/day10.py:96-98 | the inner loop computes `sub[0] ^ sub[1] ^ ...` from the left |
| KnotHash.DenseBytes | solutions/day10.py:91-100 | a list of more than 240 bytes gives sixteen bytes |
| KnotHash.HexValueOfChar | solutions/day10.py:109 | reading back a rendered hex digit gives its value |
| KnotHash.Hex02Byte | solutions/day10.py:109 | `"{:02x}"` renders a byte as exactly two hex digits, high nibble first |
| KnotHash.HexDenseBytes | solutions/day10.py:108-109 | for bytes, `hex_dense` has two characters per value, and reading each pair back gives the value's high and low halves |
| HexWalk.Delta | day11.py:46-63 | each direction moves two coordinates by one in opposite senses, keeping `x + y + z` |
| HexWalk.Run | day11.py:43-69 | the loop returns the list of positions the walk reaches, one per step, or RuntimeError at the first illegal direction |
| HexWalk.FinalDist | day11.py:87 | part `'a'` is the distance of the last position, and IndexError on an empty path |
| HexWalk.MaxDist | day11.py:98-100 | the loop returns the largest distance along the path, and IndexError on an empty path |
| HexWalk.WalkNext | day11.py:45-67 | one more step moves the walk so far by that step's direction |
| HexWalk.WalkAppend | day11.py:45-67 | `run` on one more step extends the path by the position that step reaches |
| HexWalk.IllegalStepRaises | day11.py:64-65 | the first illegal direction ends the whole walk with RuntimeError |
| HexWalk.WalkRaisesOnward | day11.py:65 | once raised, the exception is the result |
| HexWalk.TracesBalanced | day11.py:44-67 | every recorded position keeps `x + y + z == 0` |
| HexWalk.TracesAppend | day11.py:67 | appending the next position keeps the path a record of the steps |
| HexWalk.WalkShape | day11.py:43-69 | `run` raises RuntimeError if and only if some direction is illegal, and otherwise returns one position per step, each the previous one moved by its direction |
| HexWalk.DistIsLargest | day11.py:77-78 | on balanced coordinates `find_dist` is the largest absolute coordinate |
| HexWalk.LargestShift | day11.py:77-78 | moving each coordinate by at most 1 moves the largest absolute coordinate by at most 1 |
| HexWalk.StepMovesDistByOne | day11.py:46-78 | one step changes the distance by at most 1 |
| HexWalk.DistAtMostSteps | day11.py:43-78 | after `k + 1` steps the distance is at most `k + 1` |
| HexWalk.Opposite | day11.py:46-63 | opposite directions have opposite moves |
| HexWalk.ParseName | day11.py:46-61 | each direction's own name selects it |
| HexWalk.BackAndForth | day11.py:43-69 | a step followed by the opposite one returns to where the walk was, with two more positions recorded |
| HexWalk.BackHome | day11.py:43-87 | from the origin, a step and its opposite end at distance 0 |
| HexWalk.FarthestBounds | day11.py:87-100 | part `'b'` is the distance of some position, bounds every position's distance and is at least part `'a'` |
| HexWalk.PartsBounded | day11.py:84-101 | for a legal non-empty walk, part `'a'` <= part `'b'` <= the number of steps |
| Firewall.Severity | day13.py:49-51 | `check_severity` raises ZeroDivisionError exactly for depth 1 |
| Firewall.SeverityRange | day13.py:49-51 | for depth of at least 2 the scanner position lies in `[0, depth - 1]` |
| Firewall.SeverityZero | day13.py:49-60 | for depth of at least 2 the packet is caught exactly when the time is a multiple of `2 * (depth - 1)` |
| Firewall.SeverityPeriodic | day13.py:50 | the position repeats with period `2 * (depth - 1)` |
| Firewall.ModStep | day13.py:50 | the reduced time goes one up, or back to 0, each picosecond |
| Firewall.SeverityIsScanner | day13.py:49-51 | `check_severity` is the position of a scanner that starts at the top and bounces between 0 and `depth - 1` one position per picosecond |
| Firewall.TripSeverity | day13.py:59-60 | the part-`'a'` sum over the layers in order raises only ZeroDivisionError, and is 0 when no layer catches the packet |
| Firewall.Caught | day13.py:71 | `any(...)` raises only ZeroDivisionError, and answers True only when some layer's scanner is at the top when the packet arrives |
| Firewall.FirstSafe | day13.py:70-71 | the search over `count()` raises only ZeroDivisionError, and a delay it returns lies among those tried and is not caught |
| Firewall.TripSeverityBounds | day13.py:59-60 | with every depth at least 2 the part-`'a'` sum raises nothing and is not negative for layers at or after 0 |
| Firewall.TripSeverityRaises | day13.py:59-60 | the sum raises if and only if some layer has depth 1, and then ZeroDivisionError |
| Firewall.CaughtMeans | day13.py:71 | with every depth at least 2, `any(...)` answers whether some layer catches the packet |
| Firewall.CaughtStopsAtCatch | day13.py:71 | `any` stops at the first catch, whatever later layers hold |
| Firewall.CaughtRaises | day13.py:71 | a depth-1 layer reached before any catch raises ZeroDivisionError |
| Firewall.FirstSafeIsLeast | day13.py:70-71 | a delay the search returns is safe and every smaller delay tried was caught |
| Firewall.FirstSafeFinds | day13.py:70-71 | with enough fuel the search returns the least safe delay |
| DiskGrid.RowKey | solutions/day14.py:47-48 | the lengths of row i are the codes of the key, a `-`, the digits of i, then the five-value suffix |
| DiskGrid.Bits4 | solutions/day14.py:58 | `"{:04b}"` of a hex digit read back gives four bits, most significant first, whose value is the digit |
| DiskGrid.RowBitsOk | solutions/day14.py:57-58 | a string of hex digits expands without error to four bits per digit |
| DiskGrid.RoundsKeepBytes | solutions/day14.py:49-52 | the 64 rounds over `0..255` never raise and keep 256 bytes |
| DiskGrid.LengthsRowBits | solutions/day14.py:49-58 | every row is computed without error and has 128 entries, each 0 or 1 |
| DiskGrid.ExpandBits | solutions/day14.py:56-58 | the innermost loop appends the four bits of each hex digit in order |
| DiskGrid.RowRounds | solutions/day14.py:49-52 | the 64 calls of `knot_hash` rewrite the row in place as 64 chained rounds carrying `curr` and `skip` |
| DiskGrid.HashLengths | solutions/day14.py:49-58 | one iteration of the outer loop produces the row's bits, without error |
| DiskGrid.RowAt | solutions/day14.py:46-59 | row i of the grid is the knot-hash row of `"<key>-<i>"`: 128 entries, each 0 or 1 |
| DiskGrid.RowsIndex | solutions/day14.py:46-59 | rows are appended in order, so row i of the first n rows is the row built for i |
| DiskGrid.Hash | solutions/day14.py:44-61 | `hash` returns the 128 rows in order |
| DiskGrid.CountFilled | solutions/day14.py:69-74 | `count_filled` is the total number of 1 entries over all rows |
| DiskGrid.FilledBound | solutions/day14.py:69-74 | rows of at most w entries hold at most `rows * w` filled squares (16384 for the disk) |
| Generators.Advance | solutions/day15.py:41-58 | one transform lands in `[0, 2147483647)` |
| Generators.Multiple | solutions/day15.py:42-63 | the filter is the part's multiple in part `'b'` and 1 (no filter) otherwise |
| Generators.NextYield | solutions/day15.py:40-46 | a yielded value is also the generator's new state |
| Generators.Generator.constructor | solutions/day15.py:39-56 | a generator starts at its seed with its factor and filter |
| Generators.Generator.Next | solutions/day15.py:40-63 | `next(gen)` runs the `while True` loop up to the next `yield`, updating the generator's value as `NextYield` does |
| Generators.GenA | solutions/day15.py:39-46 | `gen_a` uses factor 16807 and, in part `'b'`, the multiple 4 |
| Generators.GenB | solutions/day15.py:56-63 | `gen_b` uses factor 48271 and, in part `'b'`, the multiple 8 |
| Generators.Play | solutions/day15.py:83-89 | the rounds never raise |
| Generators.CountMatches | solutions/day15.py:74-91 | the loop draws from both generators in place and returns the count the rounds give, RuntimeError for a part other than `'a'` and `'b'` |
| Generators.IterateShift | solutions/day15.py:41 | transforming once and then `k` times is transforming `k + 1` times |
| Generators.FirstMultipleShift | solutions/day15.py:40-44 | the first multiple after `k + 1` transforms is the first after `k` transforms from the next value, and back |
| Generators.NextYieldIsFirstMultiple | solutions/day15.py:40-46 | a yield is the first multiple of the filter in generation order and lies in `[0, 2147483647)` |
| Generators.FirstMultipleIsYielded | solutions/day15.py:40-46 | conversely, the first multiple within the fuel is what the generator yields |
| Generators.YieldsEveryValue | solutions/day15.py:45-63 | outside part `'b'` each `next` yields the very next value |
| Generators.PartBMultiples | solutions/day15.py:42-61 | in part `'b'`, `gen_a` yields only multiples of 4 and `gen_b` only multiples of 8 |
| Generators.PlayBound | solutions/day15.py:83-89 | each round adds at most one match |
| Generators.MatchesBound | solutions/day15.py:74-91 | `count_matches` raises RuntimeError exactly for a part other than `'a'` and `'b'`, and otherwise counts at most the number of rounds |
| Dance.GenPrograms | day16.py:43-44 | sixteen letters whose codes run from 97 to 112 |
| Dance.GenProgramsDistinct | day16.py:43-44 | the programs are `abcdefghijklmnop`, all distinct |
| Dance.Spin | day16.py:70 | a spin keeps the length and the letters (same multiset) |
| Dance.Swap | day16.py:79-84 | the tuple assignment exchanges the two positions, leaves every other position alone and keeps the letters |
| Dance.LetterIndex | day16.py:83 | `letters.index(name)` finds the first position holding `name`, and none when the name is absent |
| Dance.Dancer.constructor | day16.py:12 | the cache starts empty |
| Dance.Dancer.SimDance | day16.py:57-90 | a cached start returns the cached answer and changes nothing; otherwise the dance runs on a copy, its answer (or exception) is returned, and only a completed answer is cached; a cache that held only true answers still does, and the answer is then always the dance's |
| Dance.SpinRotatesRight | day16.py:70 | for 0 <= k <= n, `sk` moves the last k letters to the front in order |
| Dance.SpinOutOfRange | day16.py:70 | a spin outside `[-n, n]` changes nothing, because both slice bounds clamp |
| Dance.SpinInverse | day16.py:70 | a spin by k is undone by a spin by -k |
| Dance.ExchangeSwaps | day16.py:72-79 | `xA/B` exchanges positions A and B as Python indexes them and leaves the rest alone |
| Dance.ExchangeOutOfRange | day16.py:79 | `xA/B` raises IndexError exactly when a position is out of range |
| Dance.LetterIndexDistinct | day16.py:83 | in letters without repeats, `index` finds each letter at its one position |
| Dance.SwapDistinct | day16.py:79-84 | exchanging two positions keeps the letters distinct |
| Dance.PartnerNames | day16.py:82 | `pA/B` splits into the two names A and B |
| Dance.PartnerSwapsNames | day16.py:81-84 | `pA/B` with distinct letters puts A where B stood and B where A stood |
| Dance.MoveErrors | day16.py:64-87 | an empty move raises IndexError, a non-numeric spin or exchange operand ValueError, an unknown move letter RuntimeError |
| Dance.MovePermutes | day16.py:63-84 | every move that completes only rearranges the letters |
| Dance.DancePermutes | day16.py:63-89 | a dance that completes returns the same letters in a new order |
| Dance.DanceAppend | day16.py:63 | dancing two dances in sequence is dancing their concatenation, and an exception in the first stops both |
| Spinlock.Wrap | solutions/day17.py:51-67 | the reduced position lies below the length |
| Spinlock.WrapIsMod | solutions/day17.py:51-67 | the reduction is Python's `%` by a positive length |
| Spinlock.InsertAt | solutions/day17.py:52 | `insert(pos + 1, i)` makes the list one longer with `i` at index `pos + 1` |
| Spinlock.InsertAtShifts | solutions/day17.py:52 | everything up to `pos` stays where it was and everything after it moves up by one |
| Spinlock.InsertAtCounts | solutions/day17.py:52 | an insertion adds exactly one occurrence of the value |
| Spinlock.Insert | solutions/day17.py:51-53 | one insertion makes the buffer one longer and leaves the current position on the new value |
| Spinlock.InsertCounts | solutions/day17.py:51-53 | an insertion adds the inserted value and keeps every other one |
| Spinlock.Spun | solutions/day17.py:48-53 | after `moment` insertions the buffer holds `moment + 1` values and the current position holds `moment` |
| Spinlock.SpunNext | solutions/day17.py:50-53 | the `moment`-th pass inserts `moment` after the position stepped to |
| Spinlock.GenSpinlock | solutions/day17.py:47-55 | the loop builds the buffer of `moment` insertions |
| Spinlock.TrackZero | solutions/day17.py:64-72 | the loop returns the value `Tracked` follows |
| Spinlock.FindPost17 | solutions/day17.py:79-80 | the value right after the first 2017 (no earlier position holds 2017); ValueError when 2017 is absent, IndexError when the first 2017 is the last entry |
| Spinlock.SpunStepCounts | solutions/day17.py:52 | the `moment`-th insertion adds one occurrence of `moment` and keeps every other count |
| Spinlock.SpunPermutation | solutions/day17.py:47-55 | after `moment` insertions the buffer is a permutation of `0 .. moment` |
| Spinlock.ZeroStaysFirst | solutions/day17.py:52 | nothing is inserted before index 1, so 0 stays at the front |
| Spinlock.TrackedFollowsCurr | solutions/day17.py:51-70 | `track_zero` moves its current position exactly as `gen_spinlock` does, since the buffer length at pass `i` is `i` |
| Spinlock.NextPos | solutions/day17.py:67 | the position stepped to lies below the buffer length |
| Spinlock.TrackedStep | solutions/day17.py:68-69 | `track_zero` takes the new value exactly when it is inserted after index 0 |
| Spinlock.SpunAfterZeroStep | solutions/day17.py:52 | the value after 0 changes exactly when the new value lands at index 1 |
| Spinlock.TrackedIsAfterZero | solutions/day17.py:64-72 | from the first insertion on, `track_zero` answers the value right after 0 in the buffer `gen_spinlock` builds |
| Spinlock.PartAReadsAfterCurrent | solutions/day17.py:86-89 | after 2017 insertions 2017 is found at the current position; part `'a'` reads the next value, or raises IndexError when it is last |
| RegisterBank.ResolveLiteral | solutions/day18.py:72-74 | `get` of a token that spells an integer is that integer, whatever the registers hold |
| RegisterBank.ResolveUnwritten | solutions/day18.py:72-76 | `get` of a register name never written reads 0 (the `defaultdict(int)` default) |
| RegisterBank.ResolveAfterWrite | solutions/day18.py:57-76 | after writing register `key`, `get(key)` is the written value; other names and every literal read as before |
| RegisterBank.Registers.constructor | solutions/day18.py:26-27 | a new bank has no register written |
| RegisterBank.Registers.Get | solutions/day18.py:72-76 | an integer token yields its value, any other token the register's value (0 when unwritten) |
| RegisterBank.Registers.Set | solutions/day18.py:57-61 | stores `int(val)` under `key`; a value `int` rejects raises ValueError and leaves the store unchanged |
| RegisterBank.Registers.Add | solutions/day18.py:41-45 | same effect as `set`, with the default value 0 |
| Duet.ArithValue | solutions/day18.py:147-150 | `set` yields the operand, `add` the sum, `mul` the product; `mod` raises ZeroDivisionError exactly on a zero divisor and otherwise lies in `[0, y)` for a positive divisor |
| Duet.SimInstructions | solutions/day18.py:138-164 | the loop ends as the run function says: recovered frequency, normal exit, exception or out of fuel, and leaves the registers in the store of the machine where it stopped |
| Duet.Perform | solutions/day18.py:144-162 | one pass of the loop body equals one step of the interpreter, and writes the register file only when the step goes on |
| Duet.ArithWritesOnlyTarget | solutions/day18.py:147-162 | `set/add/mul/mod x y` changes register x and no other, keeps `last_snd` and moves to the next instruction |
| Duet.RcvStopsIff | solutions/day18.py:152-162 | `rcv x` returns `last_snd` if and only if `get(x) != 0`; otherwise the machine only moves on |
| Duet.JgzJumps | solutions/day18.py:156-162 | `jgz x y` jumps by `get(y)` when `get(x) > 0` and moves on by one otherwise, touching no register |
| Duet.UnknownOpcodeRaises | solutions/day18.py:161 | any opcode outside the seven raises RuntimeError |
| Duet.ExitedOutsideProgram | solutions/day18.py:143-164 | a normal exit happens only with the index outside the program, and the function then returns 0 |
| Duet.RecoveredIsLatestSound | solutions/day18.py:146-154 | the recovered frequency is the value of the latest `snd` executed, or the initial `last_snd` when none ran |
| Duet.MoreFuelSameEnd | solutions/day18.py:143-162 | a run that finished within some number of steps ends the same way with any larger bound |
| DuetScheduler.SimDual | solutions/day18.py:174-220 | the loop ends as the scheduler's run function says (stopped with program 1's send count, exception, or out of fuel) and leaves both register files as in the state where it stopped |
| DuetScheduler.Pass | solutions/day18.py:180-218 | one pass of the loop body equals one scheduler step: go on with the new variables, `break`, or raise with the registers untouched |
| DuetScheduler.Perform | solutions/day18.py:182-206 | the instructions that end with `i += 1` update registers, queues, statuses and the count as the effect function says, or raise and write nothing |
| DuetScheduler.WriteReg | solutions/day18.py:186-194 | a register write of program p changes p's register file at that name only |
| DuetScheduler.SndAppends | solutions/day18.py:182-184 | `snd x` appends `get(x)` to the back of the sender's own queue, leaves the other queue, registers and statuses alone, and counts only program 1's sends |
| DuetScheduler.RcvPopsFront | solutions/day18.py:191-194 | `rcv x` with a value waiting pops the front of the peer's queue into register x, marks the program running and leaves the other program's registers alone |
| DuetScheduler.BrokenWriteRaises | solutions/day18.py:186-218 | once `reg` is bound to the peer's `Registers` object, every register write raises TypeError |
| DuetScheduler.RcvEmptyQueue | solutions/day18.py:195-204 | `rcv` on an empty queue breaks if and only if the peer is done, or the peer waits and the own queue is empty; otherwise it saves its index, waits, and the peer resumes where it stopped |
| DuetScheduler.AdvanceRule | solutions/day18.py:211-218 | `i += 1` inside the program goes on; past either end it breaks if and only if the peer is done, and otherwise marks the program done and resumes the peer at its saved index |
| DuetScheduler.UnknownOpcodeSkipped | solutions/day18.py:182-209 | an opcode outside the seven changes nothing before `i += 1` (the chain has no `else`) |
| DuetScheduler.ExecSent | solutions/day18.py:182-183 | a pass adds one to `sent` exactly when program 1 runs `snd` |
| DuetScheduler.SentCountsProgramOne | solutions/day18.py:183-220 | the returned count is the number of `snd` instructions program 1 executed during the run |
| DuetScheduler.DeadlockStops | solutions/day18.py:192-204 | whenever both queues are empty, the running program is at `rcv` and the peer's saved index holds a `rcv`, the run stops within two passes returning the count it had, whether the peer was running, waiting or done |
| DuetLegacy.SimInstructions | day18.py:141-182 | the loop ends as the legacy run function says, returns `last_snd` of the machine where it stopped and leaves the registers in its store |
| DuetLegacy.Perform | day18.py:147-180 | one pass of the loop body equals one legacy step, with Python indexing of the instruction list, and writes the registers only when the step goes on |
| DuetLegacy.ArithWritesOnlyTarget | day18.py:153-167 | `set/add/mul/mod x y` changes register x and no other, keeps `last_snd` and moves on by one |
| DuetLegacy.RcvZeroIsFixedPoint | day18.py:169-171 | `rcv x` with `get(x) == 0` leaves the machine exactly as it was; with `get(x) != 0` it returns `last_snd` |
| DuetLegacy.JgzJumps | day18.py:173-177 | `jgz x y` jumps by `get(y)` when `get(x) > 0` and moves on by one otherwise |
| DuetLegacy.NegativeIndexWraps | day18.py:146-147 | a negative index runs the instruction `len + i` (shifted back by `len`), and one below `-len` raises IndexError |
| DuetLegacy.SndLiteralReadsZero | day18.py:149-150 | `snd` reads the store directly, so a literal operand never written as a register sends 0 |
| DuetLegacy.UnknownOpcodeRaises | day18.py:179-180 | any opcode outside the seven raises RuntimeError |
| DuetLegacy.RcvZeroNeverReturns | day18.py:146-171 | once the run reaches `rcv x` with `get(x) == 0` it never returns, whatever the step bound |
| DuetLegacy.ExitedPastEnd | day18.py:146-182 | a normal exit happens only at an index at or past the end, returning `last_snd` of that moment |
| DuetLegacy.SameStepInsideProgram | day18.py:147-180 | inside the program and away from a stalling `rcv`, the legacy step equals the step of the interpreter in solutions/day18.py |
| Tubes.Start | day19.py:46 | the walk starts at the first vertical bar of the first row heading down; IndexError for an empty diagram, ValueError when the first row has no vertical bar |
| Tubes.Turn | day19.py:51-57 | at a `+` a vertical heading turns horizontal and a horizontal one vertical |
| Tubes.Move | day19.py:48-60 | one pass moves one cell along the heading, counts one step, reads the new cell, records exactly the letters, turns only at a `+`, and under the solutions rule never lands on a space |
| Tubes.Follow | day19.py:43-62 | the loop returns what the walk gives: `(path, steps)` on reaching a space, the exception raised, or out of fuel |
| Tubes.FollowChecked | solutions/day19.py:46-70 | the same for the version whose last branch raises |
| Tubes.MoveOnce | solutions/day19.py:51-68 | one pass of the loop body is one `Move` under the given rule |
| Tubes.TurnAt | day19.py:52-57 | the turn reads the cell to the left when moving vertically and the cell above otherwise |
| Tubes.TravelStep | day19.py:47-60 | the loop continues only while the packet is not on a space |
| Tubes.TravelCounts | day19.py:47-62 | a finished walk recorded only letters, and fewer of them than it took steps |
| Tubes.FollowCounts | day19.py:43-62 | for every diagram `follow` finishes, `len(path) < steps` and the path holds only letters |
| Tubes.CheckedTravelNeverDone | solutions/day19.py:50-68 | from any cell other than a space the solutions walk never finishes |
| Tubes.CheckedNeverReturns | solutions/day19.py:50-68 | the solutions `follow` never returns normally: its loop ends only on a space, and reaching a space raises RuntimeError |
| Tubes.CheckedAgreesWhenItMoves | solutions/day19.py:51-68 | wherever the solutions version moves on, day19.py makes the same move |
| Tubes.OneDrop | solutions/day19.py:50-68 | on a vertical bar above a space, day19.py answers no letters in one step and the solutions version raises RuntimeError |
| Particles.Tick | day20.py:38-42 | a tick keeps the shape and the acceleration |
| Particles.TickFrom | day20.py:39-41 | the component-by-component loop is the tick: velocity first, then position with the new velocity |
| Particles.Ticks | day20.py:105-124 | repeated ticks keep the shape and the acceleration |
| Particles.Particle.constructor | day20.py:23-27 | a particle starts with the given vectors and its distance from the origin |
| Particles.Particle.Step | day20.py:38-42 | `step()` ticks the particle in place and recomputes its distance |
| Particles.FirstMin | day20.py:107-111 | the kept index lies among those scanned |
| Particles.FirstMinIsLeast | day20.py:109-111 | the scan ends on the first least distance: every distance is at least it and every earlier one is larger |
| Particles.FirstLeastStep | day20.py:109-111 | scanning one more value keeps the first least, switching only to a strictly smaller one |
| Particles.FirstLeastIsFirstMin | day20.py:109-111 | no other index is the first least distance |
| Particles.Closest | day20.py:106-113 | there is an answer exactly when there are particles |
| Particles.StepAt | day20.py:108 | stepping one particle ticks it and changes no other |
| Particles.StepNext | day20.py:107-108 | the `i`-th step of a pass leaves the first `i + 1` particles ticked and the rest untouched |
| Particles.StepRound | day20.py:106-111 | one pass ticks every particle and keeps the key of the first particle nearest the origin after the tick |
| Particles.GroupPositions | day20.py:132-135 | the loop builds the map from each position to the keys found there, in order |
| Particles.KeepUnshared | day20.py:137-139 | deleting the groups of more than one key keeps exactly the items whose position occurs once, in order |
| Particles.StepEvery | day20.py:126-130 | the inner loop of `count_remaining` ticks every particle |
| Particles.CollisionRound | day20.py:125-139 | one round leaves the dictionary as one collision pass over the ticked items, keeping keys and particles distinct |
| Particles.Swarm.FindClosest | day20.py:104-113 | after `ticks` rounds every particle has ticked `ticks` times and the answer is the first key nearest the origin |
| Particles.Swarm.CountRemaining | day20.py:123-141 | after `ticks` rounds the dictionary holds the survivors of tick-then-collide rounds and the answer is their number |
| Particles.PairStepped | day20.py:126-127 | ticking the particles ticks the items, keys kept |
| Particles.SharedIff | day20.py:132-138 | an item is alone in its group exactly when its position occurs once |
| Particles.UniqueAtSorted | day20.py:137-139 | the kept indices come in increasing order |
| Particles.KeptAreCollided | day20.py:137-139 | the kept keys and particles are distinct, taken from the dictionary, and pair up into one collision pass |
| Particles.PairPicked | day20.py:137-139 | keys and particles kept at the same indices pair up into the items there |
| Particles.PickAppend | day20.py:137-139 | keeping one more index appends its item |
| Particles.PickedDistinct | day20.py:137-139 | keeping items at increasing indices keeps them distinct |
| Particles.GroupsCount | day20.py:132-135 | the position map holds exactly the positions that occur, each with as many keys as particles there |
| Particles.UniqueAtIff | day20.py:138 | an index is kept exactly when its position occurs once |
| Particles.CollideIff | day20.py:132-139 | a collision pass keeps exactly the items whose position no other item shares |
| Particles.CollideSeparates | day20.py:132-139 | after a collision pass no two particles share a position |
| Particles.SurvivorsApart | day20.py:124-139 | after at least one round no two survivors share a position |
| Particles.TicksVelocity | day20.py:40 | after `n` ticks each velocity component has gained `n` accelerations |
| Particles.TicksPosition | day20.py:40-41 | after `n` ticks each position component has moved by `n * v + n * (n + 1) / 2 * a` |
| Particles.PositionArith | day20.py:41 | the arithmetic of one tick of that closed form |
| Virus.Status | solutions/day22.py:13 | `statuses[v]` answers for 0 to 3 and raises KeyError otherwise |
| Virus.InitGrid | solutions/day22.py:44-52 | the grid holds exactly the nodes of the input centred on `(0, 0)`, `#` infected and anything else clean; IndexError for an empty input or a row shorter than the first |
| Virus.Start | solutions/day22.py:62-87 | the carrier starts at `(0, 0)` facing a known direction |
| Virus.SimpleBurst | solutions/day22.py:65-74 | a burst as written keeps the direction one of the four |
| Virus.SimpleRun | solutions/day22.py:64-74 | so do repeated bursts |
| Virus.SimpleInfection | solutions/day22.py:61-76 | the loop returns what `bursts` simple bursts give: the count and grid, or the first exception |
| Virus.SimpleStep | solutions/day22.py:65-74 | the loop body is one simple burst as written |
| Virus.SimpleBurstStep | solutions/day22.py:65-74 | by the node's value: KeyError outside 0 to 3, otherwise a left turn and a count on clean, a right turn on anything else, the node moved two statuses on |
| Virus.ComplexBurst | solutions/day22.py:89-101 | a complex burst keeps the direction one of the four |
| Virus.ComplexRun | solutions/day22.py:88-101 | so do repeated bursts |
| Virus.ComplexInfection | solutions/day22.py:85-103 | the loop returns what `bursts` complex bursts give: the count and grid, or the first exception |
| Virus.ComplexStep | solutions/day22.py:89-101 | the loop body is one complex burst |
| Virus.ComplexBurstStep | solutions/day22.py:89-101 | by the node's value: KeyError outside 0 to 3, otherwise left, straight with a count, right or back, the node moved one status on |
| Virus.SimpleBurstIntended | solutions/day22.py:65-71 | the intended burst keeps the direction one of the four |
| Virus.SimpleRunIntended | solutions/day22.py:64-74 | so do repeated intended bursts |
| Virus.TurnsInverse | solutions/day22.py:14-15 | `to_right` is the inverse of `to_left` on the four directions |
| Virus.TurnsCycle | solutions/day22.py:14-15 | four turns either way face the carrier the way it started, and two right turns reverse it |
| Virus.DirectionsAreUnit | solutions/day22.py:14-15 | every direction moves one node up, down, left or right |
| Virus.InitGridBinary | solutions/day22.py:49-50 | `init_grid` writes only clean and infected nodes |
| Virus.SimpleBurstFlips | solutions/day22.py:65-74 | on a grid of clean and infected nodes a burst flips the current node, counts exactly when it infects, turns left on clean and right on infected, leaves other nodes alone and moves to a neighbour |
| Virus.BinaryUpdate | solutions/day22.py:73 | writing a clean or infected status keeps the grid so |
| Virus.QuadUpdate | solutions/day22.py:100 | writing one of the four statuses keeps the grid so |
| Virus.SimpleRunBinary | solutions/day22.py:64-74 | from a grid of clean and infected nodes the simple run never raises and the grid stays so |
| Virus.SimpleRunRaised | solutions/day22.py:71 | once raised, the exception ends the loop |
| Virus.SimpleCountBound | solutions/day22.py:64-67 | the count grows by at most one per burst |
| Virus.ComplexBurstCycles | solutions/day22.py:89-101 | on a grid of the four statuses a burst moves the node one status on, counts exactly when it becomes infected, turns by its status, leaves other nodes alone and moves to a neighbour |
| Virus.ComplexRunQuad | solutions/day22.py:88-101 | from a grid of the four statuses the complex run never raises and the grid stays so |
| Virus.ComplexRunRaised | solutions/day22.py:98 | once raised, the exception ends the loop |
| Virus.ComplexCountBound | solutions/day22.py:88-92 | the count grows by at most one per burst |
| Virus.WeakenedTurnsRight | solutions/day22.py:68 | on a lone weakened node the simple burst as written turns right where the intended one raises RuntimeError |
| Virus.SimpleAgreesOnBinary | solutions/day22.py:61-76 | on grids of clean and infected nodes, such as `init_grid` builds, the run as written is the intended one |
| Coprocessor.Sim | solutions/day23.py:139-162 | the loop ends as the run function says (normal exit with the `mul` count, exception, or out of fuel) and leaves the registers in the store where it stopped |
| Coprocessor.WritesOnlyTarget | solutions/day23.py:147-160 | `set/sub/mul x y` writes `y`, `x - y` or `x * y` into register x, no other register changes, and the index moves on by one |
| Coprocessor.JnzJumps | solutions/day23.py:154-160 | `jnz x y` jumps by `get(y)` exactly when `get(x) != 0` and moves on by one otherwise, touching neither registers nor count |
| Coprocessor.UnknownOpcodeRaises | solutions/day23.py:159 | any opcode other than set/sub/mul/jnz raises RuntimeError |
| Coprocessor.CountIsMulsExecuted | solutions/day23.py:144-162 | a normal end happens with the index outside the program, and the count returned is the number of `mul` instructions executed |
| Coprocessor.Candidates | solutions/day23.py:171 | the candidates are 1001 values from 107900 to 124900 in steps of 17 |
| Coprocessor.HasDivisor | solutions/day23.py:172-175 | the inner loop finds a divisor exactly when `x` has one in `[2, x)` |
| Coprocessor.FindH | solutions/day23.py:169-177 | `h` is the number of composite candidates, each counted once, so at most 1001 |
| Coprocessor.FirstCandidateComposite | solutions/day23.py:171-175 | the first candidate 107900 is composite, so `find_h` returns at least 1 |
| Bridges.Available | day24.py:46 | a component is available exactly when it is among the ports and has a port of the open end's type |
| Bridges.Remove | day24.py:50-51 | the copy holds one component fewer, exactly one occurrence of `x` removed |
| Bridges.Build | day24.py:45-53 | the generator yields at least one bridge |
| Bridges.BuildEach | day24.py:49-53 | looping over a non-empty `available` yields at least one bridge |
| Bridges.Strengths | day24.py:62 | the strength of each yielded bridge, in order |
| Bridges.Lengths | day24.py:74 | the length of each yielded bridge, in order |
| Bridges.Longest | day24.py:75 | the filter keeps exactly the bridges of the given length |
| Bridges.MaxLength | day24.py:74 | `max` of the lengths is the length of some bridge and bounds them all |
| Bridges.MaxStrength | day24.py:62-76 | `max` of the strengths is the strength of some bridge and bounds them all |
| Bridges.PartA | day24.py:59-62 | part `'a'` is the strength of some yielded bridge and at least that of every one |
| Bridges.PartB | day24.py:70-76 | part `'b'` is the strength of some longest yielded bridge and at least that of every longest one |
| Bridges.BuildEachMember | day24.py:49-53 | whatever the loop yields comes from laying some available component |
| Bridges.BuildEachContains | day24.py:49-53 | the loop yields everything the recursive call yields for each available component |
| Bridges.ChainStep | day24.py:50-52 | a chain starting with `x` is maximal exactly when its rest is maximal from the end `x` leaves, without `x` |
| Bridges.StepMaximal | day24.py:52 | laying the first component of an extension keeps it maximal, and back |
| Bridges.NoneAvailable | day24.py:46-47 | with no component fitting the open end, nothing is available |
| Bridges.NoneFitMaximal | day24.py:47 | a bridge no component fits is its own maximal extension |
| Bridges.MaximalStarts | day24.py:52 | a maximal extension keeps the parts laid before |
| Bridges.BuildSound | day24.py:45-53 | every yielded bridge extends the start by a chain of linked components taken from the ports that no left-over component can extend |
| Bridges.BuildComplete | day24.py:45-53 | every such maximal extension is yielded |
| Bridges.BuildIff | day24.py:45-53 | `build` yields exactly the maximal extensions of the starting bridge |
| Bridges.LinksShare | day24.py:46-52 | in a linked chain the first component fits the start, each component shares a port type with the next, and the end reached is a port of the last |
| Bridges.LinksAppend | day24.py:52 | laying a fitting component on the end reached extends the chain |
| Bridges.StrengthAppend | day24.py:62 | the strength of two pieces laid in turn is the sum of their strengths |
| Bridges.GrowChain | day24.py:46-52 | a left-over component that fits the end reached can be laid on it |
| Bridges.ExtendToMaximal | day24.py:45-53 | every chain that can be laid extends to a maximal one |
| Bridges.FromEmpty | day24.py:61 | a maximal chain from port 0 is yielded from `([], 0)` |
| Bridges.ToEmpty | day24.py:61 | a bridge yielded from `([], 0)` is a maximal chain from port 0 |
| Bridges.PartAStrongest | day24.py:59-62 | part `'a'` is the strength of a maximal chain from port 0, at least that of every maximal chain, and, without negative port types, at least that of every chain that can be laid |
| Bridges.NonNegativeStrength | day24.py:62 | components with no negative port type have a non-negative strength |
| Bridges.PartBStrongestLongest | day24.py:70-76 | the length part `'b'` selects is that of the longest chain that can be laid from port 0, and part `'b'` is at least the strength of every chain of that length |
| Turing.FollowYaml | solutions/day25.py:27-37 | the loop never raises and returns the number of cells holding 1 on the tape the machine leaves after `steps` steps from the blank tape |
| Turing.SumValues | solutions/day25.py:37 | on a tape of zeros and ones, `sum(tape.values())` is the number of cells holding 1 |
| Turing.TableWellFormed | solutions/day25.py:11-18 | each state has one action per value; every action writes 0 or 1, moves one cell and names a state of the table |
| Turing.StepGood | solutions/day25.py:32-35 | on a known state and a tape of zeros and ones a step never raises: it writes the table's value under the head, changes no other cell, moves one cell and takes the next state |
| Turing.RunGood | solutions/day25.py:28-35 | from the blank tape the machine never raises; after `n` steps the tape holds only zeros and ones, the head is at most `n` cells from 0 and every written cell less than `n` |
| Turing.OnesBound | solutions/day25.py:31-37 | the checksum after `n` steps is at most `n` |
| Turing.OnesStep | solutions/day25.py:32-35 | one step adds at most one cell holding 1 |
| Turing.OnesWrite | solutions/day25.py:34 | writing one cell adds at most that cell to the cells holding 1 |
| Turing.SubsetCard | solutions/day25.py:37 | a subset of cells is no larger |
| Turing.OnesTake | solutions/day25.py:37 | summing one more cell of a zero-one tape adds its value to the count of ones |

## Left out

- Reading input files (`read_*`), printing in `part_a`/`part_b`, and the `__main__` argument handling in every file. These are I/O. The model takes the parsed input as parameters.
- `day07.py` (tower balancing), `day12.py` (program groups), `solutions/day21.py` (fractal art), the three `day03.py` files, and `make_graph`/`count_groups` of `solutions/day14.py` are not part of this model. They rely on networkx and numpy, or lie outside the solvers listed above.
- `__repr__`/`__str__` of `Registers`, `Particle` and the other classes are left out. They only render state as text.
- Fixed iteration counts are parameters rather than constants: 50000000 insertions, 10000 and 10000000 bursts, 12861455 steps and the dance repetitions. The proved properties hold for every count. `Generators.CountMatches` keeps the source's 40000000 and 5000000 rounds, so no property of the method itself is stated for other counts; `Generators.PlayBound` covers any number of rounds.
- Loops with no bound of their own run under a `fuel` parameter. A run that exhausts it reports running out of fuel; the model does not say how much fuel a given input needs. This applies to the maze walks, memory banks, interpreters, firewall delay search, tube walks and `gen_a`/`gen_b` in part `'b'`.
- Reading a missing key of a `defaultdict` also inserts that key with the default value. The model reads the default without inserting. This is visible only through printing or `len` of the dictionary, which the code does not use (solutions/day22.py, solutions/day25.py, the `Registers` stores).
- `Particles.Particle.constructor`: the default arguments of `Particle.__init__` are mutable lists shared between calls (day20.py:23). The model gives each particle its own vectors and requires three components per vector.
- `Particles.Swarm.FindClosest`: requires at least one tick. With zero ticks Python reaches `min_part` unbound and raises UnboundLocalError.
- `Particles.Swarm.CountRemaining`: a survivor is not related back to the original particle it descends from after many rounds. The model proves that survivors are pairwise apart and that collisions are exactly shared positions.
- `Turing.SumValues`: states the result as the number of cells holding 1 only for a tape of zeros and ones. That is the only kind of tape the machine produces (`Turing.RunGood`).
- `CondRegisters.Modify`: requires each condition to be a comparison of a register with a token `int()` reads (an optional sign and ASCII digits) using one of `==`, `!=`, `<`, `<=`, `>`, `>=`. `eval` of any other text runs arbitrary Python. Among those tokens, a non-zero value written with a leading zero (`05`, `-007`) is not a Python 3 literal: the model raises SyntaxError for it, as `eval` does. Literals with underscores (`1_0`) are valid Python but outside the requires.
- `Spinlock.GenSpinlock`: the insertion count is a `nat`. A negative count in Python is an empty `range` and behaves like 0.
- `Coprocessor.Sim`: `part_a` of solutions/day23.py calls `sim` with three arguments (line 188), which raises TypeError before running. The model covers `sim` itself with its two arguments.
- `Virus.SimpleInfection`: after an exception the grid is left as it was at the burst that raised. The model reports only the exception, not that grid.
- `PyLib.ParseInt`: accepts only an optional `+` or `-` followed by ASCII digits. Python's `int()` also accepts surrounding white space (`int(" 3")`), single underscores between digits (`int("1_0")`) and the decimal digits of other scripts (`int("٣")`). The model raises ValueError for those. This reaches the tokens the code parses: `int(at_i)` in day01.py, the operands of the dance moves in day16.py (such as `x 3/4`), the spreadsheet cells of day02.py, and the amounts and literals of day08.py and the interpreters.
- Python ints are unbounded like Dafny's, so no wrap-around is modelled. The generators' `& 0xFFFF` is `% 65536` on their non-negative values.

## Findings

| source | as written | input that shows it | evidently intended | confidence | as-written member | corrected member |
|---|---|---|---|---|---|---|
| day08.py:61-63 | `overall_max` is updated only after `inc`, so a `dec` by a negative amount can raise a register past it unseen | the single instruction `a dec -5 if a == 0`: part `'a'` is 5, part `'b'` is 0 | the running maximum covers every value any register held, so part `'b'` is at least part `'a'` | not executed | CondRegisters.NegativeDecMissed | CondRegisters.TrackedPartBDominates |
| solutions/day19.py:50-68 | the loop ends only on a space, but a space, a vertical bar or `-` falls into the `else` that raises RuntimeError, so `follow` never returns | a two-row diagram, a vertical bar above a space: RuntimeError instead of no letters in one step | return `(path, steps)` on the first space, as day19.py does | not executed | Tubes.CheckedNeverReturns | Tubes.FollowCounts |
| solutions/day22.py:68 | `statuses[grid[curr_pos] == 'i']` compares an int with a string, which is False, and `statuses[False]` is `'c'`, a true string; so every node that is not clean turns right, and the RuntimeError branch is dead | a grid holding only a weakened node (1) at (0, 0), one burst: as written the carrier turns right and the node becomes 3 | compare the status with `'i'` (`statuses[grid[curr_pos]] == 'i'`), so a weakened or flagged node raises RuntimeError | not executed | Virus.WeakenedTurnsRight | Virus.SimpleBurstIntended |
