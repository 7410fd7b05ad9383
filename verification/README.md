# Verification of the core of `primitives`

A Dafny model of the parts of this C++ repository with the most state, branching and arithmetic, and proofs of what
they guarantee. `dafny verify dfyconfig.toml` checks everything.

Where the source changes things step by step, the model does too: objects whose methods update their fields are classes
(`VersionVariable`, `VersionRange`, `ArgVector`, `Parser`), loops are loops with invariants, and each such method is
proved equal to a function of its inputs or of the old state. The theorems are then about those functions. The two
concurrent parts are step systems in which any number of threads interleave freely.

| part | modules | source |
|---|---|---|
| version order, carrying and borrowing | `Orders`, `Versions`, `VersionSteps` | `src/version1/src/version.cpp` |
| version ranges | `Intervals`, `VersionRanges`, `VersionRangeProofs`, `AnyLevelRanges` | `src/version1/src/version_range.cpp` |
| letter numbering, printing | `Letters`, `Decimal`, `Text`, `PrintedVersions` | `src/version1/src/version.cpp`, `src/version/src/version.cpp` |
| thread pool | `Executor`, `ExecutorLocks`, `ExecutorTasks`, `ExecutorWaits`, `ExecutorTheorems`, `ExecutorProgress`, `ExecutorAlone` | `src/executor/include/primitives/executor.h` |
| continuations | `Continuations` | `src/executor/include/primitives/executor.h` |
| command line | `Tokenizers`, `Spellings`, `Quoting`, `ResponseFiles`, `Positionals` | `src/settings/src/CommandLine.cpp`, `src/command/include/primitives/argument.h` |
| unified diffs | `UnifiedDiff`, `DiffScripts`, `PatchTheorems`, `DiffReadings` | `src/patch/src/patch.cpp` |
| CSV lines | `Csv` | `src/csv/include/primitives/csv.h` |

Version ranges. At one level, releases are ordered like integers (`PlaceOrder`), so the vector of pairs is compared with
a set of integers. `|=` is modelled with its second copy: when a pair is inserted before another, it is also appended at
the end. The invariant divides the vector into main pairs, ascending and disjoint, and ghosts, each inside an earlier
main pair; `Intervals` proves that every branch keeps this and adds exactly the new pair. Where the source would leave
an array or go on with invalid iterators, the operators end with the effect `Leaves`, and nothing is promised of the
object.

Thread pool. Each worker and each outside thread has a program counter, and a step reads or writes one shared variable;
moving the front task out, raising `busy` and `pop_front` are three steps, because `wait` reads `empty()` without the
lock. Trying a lock may fail even when it is free, and waiting on a condition variable may end at any time. What every
reachable state satisfies is proved by induction over runs. Tasks that call `push` or `stop` from inside a worker behave
like further outside threads. `ExecutorAlone` says what each operation comes to when nothing interferes, so that the
safety results are not about a machine that does nothing.

Tokenizers. `Spellings` lists every way to spell an argument, proves that the tokenizers read what is spelled, and that
every text is spelled in one of these ways.

Unified diffs. The text of the header is parsed and printed in decimal, so the theorems are about whole texts. Reading
past the old lines, which the source does not check, is a result of its own (`Undefined`), and so is the exception of
`std::stoi` (`Thrown`).

## Where the code and its documentation or expectation disagree

- The comment of `Extra::operator<` says that 1.2.3.rc1 is less than 1.2.3. The repository is built with C++23
  (`sw.cpp`), where the comparison of tuples uses the three-way comparison that `Extra` inherits from `std::vector` in
  `src/version1`; that `operator<` is not called, and 1.2.3 is less than 1.2.3-rc1 (`ReleaseIsBelowItsPreRelease`).
  `ReadingsAgreeExactlyWhen` says when it matters. The `Extra` of `src/version` inherits nothing, and there the comment
  is right.
- The header says that the vector of a range is "always sorted with less". It is not: `SortedIsNotAlwaysKept` names an
  input, and `StaysSortedExactlyWhen` gives the exact condition.
- A union of ranges may have versions that neither has: `ExactForAllVersionsExactlyWhen` names the branch.
- The empty range `&=` a branch gives the branch instead of the empty range (`EmptyMeetsBranch`, and exactly when in
  `IntersectionWithBranches`).
- A hunk with a zero new count is never applied, and one with a zero old count only right after another hunk, because
  the code does not follow the convention that an empty range names the line before it (`DeletionOnlyIsRefused`,
  `InsertionOnlyIsRefused`, and exactly when in `PatchMakesTheEdits`).
- The Windows tokenizer loses an empty last argument and the GNU one every empty argument (`EmptyLastArgumentIsLost`,
  and exactly when in `WindowsRoundTrip` and `GnuRoundTrip`).
- With a consume-after option, the first of several positional options never gets a value, even if it requires one
  (`FirstOfTwoGetsNothing`, and exactly when in `ConsumeAfterStarvesFirst`).
- Incrementing a pre-release whose numbers are all at the maximum carries past the front of the array
  (`GreatestPreReleaseLeaves`, and exactly when in `IncrementStaysInside`).

## Model

| member | source | states |
|---|---|---|
| `Versions.OperatorsMeanBelow` | src/version1/src/version.cpp:443-504 | as built with C++23, the six comparisons, each with its own branch tests and resizing, all agree with one order: branches by name below every number, then zero-extended numbers, then extras with the empty one least |
| `Versions.OrderIsTotalPreorder` | src/version1/src/version.cpp:443-504 | as built, that order is total, transitive and asymmetric across different lengths, and `==` is exactly that neither is less |
| `Versions.OperatorsMeanBelowBy` | src/version/src/version.cpp:279-317 | the same with the order of extras as a parameter: the declared one, with the empty extra greatest, is what the operators of `src/version` use, which know no branches |
| `Versions.ReadingIsTotalPreorder` | src/version/src/version.cpp:44-55 | both orders are total preorders on which all operators agree |
| `Versions.FirstDifferentItemDecides` | src/version1/include/primitives/version.h:26-54 | pre-releases of the same numbers compare at their first different item: numbers by value, words alphabetically by their characters, words before numbers, and a shorter extra before a longer one that starts with it |
| `Versions.BranchesAreAlphabetical` | src/version1/src/version.cpp:458-492 | two branches compare alphabetically by the characters of their names |
| `Versions.ReadingsAgreeExactlyWhen` | src/version1/src/version.cpp:42-53 | the operators give what `Extra::operator<` intends exactly unless a release meets a pre-release of the same numbers |
| `Versions.ReleaseIsBelowItsPreRelease` | src/version1/src/version.cpp:42-53 | as built, 1.2.3 is less than 1.2.3-rc1, against the comment of that operator |
| `Orders.LexIsFirstDifference` | src/version1/src/version.cpp:443-456 | the lexicographic comparison of vectors is decided at the first difference |
| `VersionSteps.VersionVariable.IncrementVersion` | src/version1/src/version.cpp:597-608 | for every version and level: the walking pointer ends well exactly when `CanIncrement` holds, and then has carried as `Incremented` says; otherwise it throws or leaves the array |
| `VersionSteps.VersionVariable.DecrementVersion` | src/version1/src/version.cpp:584-595 | the same for borrowing |
| `VersionSteps.CarryAddsUnit` | src/version1/src/version.cpp:604-607 | carrying adds one unit of its position in base 10^9 and keeps all numbers legal |
| `VersionSteps.BorrowTakesUnit` | src/version1/src/version.cpp:591-594 | borrowing takes one unit and keeps all numbers legal |
| `VersionSteps.PlaceOrder` | src/version1/src/version.cpp:443-499 | releases of up to one level are ordered and equal exactly like integers |
| `VersionSteps.SuccessorPlace` | src/version1/src/version.cpp:548-572 | `++v` moves to the next place, and does nothing exactly at `max` |
| `VersionSteps.PredecessorPlace` | src/version1/src/version.cpp:532-567 | `--v` moves to the previous place, does nothing exactly at `min`, and leaves the array exactly at zero |
| `VersionSteps.IncrementAddsOne` | src/version1/src/version.cpp:597-608 | for versions of every length, with any extra or branch: wherever `++v` is defined it adds one in base 10^9 and keeps everything else, except at `max` |
| `VersionSteps.DecrementTakesOne` | src/version1/src/version.cpp:584-595 | the same for `--v`, which is undefined exactly when all numbers are zero |
| `VersionSteps.StepsInNumbers` | src/version1/src/version.cpp:144-155 | the bounds of the levels up to 3 and one carry, in numbers |
| `VersionSteps.UpThenDown` | src/version1/src/version.cpp:564-608 | down undoes up exactly away from the greatest version and from zero |
| `VersionSteps.DownThenUp` | src/version1/src/version.cpp:564-608 | wherever stepping down is defined, up undoes it exactly away from the least version |
| `VersionSteps.NothingBetween` | src/version1/src/version.cpp:597-608 | no release of that level or shorter lies strictly between a version and its successor |
| `VersionSteps.IncrementAtLevel` | src/version1/src/version.cpp:597-608 | incrementing at any level adds one unit of that position and gives a greater version; above the own level the version is extended with zeros first |
| `VersionSteps.IncrementStaysInside` | src/version1/src/version.cpp:597-608 | for legal numbers, the pointer leaves the array exactly when all numbers are maximal and the version is a branch, a pre-release or shorter than the minimum level |
| `VersionSteps.GreatestPreReleaseLeaves` | src/version1/src/version.cpp:597-608 | it does for the pre-release `rc1` of the greatest version of level 3 |
| `VersionRanges.VersionRange.HasVersion` | src/version1/src/version_range.cpp:125-140 | the search over the pairs with its branch tests is membership |
| `AnyLevelRanges.MembershipByKind` | src/version1/src/version_range.cpp:125-140 | a range has the branch of its name and no other, or the numeric versions between the bounds of some pair |
| `AnyLevelRanges.EmptyTakesBranch` | src/version1/src/version_range.cpp:346-354 | the empty range united with a pair that has a branch in it becomes that branch |
| `AnyLevelRanges.BranchRules` | src/version1/src/version_range.cpp:440-470 | when the operators throw because of branches, and which branch they take otherwise; without branches only a bound without numbers makes a union with a pair throw |
| `VersionRanges.VersionRange.UnionPair` | src/version1/src/version_range.cpp:342-404 | the whole new state of union assignment with any pair, when it throws, and when a step makes it undefined |
| `VersionRanges.VersionRange.InsertPair` | src/version1/src/version_range.cpp:357-403 | the loop with insertion, merging and swallowing in place computes `Insert`, the second copy included, unless a step `++v` does not end well |
| `VersionRanges.VersionRange.Union` | src/version1/src/version_range.cpp:440-456 | the new state of union assignment with another range or with itself, what is left when it throws, and when it is undefined |
| `VersionRanges.VersionRange.Intersect` | src/version1/src/version_range.cpp:458-482 | the new state of `&=` with any range, and when it throws or is undefined |
| `VersionRanges.VersionRange.CollectRow` | src/version1/src/version_range.cpp:475-479 | the inner loop of `&=` adds the intersections with one pair, in order |
| `Intervals.InsertIsExact` | src/version1/src/version_range.cpp:357-403 | on integers, one union assignment keeps the shape of main and ghost pairs and covers exactly one pair more |
| `Intervals.InsertAllIsExact` | src/version1/src/version_range.cpp:453-454 | the same for any number of them |
| `Intervals.ExactBetween` | src/version1/src/version_range.cpp:357-403 | on integers, without a join of touching spans insertion is exact also between the integers |
| `Intervals.MeetAllIsSorted` | src/version1/src/version_range.cpp:473-480 | the double loop meets the intersections of sorted vectors in ascending order |
| `Intervals.FoldOfSortedIsSorted` | src/version1/src/version_range.cpp:342-404 | union assignment over ascending intervals only ever appends or merges |
| `VersionRangeProofs.InsertOnPlaces` | src/version1/src/version_range.cpp:357-403 | union assignment on pairs of one level is union assignment on integer intervals |
| `VersionRangeProofs.UnionIsExact` | src/version1/src/version_range.cpp:342-404 | folding any valid pairs of one level into the empty range ends well and keeps exactly the versions in some pair |
| `VersionRangeProofs.InsertAllIsExact` | src/version1/src/version_range.cpp:440-456 | the same onto any range built this way, which stays one |
| `VersionRangeProofs.UnionOfRangesIsExact` | src/version1/src/version_range.cpp:440-456 | the union of two ranges built this way has exactly the versions of either |
| `VersionRangeProofs.IntersectHas` | src/version1/src/version_range.cpp:142-154 | the intersection of two pairs has exactly the common versions, and is absent when there are none |
| `AnyLevelRanges.IntersectHasExactly` | src/version1/src/version_range.cpp:142-154 | the intersection of any two numeric pairs has exactly the versions of both, of every level and extra |
| `AnyLevelRanges.BranchPairsWin` | src/version1/src/version_range.cpp:142-147 | a pair with a branch in it wins over the other one |
| `AnyLevelRanges.IntersectionsHaveExactly` | src/version1/src/version_range.cpp:473-480 | the double loop over any numeric vectors meets exactly the common versions |
| `VersionRangeProofs.IntersectionIsExact` | src/version1/src/version_range.cpp:458-482 | `A & B` has exactly the versions both have, whatever order the vectors are in |
| `AnyLevelRanges.IntersectionIsExact` | src/version1/src/version_range.cpp:458-482 | `A & B` for bounds of any levels and extras has exactly the common versions, when no pair is joined to one it only touches |
| `VersionRangeProofs.IntersectionWithBranches` | src/version1/src/version_range.cpp:458-482 | with branches, that holds exactly unless the left side is empty and the right side is a branch |
| `VersionRangeProofs.EmptyMeetsBranch` | src/version1/src/version_range.cpp:462-470 | the empty range `&=` the branch `main` is that branch |
| `VersionRangeProofs.IntersectionStaysSorted` | src/version1/src/version_range.cpp:458-482 | sorted disjoint vectors have a sorted disjoint intersection |
| `VersionRangeProofs.IntersectionNeverInsertsBefore` | src/version1/src/version_range.cpp:374-377 | no step of that intersection takes the insert-before branch |
| `VersionRangeProofs.StaysSortedExactlyWhen` | src/version1/include/primitives/version_range.h:130-131 | a sorted vector stays sorted exactly when the insert-before branch is not taken |
| `VersionRangeProofs.SortedHasShape` | src/version1/include/primitives/version_range.h:130-131 | sorted vectors are among those whose unions are exact |
| `VersionRangeProofs.PairBelowIsKeptTwice` | src/version1/src/version_range.cpp:374-402 | a pair below the only one is inserted and appended |
| `VersionRangeProofs.SortedIsNotAlwaysKept` | src/version1/include/primitives/version_range.h:130-131 | adding 2.0.0 and then 1.0.0 leaves an unsorted vector |
| `VersionRangeProofs.MergeAdmitsFinerVersions` | src/version1/src/version_range.cpp:362-367 | in any vector that unions build, joining a pair to one it only touches lets in a version one level finer that no pair had |
| `VersionRangeProofs.ExactForAllVersionsExactlyWhen` | src/version1/src/version_range.cpp:362-367 | one union assignment adds exactly the versions of the pair, of every level and pre-releases included, exactly when that branch is not taken |
| `AnyLevelRanges.InsertAddsExactly` | src/version1/src/version_range.cpp:357-403 | one union assignment onto any vector of the shape, with bounds of any levels and extras, keeps the shape and lets in exactly the pair and what lies between it and a main pair it only touches |
| `AnyLevelRanges.FoldIsExact` | src/version1/src/version_range.cpp:342-404 | folding any numeric pairs that never only touch keeps exactly the versions of some pair, of every level and extra |
| `VersionRangeProofs.UnionWithItself` | src/version1/src/version_range.cpp:453-454 | a sorted range united with itself stays as it is, exactly unless two of its pairs touch; then the loop is undefined |
| `Letters.CreateLatinReplacements` | src/version1/src/version.cpp:635-658 | the three loops and the padding give the fixed-length base-26 word |
| `Letters.ReplacementDecodes` | src/version1/src/version.cpp:635-658 | decoding the word in bijective base 26 gives the number back |
| `Letters.EveryWordIsAReplacement` | src/version1/src/version.cpp:635-658 | every nonempty word is the word of its number, so the map is a bijection |
| `Letters.ReplacementsAreInShortLexOrder` | src/version1/src/version.cpp:635-658 | the words come in shortlex order |
| `Letters.PowerStaysSmall` | src/version1/src/version.cpp:639-646 | the power never exceeds 26 times the number, or 26 |
| `Letters.FirstAndLastWords` | src/version1/src/version.cpp:635-658 | the first and last words of one letter, the first two of two and the first of three |
| `PrintedVersions.GetRealLevel` | src/version/src/version.cpp:371-381 | the backward loop finds the length without trailing zeros |
| `PrintedVersions.PrintVersion` | src/version/src/version.cpp:196-208 | the loops and the cut of the last delimiter print the shown numbers joined by the delimiter |
| `Decimal.PrintIsShortestNumeral` | src/version/src/version.cpp:196-208 | what is printed for a number is the one numeral worth it by its digits and their positions that has no superfluous zeros |
| `PrintedVersions.PrintedIsShownInDecimal` | src/version/src/version.cpp:196-208 | the printed text is the numbers that the version shows at the level as shortest decimal numerals, in order, cut by the delimiters |
| `PrintedVersions.PrintingIsCanonical` | src/version/src/version.cpp:225-317 | at a fixed level, extra-free versions of any lengths are equal exactly when they print the same |
| `ExecutorLocks.StepFits` | src/executor/include/primitives/executor.h:85-132 | every step keeps: a lock has one holder, a moved-from task is at the front of a queue only while its taker holds the lock, `busy` is up whenever a popped task is in hand |
| `ExecutorTasks.StepKeepsTasks` | src/executor/include/primitives/executor.h:85-141 | every step keeps each task in one place and the calls free of repetition |
| `ExecutorWaits.StepKeepsWaits` | src/executor/include/primitives/executor.h:441-487 | every step keeps what a waiting thread has established about the tasks enqueued before its call |
| `ExecutorWaits.EmptyQueueIsPassed` | src/executor/include/primitives/executor.h:455-471 | seeing an empty queue rules out that an earlier task is in it or was just moved out of it |
| `ExecutorWaits.IdleWorkerIsPassed` | src/executor/include/primitives/executor.h:478-482 | a flag that is down rules out that the worker has an earlier task |
| `ExecutorTheorems.WaitReturnsAfterAllTasks` | src/executor/include/primitives/executor.h:441-487 | over every run: `wait` from outside that owned `m_wait` and returns unstopped returns after every task enqueued before the call has finished |
| `ExecutorTheorems.EveryTaskInOnePlace` | src/executor/include/primitives/executor.h:593-625 | in every reachable state each submitted task is in exactly one place, and is dropped only after a stop |
| `ExecutorTheorems.NoTaskCalledTwice` | src/executor/include/primitives/executor.h:535-561 | no task is called twice; those called are those finished and those running |
| `ExecutorTheorems.WorkersAreSound` | src/executor/include/primitives/executor.h:99-132 | no worker calls an empty task or takes a moved-from one, a failed `pop` means a stop, and the lock of a queue has at most one holder among all threads |
| `ExecutorTheorems.GateIsOpenOutsideWaits` | src/executor/include/primitives/executor.h:443-486 | `push` blocks or rejects only while a thread is between setting and resetting `waiting_`, and only one is |
| `ExecutorProgress.BlockedPushIsHeldBack` | src/executor/include/primitives/executor.h:597-601 | over every run in which `waiting_` stays `BlockIncoming`, a push that has not passed the gate does not enqueue its task |
| `ExecutorProgress.RejectedPushEnqueuesNothing` | src/executor/include/primitives/executor.h:595-596 | over every run in which it stays `RejectIncoming`, a push that starts enqueues nothing and ends rejected |
| `ExecutorProgress.OpenGateHoldsNothingBack` | src/executor/include/primitives/executor.h:593-603 | with any other status no push waits for the gate or is rejected |
| `ExecutorProgress.NoDeadlock` | src/executor/include/primitives/executor.h:77-160 | in every reachable state each thread inside a call or a loop can step, or waits for a mutex whose holder can |
| `ExecutorAlone.WorkerAloneRunsFirstTask` | src/executor/include/primitives/executor.h:530-585 | a worker running alone takes the front task of the first nonempty queue counting from its own, calls it, and is back with its flag down; nothing else changes |
| `ExecutorAlone.WorkerAloneWaits` | src/executor/include/primitives/executor.h:570-625 | with all queues empty it tries each one four times and then waits at its own |
| `ExecutorAlone.StoppedWorkerExits` | src/executor/include/primitives/executor.h:522-552 | after a stop a worker at its loop or its own queue exits |
| `ExecutorAlone.PushAloneEnqueues` | src/executor/include/primitives/executor.h:593-612 | a push running alone with the gate open puts its task at the end of the first queue that is neither closed nor locked, counting from the shared index |
| `ExecutorAlone.WaitAloneReturns` | src/executor/include/primitives/executor.h:441-487 | `wait` alone, with nothing queued or busy, announces its status first and returns with the gate open and free |
| `ExecutorAlone.StopAloneClosesAll` | src/executor/include/primitives/executor.h:435-440 | `stop` alone raises the flag first and then closes every queue |
| `ExecutorAlone.CallsBegin` | src/executor/include/primitives/executor.h:435-452 | how an idle thread enters `push`, `stop` and `wait`, and what `wait` remembers |
| `Continuations.SubmittedAtMostOnceAfterSet` | src/executor/include/primitives/executor.h:190-215 | no continuation is submitted twice or before the state is set |
| `Continuations.EveryContinuationInOnePlace` | src/executor/include/primitives/executor.h:668-682 | each one registered is in one hand, in the list not swept yet, or submitted |
| `Continuations.AllSubmittedAtRest` | src/executor/include/primitives/executor.h:190-215 | when no thread is inside a call, a set state has submitted all of them exactly once, and clearing the list without the lock has lost none |
| `Continuations.NoDeadlock` | src/executor/include/primitives/executor.h:190-215 | a thread that cannot go on waits for the mutex, and its holder can go on |
| `Continuations.StepsComeCloser` | src/executor/include/primitives/executor.h:190-215 | every step inside a call leaves fewer steps to be made |
| `Continuations.EverythingEnds` | src/executor/include/primitives/executor.h:668-682 | from every reachable state the calls under way can end, and then a set state has submitted every continuation |
| `Continuations.SetExecutedSets` | src/executor/include/primitives/executor.h:190-197 | over every run: when a call of `setExecuted` has ended, the state is set |
| `Continuations.CallsBegin` | src/executor/include/primitives/executor.h:668-682 | how an idle thread enters `then` and `setExecuted` |
| `Tokenizers.TokenizeGNUCommandLine` | src/settings/src/CommandLine.cpp:811-870 | the loops compute the arguments of the grammar, line marks and cuts at NUL included |
| `Tokenizers.ParseBackslash` | src/settings/src/CommandLine.cpp:889-908 | the effect of a run of backslashes on the token and the index |
| `Tokenizers.TokenizeWindowsCommandLine` | src/settings/src/CommandLine.cpp:910-988 | the three-state loop computes the arguments of the grammar |
| `Spellings.GnuReadsEverySpelling` | src/settings/src/CommandLine.cpp:811-870 | for words of plain characters, escaped characters and quotations of both kinds, closed or not, with any blanks between them, the arguments are the values of the nonempty words, with the line marks |
| `Spellings.EveryTextIsSpelled` | src/settings/src/CommandLine.cpp:811-870 | every text is spelled in this way, so nothing is left unsaid |
| `Spellings.WindowsReadsEverySpelling` | src/settings/src/CommandLine.cpp:889-988 | for words of characters, quoted parts, and runs of backslashes before a quote or elsewhere, also at the end, the arguments are the values of the words, with the line marks |
| `Spellings.EveryWindowsTextIsSpelled` | src/settings/src/CommandLine.cpp:910-988 | every text is spelled in this way |
| `Quoting.EscapeIsOnePass` | src/command/include/primitives/argument.h:129-135 | the two replacements escape each quote and backslash once |
| `Quoting.SimpleQuotingIsIdempotent` | src/command/include/primitives/argument.h:125-128 | simple quoting leaves alone what starts with a quote |
| `Quoting.GnuUndoesSimpleQuoting` | src/command/include/primitives/argument.h:125-128 | it is undone for nonempty arguments without quotes, backslashes and NULs |
| `Quoting.GnuUndoesQuoting` | src/command/include/primitives/argument.h:119-141 | for all lists, tokenizing the quoted arguments gives them back without the empty ones |
| `Quoting.GnuRoundTrip` | src/settings/src/CommandLine.cpp:811-870 | the list comes back unchanged exactly when no argument is empty or has a NUL |
| `Quoting.WindowsUndoesQuoting` | src/settings/src/CommandLine.cpp:910-988 | for all lists, the Windows tokenizer undoes standard quoting except for an empty last argument |
| `Quoting.WindowsRoundTrip` | src/settings/src/CommandLine.cpp:910-988 | the list comes back unchanged exactly when the last argument is nonempty and none has a NUL |
| `Quoting.EmptyLastArgumentIsLost` | src/settings/src/CommandLine.cpp:910-988 | the list of `a` and an empty argument loses the second one in both styles |
| `ResponseFiles.ArgVector.ExpandResponseFiles` | src/settings/src/CommandLine.cpp:1092-1138 | splicing in place computes `Expand`, and terminates for every file map |
| `ResponseFiles.GnuFileIsItsSpelling` | src/settings/src/CommandLine.cpp:1035-1062 | a mention of a file is replaced by the arguments that the contents of the file spell |
| `ResponseFiles.WindowsFileIsItsSpelling` | src/settings/src/CommandLine.cpp:1035-1062 | the same in the Windows style |
| `ResponseFiles.UnreadableFileStays` | src/settings/src/CommandLine.cpp:1126-1133 | a file that cannot be read leaves its mention in place and the result incomplete |
| `ResponseFiles.SettingsAreDropped` | src/settings/src/CommandLine.cpp:1111-1116 | exactly the arguments that start with two at signs disappear when no response file is mentioned |
| `ResponseFiles.RequestsStayInBudget` | src/settings/src/CommandLine.cpp:1118-1121 | at most 21 files are asked for |
| `ResponseFiles.TwentyOneFiles` | src/settings/src/CommandLine.cpp:1118-1121 | mentioning an empty file works 21 times, and further mentions stay |
| `ResponseFiles.ExpandsExactlyWithinBudget` | src/settings/src/CommandLine.cpp:1092-1138 | success with a result is exactly the recursive left-to-right depth-first expansion reading at most 21 files |
| `ResponseFiles.SuccessLeavesNoResponseFile` | src/settings/src/CommandLine.cpp:1106-1109 | after success no argument starts with `@` |
| `ResponseFiles.SelfInclusionFails` | src/settings/src/CommandLine.cpp:1118-1121 | a file that includes itself is never reported as expanded |
| `Positionals.ExaminePositionals` | src/settings/src/CommandLine.cpp:1256-1292 | the counts and the error flag: an option that can never be matched exists |
| `Positionals.ReportedNeverGet` | src/settings/src/CommandLine.cpp:1266-1287 | without consume-after, the options reported are those not given by name either that never get a value from the loop, however many there are |
| `Positionals.ConsumeAfterGives` | src/settings/src/CommandLine.cpp:1266-1276 | with consume-after and several options, exactly those after the first that require a value get one; those that require none are reported |
| `Positionals.Distribute` | src/settings/src/CommandLine.cpp:1429-1462 | the nested loops deliver by the greedy counts and never overrun the values |
| `Positionals.DistributeConsumeAfter` | src/settings/src/CommandLine.cpp:1463-1491 | the deliveries of the consume-after branch |
| `Positionals.HandlePositionals` | src/settings/src/CommandLine.cpp:1417-1491 | the checks let through exactly what can be given out at all, and then every value arrives once and in order and each option gets a number that suits it |
| `Positionals.ChecksMeanFeasible` | src/settings/src/CommandLine.cpp:1417-1427 | the too-few and too-many checks pass exactly when some distribution exists |
| `Positionals.GreedyIsGreatest` | src/settings/src/CommandLine.cpp:1429-1462 | among all distributions the loop picks the one that serves earlier options first |
| `Positionals.DistributionConserves` | src/settings/src/CommandLine.cpp:1429-1462 | every value is delivered once and in order, within each option's limits |
| `Positionals.ConsumeAfterStarvesFirst` | src/settings/src/CommandLine.cpp:1463-1491 | with consume-after nothing is lost, but the limits hold exactly when the first option is the only one or requires nothing |
| `Positionals.OnlyOptionGetsFirst` | src/settings/src/CommandLine.cpp:1475-1486 | with consume-after, the only option gets the first value and the rest is kept |
| `Positionals.FirstOfTwoGetsNothing` | src/settings/src/CommandLine.cpp:1463-1491 | of two required options with consume-after, the first gets none of two values |
| `UnifiedDiff.PrepareLines` | src/patch/src/patch.cpp:144-155 | splitting and stripping carriage returns in place |
| `PatchTheorems.StripCrCutsExactly` | src/patch/src/patch.cpp:150-151 | stripping removes the carriage returns at the end of a line, all of them and nothing else |
| `PatchTheorems.PreparedExactly` | src/patch/src/patch.cpp:144-155 | the prepared lines are the text cut at its newlines, each without the carriage returns at its end, and nothing else is |
| `UnifiedDiff.PatchHunk` | src/patch/src/patch.cpp:28-79 | the loop over a hunk: its text, both indices, the new index, and each way to fail |
| `UnifiedDiff.PatchFile` | src/patch/src/patch.cpp:81-142 | the loop over the file |
| `UnifiedDiff.ApplyHunk` | src/patch/src/patch.cpp:99-127 | one header: copying up to it, the check of the new line, and its hunk |
| `UnifiedDiff.Patch` | src/patch/src/patch.cpp:157-184 | the whole application, the rest of the file and the cut of the last newline included |
| `DiffScripts.HeaderIsRead` | src/patch/src/patch.cpp:102-110 | a printed header is read back |
| `DiffScripts.HeaderExactly` | src/patch/src/patch.cpp:102-110 | the headers recognised are exactly those with numbers of one or more digits in their places and the rest of the line free, and the numbers are those written |
| `DiffScripts.BodyIsApplied` | src/patch/src/patch.cpp:28-79 | the printed edits with their counts turn the old side into the new side |
| `DiffScripts.ScriptIsApplied` | src/patch/src/patch.cpp:81-142 | a printed script is applied as a whole, or not at all, by the exact condition on its counts |
| `PatchTheorems.PatchMakesTheEdits` | src/patch/src/patch.cpp:177-184 | for every text and ordered edit script, patching with the printed script gives exactly the new text if all hunks are placeable, and fails otherwise |
| `PatchTheorems.DeletionOnlyIsRefused` | src/patch/src/patch.cpp:107-118 | the deletion `@@ -2,1 +1,0 @@` is refused |
| `PatchTheorems.InsertionOnlyIsRefused` | src/patch/src/patch.cpp:107-118 | the insertion `@@ -1,0 +2,1 @@` is refused |
| `PatchTheorems.ReversedUndoes` | src/patch/src/patch.cpp:28-79 | the reversed script applies to the new lines and makes the old ones |
| `PatchTheorems.PatchingBackRestores` | src/patch/src/patch.cpp:177-184 | patching there and back gives the old lines exactly when all counts are positive |
| `PatchTheorems.PreparedTextIsText` | src/patch/src/patch.cpp:144-155 | those lines are the text itself exactly when no line ends in a carriage return |
| `DiffReadings.PatchedExactlyByScripts` | src/patch/src/patch.cpp:28-142 | without the Git option, patching any diff succeeds with a result exactly when the diff states hunks that consume their header counts, start at their stated new lines, find their old sides, and make that result |
| `DiffReadings.HunkReadsBody` | src/patch/src/patch.cpp:28-79 | a hunk loop that succeeds has read edits with exactly the given counts |
| `DiffReadings.HeaderFails` | src/patch/src/patch.cpp:107-121 | when a header throws, reads past the old lines, or disagrees on the new line |
| `DiffReadings.HunkFails` | src/patch/src/patch.cpp:28-79 | how a line inside a hunk fails |
| `DiffReadings.FileFails` | src/patch/src/patch.cpp:88-137 | how a line outside hunks fails |
| `DiffReadings.GitAppliesUpToStop` | src/patch/src/patch.cpp:128-134 | with the Git option a diff is applied up to the first line that stops it, whatever follows |
| `DiffReadings.GitChangesNothing` | src/patch/src/patch.cpp:128-134 | without such a line the option changes nothing |
| `Csv.Parser.Parse` | src/csv/include/primitives/csv.h:38-43 | the parser object returns the columns of the grammar, or throws |
| `Csv.Parser.Fields` | src/csv/include/primitives/csv.h:55-60 | the loop over fields: columns appended and input left |
| `Csv.Parser.QuotedField` | src/csv/include/primitives/csv.h:88-100 | the text of a quoted field and what is left |
| `Csv.Parser.NormalField` | src/csv/include/primitives/csv.h:73-86 | a bare field, absent when it has no characters |
| `Csv.Parser.AcceptQuotedSymbol` | src/csv/include/primitives/csv.h:120-136 | the two-character lookahead, with the step back when it fails |
| `Csv.ParseLine` | src/csv/include/primitives/csv.h:159-164 | the line parser computes `ParseOf`, exceptions included |
| `Csv.Dialect.ParsesExactlyTheRenderings` | src/csv/include/primitives/csv.h:54-155 | an input parses to columns exactly when its text before the first NUL is a rendering of them |
| `Csv.Dialect.ParseUndoesRender` | src/csv/include/primitives/csv.h:54-155 | parsing undoes quoting with escapes for all columns that can be written |

## Left out

- Version ranges: `operator&=` with a single pair, `toString`, hashing, comparisons of ranges with versions, and the range and version parsers.
- VersionRangeProofs.UnionIsExact: is about bounds that are releases of one level, and queries of up to that level. `ExactForAllVersionsExactlyWhen` says when one union assignment is exact for every version, and `AnyLevelRanges` treats bounds of any levels and extras; there, what a join to a leftover copy of a pair lets in is not described.
- Version numbers are unbounded integers; overflow of 64-bit numbers beyond the legal maximum is not modelled.
- The range classes of `src/version`, its version arithmetic, and formatting apart from the letter numbering.
- Executor: calls of `wait` from inside a worker, `whenAll` and `whenAny`, futures' own waiting, exceptions from tasks, thread start-up and names, time, and that the scheduler is fair: there is no deadlock, but a thread may starve. The shared index is unbounded.
- ExecutorTheorems.WaitReturnsAfterAllTasks: is about calls that own `m_wait`; a call that finds it taken returns when the other waiting thread does and promises nothing about its own earlier tasks.
- Continuations: the dangling `this` captured by the callback, and what `push` does with a continuation once it has it.
- Command line: option lookup and parsing of values, help, environment variables, encodings and byte order marks of response files, relative names inside them, and the settings that an `@@file` argument loads (the argument is dropped, as in the source).
- Positionals.DistributeConsumeAfter: is the branch behind the check for too few values; `HandlePositionals` has the check.
- Patch: diffs of whole directories, and what the caller does with the rest of a diff after the Git option has stopped. Messages are reduced to their reasons. The counters are unbounded, so line numbers beyond `int` are not modelled.
- PatchTheorems.PatchMakesTheEdits: the added and removed lines contain no newline and do not end in a carriage return, because such lines cannot be written in a diff; the numbers of lines fit `int`.
- Csv.Dialect.ParsesExactlyTheRenderings: asks that the delimiter is none of quote and escape and that none of the three is NUL, because the tokens cannot be told apart otherwise. The step past the terminator after the last token reads nothing in the model.
- Everything that is input and output or foreign code: http, processes, file monitoring, locks, logging, archives, hashes, passwords, Windows helpers, databases and code generation. Scheduling, emitters and string helpers would add only easy members.
