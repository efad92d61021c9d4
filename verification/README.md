# ios_system: a verified model of its hard parts

This project models, in Dafny, seven parts of ios_system, a port of Unix commands
to iOS with a small concurrency runtime of its own, and proves what each is for:

- **diff** (`bsd_diff/diffreg.c`): pruning, shell sort, equivalence classes, Stone's
  k-candidate search, the match vector `J`, and the three ways of turning it into an
  edit script. Modules `DiffLcs`, `DiffClasses`, `DiffStone`, `DiffMatch`,
  `DiffOutput`, `DiffApply`, `DiffCost`, `DiffEd`, `DiffUnified`, `DiffMain`.
- **getopt_long** (`getopt_long.c`): the in-place block exchange by gcd cycles and the
  scanner that drives it, against a description of how command lines are spelled.
  Modules `GetoptPermute`, `GetoptScan`, `GetoptSpelling`.
- **find** (`bsd_find/`): the three passes that compile `( ) ! -o` into a plan, and the
  evaluators that run it, against the grammar of the OPERANDS section of the find
  utility in IEEE Std 1003.1; the passes relink the nodes in place. Modules
  `FindGrammar`, `FindPasses`, `FindSound`, `FindCells`, `FindHeap`, `FindPlan`.
- **the interpreter slot pool** (`ios_interpreter_pool.c`): a counting semaphore beside a
  compare-and-swap bitmap. Module `InterpPool`.
- **the extent list and the wiper** (`libutil/`): a sorted interval list against a set of
  blocks, and the loop that zeroes it. Modules `Extents`, `Wipe`.
- **the buffered pipe and the thread pool** (`ios_buffered_pipe.c`, `ios_thread_pool.c`):
  ring buffers against first-in first-out sequences, and the protocols around them.
  Modules `PipeRing`, `PipeProtocol`, `PipeCalls`, `WorkQueues`, `ThreadPool`, `PoolWaits`,
  `PoolCalls`.
- **key options on the wire** (`ssh-agent/auth-options.c`): a printer and a parser over
  the types of section 5 of RFC 4251, against the places of the fields in the bytes.
  Modules `SshBuf`, `AuthOptions`, `AuthWire`.

`dafny verify dfyconfig.toml` checks the whole project.

## Reading the model

Code that changes things in place is a class or a method over arrays, proved against a
function or predicate on values; what the code promises is then proved about that
function. The concurrent parts are state machines: a state, a step per shared access
(or per section under a mutex), and an invariant that every step of every thread
keeps, for any number of threads where the source allows any number. A run is any
interleaving of enabled steps, and the results are stated for every state of every run.

Some things the code does differently from what it suggests, with the exact condition:

- `find_formplan` brackets an expression that has no output primary before compiling it,
  so `a ) ( b` is accepted (`FindPlan.UnbalancedAccepted`). `FindPlan.AgreesExactly`
  says when acceptance and the grammar agree.
- The `-print` added behind such a list belongs to its last alternative only: for
  `a ) -o ( b` nothing is printed where a is true (`FindPlan.PrintSkipped`). It is behind
  all of the list exactly when that has one alternative in brackets (`FindPlan.PrintsExactly`).
- A dash inside a cluster of letters begins a long option, so `-a-name` is `-a --name`
  (the words `Then` and `Named` of `GetoptSpelling`).
- A zero-length `RemoveBlockRangeExtent` inside an extent leaves two extents that touch
  (`Extents.ZeroRemovalTouches`); `Extents.RemovedSeparate` has the condition.
- `AddByteRangeExtent(0, 0)` adds the whole volume, because the number of its last byte,
  -1, is divided as an unsigned number (`Extents.ZeroAsked`).
- When the block size does not divide the volume, the closing sentry extent can start
  past its end; the length left over then wraps around to nearly 2^64
  (`Wipe.SentryWraps`, `Wipe.SpanStaysInside`).
- A pipe of capacity 1 is full and empty at once, and both sides can wait for each other
  for ever (`PipeProtocol.BothStuckExactlyAtOne`).
- A thread pool with a queue size below 8 gives some priority no room at all, and a
  blocking submit to it never returns (`PoolWaits.SmallPoolsBlock`, `PoolWaits.StuckExactly`).
- One condition announces room in any of the four queues of the thread pool to one
  submitter, who may be of another priority and go back to sleep while the one with room
  sleeps on (`PoolWaits.SignalsGoAstray`). `PoolWaits.StraysExactly` says for which
  priorities of blocking submissions that can happen.
- A key-option record with a flag outside 0..255 or a tunnel device below -1 does not
  survive the wire (`AuthOptions.RoundTripExactly`).

## Model

| member | source | states |
|---|---|---|
| DiffLcs.PrunedBound | bsd_diff/diffreg.c:616-635 | no common subsequence of the whole files is longer than the trimmed lines plus the best one of the middles |
| DiffMatch.Prune | bsd_diff/diffreg.c:616-635 | the trimmed ends are equal and as long as they can be, and the windows left are the middles numbered from 1 |
| DiffClasses.CommonEnds | bsd_diff/diffreg.c:616-635 | the prefix and suffix lengths found are those of equal ends, and neither can be longer |
| DiffClasses.Sift | bsd_diff/diffreg.c:909-940 | sinking one line permutes the window, and with gap 1 extends the sorted part by one |
| DiffClasses.Sort | bsd_diff/diffreg.c:909-940 | the window ends sorted by value and then serial, a permutation of what it was, and nothing outside it changes |
| DiffClasses.Label | bsd_diff/diffreg.c:637-663 | every old line's value becomes the place of its first equal new line, or 0 |
| DiffClasses.Squeeze | bsd_diff/diffreg.c:637-663 | the new window is written out as serials, the first of each run of equal values negated, with a sentinel, over the front of the very memory it is read from |
| DiffClasses.StoredBehind | bsd_diff/diffreg.c:455-456 | storing place j of `member` reaches no line of the window from j on, so the overlay is safe |
| DiffClasses.Unsort | bsd_diff/diffreg.c:942-953 | the labels are back in the order of the old file, over the front of the memory they were read from |
| DiffClasses.LabelsMean | bsd_diff/diffreg.c:637-663 | `class[i]` is 0 exactly when no new line equals old line i, and otherwise starts a run in `member` that lists exactly the equal new lines in ascending order |
| DiffClasses.BuildClasses | bsd_diff/diffreg.c:451-461 | sort, equiv and unsort together give classes with that meaning for every old line |
| DiffStone.ChainIsCommon | bsd_diff/diffreg.c:732-746 | the chain of predecessors of a candidate at level l is a common subsequence of length l that ends in it |
| DiffStone.PredecessorIsOld | bsd_diff/diffreg.c:684-730 | whichever branch picks the predecessor, oldc and oldl make it the candidate from before the row, so no old line is chained to itself |
| DiffStone.NextRow | bsd_diff/diffreg.c:684-730 | after a row the klist bounds every common subsequence of one more old line |
| DiffStone.Matcher.NewCand | bsd_diff/diffreg.c:732-746 | a candidate is added at the end of clist and its index returned |
| DiffStone.Matcher.Search | bsd_diff/diffreg.c:748-770 | the binary search finds the level whose thresholds enclose y |
| DiffStone.Matcher.TryOne | bsd_diff/diffreg.c:697-725 | one offered new line is skipped, already present, replaces a candidate or opens a level, with oldc and oldl moved on |
| DiffStone.Matcher.Row | bsd_diff/diffreg.c:684-730 | one old line keeps the klist sound and, unless the bound cuts it short, offers it every equal new line |
| DiffStone.Matcher.Stone | bsd_diff/diffreg.c:684-730 | the search ends with sound chains, and is complete with the minimal flag or when there are fewer than 256 new lines, or fewer than the square root allows |
| DiffStone.SearchFinds | bsd_diff/diffreg.c:684-730 | a complete search's last chain is a longest common subsequence, of length k |
| DiffStone.Matcher.Unravel | bsd_diff/diffreg.c:772-783 | J holds the trimmed prefix, the chain and the trimmed suffix, and 0 elsewhere |
| DiffMatch.EnteredIsMatchVector | bsd_diff/diffreg.c:772-783 | what unravel enters is a match vector: equal lines, in strictly ascending order |
| DiffMatch.EnteredCount | bsd_diff/diffreg.c:772-783 | the number of matches is prefix plus k plus suffix |
| DiffMatch.EnteredIsLongest | bsd_diff/diffreg.c:772-783 | the best match of the middles with the trimmed ends is the best match of the whole files |
| DiffMatch.ComputeJ | bsd_diff/diffreg.c:448-474 | from the hashes of two files: J is always a match vector with the maximal common prefix and suffix in it, and a longest one with the minimal flag or when the new file has fewer than 256 lines, or fewer than the square root allows |
| DiffApply.CheckedMatches | bsd_diff/diffreg.c:791-907 | setting back to 0 the matches of unequal lines leaves a match vector of the lines themselves |
| DiffOutput.Forward | bsd_diff/diffreg.c:975-986 | the loop ends with the changes in ascending order, every line outside them being a match of J as it was |
| DiffOutput.Reverse | bsd_diff/diffreg.c:987-999 | the loop for ed scripts emits a script with the same property from the last change to the first |
| DiffApply.GapIsEqual | bsd_diff/diffreg.c:965-1001 | between two changes both files hold the same lines |
| DiffApply.PatchedIsNew | bsd_diff/diffreg.c:965-1001 | the changes turn the old file into the new one |
| DiffApply.EdRunIsNew | bsd_diff/diffreg.c:987-999 | applied in the order they are emitted, with their original line numbers, the changes turn the old file into the new one |
| DiffCost.ScriptCost | bsd_diff/diffreg.c:965-1001 | a script removes and adds exactly the lines that are not matched |
| DiffUnified.NoScriptCheaper | bsd_diff/diffreg.c:965-1001 | no script whose gaps are equal lines removes or adds fewer lines than the bound that a longest match gives |
| DiffEd.Fetch | bsd_diff/diffreg.c:1265-1312 | all lines are printed, or those up to the first bare dot with the dot as `..` and its position returned |
| DiffEd.ReadBack | bsd_diff/diffreg.c:1208-1227 | ed's input mode reads back exactly the lines sent, if none is a bare dot |
| DiffEd.TakesEscaped | bsd_diff/diffreg.c:1294-1305 | text up to a dot sent as `..` and then repaired by the substitution leaves the dot |
| DiffEd.ChangeEd | bsd_diff/diffreg.c:1079-1082 | the commands printed for one change, resumed behind every dot, perform that change in any buffer, send each new line once and take out each old line once |
| DiffEd.EdScript | bsd_diff/diffreg.c:1154-1161 | an ed interpreter run on the old file with the emitted script ends with the new file; the script sends and takes out exactly the unmatched lines |
| DiffUnified.ContextAgrees | bsd_diff/diffreg.c:1562-1580 | the clipped context limits take as many lines from either file |
| DiffUnified.HeaderCounts | bsd_diff/diffreg.c:1027-1036 | the two numbers of a hunk header are, for each side, the number of lines printed and the number of the first of them, or of the line before if there are none |
| DiffUnified.PrintChange | bsd_diff/diffreg.c:1586-1612 | the context before a change and its lines continue the hunk without a gap on either side |
| DiffUnified.Dump | bsd_diff/diffreg.c:1554-1624 | a hunk prints its range of the old file on one side and of the new file on the other, marks exactly the lines its changes remove and add, and shows up to ctx lines around them |
| DiffUnified.WideGap | bsd_diff/diffreg.c:1131-1147 | the tests on old and on new line numbers agree on where a new hunk begins |
| DiffUnified.Unified | bsd_diff/diffreg.c:1113-1148 | for every script and context size the hunks show consecutive runs of changes with ctx lines around them, a new one exactly where the gap is wider than twice that; they are faithful, never overlap or touch, and patching with them gives the new file |
| DiffUnified.ShownExactly | bsd_diff/diffreg.c:1555-1640 | exactly the changed lines and those within ctx lines of a change are shown |
| DiffMain.Check | bsd_diff/diffreg.c:791-907 | a match of lines that only hash alike is taken back, and every other match stays |
| DiffMain.Match | bsd_diff/diffreg.c:448-474 | the checked match vector pairs equal lines in order, has every common prefix and suffix of the lines that lies within those of the hashes, and pairs as many as possible when the search is complete and the hash tells the lines apart |
| DiffMain.TellingEnds | bsd_diff/diffreg.c:616-635 | with a hash that tells the lines apart the maximal ends of the hashes are those of the lines |
| DiffMain.EdDiff | bsd_diff/diffreg.c:448-474 | for any two files and any non-zero hash the script of `diff -e`, run by ed on the old file, gives the new one, and sends and takes out no more lines than lie between the common ends; with a complete search and a hash that tells the lines apart, no common subsequence leaves fewer lines to send or take out |
| DiffMain.UnifiedDiff | bsd_diff/diffreg.c:448-474 | the hunks of `diff -u` show an aligned script with ctx lines of context, are faithful, apart, in order, and patch the old file to the new one; no more lines are marked than lie between the common ends, and under the same condition as few lines as possible are marked |
| GetoptPermute.Gcd | getopt_long.c:141-154 | the result divides both numbers and is an integer combination of them |
| GetoptPermute.GcdIsGreatest | getopt_long.c:141-154 | a divisor with such a combination is at least every common divisor |
| GetoptPermute.OrbitReturns | getopt_long.c:161-191 | the walk of a cycle is back at its start after N/gcd moves |
| GetoptPermute.OrbitDistinct | getopt_long.c:161-191 | the positions of one cycle are all different |
| GetoptPermute.OrbitCovers | getopt_long.c:161-191 | every position of the start's residue class lies on its cycle, so the gcd start points cover all positions |
| GetoptPermute.OrbitKeepsClass | getopt_long.c:161-191 | a cycle stays in its residue class, so different start points have different cycles |
| GetoptPermute.PermuteArgs | getopt_long.c:161-191 | the two adjacent blocks are exchanged, each in its order, and nothing else moves |
| GetoptScan.FindLong | getopt_long.c:239-266 | the entry of exactly that name, else the first it abbreviates unless another one clashes |
| GetoptScan.Scanner.ParseLong | getopt_long.c:198-357 | the code, argument, index and number of words taken are those of the long-option rules |
| GetoptScan.Scanner.Short | getopt_long.c:511-575 | likewise for one short option, its attached, separate or optional argument and -W; GetoptSpelling.WordIs says what that is for every spelling |
| GetoptScan.Scanner.PermuteBlock | getopt_long.c:449-455 | the block of non-options moves behind the options after it, of which there is always one |
| GetoptScan.Scanner.SkipNonOption | getopt_long.c:446-459 | a skipped non-option joins the block and nothing from optind on is disturbed |
| GetoptScan.Scanner.Next | getopt_long.c:363-576 | one call returns the next thing the scan returns, or ends the run with argv partitioned |
| GetoptScan.ScanStable | getopt_long.c:397-481 | the scan divides the arguments into options and non-options, each side in the original order |
| GetoptSpelling.ChosenIs | getopt_long.c:239-278 | a name stands for the entry of that name, or for the first it abbreviates if all others it abbreviates are the same, and for nothing else |
| GetoptSpelling.LetterKinds | getopt_long.c:511-573 | which letters take no argument, a required or an optional one, or a long name, by what stands behind them in the option string |
| GetoptSpelling.WordIs | getopt_long.c:484-576 | clustered, attached, separate, absent and missing arguments, long names with `=`, with a separate argument and abbreviated, `-W` and unknown options: a word takes the arguments that belong to it, and the calls return its codes and arguments |
| GetoptSpelling.ScanIs | getopt_long.c:397-576 | any list of such words with operands between them, or behind `--`, returns exactly those codes and arguments in order, and the operands are left in order |
| GetoptSpelling.EveryLine | getopt_long.c:397-576 | every argv is such a list, in every mode |
| GetoptSpelling.ParseAll | getopt_long.c:605-612 | calls until -1, for every argv and mode: argv ends as program name, options with their arguments and `--`, then operands, each in order, with optind at the first operand, and what the spelling says is returned |
| GetoptSpelling.GetoptLong | getopt_long.c:371-391 | the same for the option string as given, whose first character and the environment choose the mode |
| FindHeap.YankNode | bsd_find/operator.c:62-72 | the first node comes off the list with its `next` cleared, and what is left is a list of the other nodes, with no cell in common |
| FindHeap.YankExpr | bsd_find/operator.c:80-126 | one node, or one bracketed expression as a single node, comes off, by relinking; an empty or unclosed bracket fails |
| FindHeap.Bracket | bsd_find/operator.c:98-124 | the nodes up to the closing bracket hang under the node of the open one, in order |
| FindHeap.Append | bsd_find/operator.c:153-160 | a node added to a result plan is its last, whatever was linked before is as it was, and no cell occurs twice |
| FindHeap.SquishParens | bsd_find/operator.c:132-163 | the first pass, in place: the list it returns holds the value of the pass, made of cells of its input |
| FindHeap.SquishNots | bsd_find/operator.c:169-226 | the second pass, in place, with its recursion into brackets |
| FindHeap.Negate | bsd_find/operator.c:192-214 | the node behind the `!`s hangs under the first of them, or takes its place if they are even in number |
| FindHeap.SquishOrs | bsd_find/operator.c:232-278 | the third pass, in place, with its recursion into operands and behind `-o` |
| FindHeap.Divide | bsd_find/operator.c:258-266 | the nodes before and behind an `-o` become its two operands; it fails if either is missing |
| FindHeap.AddNode | bsd_find/find.c:101-110 | a node made for a word is linked behind the others |
| FindHeap.PutFirst | bsd_find/find.c:126-129 | a node made for the added bracket is linked before the others |
| FindPasses.PassesE | bsd_find/operator.c:132-278 | on the tokens of an expression the passes succeed, with its plan |
| FindPasses.PassesPreserveMeaning | bsd_find/operator.c:132-278 | the plan has the truth value of short-circuit evaluation and runs the same primaries in the same order, even and odd `!` included |
| FindSound.ParenSquishFlat | bsd_find/operator.c:132-163 | what the first pass accepts is its input with the brackets folded, none of them empty |
| FindSound.PassesExactlyGrammar | bsd_find/operator.c:132-278 | the passes succeed exactly on the expressions of the grammar and on the empty list |
| FindPlan.FormPlan | bsd_find/find.c:80-168 | the linked plan is that of the tokens, in brackets and followed by -print when there is no output primary |
| FindPlan.ImplicitPrint | bsd_find/find.c:101-167 | the added -print runs exactly when the expression is true, after it |
| FindPlan.UnbalancedAccepted | bsd_find/find.c:117-139 | a list that is not an expression is accepted because of the added brackets |
| FindPlan.AcceptedExactly | bsd_find/find.c:117-139 | if no prefix closes more brackets than it opens, exactly the expressions are accepted |
| FindPlan.AgreesExactly | bsd_find/find.c:117-139 | acceptance agrees with the grammar unless the list closes a bracket it did not open and is an expression once put in brackets |
| FindPlan.Runner.Loop | bsd_find/find.c:240-245 | following `next`, running a plan stops at the first node that is false |
| FindPlan.Runner.Execute | bsd_find/function.c:1723-1804 | a bracketed expression, `!` and `-o` run their operands with the state and order of the evaluators |
| FindPlan.FindOn | bsd_find/find.c:80-245 | a plan is made exactly for an expression, for no words at all, or without an output primary for words that are one in brackets; run on a file it evaluates the words with what was added to them, effects in order; for words that are an expression it prints exactly if that is true and has no output primary, no words at all print, and otherwise the -print is in the last alternative of the words in brackets |
| FindPlan.PrintsExactly | bsd_find/find.c:125-139 | that is the same as printing exactly if the words in brackets are true, whatever the primaries say, exactly when they have only one alternative |
| FindPlan.PrintSkipped | bsd_find/find.c:125-139 | `a ) -o ( b` prints nothing where a is true |
| FindPlan.TokensInOrder | bsd_find/find.c:101-110 | the words make their tokens in order, and `-a` makes none |
| FindPlan.AcceptedWords | bsd_find/find.c:80-168 | which words are accepted, with and without an output primary |
| InterpPool.PermitMeansFree | ios_interpreter_pool.c:264-281 | a call past the semaphore always faces a bitmap with a zero bit |
| InterpPool.StepKeepsInv | ios_interpreter_pool.c:178-366 | every step keeps: semaphore + permits without a bit + bits + cleared bits not yet signalled = slots; each bit has exactly one owner; each scan has a free slot ahead |
| InterpPool.HandlesExclusive | ios_interpreter_pool.c:205-227 | in every reachable state no two handles share a slot, nor a handle and a call acquiring or releasing one |
| InterpPool.NeverNoSlot | ios_interpreter_pool.c:270-281 | the branch for a passed semaphore without a free slot is never taken |
| InterpPool.QuiescentAccounts | ios_interpreter_pool.c:349-363 | between calls the semaphore is worth exactly the free slots and the bits are exactly the handles' slots |
| InterpPool.TryKeepsSlot | ios_interpreter_pool.c:205-227 | in every run a call for a given slot is about that slot and no other, from its beginning to its end |
| InterpPool.TryGetsSlot | ios_interpreter_pool.c:317-331 | the handle it makes is for the slot asked for |
| InterpPool.TryFailsRightly | ios_interpreter_pool.c:205-227 | it gives the semaphore back only if there is no such slot or its bit was set at some moment of the call |
| InterpPool.TryTurnedAway | ios_interpreter_pool.c:312-316 | it is turned away at the semaphore only when as many slots are taken or in other calls' hands as there are |
| InterpPool.AcquiresLowest | ios_interpreter_pool.c:178-200 | a call for any slot gets the lowest free one |
| InterpPool.ReleaseFrees | ios_interpreter_pool.c:336-366 | a release is about the slot of the handle it was given, from its beginning to its end |
| InterpPool.HandlesBounded | ios_interpreter_pool.c:232-331 | at most as many handles are out as there are slots |
| Extents.Merge | libutil/ExtentManager.cpp:42-48 | two extents that meet become one that covers exactly what they covered |
| Extents.ExtentManager.constructor | libutil/ExtentManager.cpp:29-40 | a new list is valid, stands for no block, and holds the closing sentry extent |
| Extents.ExtentManager.Place | libutil/ExtentManager.cpp:72-82 | the first loop finds the first extent that is not before the new one |
| Extents.ExtentManager.Coalesce | libutil/ExtentManager.cpp:89-103 | the second loop restores a sorted list without touching extents and keeps the block set |
| Extents.ExtentManager.AddBlockRange | libutil/ExtentManager.cpp:50-105 | the block set gains exactly the part of the range in the volume; the list stays sorted, disjoint and non-touching exactly when the range does not run backwards, or lies outside the volume, or inside an extent |
| Extents.RemovedBlocks | libutil/ExtentManager.cpp:107-173 | what is left stands for the old blocks without the range |
| Extents.RemovedSeparate | libutil/ExtentManager.cpp:138-148 | the list left is non-touching exactly when no removal of no blocks, or backward one, falls inside an extent |
| Extents.ZeroRemovalTouches | libutil/ExtentManager.cpp:138-148 | removing nothing inside an extent leaves two that touch |
| Extents.ExtentManager.RemoveBlockRange | libutil/ExtentManager.cpp:107-173 | for every length the block set loses exactly the range; the list stays valid exactly under that condition |
| Extents.BytesAsked | libutil/ExtentManager.cpp:175-182 | a non-empty byte range asks for exactly the blocks that hold one of its bytes |
| Extents.EmptyAsked | libutil/ExtentManager.cpp:175-182 | an empty range past address 0 asks for the block it falls in, or for nothing between blocks |
| Extents.ZeroAsked | libutil/ExtentManager.cpp:175-182 | the empty range at address 0 asks for every block, unless blocks are single bytes |
| Extents.NegativeAsked | libutil/ExtentManager.cpp:175-182 | a negative address is past the end of the volume |
| Extents.ExtentManager.AddByteRange | libutil/ExtentManager.cpp:175-182 | for all off_t values the block set gains what the unsigned quotients say; for ranges that do not run backwards that is spelt out in bytes |
| Wipe.SpanIsHull | libutil/wipefs.cpp:410-425 | the bytes written for an extent are its native-block hull up to the end of the volume, if the hull starts within it |
| Wipe.HullIsTight | libutil/wipefs.cpp:410-422 | the hull is the smallest stretch of whole native blocks around the bytes |
| Wipe.SpanStaysInside | libutil/wipefs.cpp:423-425 | writing an extent stays inside the volume exactly when its hull starts within it |
| Wipe.SentryWraps | libutil/wipefs.cpp:423-425 | a closing sentry past the end asks for nearly 2^64 bytes |
| Wipe.DivisibleStartsInside | libutil/wipefs.cpp:406-425 | when the block size divides the volume every hull starts within it |
| Wipe.SentryDecides | libutil/wipefs.cpp:406-425 | while the closing sentry is in the list, everything stays inside exactly when its hull starts within the volume |
| Wipe.NewListWraps | libutil/wipefs.cpp:423-425 | a new list over 1000 bytes in blocks of 4096 has a sentry that asks for nearly 2^64 bytes |
| Wipe.Device.ZeroSpan | libutil/wipefs.cpp:426-434 | a span is zeroed in pieces, all of it if every write succeeds, and nothing else changes |
| Wipe.WipeVolume | libutil/wipefs.cpp:403-434 | on a device or a file that grows, bytes change only to zero; if every hull starts within the volume only in its hulls and the volume, with nothing growing past it; on success every byte of every listed block is zero |
| PipeRing.Ring.Available | ios_buffered_pipe.c:60-69 | the count is the number of bytes held |
| PipeRing.WrittenHeld | ios_buffered_pipe.c:81-109 | storing in two parts around the end and moving the tail appends |
| PipeRing.ReadHeld | ios_buffered_pipe.c:114-142 | the two parts read are the front, and moving the head drops them |
| PipeRing.WrittenAppends | ios_buffered_pipe.c:81-109 | from any positions, writing appends the front of the data that fits |
| PipeRing.TakenFront | ios_buffered_pipe.c:114-142 | from any positions, reading removes the front |
| PipeRing.Ring.Write | ios_buffered_pipe.c:81-109 | the array code does what the value of the ring says: as much as fits, leaving one place empty, goes behind what is held |
| PipeRing.Ring.Read | ios_buffered_pipe.c:114-142 | likewise the oldest bytes leave, as many as asked for or all of them |
| PipeProtocol.StepKeepsInv | ios_buffered_pipe.c:233-394 | every step of writer, reader and closers keeps the order of bytes, the mutex, the accounts of both calls and the absence of lost wake-ups |
| PipeProtocol.BytesConserved | ios_buffered_pipe.c:252-276 | in every state of every run, across all wrap-arounds, bytes delivered and then the buffer between head and tail are the bytes accepted; the counters differ by that, at most capacity - 1 |
| PipeProtocol.WriteReports | ios_buffered_pipe.c:233-292 | a write call put exactly as many bytes of its data as it reports behind what was accepted before |
| PipeProtocol.ReadReports | ios_buffered_pipe.c:304-356 | a read call delivered exactly as many bytes as it reports, the next ones in order |
| PipeProtocol.ZeroMeansEnd | ios_buffered_pipe.c:335-340 | a read of one byte or more returns 0 only at a closed read end, or at a closed write end with everything delivered |
| PipeProtocol.WriteOutcome | ios_buffered_pipe.c:233-292 | a write is short only at a closed end or on a timeout; 0 for data means the read end was closed on entry, and 0 or -1 that nothing was accepted |
| PipeProtocol.ReadOutcome | ios_buffered_pipe.c:304-356 | a read from the ring delivers its front, the minimum of the size asked for and the bytes held; without a byte it means a closed end, with 0, or a timeout, with -1; at a closed write end it is 0 even if the call may not wait |
| PipeCalls.WriteAccepts | ios_buffered_pipe.c:233-292 | in every run a write call given data puts the front of that data behind what was accepted when it began, as long as it reports |
| PipeCalls.ReadDelivers | ios_buffered_pipe.c:304-356 | a read call asked for a size delivers as many bytes as it reports, at most that many, the next in order |
| PipeCalls.WriteAfterClose | ios_buffered_pipe.c:240-243 | a write begun with the write end closed accepts nothing and ends with -1 |
| PipeCalls.WriteToNobody | ios_buffered_pipe.c:245-248 | one begun with the read end closed accepts nothing and ends with 0, or -1 if the write end is closed too by then |
| PipeCalls.ReadAfterClose | ios_buffered_pipe.c:311-313 | a read begun with the read end closed delivers nothing and ends with 0 |
| PipeProtocol.CloseWakes | ios_buffered_pipe.c:361-394 | once a close has broadcast, a thread still waiting on the other side has been signalled |
| PipeProtocol.NeverBothStuck | ios_buffered_pipe.c:255-352 | with capacity 2 or more writer and reader never both wait unsignalled |
| PipeProtocol.BothStuckExactlyAtOne | ios_buffered_pipe.c:188-221 | there is a run in which both wait for each other exactly when the capacity is 1 |
| PipeProtocol.HeadwayOrRightlyWaiting | ios_buffered_pipe.c:233-394 | some thread can go on, or none is in a call, or one rightly waits: a writer on a full open pipe, a reader on an empty open one |
| WorkQueues.Appended | ios_thread_pool.c:268-296 | storing at the tail and moving it appends to the queue |
| WorkQueues.Dropped | ios_thread_pool.c:233-262 | clearing the head slot and moving it drops the oldest |
| WorkQueues.PushedAppends | ios_thread_pool.c:268-296 | from any positions, pushing appends |
| WorkQueues.PoppedOldest | ios_thread_pool.c:233-262 | from any positions, popping takes the oldest |
| WorkQueues.WorkQueues.constructor | ios_thread_pool.c:331-363 | four empty queues with an eighth, a half, a quarter and an eighth of the capacity |
| WorkQueues.WorkQueues.Enqueue | ios_thread_pool.c:268-296 | an item is refused exactly when its priority's queue is full, and otherwise appended to that array alone |
| WorkQueues.WorkQueues.Dequeue | ios_thread_pool.c:233-262 | the oldest item of the highest non-empty priority is taken, or none when all are empty |
| ThreadPool.StepKeepsInv | ios_thread_pool.c:108-496 | every step of every submitter, worker and handle keeps queues, ownership, reference counts, run counts and accounts |
| PoolWaits.WorkersKeepUp | ios_thread_pool.c:176-180 | no wake-up of a worker is lost: in every state of every run, while a worker sleeps no more items are queued than workers are on their way to the mutex |
| PoolWaits.QueuedMeansAwake | ios_thread_pool.c:176-180 | while anything is queued some worker is awake or signalled |
| PoolWaits.ShutdownWakesAll | ios_thread_pool.c:633-638 | after the broadcast of a shutdown no worker and no submitter ever sleeps |
| PoolWaits.StuckExactly | ios_thread_pool.c:434-440 | everyone can be asleep with a submitter blocked exactly when some priority has no room |
| PoolWaits.SmallPoolsBlock | ios_thread_pool.c:332-341 | which is the case exactly for queue sizes below 8 |
| PoolWaits.OnePriorityServed | ios_thread_pool.c:254-255 | if all blocking submissions are of one priority, then whenever a submitter sleeps although there is room, one is on its way to the mutex |
| PoolWaits.SignalsGoAstray | ios_thread_pool.c:254-255 | with two priorities that fails: there is a run to a state where a submitter sleeps although its queue has room and none is on its way |
| PoolWaits.StraysExactly | ios_thread_pool.c:254-255 | for any set of priorities of blocking submissions there is such a run exactly when the set has two of them and one has any room |
| ThreadPool.QueuesAreFifo | ios_thread_pool.c:233-296 | in every state of every run, across all wrap-arounds, what entered a priority is what left it and then the slots in use from head on; the count is their number and none is null |
| ThreadPool.FetchesOldestHighest | ios_thread_pool.c:159-185 | in every run a worker that takes from the arrays has the first item that entered its priority and had not left, and nothing is queued at a higher one |
| ThreadPool.ItemsConserved | ios_thread_pool.c:434-456 | accepted = queued + in flight + completed whenever the mutex is free |
| ThreadPool.SubmissionsDecided | ios_thread_pool.c:415-496 | every item made was accepted, counted as dropped, refused at shutdown, or its call has not got that far |
| ThreadPool.RunAtMostOnce | ios_thread_pool.c:193-222 | no item's function is called twice, and it has been called once when its result is stored |
| PoolCalls.EntersItsQueue | ios_thread_pool.c:269-296 | an item submitted with a priority only ever enters the queue of that priority |
| PoolCalls.SubmitDecides | ios_thread_pool.c:434-456 | a call is accepted into the queue of the priority it asked for, refused at a shutdown if it may block, or left to be counted as dropped if that queue is full and it may not |
| PoolCalls.TryNeverSleeps | ios_thread_pool.c:464-496 | a call that may not block never sleeps |
| PoolCalls.DroppedMayNotBlock | ios_thread_pool.c:449-450 | what is counted as dropped are calls that may not block |
| PoolCalls.NothingTaken | ios_thread_pool.c:176-185 | after a shutdown nothing is taken from the queues any more |
| ThreadPool.FreedExactlyWhenUnheld | ios_thread_pool.c:133-154 | the reference count is the number of calls, queues, workers and handles that hold the item, and it is freed exactly when there is none |
| ThreadPool.HeldItemsAreLive | ios_thread_pool.c:133-154 | whatever a thread has in hand exists and is not freed |
| SshBuf.BigEndianValue | ssh_keygen/sshbuf-getput-basic.c:391-413 | a number stored in n bytes is read back |
| SshBuf.CStringRoundTrip | ssh_keygen/sshbuf-getput-basic.c:270-303 | a C string put on a buffer is taken off again, with the bytes behind it left |
| SshBuf.Buffer.TakeCString | ssh_keygen/sshbuf-getput-basic.c:270-303 | succeeds exactly when the buffer begins with a C string as put there, with or without its terminator, which it consumes; otherwise nothing is consumed |
| AuthOptions.ArrayRoundTrip | ssh-agent/auth-options.c:684-751 | an array of strings nested in a string comes back, with the bytes behind it left |
| AuthOptions.ArrayAgain | ssh-agent/auth-options.c:712-751 | an array taken off is put back as it was exactly when its strings are plain and fill it |
| AuthOptions.NullableRoundTrip | ssh-agent/auth-options.c:753-775 | null and empty strings are told apart on the way back |
| AuthOptions.RoundTrip | ssh-agent/auth-options.c:777-892 | every record that fits comes back as what the wire carries of it, with the bytes behind it left |
| AuthOptions.RoundTripExactly | ssh-agent/auth-options.c:777-892 | the same record comes back exactly when its flags are bytes and its tunnel device is -1 or more |
| AuthOptions.ReEncodedExactly | ssh-agent/auth-options.c:829-892 | printing a parsed record gives its bytes back exactly when the null flags of the strings and the flag of the device are 0 or 1 (the nine option flags may be any byte), null strings are empty and an unset device is 0, no string carries a terminator, the device fits an int, and no array has bytes left over |
| AuthOptions.OddTunnelLost | ssh-agent/auth-options.c:799-803 | a tunnel device of -2 comes back as 0 |
| AuthOptions.SerialiseArray | ssh-agent/auth-options.c:684-710 | the whole array is appended if and only if it fits |
| AuthOptions.SerialiseNullable | ssh-agent/auth-options.c:753-762 | the flag and the string are appended if and only if they fit |
| AuthOptions.Serialise | ssh-agent/auth-options.c:777-827 | the record is appended if and only if it fits; for an untrusted receiver the bytes depend on the flags and numbers alone, and decode to principals "yes", command "true", no hosts and empty lists |
| AuthOptions.DeserialiseArray | ssh-agent/auth-options.c:712-751 | the loop takes off what the format says, or fails where the format does |
| AuthOptions.DeserialiseNullable | ssh-agent/auth-options.c:764-775 | the flag decides between null and the string, which is consumed either way |
| AuthOptions.Deserialise | ssh-agent/auth-options.c:829-892 | the record of the format and the bytes behind it, or an error where the format has none |
| AuthOptions.SendAndReceive | ssh-agent/auth-options.c:777-892 | a record printed and parsed through one buffer arrives as what the wire carries of it: itself if it is well formed and the receiver trusted, and with principals "yes", command "true", no hosts and empty lists if not |
| AuthWire.DecodesWhatIsThere | ssh-agent/auth-options.c:829-892 | the parser takes a record off exactly where there is one: nine flag bytes, valid_before in bytes 9 to 16, the device in 17 to 21, four nullable strings and three arrays one behind the other |
| AuthWire.EncodesInPlace | ssh-agent/auth-options.c:777-827 | the printer puts every field of a record that fits at that place |

## Left out

- DiffMain.Prepare: the hash itself and reading from a stream; a line is a string and any non-zero hash function is covered.
- DiffMain.Check: compares whole lines; byte offsets, blank folding, case folding and unterminated last lines of `check` are not modelled.
- DiffStone.Matcher.Stone: the bound on tries outside minimal mode uses an integer square root; any value of it is covered. New files have fewer than 2^31 lines.
- DiffClasses.AsWords: the cast of a line array to an int array is a copy of it; the arrays are not shortened afterwards.
- diff formats other than ed scripts and unified hunks (context, normal, ifdef, side by side, reverse ed), ignore patterns, headers and dates: output only.
- GetoptSpelling.ParseAll: assumes a long-option table in which no `val` is -1 and a caller that starts with `optind` 1 and leaves it alone; `optopt`, messages and the reset by `optind` 0 are not modelled.
- FindPlan.FormPlan: `palloc` leaves `p_data` unset, which the model clears; no pass reads it before writing it. The error exits return a flag.
- find primaries other than as tests with an effect, the file-tree walk, and the precedence of `-depth` and friends: I/O.
- InterpPool.StepKeepsInv: one pool; the wait counter, lazy initialisation, shutdown and `ios_interp_force_release_all`, which breaks the accounts on purpose, are not modelled.
- Extents.ExtentManager.RemoveBlockRange: the second cursor increment after a split at the end of the list is read as stopping there.
- Extents.ExtentManager.AddBlockRange: sums of off_t values are taken not to overflow.
- Wipe.WipeVolume: the unmap request and the cache flush around the loop; a failed write may have stored any number of its first bytes.
- PipeProtocol.ZeroMeansEnd: says nothing about bytes accepted after an end of file was reported, which a writer blocked during the close can still add.
- PipeProtocol.StepKeepsInv: one writer and one reader; polling, statistics, flushing and destruction are not modelled. Timeouts may strike at any wait.
- ThreadPool.StepKeepsInv: cancellation, waiting for results, draining and resizing; after shutdown queued items stay queued.
- SshBuf.Buffer.Put: allocation failure, and the offset bookkeeping inside a buffer.
- AuthOptions.Serialise: what a failed call leaves of the fields it had already appended is not specified.
- pid allocator, interpreter and session wrappers, stdio replacements, ssh server and client code: plumbing over libraries that are not part of this model.
