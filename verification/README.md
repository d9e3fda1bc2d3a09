# TILE Forth: proofs about the kernel and its libraries

TILE Forth is a Forth-83 system: a threaded-code machine written in C, with Forth libraries on
top. This project models its hard parts in Dafny and proves what they are for. Where a part
changes registers, stacks, links or vectors step by step, a class or a method with loops does
the same steps and is proved equal to a function; the theorems are about those functions, over
all inputs, all runs or all interleavings.

**Control structures** (`ControlSyntax`, `ControlCompiler`, `OnePass`, `FollowSets`,
`Boundaries`, `CompilerWords`). The immediate words are a one-pass compiler: they thread
primitives, leave marks and follow-set flags on the parameter stack and patch relative offsets.
One pass of it yields exactly the code of a structured, position-independent generator; the
flags accept exactly the well-nested sources; every offset lands on an instruction boundary.

**The inner interpreter** (`Structured`, `ThreadedCode`, `CompilerCorrectness`, `Programs`,
`Macros`, `TailRecursion`, `InnerInterpreter`, `ControlLaws`, `CountedLoops`, `ForthWords`,
`Samples`). `Structured` gives source a meaning without
addresses, offsets or return stack. Whole programs compiled by the one-pass compiler and
interpreted thread by thread compute that meaning, and stop exactly when it terminates. Copying a
closed macro body means the same as calling it. `tail-recurse` is an outcome of its own that
starts the body again: every round begins on the return stack of the first, plus three cells for
every counted loop left open, and a program computes what it computes with `recurse exit` in its
place. What the meaning itself says is pinned in plain terms: how often a counted loop runs, which
way a flag sends a branch, which arm a `case` takes; and programs of the repository (`fib` by
recursion and by tail recursion, `rnormalize`) are proved to compute their function, compiled and
run, for every argument.

**Frames and exceptions** (`Frames`, `FramedRecursion`, `FrameLoops`, `FramedSamples`;
`Exceptions`, `HandlerLoops`). Argument frames are built
in place under the cached top of stack and removed with an overlapping move; framed definitions,
nested, looping or recursive, behave as functions from arguments to results, in memory that is
exceeded exactly when their peak does not fit. Exception frames chained through the return stack
implement structured handlers, also out of counted loops, with the chain intact in every state.

**Tasks** (`Queues`, `Tasks`, `Semaphores`, `Channels`, `Schedules`). Doubly linked rings, the
context switch, condition queues, semaphores with direct hand-off, the three channel modes and
rendezvous. The methods move nodes and registers; `Semaphores` and `Channels` are step relations
over all interleavings in which a blocked task stays blocked until it is woken, and
`Tasks.Kernel.Wait` and `Tasks.Kernel.Signal` refine the former. `Schedules` puts the channels on
the run ring, where a task that has to wait as the only runnable one goes on without a token, and
proves when that never happens.

**The dictionary** (`Lookup`, `SearchOrders`, `LookupWords`, `Visibility`). Cached `find` equals first-match
search through the vocabularies of the search order in every run of the dictionary words in which
each `;` finds its slot in order, for which there is an exact condition on the state before it, and
no entry is private or limited to one state; for dictionaries with such entries `Visibility` has
the exact condition.

**Two small engines** (`Grammars`, `Derivations`, `Parser`; `Cells`, `MinimalMachine`,
`MinimalWords`, `MinimalProof`, `MinimalImage`, `MinimalProcessor`). The backtracking parser
computes a parsing expression grammar with semantic actions: it accepts exactly the texts that have
a derivation tree, and leaves the tree's actions in post-order. The nine-instruction machine runs every word derived from it to its
specification.

**Arithmetic and data** (`Rationals`, `Numbers`, `Sets`, `Mappings`, `Bitfields`, `Prototypes`).

Source is a statement tree (`ControlSyntax.Stmt`) flattened to the words a programmer types.
Addresses are cell indices. Cells are wrapped to 32 bits wherever that can show. Meanings carry
fuel for calls and loop turns, and `Timeout` when it ends; every theorem holds for every amount.

Some statements the code does not meet on all inputs are stated with the exact condition:

- `r+` on canonical values is associative except on three infinities whose first and third
  differ (`Rationals.AddAssociatesIff`, with an instance in `Rationals.AddNotAssociative`).
- `U/MOD` of the nine-instruction machine is right exactly on `MinimalMachine.Divides`, because
  it tells a finished subtraction by the sign (`MinimalWords.UdivmodIffDivides`, with an instance
  in `MinimalWords.UdivmodFails`); `/MOD` stays within it for every nonzero divisor. `<` is right
  exactly when the difference fits (`MinimalWords.LessIffFits`, `MinimalWords.LessFails`).
- A macro body with an `i`, `j` or `leave` of its surroundings need not behave as a call, because
  the call's return cell lies between; `Macros.Closed` is the guard, and `Macros.FreeIndexDiffers`
  the instance `i`.
- Creating an entry and restoring brings back the earlier search exactly when the current
  vocabulary was not empty before, since `restore` of nil only flushes, or when the new entry
  could not be found anyway: its vocabulary is not in the search order or an earlier one answers
  the name (`Lookup.UndoneIff`).
- `;` can leave a wrong cache slot: an older entry of the name when the current vocabulary is not
  first in the search order, the definition itself when it is first but the definition has been
  cut off or shadowed meanwhile (`Lookup.SemicolonIff`, with instances in
  `Lookup.StaleAfterSemicolon` and `Lookup.StaleAfterRestore`).
- A channel is safe on the ring exactly when its sender, or in MANY-TO-ONE mode its receiver, is
  not the only task (`Schedules.OneSafeIff`, `Schedules.ManySafeIff`, with instances in
  `Schedules.LoneSender` and `Schedules.LoneReceiver`). A rendezvous always has two tasks and needs
  no condition (`Schedules.MeetOnRing`). A task alone in the ring also enters a mutex twice
  (`Semaphores.LoneTwiceInMutex`); one task that never waits is enough to rule it out
  (`Semaphores.NeverLone`).
- `tail-recurse` keeps the depth of the return stack exactly when no counted loop is open
  (`Programs.TailRecurseDepth`, with an instance in `Programs.TailRecurseUnderLoop`).
- The cached path of `find` tests the state but not `PRIVATE`, and keeps an answer that a change
  of state or `definitions` should have replaced. With the entries left alone it is right in
  every session exactly on steady dictionaries (`Visibility.RightIffSteady`, with instances in
  `Visibility.OneStateStale` and `Visibility.PrivateStale`).
- `add-mapping` of a pair of zeros does not add it but ends the vector
  (`Mappings.StoredIffNotZeros`, with an instance in `Mappings.ZerosLosePairs`).

Where code and documentation differ the code is followed: `+loop` ends by the strict comparison
of src/compiler.v:124-135 and not by crossing the boundary of the Forth-83 Standard.

`dafny verify dfyconfig.toml` checks the whole project.

## Model

| member | source | states |
|---|---|---|
| OnePass.OnePassIsStructured | src/kernel.c:1340-1547 | For every well-nested statement, compiling its words with marks and back-patching appends exactly the cells of the structured generator and leaves the parameter stack as it was. |
| OnePass.OnePassArms | src/kernel.c:1450-1492 | From any point inside a `case`, the remaining arms come out structured and every pending `endof` mark, down to the zero `case` left, is patched to the end. |
| FollowSets.ExactAcceptor | src/kernel.c:1314-1547 | Over a base cell without flag bits, a word sequence passes every `docheck` and returns to base depth if and only if it is well nested; then the stack is the original one and every mark made was resolved exactly once. |
| FollowSets.StepAgrees | src/kernel.c:1314-1338 | In every reachable compiler state a word passes its follow-set check exactly when a shift-reduce parser of the grammar can advance, and the stack and open marks stay what the open structures say. |
| Boundaries.OffsetsLandOnBoundaries | src/compiler.v:211-245 | Compiled bodies decode into whole instructions and every branch offset, macros' included, lands on an instruction start of the same body or just past it. |
| Boundaries.AcceptedLands | src/kernel.c:1314-1547 | Whatever words a user types, macros included: if they pass every check and return to base depth, the cells they leave in the dictionary decode into whole instructions with every offset on one of their boundaries. |
| CompilerCorrectness.Simulation | src/compiler.v:42-142 | Wherever structured code is placed, on whatever return stack holding frames for the enclosing loops, the interpreter ends where the statement's outcome says (past it, out of the loop by `leave`, returned, or at the start of the body again with the cells of the loops still open) with the stack it computes; while the meaning has not ended the machine is still running. |
| CompilerCorrectness.SimEnter | src/kernel.c:178-190 | Calling a definition returns to the caller's next thread with its return stack and the meaning's parameter stack, however often `tail-recurse` restarts the body, or keeps running as long as the meaning does. |
| CompilerCorrectness.SimMacro | lib/macros.f83:54-61 | A copied body runs in the loops it is copied into: it falls through to the cell after it with the return stack untouched, also by branches that target the dropped return cell, or leaves the enclosing loop. |
| CompilerCorrectness.CopyableNeverReturns | lib/macros.f83:63-67 | A body free of `exit`, `recurse` and `tail-recurse` can only end by falling off its end or by `leave`, which is what makes dropping the return cell sound. |
| Programs.ProgramLoads | src/kernel.c:2697-2730 | Compiling any list of proper definitions one after another never aborts, keeps the parameter stack, and leaves every entry at its structured code followed by `(;)`. |
| Programs.CompilerCorrect | src/kernel.c:164-231 | If a definition's meaning terminates, the compiled program halts with exactly that parameter stack and an empty return stack. |
| Programs.HaltsIffTerminates | src/kernel.c:164-231 | A program whose meaning never goes wrong halts on the machine if and only if its structured evaluation terminates. |
| CountedLoops.LoopEnds | src/compiler.v:65-142 | For any body of `do` or `?do` with different bounds, closed by `loop` or `+loop`: the start index is the top cell and the limit the one below, and with no wrap-around the loop ends with the first step that brings the index to the limit or past it, from below after a positive step and from above after any other, each step being the one that turn leaves. |
| CountedLoops.CountsBy | src/compiler.v:95-142 | `do i n +loop`, and `do i loop` for n = 1, leave exactly start, start + n, … on the stack: once, and then as long as the index is below the limit for n > 0 or above it for n < 0. |
| CountedLoops.MachineCountsBy | src/compiler.v:95-142 | The same of the compiled loop on the machine. |
| CountedLoops.ThreeTwoOne | src/compiler.v:124-135 | `0 3 do i -1 +loop`, compiled and run, leaves 3 2 1. |
| CountedLoops.LeaveEnds | src/kernel.c:1386-1393 | `leave` ends the loop in the middle of any turn. |
| CountedLoops.EqualBounds | src/compiler.v:75-93 | `?do` with equal bounds does not run its body. |
| ControlLaws.UntilEnds | src/kernel.c:1502-1511 | `begin until` goes on while the body leaves 0 and ends with the first other flag. |
| ControlLaws.WhileEnds | src/kernel.c:1513-1536 | `begin while repeat` goes on while the flag is not 0. |
| ControlLaws.CaseTakesFirst | src/kernel.c:1442-1492 | A `case` with literal keys runs the arm of the first key equal to the selector, without the selector; with no such key the default part has the selector, and `endcase` drops the top. |
| ControlLaws.OuterIndex | src/kernel.c:1395-1407 | `j` in an inner loop is the index of the outer one, whatever the inner bounds. |
| Samples.FibOnMachine | tst/fibonacci.tst:12-17 | `fib`, compiled and run, leaves the n-th Fibonacci number in a cell for every n. |
| Samples.FibIterOnMachine | tst/fibonacci.tst:23-29 | `fib-iter` with its `tail-recurse` leaves the same. |
| Samples.RNormalizeOnMachine | lib/rationals.f83:66-87 | The source of `rnormalize`, with its loop, its nested conditionals and its `exit`, compiled and run, leaves the normal form of every pair of cells but the least integer. |
| Macros.MacroBehavesAsCall | lib/macros.f83:49-67 | A closed body inlined at any address and a call cell at any address have the same meaning, and both do it on every stack inside any loops. |
| Macros.ClosedAnywhere | lib/macros.f83:54-61 | A closed copyable body (each `i` and `leave` under a loop of its own, each `j` under two) evaluates the same whatever loops surround it. |
| Macros.FreeIndexDiffers | src/kernel.c:1395-1407 | The body `i` is not closed: inside a loop, inlined it pushes the index, called it pushes the limit. |
| Programs.TailRecurseDepth | src/kernel.c:1549-1570 | For every number of rounds and wherever in the body `tail-recurse` stands, counted loops included: from the body's start on some return stack the machine comes back to the body's start with the parameter stack the rounds compute and three more return-stack cells for every loop left open, so with the same return stack if and only if none was. |
| Programs.TailRecurseKeepsDepth | src/kernel.c:1549-1570 | With no `tail-recurse` under a counted loop of the body, every round starts on the very return stack of the first. |
| Programs.TailRecurseUnderLoop | src/kernel.c:1549-1570 | The body `do tail-recurse loop` comes back to its start three cells deeper. |
| Programs.TailRecurseComputesAsRecurse | src/kernel.c:1549-1570 | A program and the one with `recurse exit` for every `tail-recurse`, both compiled, halt with the same parameter stack. |
| TailRecursion.TailIsRecurseExit | src/kernel.c:1549-1570 | A call ends with a stack if and only if it ends with that stack after every `tail-recurse` of the program is replaced by `recurse exit`. |
| CompilerWords.Compiler.OpenForward | src/kernel.c:1340-1360 | `do`, `?do` and `if` storing through `dp` and pushing marks and flags make the state `CompileWord` says. |
| CompilerWords.Compiler.Else | src/kernel.c:1419-1431 | `else` refuses, or patches the open branch and leaves its own mark, as `CompileWord` says. |
| CompilerWords.Compiler.Then | src/kernel.c:1433-1440 | The same for `then`. |
| CompilerWords.Compiler.Begin | src/kernel.c:1494-1500 | The same for `begin`. |
| CompilerWords.Compiler.Back | src/kernel.c:1502-1547 | The same for `until` and `again`. |
| CompilerWords.Compiler.While | src/kernel.c:1513-1523 | The same for `while`. |
| CompilerWords.Compiler.Repeat | src/kernel.c:1525-1536 | The same for `repeat`. |
| CompilerWords.Compiler.Case | src/kernel.c:1442-1448 | The same for `case`. |
| CompilerWords.Compiler.Of | src/kernel.c:1450-1466 | The same for `of`. |
| CompilerWords.Compiler.Endof | src/kernel.c:1468-1480 | The same for `endof`. |
| CompilerWords.Compiler.Endcase | src/kernel.c:1482-1492 | The loop of `endcase` resolves the whole chain of marks, as `ResolveChain` says. |
| CompilerWords.Compiler.Loop | src/kernel.c:1362-1384 | The same for `loop` and `+loop`. |
| CompilerWords.Compiler.TailRecurse | src/kernel.c:1557-1570 | The same for `tail-recurse` without a frame. |
| CompilerWords.Compiler.CopyMacro | lib/macros.f83:54-61 | `allot` and `cmove` append exactly the body's cells at `here`. |
| CompilerWords.Compiler.CompileSource | src/kernel.c:1340-1570 | Compiling a source word by word in place ends in the state, or the refusal, that `CompileWords` gives. |
| InnerInterpreter.Machine.DoParenQBranch | src/compiler.v:49-63 | `(?branch)` on the registers `tos`, `sp`, `rp`, `ip` and both stack arrays is one `Step` of threaded code. |
| InnerInterpreter.Machine.DoParenDo | src/compiler.v:65-73 | The same for `(do)` and its three-cell loop frame. |
| InnerInterpreter.Machine.DoParenQDo | src/compiler.v:75-93 | The same for `(?do)`, whose comparison and drop work around the cached top. |
| InnerInterpreter.Machine.DoParenLoop | src/compiler.v:95-111 | The same for `(loop)` with a wrapping index. |
| InnerInterpreter.Machine.DoParenPlusLoop | src/compiler.v:113-142 | The same for `(+loop)`: after a positive step it branches while the index is below the limit, after any other while it is above. |
| InnerInterpreter.Machine.DoLeave | src/kernel.c:1386-1393 | The same for `leave`, which finds the loop's end through the saved `ip`. |
| InnerInterpreter.Machine.DoParenLiteral | src/compiler.v:147-152 | The same for `(literal)`. |
| InnerInterpreter.Machine.Inner | src/kernel.c:176-230 | The fetch-and-execute loop follows `Run`, thread by thread, until it stops or its budget ends. |
| Frames.LinkMakesFrame | src/kernel.h:266-272 | `(link)` turns S ++ args into a frame over S with the arguments as locals, the caller's `fp` cell and a return cell marking the frame's start. |
| Frames.UnlinkRemovesFrame | src/kernel.h:274-290 | `(unlink)` with any number of results, none included, turns the frame into S ++ results and restores the caller's `fp` and return stack. |
| Frames.FrameDiscipline | src/locals.v:56-106 | For all argument, local and result counts, with conditional and counted loops, nested and recursive: a framed definition run on the machine takes S ++ args to S ++ its results as a function of the arguments, with `fp`, return stack and memory below restored; memory is exceeded exactly when the peak of the evaluation does not fit. |
| Frames.TailKeepsFrame | src/kernel.c:1557-1570 | For every number of rounds that end with `tail-recurse` outside counted loops: it unlinks to the `fp` and return stack the definition was entered with, its operands over the same stack below; memory is exceeded exactly when the largest round does not fit, however many there are. |
| FrameLoops.LoopEnds | src/compiler.v:65-142 | In a framed definition, for any body that works on operands and locals: limit below start index, and the loop ends with the first step that brings the index to the limit or past it. |
| FrameLoops.MachineCountsBy | src/compiler.v:113-142 | `{ limit start } limit start do i n +loop` in memory leaves exactly start, start + n, … in place of its arguments, with the caller's frame pointer and return stack, unless memory runs out. |
| FrameLoops.LeaveEnds | src/kernel.c:1386-1393 | `leave` ends a framed loop in the middle of any turn. |
| FrameLoops.WhileEnds | src/kernel.c:1513-1536 | A framed `begin while repeat` goes on while the flag is not 0. |
| FramedSamples.FactorialsOnMachine | tst/locals.tst:23-51 | The recursive, the tail-recursive and the iterative factorial with their argument frames, run in memory, leave the factorial of every n in a cell in place of the arguments, with the caller's frame pointer and return stack. |
| FramedRecursion.FramedTailIsRecurseExit | src/kernel.c:1549-1570 | A framed definition ends with given results if and only if it does after every `tail-recurse` of the program is replaced by `recurse exit`. |
| Frames.LocalCell | src/locals.v:101-106 | Local `k` lives at `fp - k` for every frame on the stack, and reads argument `k` until it is assigned. |
| Frames.StoreMatches | src/locals.v:94-99 | A store changes local `k` only: other locals, the operands and everything below stay. |
| Frames.FrameMachine.Flink | src/kernel.h:266-272 | `flink` on registers and the stack array does what `Link` says. |
| Frames.FrameMachine.Funlink | src/kernel.h:274-290 | `funlink` does what `Unlink` says, both branches. |
| Frames.FrameMachine.MoveUp | src/kernel.h:287 | The overlapping copying loop never overwrites a result it has not copied: the moved cells arrive in order and nothing else changes above or below. |
| Frames.FrameMachine.LocalFetchWord | src/locals.v:101-106 | `(local@)` does what `LocalFetch` says. |
| Frames.FrameMachine.LocalStoreWord | src/locals.v:94-99 | `(local!)` does what `LocalStore` says, through the cached top. |
| Exceptions.HandlersAreStructured | src/exceptions.v:54-129 | A program run on frames, `ep` and `raise`, started at any word, guarded or not, ends as evaluation with structured handlers does: same data on normal end with no frame live, and an uncaught signal stops with an empty chain. |
| Exceptions.Simulation | src/exceptions.v:54-129 | For every statement, counted loops with `i`, `j`, `leave` and `+loop` included, wherever placed and with any chain of live calls around it: normal end, `leave`, raise (out of any number of loop frames) and running on match the structured meaning, and the chain invariant holds in every state reached. |
| Exceptions.CatchLinks | src/kernel.h:292-303 | A protected call adds exactly one frame, the outer `ep`, `fp`, the handler's address, the stack depth and the top cell, to the `ep` chain, which stays a finite chain of the live calls through the return stack. |
| Exceptions.ThrowUnlinks | src/kernel.h:305-310 | Normal exit takes exactly that call's frame off the chain and returns to its caller with the outer `ep` and the data as it is. |
| Exceptions.RaiseResumes | src/exceptions.v:104-127 | However deep inside the body, `raise` resumes the innermost handler with that call's return stack, `fp` and outer `ep`, the signal on top and the saved top cell below it at the saved depth, and no other cell of memory changed. |
| Exceptions.ToHandler | src/exceptions.v:104-127 | The handler goes on in the cell after `(exception>)` with its frame gone, so a raise inside it reaches the next outer one. |
| HandlerLoops.LoopEnds | src/compiler.v:65-142 | In definitions with handlers: a loop takes the top cell as start index and the cell below it as limit, and ends with the first step that brings the index to the limit or past it. |
| HandlerLoops.LeaveOrRaise | src/kernel.c:1386-1393 | In any turn `leave` ends the loop, and a raise goes through it to the handler outside. |
| HandlerLoops.FlagsAndIndexes | src/compiler.v:42-63 | A flag that is not 0 takes the first branch and ends an `until`; `i` and `j` are the innermost index and the next; the raised signal is the top cell. |
| Exceptions.ExceptionMachine.DoParenException | src/kernel.h:292-303 | The five pushes and the jump, cell by cell, are `Catch`. |
| Exceptions.ExceptionMachine.DoParenExceptionSemicolon | src/kernel.h:305-310 | `fthrow`, cell by cell, is `Throw`. |
| Exceptions.ExceptionMachine.DoRaise | src/exceptions.v:104-127 | The pops of `raise` do what `RaiseTo` says; without an exception block it only takes the signal. |
| Queues.Enqueue | src/queues.v:49-63 | Relinking four pointers puts a node at the end of the ring: `succ` and `pred` stay mutually inverse along the longer cyclic sequence. |
| Queues.Dequeue | src/queues.v:65-77 | Takes a node out: it is a ring of its own, the others keep their order; nodes outside both rings are untouched. |
| Queues.EmptyQueue | src/queues.v:42-47 | True exactly for a ring of one. |
| Queues.EnqueueDequeue | src/queues.v:49-77 | Dequeue undoes enqueue. |
| Queues.Rotate | src/queues.v:49-77 | A ring is a cyclic sequence: every rotation of it is the same ring. |
| Tasks.Kernel.SwitchTo | src/multi-tasking.v:144-180 | `resume` makes another task current, or pops a terminated one, while every task's context (registers and cached top of stack) is what it was, the outgoing one's and the incoming one's included. |
| Tasks.Kernel.Detach | src/multi-tasking.v:201-208 | `detach` resumes the successor in the ring. |
| Tasks.Kernel.DetachRound | src/multi-tasking.v:201-208 | n detaches around a ring of n visit every task once, in ring order, and return to the first with `ip`, `sp`, `rp`, `fp`, `ep` and the cached top unchanged. |
| Tasks.Kernel.Deactivate | lib/multi-tasking.f83:94-100 | Any task of the run ring moves to the end of the queue, and the task that followed the running one is resumed, whichever was moved; the only one in the ring goes on running. No context changes. |
| Tasks.Kernel.Activate | lib/multi-tasking.f83:102-106 | A task in no ring joins right after the running one and runs at once; no context changes. |
| Tasks.Kernel.Cause | lib/multi-tasking.f83:141-147 | `cause` moves the first waiter from the queue to the ring and switches to it; with no waiter it changes nothing. |
| Tasks.Kernel.Wait | lib/multi-tasking.f83:171-181 | `wait` on linked nodes refines the semaphore step: with a count of 0 the caller goes last in the queue and out of the run ring, with any other the count goes down by one. The caller goes on exactly if it took a token or nobody else was runnable. |
| Tasks.Kernel.Signal | lib/multi-tasking.f83:163-169 | `signal` refines the semaphore step: with nobody waiting the count goes up by one whatever it is, else it stays and the first waiter runs, the caller being last in the ring. |
| Semaphores.StepKeeps | lib/multi-tasking.f83:137-181 | Every step but a `wait` that would block the only runnable task keeps the invariant: counts never negative, a positive count means nobody waits, initial + signals = count + granted waits, tasks wake in the order they blocked, and each task is in exactly one ring. |
| Semaphores.RunKeeps | lib/multi-tasking.f83:137-181 | In every run in which a blocking task leaves another one runnable, the invariant holds in every state, with the same tasks throughout. |
| Semaphores.Ledger | lib/multi-tasking.f83:163-181 | Over every run, counted from the operations alone: each `signal` raises count less waiters by one and each `wait` lowers it by one; signals given are the `signal`s, granted waits and waiters together the `wait`s. |
| Semaphores.CountsFromOperations | lib/multi-tasking.f83:151-181 | In every state of every run the initial count, the number of `signal`s and the number of `wait`s say how many tokens are left or how many tasks wait for one. |
| Semaphores.FirstComeFirstServed | lib/multi-tasking.f83:163-181 | Over every run the tasks that waited and those that ran into a `wait` at count 0 are, in this order, the tasks that were running after a `signal` and those that still wait. |
| Semaphores.TurnsComeRound | src/multi-tasking.v:201-208 | Tasks that only detach take turns in ring order and come round. |
| Semaphores.TokensBoundGrants | lib/multi-tasking.f83:151-181 | In every state of every such run, granted waits exceed signals by at most the initial count: mutual exclusion for a mutex. |
| Semaphores.NeverLone | lib/multi-tasking.f83:171-181 | With one task in the run ring that never waits, every run of the others, whatever they do, is such a run. |
| Semaphores.LoneTwiceInMutex | lib/multi-tasking.f83:151-181 | The only task enters a mutex, and its second `wait` lets it in again with no token left and none given back. |
| Semaphores.FreshSystem | lib/multi-tasking.f83:151-161 | Any ring with freshly made semaphores of nonnegative counts starts in the invariant. |
| Channels.OneSenderSafe | lib/multi-tasking.f83:208-230 | With one sender in ONE-TO-ONE and ONE-TO-MANY mode, over all interleavings in which a blocked task stays blocked until it is woken, what is read from the data field are the values given to `send` in order, at most the last outstanding and then still in the data field. |
| Channels.OneReceiverSafe | lib/multi-tasking.f83:208-230 | The same, under the same hypothesis, with one receiver in MANY-TO-ONE mode. |
| Channels.OneNeverStuck | lib/multi-tasking.f83:208-230 | Over those interleavings, with at least one receiver, some task of the channel can always take a step. |
| Channels.ManyNeverStuck | lib/multi-tasking.f83:208-230 | The same in MANY-TO-ONE mode with at least one sender. |
| Channels.MeetNeverStuck | lib/multi-tasking.f83:234-255 | Client and server of a rendezvous never block each other. |
| Schedules.OneSafeIff | lib/multi-tasking.f83:171-230 | On the run ring, where a lone waiter goes on without a token: every run of a channel with one sender is safe if and only if the sender is not the only task in the ring when it starts. |
| Schedules.LoneSender | lib/multi-tasking.f83:171-230 | A sender alone stores two values in a row; the first is lost. |
| Schedules.ManySafeIff | lib/multi-tasking.f83:171-230 | The same exact condition for the receiver in MANY-TO-ONE mode. |
| Schedules.LoneReceiver | lib/multi-tasking.f83:171-230 | A receiver alone fetches a value nobody has stored. |
| Schedules.MeetOnRing | lib/multi-tasking.f83:234-255 | With client and server in the ring, among any others, no `wait` of a rendezvous is ever a lone one and every call gets the service's answer to it. |
| Channels.MeetKeeps | lib/multi-tasking.f83:234-255 | Every step of a rendezvous keeps the joint invariant of its two channels, client and server. |
| Channels.CallsGetTheirAnswers | lib/multi-tasking.f83:234-255 | Over all interleavings of one client and one server in which a blocked task stays blocked until it is woken, the i-th call returns the service's result for the i-th request. |
| Lookup.CachedFind | src/kernel.c:2464-2507 | With a sound cache, cached `find` is first-match search over the search order. |
| Lookup.StepKeeps | src/kernel.c:2335-2395 | Creating entries, find, restore, append, only, seal, definitions, `:`, immediate, and `;` where its exact condition holds, each keep the cache sound. |
| Lookup.EveryRunAgrees | src/kernel.c:2464-2507 | In every run of those words from a cold cache in which each `;` meets its condition, for every name, cached find returns what linear search returns. |
| SearchOrders.FindIsForemost | src/kernel.c:2428-2507 | In every such run `find` answers with the newest entry of that name that is not hidden in the first vocabulary of the search order that has one, and with none exactly if none has. |
| SearchOrders.HashIs | src/kernel.c:134 | The slot of a name by the bits of its first two characters. |
| SearchOrders.AppendIs | src/kernel.c:313-335 | `append` moves a vocabulary of the search order to the front, or puts a new one in front of all, the last going out of an order of 64. |
| SearchOrders.SealedAnswers | src/kernel.c:2359-2369 | After `seal` every answer comes from a vocabulary other than the first, and there is one exactly if one of those has the name. |
| SearchOrders.SealUndoesAppend | src/kernel.c:313-369 | `append` of a new vocabulary and `seal` give back every answer where there was room, and lose the last vocabulary where there was none. |
| SearchOrders.DefinesInAppended | src/kernel.c:2335-2339 | After `append v` and `definitions` the next definition goes in front of vocabulary v and is found first. |
| SearchOrders.OnlyFirst | src/kernel.c:2342-2355 | After `only` searches and definitions are those of the first vocabulary. |
| SearchOrders.RestoreIs | src/kernel.c:2373-2395 | `restore` to an entry of the current vocabulary cuts exactly the newer ones and clears exactly their slots; to any other entry it clears the slots of all and cuts nothing; to nil it clears every slot. |
| Lookup.RestoreUndoesCreation | src/kernel.c:2373-2395 | Any run of creations followed by restore to the earlier last entry brings back every vocabulary and the earlier search function, cached and linear. |
| Lookup.UndoneIff | src/kernel.c:2373-2395 | In every dictionary with a sound cache, creating one entry is undone by restore to the earlier last entry if and only if the current vocabulary had one, or is not in the search order, or an earlier vocabulary in the order answers the name. |
| Lookup.SemicolonIff | src/kernel.c:2723-2727 | In every dictionary with a sound cache, all cached answers stay right after `;` if and only if what it leaves in the slot of the name (the definition itself exactly if the current vocabulary is first) is the definition just when that comes first in the search order, or else of no use: a condition on the state before. |
| Lookup.StaleAfterSemicolon | src/kernel.c:2723-2727 | For every name, a run after which that condition fails: `find` answers an older entry than linear search. |
| Lookup.StaleAfterRestore | src/kernel.c:2723-2727 | For every name, a run with the current vocabulary first: a definition cut off by `restore` before its `;` is found afterwards by `find` and by no search. |
| Visibility.RightIffSteady | src/kernel.c:2464-2507 | With the entries and the search order left alone, every `find` of every session of `find`, `[`, `]`, `definitions` and flushing from a cold cache is linear search if and only if the dictionary is steady: where an entry is the first visible of its name, it still is in every later state and current vocabulary that the cached path lets it through in. |
| Visibility.OneStateStale | src/kernel.h:136-139 | For every name: a compilation word before an ordinary one of the same name breaks it. |
| Visibility.PrivateStale | src/kernel.h:136-139 | For every name: a private word of a vocabulary other than the first, found before `definitions`, breaks it. |
| Visibility.PlainIsSteady | src/kernel.h:136-139 | A dictionary without private entries and entries of one state is steady. |
| Visibility.FrontAnswers | src/kernel.h:136-139 | The entry in front of everything else answers its name exactly when it is not limited to the other state and not private to a vocabulary that is not current. |
| Visibility.OpenedByDefinitions | src/kernel.c:2335-2339 | After `definitions` it answers in compilation unless it is limited to execution and in execution unless it is limited to compilation, private or not. |
| LookupWords.Dictionary.DoLookup | src/kernel.c:2428-2453 | The walk along `link` returns the first visible entry of the name in the chain, or none. |
| LookupWords.Dictionary.DoFind | src/kernel.c:2464-2507 | `find` on the arrays: a usable cached entry, or linear search and its answer into the slot; nothing else changes. |
| LookupWords.Dictionary.MakeNewEntry | src/kernel.c:2598-2631 | `make_entry` puts a new entry in front of the current vocabulary and sets its slot, or clears it when that vocabulary is not first. |
| LookupWords.Dictionary.DoColon | src/kernel.c:2697-2710 | `:` makes a hidden entry, pending until `;`. |
| LookupWords.Dictionary.DoSemicolon | src/kernel.c:2723-2727 | `;` reveals the pending entry and caches it only if current is first. |
| LookupWords.Dictionary.DoRestore | src/kernel.c:2373-2395 | The walk of `restore` clears the slots of newer entries, cuts the chain only if the entry was met, and flushes everything for nil. |
| LookupWords.Dictionary.DoAppend | src/kernel.c:313-335 | The loops of `append` move a member to the front or shift and insert, in an order of at most 64, after a flush. |
| LookupWords.Dictionary.DoOnly | src/kernel.c:2342-2355 | `only` leaves the first vocabulary, which becomes current. |
| LookupWords.Dictionary.DoSeal | src/kernel.c:2359-2369 | The shifting loop of `seal` removes the first vocabulary, keeps the order of the others and flushes the cache. |
| Parser.ParserVM.Scan | lib/parser.f83:106-121 | The next token and the new position, for every break function: characters of codes 1 to 32 are skipped, a break character is a token, any other token goes on to the next break. |
| Parser.ParserVM.NotMatch | lib/parser.f83:127-144 | `-match` compares only as far as the token, and says so exactly. |
| Parser.ParserVM.DoSyntax | lib/parser.f83:187-200 | A symbol's alternatives in order: accepted with the position and actions the grammar gives, or rejected with position and action list put back, so abandoned alternatives contribute nothing. |
| Parser.ParserVM.DoRule | lib/parser.f83:183-185 | One alternative agrees with the grammar, acceptance, position and actions, its own action last. |
| Parser.ParserVM.DoTerminal | lib/parser.f83:212-216 | Accepts exactly when the next token matches. |
| Parser.ParserVM.DoSymbol | lib/parser.f83:218-226 | Tries the rules, then the primary function; a rejection leaves exactly what the primary left. |
| Parser.ParserVM.DoZeroOrOne | lib/parser.f83:228-234 | Always goes on, as the optional item of the grammar does: from the parse, or exactly from what a rejecting primary function left behind. |
| Parser.ParserVM.DoZeroOrMore | lib/parser.f83:236-246 | Agrees with greedy repetition, which ends where the symbol rejects with what its primary function left there. |
| Grammars.CleanItems | lib/parser.f83:228-246 | Where a rejecting primary function leaves nothing, optional and repeated items are those of parsing expressions: a rejection accepts the empty text. |
| Parser.ParserVM.Parse | lib/parser.f83:260-269 | The whole parse: accepted only with a derivation tree from the start to the position, the action list being the post-order of its actions followed by `exit`; rejected only when every alternative misses, with an empty list. |
| Grammars.OneParse | lib/parser.f83:187-246 | The grammar's parse of a text does not depend on the depth allowed, so a symbol has one parse. |
| Derivations.ParsedIffDerived | lib/parser.f83:183-250 | A text is parsed, by the grammar's recursive reading, up to a position and with a list of actions if and only if there is a derivation tree that ends there and has them in post-order: the chosen alternative with a witness for every earlier one that misses, its parts in order, and then its action. |
| Derivations.RejectedIffMissed | lib/parser.f83:187-200 | A symbol is rejected if and only if every alternative has a witness that it misses. |
| Derivations.OneReading | lib/parser.f83:187-246 | All derivation trees of a symbol from one place end alike with the same actions, and then not every alternative misses. |
| Derivations.PartsFirst | lib/parser.f83:248-250 | Rule `a := b` with one action and `b :=` nothing with another: the action of b comes first. |
| Rationals.NormalForm | lib/rationals.f83:66-87 | Normalization yields lowest terms with positive denominator and equal value, or zero, an infinity or undefined as the numerator's sign says. |
| Rationals.CanonicalUnique | lib/rationals.f83:66-87 | Two canonical pairs of equal value are the same pair. |
| Rationals.NormalOfCanonical | lib/rationals.f83:66-87 | Normalization leaves every canonical pair alone. |
| Rationals.EuclidIsGcd | lib/rationals.f83:70-75 | Euclid's loop with truncated `mod` computes plus or minus the greatest common divisor. |
| Rationals.RNormalize | lib/rationals.f83:66-87 | The loop and sign fix of `rnormalize` compute that normal form. |
| Rationals.RPlus | lib/rationals.f83:93-100 | `r+`, both branches, computes `Add`. |
| Rationals.AddVal | lib/rationals.f83:93-100 | On finite values `r+` is addition and canonical. |
| Rationals.MulVal | lib/rationals.f83:106-108 | `r*` is multiplication and canonical. |
| Rationals.QuotVal | lib/rationals.f83:110-116 | `r/` and `1/r` are division by anything but zero. |
| Rationals.ComparisonsDecide | lib/rationals.f83:136-146 | `?r=`, `?r<` and `?r>` decide equality and order of values. |
| Rationals.FieldLaws | lib/rationals.f83:93-116 | On finite canonical pairs the words form a commutative field: associative, commutative, distributive, units and inverses. |
| Rationals.AddAssociatesIff | lib/rationals.f83:93-100 | On all canonical values, infinities and undefined included, `r+` is associative if and only if they are not three infinities with a different first and third. |
| Rationals.AddNotAssociative | lib/rationals.f83:93-100 | Infinity, infinity, minus infinity: added from the left undefined, from the right infinity. |
| Numbers.RoundTrip | src/kernel.c:1284-1307 | For every 32-bit number and base 2 to 36, `?number` on the text built by `<# #s sign #>` gives the number back and true. |
| Numbers.ConvertIsPositional | src/kernel.c:1203-1229 | `convert` stops at the first non-digit with the wrapped positional value of what precedes it, for every string. |
| Numbers.QNumberAccepts | src/kernel.c:1284-1307 | `?number` accepts exactly an optional minus and digits of the base, none included, with their wrapped value. |
| Numbers.TextFits | src/kernel.c:1233-1274 | At most 33 characters are written in any base, so the 84-byte pad is not overrun. |
| Numbers.TextCodes | src/kernel.c:1233-1274 | By character codes: a minus in front exactly where the number is negative, then digits 0 to 9 and letters a to z below the base, the last one standing for the remainder by the base. |
| Numbers.DigitsValue | src/kernel.c:1240-1255 | The digits `#s` writes are digits of the base and their positional value is the number. |
| Numbers.Pad.Sharps | src/kernel.c:1252-1255 | The loop of `#s` writes those digits downwards in front of what is in the pad. |
| Numbers.Pad.Format | src/kernel.c:1610-1621 | The formatting of `.r` leaves the text of the number in the pad, `hld` within it. |
| Numbers.Pad.DoConvert | src/kernel.c:1203-1229 | The loop of `convert` computes `Convert`. |
| Numbers.Pad.DoQNumber | src/kernel.c:1284-1307 | `?number` answers as `QNumber` says. |
| Cells.NandLogic | tst/minimal.f83:187-191 | NOT, AND, OR and XOR built from NAND are exact on 32-bit cells. |
| Cells.Select | tst/minimal.f83:224 | A flag as a mask, ANDed and ORed, selects one of two cells. |
| MinimalProof.QBranchRuns | tst/minimal.f83:224 | `(?BRANCH)` returns to the target on zero and past it otherwise, for every cell. |
| MinimalWords.PlusMeets | tst/minimal.f83:259-264 | `+` by counting stops within 2^31 turns with the two's-complement sum. |
| MinimalWords.UlessMeets | tst/minimal.f83:268-275 | `U<` counts both down and decides unsigned order. |
| MinimalWords.UtimesMeets | tst/minimal.f83:277-281 | `U*` adds up the product modulo 2^32. |
| MinimalWords.UdivmodMeets | tst/minimal.f83:283-287 | `U/MOD` stops with unsigned quotient and remainder wherever `Divides` holds. |
| MinimalWords.UdivmodIffDivides | tst/minimal.f83:283-287 | For every nonzero divisor, `U/MOD` is right if and only if `Divides` holds; elsewhere it stops with another quotient. |
| MinimalWords.UdivmodFails | tst/minimal.f83:283-287 | 2^31 + 1 divided by 1 gives quotient 0. |
| MinimalWords.TimesMeets | tst/minimal.f83:289-293 | `*` is the signed product modulo 2^32. |
| MinimalWords.DivmodMeets | tst/minimal.f83:295-300 | `/MOD` is truncated division with the dividend's sign on the remainder for every nonzero divisor, the minimum integer included on either side. |
| MinimalWords.LessIffFits | tst/minimal.f83:306 | `<` is signed order if and only if the difference fits a signed cell. |
| MinimalWords.LessFails | tst/minimal.f83:306 | The minimum integer is not found less than 1. |
| MinimalWords.WordMeets | tst/minimal.f83:175-306 | Every derived word, on every stack for which it promises something, ends with its specified effect within 2^32 turns of its loops. |
| MinimalProof.ProcessorRunsWord | tst/minimal.f83:120-139 | The processor started on any derived word reaches its return address with the specified stack and nothing but TEMP changed in memory. |
| MinimalImage.ImageExists | tst/minimal.f83:149-310 | A memory image with every word compiled in it, as the theorems assume, exists. |
| MinimalProof.SimCode | tst/minimal.f83:234-241 | Structured meta-code compiled to absolute branches does to the processor what its evaluation does to the two stacks. |
| MinimalProof.BodyBelow | tst/minimal.f83:175-306 | Each word's body uses earlier words only, so the layers above are well founded. |
| MinimalProcessor.Processor.Cycle | tst/minimal.f83:122-136 | One turn of the loop on the registers and two memory stacks is one step of the machine, for every instruction. |
| MinimalProcessor.Processor.Process | tst/minimal.f83:120-139 | The loop follows the machine's run and stops as soon as the return stack is empty. |
| Sets.SearchSet | lib/sets.f83:67-77 | The element's first place, or that of the terminating nil. |
| Sets.AddSet | lib/sets.f83:79-81 | The vector holds the set with the element, still without duplicates and nil-terminated; nil changes nothing. |
| Sets.RemoveSet | lib/sets.f83:83-94 | The shifting loop leaves the others in order, still terminated. |
| Sets.UnionSet | lib/sets.f83:131-139 | Every element of the first set is added to the second, which has room for the union; the first stays. |
| Sets.IntersectionSet | lib/sets.f83:141-158 | In place, with shifting inside the scan, exactly the common elements remain. |
| Sets.RemovedElements | lib/sets.f83:83-94 | What removal leaves is set difference. |
| Sets.AddedAllElements | lib/sets.f83:131-139 | What union leaves is set union. |
| Sets.CommonElements | lib/sets.f83:141-158 | What intersection leaves is set intersection. |
| Mappings.AddMapping | lib/mappings.f83:89-91 | The range is replaced in place, or pair and terminator appended; a pair of zeros only ends the vector where the domain zero was. |
| Mappings.StoredIffNotZeros | lib/mappings.f83:89-91 | `add-mapping` makes the finite-map update if and only if domain and range are not both zero. |
| Mappings.ZerosLosePairs | lib/mappings.f83:89-91 | Zero and zero added to a vector that starts with the domain zero loses the pairs after it. |
| Mappings.RemoveMapping | lib/mappings.f83:93-104 | The shifting loop drops the pair and keeps the rest in order. |
| Mappings.RangeMapping | lib/mappings.f83:106-112 | The address of the range of exactly the domains in the map. |
| Mappings.MapOperations | lib/mappings.f83:77-112 | Vector update, removal and search are finite-map update, deletion and lookup. |
| Bitfields.LensLaws | src/kernel.c:968-1008 | `f@` after `f!` is the value masked to the width, storing what was fetched changes nothing, a second store wins. |
| Bitfields.FieldsInOrder | lib/bitfields.f83:86-106 | Declared fields lie one after another within the total width. |
| Bitfields.FieldsAreIndependent | lib/bitfields.f83:86-106 | In any layout of total width at most 32, storing one field leaves every other field's value. |
| Bitfields.SignedReading | src/kernel.c:981-994 | `<f@` is the two's-complement reading of the field's bits, for every width from 1 to a whole cell. |
| Bitfields.WholeCell | src/kernel.c:968-994 | `f@` and `<f@` of width 32 leave the cell as it is. |
| Prototypes.PutLookup | lib/relations.f83:98-116 | A put changes the value of its own relation only. |
| Prototypes.Relations.GetRelation | lib/relations.f83:122-124 | The value of the relation's first association, or none. |
| Prototypes.Relations.PutRelation | lib/relations.f83:110-116 | Alters exactly one pair of relation and item. |
| Prototypes.Relations.Delegate | lib/prototypes.f83:60-67 | On acyclic inheritance terminates with the value of the nearest ancestor that has the relation, none exactly if no ancestor has it. |

## Left out

- Input and output, the host, signals, `malloc`, floating point, string library calls and printing.
- Raw addresses, alignment and pointer casts: addresses are cell indices. Stacks and the dictionary are assumed to have room; a full action list of the parser is a verdict of its own.
- InnerInterpreter.Machine.Inner: takes a budget of threads, because a program may loop for ever; `Programs.HaltsIffTerminates` says when it does. MinimalProcessor.Processor.Process does the same.
- InnerInterpreter.Machine.DoParenQBranch: like the other primitives assumes the operands it pops are on the stack; the meaning is `Wrong` where they are not, and `Wrong` sources promise nothing.
- Macros.MacroBehavesAsCall: one direction only: a free index need not show, as in `i drop`, so a body that is not closed may still behave as a call.
- CompilerCorrectness.Simulation: `exit` inside a counted loop, `i` and `j` outside one and `leave` outside one have no structured meaning and promise nothing; a body that has restarted out of a loop has lost the way back to its caller, so a call of it promises nothing.
- Plain words of `ThreadedCode` act on the parameter stack; as they see all of it, data memory that `@` and `!` use can be kept as its lowest cells, but is no component of its own.
- CompilerWords.Compiler.CompileSource: keeps the compiler's parameter stack as a `seq`, so the caching of its top cell is not part of it; `InnerInterpreter` and `Frames` have it.
- Programs.ProgramLoads: `;` does not look at the parameter stack, so an open structure at `;` goes unnoticed, as in the code; the theorem is about well-nested bodies.
- CompilerWords.Compiler.TailRecurse: the framed case, which threads `(unlink)` first, is in Frames.TailKeepsFrame and FramedRecursion.FramedTailIsRecurseExit, on source trees and not on the dictionary array.
- Frames.FrameDiscipline: names in braces (`docurlebracket`, `doremovelocals`) are resolved to numbers already; `->` is `(local!)`; sources are trees with conditionals, `begin while repeat`, counted loops and recursion, executed as such and not as branches; `exit` and `tail-recurse` under a counted loop promise nothing, because `(unlink)` takes the loop's limit for the frame; one cell below the arguments exists because the top of stack is cached. `(unlinkdoes>)` is left out.
- Exceptions.RaiseResumes: says nothing about parameter cells below the top that the body has overwritten, because only depth and top cell are saved.
- Exceptions.Simulation: `case` is not a statement of its own: its code is, cell for cell, that of nested `if else then` with `over =` and `drop` as plain words. `leave` through a cell that the body itself has pushed promises nothing.
- Exceptions.ExceptionMachine.DoRaise: the low-level signal handling without an exception block is only its verdict.
- Tasks.Kernel.SwitchTo: keeps the registers in one record, so the order of the seven saves is not modelled; each task has its own stack memory. `fork`, `schedule`, `terminate`, `delay` and `join` are left out.
- Schedules.OneSafeIff: tasks outside the channel only pass their turn on; what a lone task does after going on without a token is modelled as far as the instances need it.
- Channels.OneSenderSafe: `send` and `receive` are sequences of single steps of any number of receivers, not methods; each step is a store, a fetch or one semaphore operation.
- Channels.CallsGetTheirAnswers: one client and one server, because both channels are ONE-TO-ONE.
- Lookup.EveryRunAgrees: names are NORMAL or IMMEDIATE in any state, or HIDDEN while a colon definition is open in the first vocabulary. Runs that create entries while some are PRIVATE or limited to one state are left out (Visibility.RightIffSteady has sessions without creation); so are forward entries and `forget`.
- LookupWords.Dictionary.DoOnly: with an empty search order the current vocabulary would become nil; the model asks for a first one, as `definitions` does. The read one place past a full search order in `find` and `seal` is not modelled.
- Parser.ParserVM.DoSyntax: carries a depth bound, because left-recursive grammars do not end; within it `Deep` is a verdict and Parser.OneParse says the bound does not matter. `r> drop` of an instruction is a method's early return.
- Rationals.AddVal: cells do not overflow; `mod` and `/` truncate as in C.
- Numbers.RoundTrip: characters and the pad only; the address arithmetic of `#>` is a slice.
- MinimalMachine.Effect: promises nothing for a zero divisor. MIN, MAX, `>`, the literal word, DUMP and tracing are left out, and so is the parsing of the meta-compiler; derived words store to TEMP only. The first call from `restart` is part of the constructor of the processor.
- Sets.UnionSet: the two vectors are different storage.
- Bitfields.LensLaws: width 32 is left out for `f!`, where the C shift is undefined.
- Samples.RNormalizeOnMachine: not for the least integer, whose negation does not fit a cell and whose quotient by -1 traps. The named constants `zero`, `undefined`, `infinity` and `-infinity` are pairs of literals.
- FramedSamples.FactorialsOnMachine: for n below the greatest cell, because the iterative one loops up to n + 1.
- Prototypes.Relations.Delegate: every prototype has a parent or nil, as `new-prototype` makes it. `remove-relation`, messages and methods are left out.
- Words that only add easy members: stacks, ranges, enumerates, bit sets, structures, the debugger, the index filter, the other benchmarks, the `map-` words.
