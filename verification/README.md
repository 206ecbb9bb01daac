# Verified models of the cs326 systems projects

Dafny models of three programs of the repository, and proofs about them:

- **The memory allocator** (`Project3/allocator.c`): one linked list of block
  headers kept inside the memory it manages, three fit policies, splitting,
  and unmapping of whole regions.
- **The user-level scheduler** (`LabWork/Lab7/scheduler.c`) with its input
  reader (`LabWork/Lab7/file_format.c`): a state machine of process control
  blocks, interrupts and context switches.
- **The shell's language core** (`Project2/shell.c`, `tokenizer.c`,
  `history.c`): in-place tokenizers, the pipeline splitter, the wiring of pipes
  over descriptor tables, the history ring and history expansion.

`dafny verify dfyconfig.toml` checks the whole project. Lemmas by induction
carry `{:induction false}`: their proof is their body. So do a few others, such
as `Regions.ReportGroups`, where default induction gets in the way.

## How the models are built

**Allocator.** Memory is a map from mapped addresses to bytes (`memory.dfy`).
The six 8-byte fields of `struct mem_block` (48 bytes) are little-endian words
in that one memory, so headers and payloads can interfere, and every load and
store proves that its bytes are mapped. `Allocator` (`allocator.dfy`) has the
fields of the source (`g_head`, `g_allocations`) and walks links by loading
them. A ghost field holds the block list; `HeapImage.InMemory` ties it to the
bytes, `Blocks.WellFormed` is the invariant, and `BlockOps.Table` is the view a
program has: live pointer to usable size. `mmap`'s answer is a parameter (it
may fail); `munmap` succeeds. `ALLOCATOR_ALGORITHM` and `ALLOCATOR_SCRIBBLE` are
parameters. Callers must not overflow `size_t` when sizes are rounded, pass
`free` a live pointer or NULL, and allocate fewer than 2^64 times. A run
(`allocator_runs.dfy`) is a sequence of mallocs, frees and stores by the
program; `AllocatorRuns.Execute` performs any program against any kernel
through the allocator's methods and returns the run it made.

**Scheduler.** `SchedulerModel` defines one step of the machine as a function:
main's call of `interrupt_handler`, a chunk of a process's work with or without
an alarm, the bump of its loop counters, or its termination. A control block
includes the locals of `process()` that survive a context switch. `Scheduler`
(`scheduler.dfy`) is the imperative code, proved equal to those functions. When
main schedules and nothing waits, `basic` and `rr` do nothing; `sjf`, `psjf`
and `sctf` switch to process 0 and `fifo` to an unset `pid`, which is a
parameter. The methods specify that too, and
`SchedulerInvariant.HandlerKeepsExact` shows that it breaks the invariant; runs
are followed up to that point, and `SchedulerGap.NoGapExact` says exactly which
creation quanta rule it out for every interrupt pattern. Workloads and creation
quanta stay below `INT_MAX`.

**Shell.** Strings are values and buffers are arrays with NUL characters.
`Wiring.Kernel` gives each process a descriptor table and hands out the lowest
free descriptor; `pipe`, `fork` and opening the output file may fail, `dup2`
succeeds. A session is the sequence of logs and counter values at main's
prompts, each obtained from the one before. `CommandLine` takes a line at the
prompt through to its processes. Line 352 of `shell.c` is not C and is treated
as absent. The content of uninitialised buffers and `getenv` are parameters.

## Where code and documentation disagree

The models follow the code.

- `reuse`: first fit asks for strictly more room than the other two policies
  (`allocator.c:157` against 171 and 188); best and worst fit take the last of
  equal blocks; best fit ignores slack above `INT_MAX`.
- `struct mem_block` says `region_size` is undefined in split blocks
  (`allocator.c:54-57`); the code copies it, and it is right in every block.
- `sjf` selects again at every interrupt, so it preempts; the guards of `psjf`
  and `sctf` make both run to completion. The lab's README asks for the reverse.
- The guard that is meant to keep the current process in `fifo` never fires
  (`SchedulerOrder.FifoGuardIdle`), yet FIFO does not preempt.
- `get_cmd` accepts one number too many (`history.c:52`); `History.Recall` says
  what it returns for it.
- The quote test of `tokenizer.c:27` compares an offset from the pointer with
  a length from the token's start; `Tokenizer.QuoteScanExact` says when that
  matters.
- `exec` finds operators by their first character but stops copying only at
  exact `|` and `>`; `Splitter.OperatorsStayOut` says when that matters.
- The parent of a pipeline never closes its read ends, so every later stage
  holds them; `Wiring.EndOfFileExact` says what follows.

## Model

| member | source | states |
|---|---|---|
| Memory.LoadAfterStore | Project3/allocator.c:39-61 | A value that fits in n bytes is read back from the n bytes it was stored in |
| Memory.FieldSet | Project3/allocator.c:39-61 | Storing one 8-byte field of a header changes that field and no other field of the header |
| Blocks.SameRegionConsecutive | Project3/allocator.c:333-343 | Blocks with the same region_start are consecutive in the list and agree on region_size, split blocks included |
| Blocks.RegionTiled | Project3/allocator.c:232-275 | A byte lies in a region iff one block of that region holds it, and no two blocks hold the same byte |
| Blocks.Pick | Project3/allocator.c:144-199 | The choice of a fit policy over the whole list: earliest block with more room, last block of least room, last block of most room, nothing iff no block qualifies |
| Blocks.ChosenUnique | Project3/allocator.c:144-199 | The declarative policies determine the block |
| Sizes.PageBytes | Project3/allocator.c:257-267 | The division and remainder test compute the least number of whole pages that holds the block |
| BlockOps.MallocKeeps | Project3/allocator.c:215-307 | Reuse, split and append keep the list well formed, and exactly one new pointer of the rounded size becomes live |
| BlockOps.FreeKeeps | Project3/allocator.c:321-355 | free keeps the list well formed, every remaining region keeps a used block, and exactly the freed pointer stops being live |
| BlockOps.WithoutIsCut | Project3/allocator.c:345-355 | Removing a region's blocks cuts out one stretch of the list |
| HeapImage.SplitInMemory | Project3/allocator.c:232-248 | After the header writes of a split, memory shows the list with the block cut in two |
| HeapImage.GrewInSteps | Project3/allocator.c:269-312 | Mapping, header, link and scribbling touch only the new pages and the last block's header |
| HeapImage.DropImage | Project3/allocator.c:345-361 | After unlinking and unmapping a free region, memory shows the remaining list and every live payload is unchanged |
| HeapImage.PayloadWritten | Project3/allocator.c:365-377 | Stores into one live payload disturb neither the list nor any other payload |
| Allocators.Allocator.constructor | Project3/allocator.c:63-69 | Initially the list is empty, nothing is mapped and nothing was allocated: the start of every run |
| Allocators.Allocator.FirstFitBlock | Project3/allocator.c:155-162 | The loop over the headers in memory returns first fit's choice |
| Allocators.Allocator.BestFitBlock | Project3/allocator.c:167-179 | The loop over the headers in memory returns best fit's choice |
| Allocators.Allocator.WorstFitBlock | Project3/allocator.c:184-196 | The loop over the headers in memory returns worst fit's choice |
| Allocators.Allocator.Reuse | Project3/allocator.c:144-199 | The choice of the named policy (first fit by default, none for an unknown name); NULL iff no block qualifies |
| Allocators.Allocator.LastBlock | Project3/allocator.c:298-307 | The walk along the links ends at the last block |
| Allocators.Allocator.LinkLast | Project3/allocator.c:295-307 | The new block is linked from the last one, whose next field alone changes |
| Allocators.Allocator.Malloc | Project3/allocator.c:209-313 | A new region is mapped only if no block qualifies; a pointer not live before becomes live with the rounded size; no byte of another live payload changes; scribbling fills the new payload; failure changes nothing |
| Allocators.Allocator.ScanRegion | Project3/allocator.c:332-343 | The walk over the region finds out whether it holds a used block and what follows it |
| Allocators.Allocator.Unlink | Project3/allocator.c:347-355 | The predecessor walk never leaves the list; the block before the region, or head, then leads past it |
| Allocators.Allocator.Free | Project3/allocator.c:321-363 | free(NULL) does nothing; otherwise the block list becomes the specified one, one pointer stops being live, no byte of another live payload changes |
| Allocators.Allocator.Calloc | Project3/allocator.c:371-377 | As malloc, and the requested bytes are zero; it clears through NULL exactly when nothing can be reused and mmap fails |
| Allocators.Allocator.WriteByte | Project3/allocator.c:230 | A store by the program through a live pointer keeps the allocator's invariant |
| Allocators.Allocator.PrintMemory | Project3/allocator.c:78-101 | The lines printed, with sizes read from the header at region_start, are the heading and then, region by region, one region line and its blocks |
| Regions.ListIsRegions | Project3/allocator.c:209-363 | The list is the concatenation of its regions, each tiled gap-free by its blocks from first to last byte |
| Regions.PrintedByRegion | Project3/allocator.c:83-100 | The test on region_start prints each region's line exactly once, before its blocks |
| AllocatorRuns.RunRefinesTable | Project3/allocator.c:209-363 | After any sequence of mallocs, frees and stores, under any policies and kernel answers, the heap is sound and its live blocks are what was handed out and not given back |
| AllocatorRuns.RunRemembers | Project3/allocator.c:209-363 | After any such run every byte of every live payload is the one last written there, by the program or by scribbling |
| AllocatorRuns.Execute | Project3/allocator.c:209-363 | Calling malloc and free on any program and kernel makes such a run, so the two results above hold of the memory it leaves |
| AllocatorRuns.ExecuteFresh | Project3/allocator.c:209-363 | The same from the initial state of the allocator on |
| AllocatorRuns.RunReclaims | Project3/allocator.c:345-363 | After any run that gave back all it got, in whatever order, head is NULL and no byte is mapped |
| AllocatorRuns.FreeAll | Project3/allocator.c:321-363 | Calling free on all live pointers, in any order, ends with head NULL and no byte mapped |
| AllocatorRuns.LiveDisjoint | Project3/allocator.c:209-313 | Two live payloads, with their headers, never share a byte |
| SchedulerModel.Choice | LabWork/Lab7/scheduler.c:196-325 | While a process waits, the selection of each algorithm meets its declarative rule; it is nothing only if no process waits |
| SchedulerModel.SelectsUnique | LabWork/Lab7/scheduler.c:196-325 | The declarative rules determine the process |
| SchedulerInvariant.IdleHandler | LabWork/Lab7/scheduler.c:141-153 | With nothing to run the interrupt handler changes nothing, and only main can be in that state |
| SchedulerInvariant.HandlerKeepsExact | LabWork/Lab7/scheduler.c:141-153 | As coded, the handler keeps the invariant iff something waits or the algorithm is basic or rr; otherwise it revives a dead process, starts one that was not created, or aborts |
| SchedulerInvariant.StepKeeps | LabWork/Lab7/scheduler.c:46-189 | Every step keeps the invariant: who runs, which context main holds, who has arrived, work and dispatch counts; runs of fifo, sjf, psjf and sctf are followed up to the first idle call |
| SchedulerRuns.OneRunning | LabWork/Lab7/scheduler.c:46-86 | In every state reached, for fifo, sjf, psjf and sctf up to the first idle call, at most one process is RUNNING; it is the current one, and main does not execute |
| SchedulerRuns.DispatchBound | LabWork/Lab7/scheduler.c:158-189 | On every run, for fifo, sjf, psjf and sctf up to the first idle call, executed work never exceeds the workload, equals it at termination, and the dispatches are at most 20 times the total workload plus the number of processes |
| SchedulerRuns.StepProgress | LabWork/Lab7/scheduler.c:158-189 | Each step lowers a measure unless the run has ended or the scheduler is idle |
| SchedulerGap.NoGapExact | LabWork/Lab7/scheduler.c:102-153 | The scheduler is never idle with work left, for any interrupts, iff for each quantum q below the number of processes more than q are created by then |
| SchedulerGap.GapExample | LabWork/Lab7/scheduler.c:102-153 | A single process created at quantum 1 leaves the scheduler idle from the start |
| SchedulerGap.EveryRunEnds | LabWork/Lab7/scheduler.c:400-411 | Without a gap every run ends with all work done, for every interrupt pattern |
| SchedulerGap.GapNeverEnds | LabWork/Lab7/scheduler.c:400-411 | With a gap some run of basic or rr never ends |
| SchedulerOrder.LifecyclesLegal | LabWork/Lab7/scheduler.c:46-189 | Every single assignment to a process's state, for fifo, sjf, psjf and sctf up to the first idle call, goes from created to waiting, between waiting and running, or from running to terminated |
| SchedulerOrder.ArrivesOnce | LabWork/Lab7/scheduler.c:102-118 | A process whose quantum has come was never admitted before |
| SchedulerOrder.DispatchSelects | LabWork/Lab7/scheduler.c:141-153 | Each dispatch follows the algorithm's rule on the table after demotion and arrivals; other steps leave the current process alone |
| SchedulerOrder.SjfRunsShortest | LabWork/Lab7/scheduler.c:236-251 | After every decision the running process has the least (workload, index) of all arrived unfinished ones |
| SchedulerOrder.GuardRunsToCompletion | LabWork/Lab7/scheduler.c:257-301 | psjf and sctf keep a process until it terminates and then pick the least (workload, index) or (remaining work, index) |
| SchedulerOrder.FifoGuardIdle | LabWork/Lab7/scheduler.c:211-215 | The keep-current guard of fifo never fires |
| SchedulerOrder.FifoStep | LabWork/Lab7/scheduler.c:211-230 | FIFO never takes the CPU from an unfinished process, and keeps its order |
| SchedulerOrder.FifoFinishesInOrder | LabWork/Lab7/scheduler.c:211-230 | Processes finish in increasing (creation quantum, index) order on every run |
| SchedulerOrder.RrComesNearer | LabWork/Lab7/scheduler.c:306-325 | A decision reaches the waiting process or comes strictly nearer to it around the table |
| SchedulerOrder.RrDispatches | LabWork/Lab7/scheduler.c:306-325 | A waiting process runs before num_processes further dispatches are over |
| Schedulers.Scheduler.ContextSwitch | LabWork/Lab7/scheduler.c:46-86 | For every pid: a missing process aborts; otherwise it is marked running, the quantum advances, and for a live process the context saved is that of whoever was executing |
| Schedulers.Scheduler.HandleArrivals | LabWork/Lab7/scheduler.c:102-118 | Exactly the processes of this quantum become waiting |
| Schedulers.Scheduler.InterruptHandler | LabWork/Lab7/scheduler.c:141-153 | Demotion, arrivals and selection make the specified step, also when nothing waits; main's context is saved iff main called |
| Schedulers.Scheduler.Basic | LabWork/Lab7/scheduler.c:196-205 | The loop dispatches the first waiting process |
| Schedulers.Scheduler.SelectLeast | LabWork/Lab7/scheduler.c:217-228 | The loop with its running minimum finds the waiting process of least (key, index), and leaves pid alone if nothing waits |
| Schedulers.Scheduler.Fifo | LabWork/Lab7/scheduler.c:211-230 | Guard and loop dispatch fifo's choice; when nothing waits, whatever the unset pid names |
| Schedulers.Scheduler.Sjf | LabWork/Lab7/scheduler.c:236-251 | The loop dispatches sjf's choice; when nothing waits, process 0 |
| Schedulers.Scheduler.Psjf | LabWork/Lab7/scheduler.c:257-276 | Guard and loop dispatch psjf's choice; when nothing waits, process 0 |
| Schedulers.Scheduler.Sctf | LabWork/Lab7/scheduler.c:282-301 | Guard and loop dispatch sctf's choice; when nothing waits, process 0 |
| Schedulers.Scheduler.RoundRobin | LabWork/Lab7/scheduler.c:306-325 | The two loops dispatch the next waiting process going up and around |
| Schedulers.Scheduler.RunProcess | LabWork/Lab7/scheduler.c:158-189 | One step of a process, with or without an interrupt after its chunk |
| Schedulers.Scheduler.RunAll | LabWork/Lab7/scheduler.c:397-411 | Main's loop ends for every alarm pattern, with all work done and the dispatch bound kept |
| Completion.BubblePass | LabWork/Lab7/scheduler.c:456-467 | A full pass settles one more entry at the end and keeps names with times and equal times in order |
| Completion.CompletionOrder | LabWork/Lab7/scheduler.c:441-468 | After num - 1 passes the arrays are the stable sort by time, each time with its own name |
| Completion.OrderUnique | LabWork/Lab7/scheduler.c:452-468 | There is only one such order |
| Splitter.CopyTokens | Project2/shell.c:342-350 | The copy loop stops at an exact operator and includes an inexact one |
| Splitter.Substitute | Project2/shell.c:309-327 | In place on the token array: a variable in slot 0 or 1 puts its value into slot 1, which may uncover what lies behind the terminating NULL |
| Splitter.OnlySlotOne | Project2/shell.c:309-327 | The program's name and the tokens behind slot 1 never change; when anything changes at all |
| Splitter.Parse | Project2/shell.c:329-421 | The loop with index, last and hasPipe fills the command array with the specified commands |
| Splitter.ParseLine | Project2/shell.c:297-421 | Substitution and loop together: the command array is that of the substituted tokens, whatever fits it |
| Splitter.SplitJoin | Project2/shell.c:329-421 | Joining the stages with bars gives the tokens back, and no stage holds a bar |
| Splitter.JoinSplit | Project2/shell.c:329-421 | Splitting the joined stages gives the stages back |
| Splitter.ReachedIsSplit | Project2/shell.c:329-421 | On a well-formed line the reachable commands are the bar-separated parts before the redirection, all but the last feed a pipe, the last writes to the token after the redirection |
| Splitter.OperatorsStayOut | Project2/shell.c:332-384 | No program is handed an operator as an argument iff every operator up to the redirection stands alone |
| Splitter.GluedOperatorPassed | Project2/shell.c:332-360 | A concrete line on which a bar glued to a word is handed to the first program |
| Wiring.Kernel.Spawn | Project2/shell.c:508-542 | Pipe, fork, dup2 and close leave child and parent with the specified descriptor tables; a failing pipe leaves everything alone, a failing fork both ends with the parent |
| Wiring.Kernel.ExecutePipeline | Project2/shell.c:482-546 | The recursion produces exactly the specified processes, in order, and leaves all others alone, whichever pipe or fork fails |
| Wiring.PipelineWiring | Project2/shell.c:482-546 | For any number of stages: stdin, stdout and every pipe end each stage holds |
| Wiring.EndOfFileExact | Project2/shell.c:534-544 | The next stage sees end-of-file iff stage i is gone; stage i has no reader left iff all later stages are gone |
| Wiring.FailureTruncates | Project2/shell.c:508-518 | The first failing pipe or fork leaves the stages before it as they are; the process that gets stuck runs no program, keeps all its read ends, and holds a write end iff fork failed |
| Wiring.LineIsWired | Project2/shell.c:297-444 | From tokens to processes: one process per part, running that part, wired to its neighbours |
| Tokenizer.NextToken | LabWork/Lab7/file_format.c:100-136 | A call returns the next maximal run and writes one NUL behind it |
| Tokenizer.NextTokenQuoted | Project2/tokenizer.c:13-58 | A call returns the token of the quote-aware scan and writes one NUL behind it |
| Tokenizer.AllTokens | LabWork/Lab7/file_format.c:100-136 | Calling until NULL ends and yields the tokens in order; a character of the buffer is NUL if it ends a token and unchanged otherwise; the C string at each pointer returned is the token |
| Tokenizer.TokenText | Project2/tokenizer.c:37-58 | Once cut out, a token is the C string at its start, however many tokens were cut out after it |
| Tokenizer.PlainTokensExact | LabWork/Lab7/file_format.c:106-119 | The tokens are exactly the maximal runs of non-delimiters |
| Tokenizer.Tokens | LabWork/Lab7/file_format.c:106-119 | The tokens come in increasing order, with at least one character between two |
| Tokenizer.TokensAreRuns | LabWork/Lab7/file_format.c:106-119 | Every token is a maximal run |
| Tokenizer.QuoteFreeAgrees | Project2/tokenizer.c:20-33 | On text without quotes both versions yield the same tokens |
| Tokenizer.IntendedKeepsPhrase | Project2/tokenizer.c:20-33 | What quoting is for: a token holds its quoted phrase as a whole and ends at a delimiter |
| Tokenizer.QuoteScanExact | Project2/tokenizer.c:20-33 | The exact condition under which a call takes a quoted token as a whole |
| Tokenizer.AllQuotesExact | Project2/tokenizer.c:13-58 | Over a whole text, all tokens are the intended ones iff the quote is in reach at each of the pointers they are taken from |
| Tokenizer.SingleSpaced | Project2/tokenizer.c:13-58 | They are whenever one delimiter stands between two tokens and none in front |
| Tokenizer.QuoteScanAtPointer | Project2/tokenizer.c:20-33 | It is taken as a whole whenever the token starts at the pointer |
| Tokenizer.QuoteScanMisses | Project2/tokenizer.c:27 | A text on which a quoted phrase is split |
| SpecFile.StripComment | LabWork/Lab7/file_format.c:35-54 | The loop over the line buffer cuts the comment off and counts the fields |
| SpecFile.ReadSpec | LabWork/Lab7/file_format.c:26-83 | The table receives the usable lines in order; it goes wrong iff some line has four fields but fewer than four tokens, a name that does not fit, or a number that is no int |
| SpecFile.LineReadBack | LabWork/Lab7/file_format.c:2-14 | Four fields between commas, with any blanks around them, with or without a comment and a newline, read back as the process |
| SpecFile.UsualLine | LabWork/Lab7/file_format.c:2-14 | The plain spelling, with a comma and a blank between the fields, is one of these lines |
| SpecFile.SpecReadBack | LabWork/Lab7/file_format.c:2-14 | A specification written in the documented format, with ignored lines anywhere, reads back as the processes written, pid being the index |
| History.Ring.AddHistory | Project2/history.c:34-43 | The ring keeps refining the log with one more command |
| History.Ring.GetCmd | Project2/history.c:50-60 | For each kept number the command with that number ever added; the exact result for every other number |
| History.Ring.FindCmd | Project2/history.c:67-83 | The specified search result in the window |
| History.LatestExact | Project2/history.c:67-83 | The search finds the latest kept command with the prefix, and nothing iff none has it |
| History.Ring.PrintHistory | Project2/history.c:17-28 | The walk around the ring prints the specified listing |
| History.ListingExact | Project2/history.c:17-28 | The listing holds exactly the kept non-empty commands with their true numbers, in increasing order |
| Shell.SplitLine | Project2/shell.c:452-476 | The loop over next_token, stopping at a comment, leaves the specified words in the array |
| Shell.WordsSplit | Project2/shell.c:452-476 | Comment lines have no words and no word is empty |
| Shell.SessionCounts | Project2/shell.c:133-190 | At every prompt of every session num_cmds is the number of commands ever recorded |
| Shell.SessionGrows | Project2/shell.c:133-190 | No command is ever lost from the log or renumbered |
| Shell.BangBangRecallsLast | Project2/shell.c:147-155 | At every prompt of every session two exclamation marks run and record the most recent command; it crashes iff there is none or it has no words or more than the token array holds |
| Shell.SessionBangFree | Project2/shell.c:142-190 | If every expansion of a session is found, no recorded command begins with an exclamation mark |
| Shell.Bash.HandleLine | Project2/shell.c:111-190 | The code between reading a line and running it makes the specified turn and keeps num_cmds equal to the number of commands |
| Shell.Bash.Prompts | Project2/shell.c:91-190 | main's loop over the ring makes a session, up to the first line that crashes it |
| CommandLine.UnquotedKeeps | Project2/shell.c:251-273 | Stripping quotes changes the second token only |
| CommandLine.Exec | Project2/shell.c:297-444 | From the token array to the processes: substitution, parsing, fork and pipeline |
| CommandLine.RunLine | Project2/shell.c:111-444 | A line at the prompt, down to its processes: what it starts is what its words, after expansion, unquoting and substitution, stand for; all other processes are left alone |
| CommandLine.ServedRuns | Project2/shell.c:111-546 | When spawning works, a line whose operators stand alone runs each of its parts in a process of its own, wired to its neighbours |
| CommandLine.WriterAlone | Project2/shell.c:482-546 | Of all processes there are, exactly the one of part i can write into pipe i |

## Left out

- `realloc`: it returns NULL for every real resize (`allocator.c:392-404`).
- `write_memory`: the same walk as `print_memory`, into a file.
- Thread safety of the allocator: the mutex is declared and never locked.
- Double and invalid frees, and overflow of `size_t`: preconditions.
- SchedulerModel.Step: does not follow runs of fifo, sjf, psjf and sctf past a call with nothing waiting, which resumes a dead process on a used-up stack.
- `priority` and `insanity`: the first adds nothing beyond the other selections, the second draws random numbers.
- Clocks, workload calibration, metrics, progress bars and `ucontext` internals; only which context is saved is kept.
- SpecFile.ReadSpec: does not model files with more processes than the table holds.
- What the built-in commands do, prompt printing, background jobs and `sigchld_handler`.
- Wiring.Kernel.ExecutePipeline: `dup2` does not fail and `execvp` finds its program; the second shell that a process becomes when it gets stuck is not followed.
- Splitter.Parse: does not model the fixed sizes of the arrays that single commands are copied into.
- Shell.Bash.HandleLine: does not model the undersized buffers the source copies recalled commands into.
- Projects 1 and 4 and the other labs: input and output, sockets, interposition, or copies of the code above.
