# Verified models of an xv6 kernel and of scheduling simulators

This project models the parts of the repository that carry hard guarantees and proves those
guarantees with Dafny: the crash-safe log and buffer cache, the inode layer, processes with sleep,
wakeup, exit and wait, semaphores, the Sv39 page tables with the page allocator, the K&R heap
allocator, the shell parser, grep's matcher, and the EDF, RMS and work-stealing simulators.

`dafny verify dfyconfig.toml` checks the whole project.

How it is laid out:

| files | subject |
|---|---|
| Params, Basics, CInt, Sets | constants, small shared definitions, 32-bit wrap-around, counting |
| RedoLog, LogDevice | commit and recovery as block writes with a crash possible after each; the log routines |
| SleepWakeup, Semaphore, SleepLock, LogAdmission | one theorem about sleep and wakeup, and its users |
| Procs, ProcsInvariant, ProcsWait, ProcsLife | fork, exit, wait, kill, yield and the scheduler as interleaved steps |
| PageTheory, PageMoves, PageFree, PageBudget, PageTable, ProcMemory, Tenants | page tables, page ownership, how much memory is enough, address spaces, all processes and threads together |
| FsBytes, FsTheory, FsSteps, FsFiles, FileSystem | bitmap, inodes, files as byte sequences, filewrite |
| CacheList, BufferCache, LoggedCache | the buffer cache; the log running on it |
| HeapTheory, Heap | malloc and free |
| ShellGrammar, ShellTokens, ShellRoundTrip, ShellTrees, ShellParser | the shell parser |
| Grep | the regular-expression matcher |
| EdfTheory, Edf, EdfSim, EdfRun, EdfVerdict | earliest deadline first |
| Lcm, Rms, RmsCritical | hyperperiod, rate-monotonic simulation, the critical instant |
| WorkSteal, WorkStealSim | work stealing |

Conventions. Concurrent code is a state machine over atomic steps with explicit lock owners; a step
that would take a held lock is not enabled. Code that updates structures in place is a class whose
methods are specified by functions of the old state; ghost fields say who owns each page or block.
A panic is a precondition that excludes it, and every call inside the model is shown to meet it;
where the code itself decides between panic and success (bget, log_write, the shell parser) it is a
result value. Pointers into arrays of structures are indices, and an array of
structures is one sequence per field.

Where the code does not do what is claimed for it, the code is modelled as it is, a lemma gives an
input that shows the difference, and another says exactly when the claim holds:

- `log_write` tests the log size before it looks for a block to absorb
  (`AbsorptionRefused`, `AbsorptionExact`).
- A full log cannot be committed: its LOGBLOCKS blocks pin all NBUF buffers, and commit needs one more
  (`AbsorptionRefused` reaches a full log; `FullLogCannotCommit`, `SpareExactly` and `Commit` say when).
- Threads share memory that only their creator owns. Reaping the creator first, shrinking while
  sharing, or reaping a thread that has allocated memory breaks what every other step keeps
  (`CreatorFirst`; `ReapExactly` and `ShrinkExactly` say exactly when).
- `kill` makes a sleeper runnable so that it sees its mark, but `wait` tests the mark before it sleeps
  and does not hold the lock that kill takes in between: a kill in that gap is lost (`LostKill`;
  `KillExactly` and `KilledStaysAwake` say that only there it is).
- `run_edf` prints its verdict from the miss count alone, and processes still running at `MAX_TIME`
  are not counted (`VerdictIgnoresUnfinished`). `VerdictExact` says exactly when it is right, from the
  input, provided that processes with equal deadlines are all done within the run. That EDF itself is optimal on one CPU, as Group6_Project2/Reports/EDF_Report.md claims, is
  `EdfDecidesFeasibility`.
- `run_rms` counts misses only inside the simulated length (`SilentOverload`), which is cut at
  `MAX_TIME` (`CappedRunIsSilent`). For runs of any length, capped or not, `MissesDecide` says exactly
  when the count is right for all time: if every task whose first deadline the run does not reach
  fits, or some task whose first deadline it reaches does not.
- The semaphore word is a 32-bit int (`SemaphoreConservation`), and so is morecore's byte count
  (`SbrkRequestExact`).

## Model

| member | source | states |
|---|---|---|
| RedoLog.HeadRoundTrip | Group6_Project1/kernel/log.c:87-115 | the header block write_head builds is valid and reads back, by read_head, as the same block list |
| RedoLog.LogWritesInvisible | Group6_Project1/kernel/log.c:179-192 | any prefix of the log-block writes, under a cleared header, leaves every home block and the header alone, and the log blocks written hold the cached contents |
| RedoLog.InstallKeepsMeaning | Group6_Project1/kernel/log.c:66-84 | any prefix of the installing writes keeps what a completed recovery of the disk would produce |
| RedoLog.ClearKeepsMeaning | Group6_Project1/kernel/log.c:194-204 | clearing the header after everything is installed keeps it too, and empties the log |
| RedoLog.RecoveryKeepsMeaning | Group6_Project1/kernel/log.c:117-124 | recovery cut off after any number of writes keeps the meaning; run to its end it leaves exactly those home contents |
| RedoLog.InterruptedKeepsMeaning | Group6_Project1/kernel/log.c:117-124 | so does any number of interrupted recoveries |
| RedoLog.HeaderCommits | Group6_Project1/kernel/log.c:194-204 | once the header is written the disk means the committed contents, and the rest of commit is what recovery would write |
| RedoLog.CommitPoint | Group6_Project1/kernel/log.c:194-204 | for every prefix of the writes of commit the disk means the old contents up to the header write and the new ones from it on |
| RedoLog.CommitFinished | Group6_Project1/kernel/log.c:194-204 | a commit that is not interrupted ends with an empty log and the committed home blocks |
| RedoLog.CommittedIsView | Group6_Project1/kernel/log.c:194-204 | if the listed blocks are all the cache holds, committing them makes its view durable |
| RedoLog.CrashAtomicity | Group6_Project1/kernel/log.c:66-124 | crash after any write of commit, then any number of crashes during recovery: the recovery that completes leaves all home blocks old or all new, and changes no other home block |
| RedoLog.RunAtomicity | Group6_Project1/kernel/log.c:117-204 | the same over every sequence of transactions, crashes and interrupted recoveries |
| LogDevice.Log.constructor | Group6_Project1/kernel/log.c:53-63 | a log over a given disk, with nothing cached and no operation outstanding |
| LogDevice.Log.BWrite | Group6_Project1/kernel/bio.c:106-112 | one atomic block write, recorded so that a crash can be placed after it |
| LogDevice.Log.ReadHead | Group6_Project1/kernel/log.c:87-98 | the in-memory list is the on-disk one |
| LogDevice.Log.WriteHead | Group6_Project1/kernel/log.c:103-115 | one write of the header image of the in-memory list |
| LogDevice.Log.WriteLog | Group6_Project1/kernel/log.c:179-192 | issues exactly the log writes of the specification, from the cached contents |
| LogDevice.Log.InstallTrans | Group6_Project1/kernel/log.c:66-84 | issues exactly the installing writes; unpins each block except while recovering |
| LogDevice.Log.LogThenHead | Group6_Project1/kernel/log.c:194-204 | the first half of commit, write for write |
| LogDevice.Log.InstallThenClear | Group6_Project1/kernel/log.c:117-124 | installing and clearing, shared by commit and recovery, write for write |
| LogDevice.Log.Commit | Group6_Project1/kernel/log.c:194-204 | issues exactly the writes of the specification, makes the view of every reader durable, and leaves that view unchanged |
| LogDevice.Log.RecoverFromLog | Group6_Project1/kernel/log.c:117-124 | issues exactly the recovery writes and ends with an empty log |
| LogDevice.Log.LogWrite | Group6_Project1/kernel/log.c:215-236 | absorbs a listed block or lists and pins a new one, after which readers see the new data; the size and transaction panics in the order the code tests them |
| SleepWakeup.StepKeepsInv | Group6_Project1/kernel/proc.c:698-743 | every step of sleep, wakeup and the guarded loop keeps: whoever sleeps is still blocked or yet to be scanned by the wakeup in progress |
| SleepWakeup.RunKeepsInv | Group6_Project1/kernel/proc.c:698-743 | so every run keeps it |
| SleepWakeup.NoLostWakeup | Group6_Project1/kernel/proc.c:698-743 | in every run, whenever the condition lock is free each sleeping process is still blocked, for any condition whose operations wake what they unblock |
| SleepWakeup.RunsAreSerial | Group6_Project1/kernel/proc.c:698-743 | in every run the guarded data is what the operations that took effect make of its start, one after the other, each unblocked and disciplined at its turn: whatever the interleaving, the operations are serial |
| Semaphore.PostWakesWaiters | Group6_Project1/kernel/sysproc.c:223-285 | sem_post wakes everyone whose wait it makes possible |
| Semaphore.MemoryAfter | Group6_Project1/kernel/sysproc.c:223-285 | after any operations each word is its start plus the posts minus the waits on it, wrap-around included, and the callers inside are those whose latest operation was a wait |
| Semaphore.NextGuards | Group6_Project1/kernel/sysproc.c:223-285 | every matched operation keeps value plus callers inside at the initial value |
| Semaphore.NoLostPost | Group6_Project1/kernel/sysproc.c:223-285 | whenever sem_lock is free no thread sleeps in sem_wait on a semaphore with a positive value |
| Semaphore.SemaphoreConservation | Group6_Project1/kernel/sysproc.c:223-285 | in every run the word is its start plus posts minus waits that took effect, counted from the run, as a 32-bit int, and that number itself exactly when it fits; a further wait is blocked exactly when it is not positive |
| Semaphore.MutualExclusion | Group6_Project1/kernel/sysproc.c:223-285 | in matched use a semaphore that starts at n has at most n callers that have waited and not posted; with n = 1 any two of them are the same |
| SleepLock.SleepLockCorrect | Group6_Project1/kernel/sleeplock.c:21-41 | in every run acquisitions and releases alternate, each release by the latest acquirer; the fields say whether the lock is held and by whom; no one sleeps on a lock that is not held |
| LogAdmission.NextKeepsAdmitted | Group6_Project1/kernel/log.c:127-176 | every admitted operation keeps: listed blocks plus unused reservations fit the log |
| LogAdmission.NoPanic | Group6_Project1/kernel/log.c:147-236 | in such a state no allowed operation panics |
| LogAdmission.LogAfter | Group6_Project1/kernel/log.c:127-236 | after any admitted operations outstanding is begins minus ends, the list is the blocks written since the last commit in order of first write, committing holds exactly from the end_op that closes a group to the end of its commit, and a quiet log is empty |
| LogAdmission.RunKeepsAdmitted | Group6_Project1/kernel/log.c:127-236 | the same of every run; so begin_op gets in when no operation is in progress and no commit runs |
| LogAdmission.LogNeverOverflows | Group6_Project1/kernel/log.c:127-236 | in every run lh.n plus the unused reservations is at most LOGBLOCKS, commit runs only with no operation outstanding, and an operation that has logged fewer than MAXOPBLOCKS blocks does not panic |
| LogAdmission.NoLostAdmission | Group6_Project1/kernel/log.c:127-176 | whenever log.lock is free no operation sleeps in begin_op that could be admitted |
| LogAdmission.Fill | Group6_Project1/kernel/log.c:127-236 | a run from the fresh log in which three operations begin and log any number of blocks up to LOGBLOCKS |
| LogAdmission.AbsorptionRefused | Group6_Project1/kernel/log.c:220-236 | the size check comes before absorption: such a run leads to a full log in which log_write panics for a block that is listed already |
| LogAdmission.AbsorptionExact | Group6_Project1/kernel/log.c:220-236 | a listed block is accepted if and only if the log is not full, which holds for every operation below its reservation |
| ProcsInvariant.ExitKeepsInv | Group6_Project1/kernel/proc.c:398-454 | each atomic step of exit (reparent, wakeup, zombie, release, sched) keeps the invariant: children, parents, pids and pending wakeups fit together in every interleaving |
| ProcsInvariant.WaitKeepsInv | Group6_Project1/kernel/proc.c:458-571 | each atomic step of wait, waitpid and the sleep inside them keeps it |
| ProcsInvariant.CallKeepsInv | Group6_Project1/kernel/proc.c:290-393 | fork and clone (allocate, set parent, make runnable), yield, sleep elsewhere, wakeup and kill keep it |
| ProcsInvariant.SchedKeepsInv | Group6_Project1/kernel/proc.c:580-657 | switching to and from the scheduler on any CPU keeps it |
| ProcsInvariant.StepKeepsInv | Group6_Project1/kernel/proc.c:290-767 | every step of every process keeps it |
| ProcsInvariant.InitialInv | Group6_Project1/kernel/proc.c:250-263 | it holds once init is set up |
| ProcsInvariant.RunKeepsInv | Group6_Project1/kernel/proc.c:290-767 | so it holds in every state of every interleaving |
| ProcsInvariant.NoLostExit | Group6_Project1/kernel/proc.c:398-571 | whenever wait_lock is free no process sleeps in wait or waitpid while it has a matching zombie child |
| ProcsInvariant.ReapedOnceAndOffCpu | Group6_Project1/kernel/proc.c:458-571 | a process is reaped only as a zombie that no CPU runs and that is no parent; no pid is returned twice |
| ProcsInvariant.ChainEndsAtInit | Group6_Project1/kernel/proc.c:398-409 | the invariant implies that following parents reaches init through smaller and smaller pids |
| ProcsInvariant.ParentChains | Group6_Project1/kernel/proc.c:95-106 | in every reachable state every parent chain has strictly decreasing pids and ends at init |
| ProcsWait.StepKeepsWaitInv | Group6_Project1/kernel/proc.c:458-571 | every step of every process keeps: have_kids says exactly whether a child that is waited for has been passed, and whoever is about to sleep in wait, sleeps or is waking has such a child |
| ProcsWait.RunKeepsWaitInv | Group6_Project1/kernel/proc.c:458-571 | so every run keeps it |
| ProcsWait.WaitReturnsExactly | Group6_Project1/kernel/proc.c:458-571 | at each slot of the scan wait returns exactly if the slot holds a zombie it waits for, whose pid is then recorded as reaped, else it goes to the next slot; at the end it returns without a child exactly if it was killed or has no child it waits for, else it goes on to sleep, and then none of those is a zombie |
| ProcsWait.SleeperHasChild | Group6_Project1/kernel/proc.c:458-571 | whoever sleeps in wait has a child it waits for, and while wait_lock is free and nothing has woken it that child is no zombie |
| ProcsWait.KillExactly | Group6_Project1/kernel/proc.c:745-767 | kill marks the victim and makes it runnable and changes no one else; a victim in wait still goes to sleep exactly if it is between the test of the mark and the sleep |
| ProcsWait.KilledStaysAwake | Group6_Project1/kernel/proc.c:745-786 | the mark stays until the process is freed, and a marked process that is not yet about to sleep in wait never will be |
| ProcsWait.LostKill | Group6_Project1/kernel/proc.c:499-502 | a run in which a process is killed in that gap and sleeps in wait, marked, beside a running child |
| ProcsLife.ForkTakes | Group6_Project1/kernel/proc.c:290-337 | fork takes a free slot and a pid larger than every pid a process has or wait has returned, and touches no other process |
| ProcsLife.ForkDelivers | Group6_Project1/kernel/proc.c:322-334 | until fork is done the slot is its own; then it is a runnable child of the caller, with the pid it was given |
| ProcsLife.ExitAdvances | Group6_Project1/kernel/proc.c:398-454 | each step of exit brings it nearer to its end |
| ProcsLife.ExitStepByStep | Group6_Project1/kernel/proc.c:398-454 | whatever step anyone takes, an exiting process stays on its way out with its pid, until it is dead and its parent reaps it |
| ProcsLife.ExitIsFinal | Group6_Project1/kernel/proc.c:398-454 | over any run after exit was called: the process is still on its way out, having taken as many steps as the way is shorter, or wait has returned its pid; it never runs again |
| PageTheory.PteCodec | Group6_Project1/kernel/riscv.h:364-369 | the entry mappages stores gives back address and flags for every Sv39 page address, so encoding is injective |
| PageTheory.DecodeEncode | Group6_Project1/kernel/riscv.h:358-369 | writing an entry by its fields and reading them again is the identity |
| PageTheory.EncodeDecode | Group6_Project1/kernel/riscv.h:358-369 | reading a 64-bit word by its entry fields loses nothing |
| PageTheory.IndexDigits | Group6_Project1/kernel/riscv.h:371-380 | the three indices are the digits of the page number in base 512, the highest below 256 |
| PageTheory.IndexInjective | Group6_Project1/kernel/riscv.h:371-380 | different pages below MAXVA differ in one of the three 9-bit indices |
| PageTheory.LookupAt | Group6_Project1/kernel/vm.c:97-115 | in a well-formed tree the three dependent loads end at the leaf table of the page |
| PageTheory.TakeKeeps | Group6_Project1/kernel/kalloc.c:68-82 | popping the free list keeps the owner map, the links and every translation |
| PageTheory.GiveKeeps | Group6_Project1/kernel/kalloc.c:46-63 | so does pushing a page that belongs to no one |
| PageTheory.HangKeeps | Group6_Project1/kernel/vm.c:97-115 | hanging a zeroed page under an invalid entry changes no translation of any tree |
| PageTheory.StoreKeeps | Group6_Project1/kernel/vm.c:145-174 | storing a leaf entry changes the translation of that page and of no other |
| PageBudget.SpentTwice | Group6_Project1/kernel/vm.c:97-174 | what successive steps take for missing tables and data adds up |
| PageBudget.SpentThenShort | Group6_Project1/kernel/vm.c:97-174 | running short at a later step is having been short of the whole from the start |
| PageBudget.SpentWasEnough | Group6_Project1/kernel/vm.c:97-174 | what was taken had been free |
| PageTable.Machine.constructor | Group6_Project1/kernel/kalloc.c:27-40 | after kinit exactly the whole pages between end and PHYSTOP are free |
| PageTable.Machine.Kalloc | Group6_Project1/kernel/kalloc.c:68-82 | a page no one owned, or 0 exactly when none is free |
| PageTable.Machine.Kfree | Group6_Project1/kernel/kalloc.c:46-63 | the page is the first of the free list, and nothing else changes |
| PageTable.Machine.Walk | Group6_Project1/kernel/vm.c:97-115 | the slot of the page; without alloc nothing changes; with alloc it fails exactly when fewer pages are free than tables are missing on the way, and otherwise takes exactly those; no translation changes |
| PageTable.Machine.GrowTable | Group6_Project1/kernel/vm.c:108-111 | a new empty table changes no translation; it fails only without a free page and then changes nothing |
| PageTable.Machine.Walkaddr | Group6_Project1/kernel/vm.c:120-138 | the translation of a user page, 0 for unmapped, non-user and out-of-range pages |
| PageTable.Machine.MapOne | Group6_Project1/kernel/vm.c:160-172 | one page gets its translation and no other changes; it fails exactly when fewer pages are free than tables are missing, and then no translation changes |
| PageTable.Machine.Mappages | Group6_Project1/kernel/vm.c:145-174 | exactly the range gets the translations asked for; exactly when fewer pages are free than tables the range lacks, only a prefix of it does |
| PageTable.Machine.UnmapOne | Group6_Project1/kernel/vm.c:201-211 | one page loses its translation, its frame is freed exactly if asked for and mapped |
| PageTable.Machine.Uvmunmap | Group6_Project1/kernel/vm.c:192-212 | exactly the range loses its translations; with do_free exactly its pages become free |
| PageTable.Machine.Uvmdealloc | Group6_Project1/kernel/vm.c:246-258 | the same for the pages between two sizes |
| PageTable.Machine.AllocPage | Group6_Project1/kernel/vm.c:225-237 | a fresh frame with given contents is mapped; exactly when fewer pages are free than the frame and the missing tables, everything but new tables is undone |
| PageTable.Machine.Uvmalloc | Group6_Project1/kernel/vm.c:216-240 | zeroed fresh pages with the right flags; it fails exactly when fewer pages are free than the pages and the tables they lack, and then every translation is as before and every data page taken is free again |
| PageTable.Machine.Uvmcopy | Group6_Project1/kernel/vm.c:296-324 | the child has copies with the same contents and flags at the same addresses, holes included; it fails exactly when fewer pages are free than the mapped pages of the parent and the tables the child lacks for them, and then nothing stays mapped and every data page is given back |
| PageTable.Machine.Uvmmirror | Group6_Project1/kernel/vm.c:489-506 | the thread translates every page as its creator does and owns none of them; it fails exactly when fewer pages are free than tables are missing, and then nothing stays mapped |
| PageTable.Machine.FreewalkAt | Group6_Project1/kernel/vm.c:262-278 | below any table of a detached tree exactly that subtree is freed |
| PageFree.DetachHanging | Group6_Project1/kernel/vm.c:262-278 | an address space without leaves is a tree freewalk can take down |
| PageTable.Machine.Freewalk | Group6_Project1/kernel/vm.c:262-278 | with no leaf left, the panic is unreachable and exactly the tables of the tree are freed |
| PageTable.Machine.Uvmcreate | Group6_Project1/kernel/vm.c:178-187 | a new tree of one table with nothing mapped, or 0 and nothing taken exactly when no page is free |
| PageTable.Machine.Uvmfree | Group6_Project1/kernel/vm.c:282-288 | exactly the user pages below sz and the tables are freed |
| PageFree.SpawnedThenReaped | Group6_Project1/kernel/proc.c:166-203 | whatever a new address space took, reaping it gives back: the owners of all pages are as before |
| ProcMemory.ProcPagetable | Group6_Project1/kernel/proc.c:207-237 | trampoline and trapframe mapped and nothing else, on three pages; it fails exactly when fewer are free, every failure path gives everything back, and the one after the trapframe is never taken |
| ProcMemory.AllocProc | Group6_Project1/kernel/proc.c:112-161 | a trapframe page and an address space, or nothing taken, exactly when fewer than four pages are free |
| ProcMemory.UnmapTop | Group6_Project1/kernel/proc.c:244-245 | trampoline and trapframe are unmapped, no user translation changes |
| ProcMemory.FreeThreadSpace | Group6_Project1/kernel/proc.c:177-182 | a thread gives back its tables and none of the shared pages |
| ProcMemory.FreePagetable | Group6_Project1/kernel/proc.c:241-247 | a process gives back its tables and exactly its own pages |
| ProcMemory.FreeProc | Group6_Project1/kernel/proc.c:166-203 | for a thread the trapframe and the tables are freed, for a process also its pages, and nothing else |
| ProcMemory.Clone | Group6_Project1/kernel/proc.c:339-393 | the thread translates every page below sz as its creator; it fails exactly when fewer pages are free than a trapframe and the tables of that address space, and has then taken nothing |
| ProcMemory.CloneThenReap | Group6_Project1/kernel/proc.c:339-393 | clone and reaping the thread restore the owner of every page, every translation of every other process and all data |
| ProcMemory.Fork | Group6_Project1/kernel/proc.c:290-337 | the child owns copies of all pages; it fails exactly when fewer pages are free than a trapframe, the tables for the mapped pages of the parent, and the copies, and has then taken nothing |
| ProcMemory.ForkThenReap | Group6_Project1/kernel/proc.c:290-337 | fork and reaping the child restore the owner of every page as well |
| Tenants.ReapExactly | Group6_Project1/kernel/proc.c:166-203 | reaping keeps every live translation on a page in use exactly if a thread is reaped or no one shares the memory of the process; it loses no page exactly if no thread that has allocated memory is reaped |
| Tenants.ShrinkExactly | Group6_Project1/kernel/vm.c:246-258 | shrinking keeps it exactly if no other process or thread translates to a page above the new size, and loses no page |
| Tenants.GrowKeeps | Group6_Project1/kernel/vm.c:216-240 | growing keeps both |
| Tenants.SpawnKeeps | Group6_Project1/kernel/proc.c:290-393 | a new process or thread keeps both |
| Tenants.Kernel.constructor | Group6_Project1/kernel/kalloc.c:27-40 | no process, every page free |
| Tenants.Kernel.Userinit | Group6_Project1/kernel/proc.c:250-263 | the first process, if four pages are free |
| Tenants.Kernel.Fork | Group6_Project1/kernel/proc.c:290-337 | keeps: every live translation reaches a page in use, no two processes use the same page, and every page in use is held by someone alive; the pages of the source are readable by that invariant; fails exactly when memory is short of what the child needs |
| Tenants.Kernel.Clone | Group6_Project1/kernel/proc.c:339-393 | keeps it, and fails exactly when memory is short of trapframe and tables; from now on the memory of the creator is shared |
| Tenants.Kernel.Grow | Group6_Project1/kernel/proc.c:267-286 | keeps it; fails exactly beyond the trapframe or when memory is short of the new pages and their tables |
| Tenants.Kernel.GrowLazily | Group6_Project1/kernel/sysproc.c:75-84 | keeps it: the new pages are holes; fails exactly beyond the trapframe |
| Tenants.Kernel.Shrink | Group6_Project1/kernel/proc.c:267-286 | keeps it exactly if the others are spared |
| Tenants.Kernel.Reap | Group6_Project1/kernel/proc.c:166-203 | keeps it exactly if a thread without memory of its own is reaped, or a process whose memory no one shares |
| Tenants.CreatorFirst | Group6_Project1/kernel/proc.c:166-203 | after clone, reaping the creator leaves the thread with translations to free pages |
| FsBytes.SetWordGet | Group6_Project1/kernel/fs.c:430-438 | storing a block number in an indirect block changes that entry and no other |
| FsBytes.SetBitGet | Group6_Project1/kernel/fs.c:66-106 | setting or clearing a bit of the bitmap changes that bit and no other |
| FsTheory.ExtendsContents | Group6_Project1/kernel/fs.c:405-444 | allocating blocks changes the contents of no file |
| FsSteps.FlipKeeps | Group6_Project1/kernel/fs.c:66-106 | marking a free block or freeing one that is being given up keeps bits and owners in step |
| FsSteps.AssignDirect | Group6_Project1/kernel/fs.c:411-418 | giving a fresh block to a direct slot keeps one owner per block |
| FsSteps.AssignIndirect | Group6_Project1/kernel/fs.c:424-429 | so does giving a zeroed block as indirect block |
| FsSteps.AssignEntry | Group6_Project1/kernel/fs.c:430-440 | so does giving one to an entry of the indirect block |
| FsSteps.WriteKeeps | Group6_Project1/kernel/fs.c:538-552 | writing a block of a file touches no other block of any file |
| FsSteps.ReleaseDirect | Group6_Project1/kernel/fs.c:455-460 | giving up a direct block keeps one owner per block |
| FsSteps.ReleaseIndirect | Group6_Project1/kernel/fs.c:462-472 | so does giving up the indirect block with all it lists |
| FsFiles.FreedExactly | Group6_Project1/kernel/fs.c:448-476 | truncation clears exactly the bits of the blocks the file owned |
| FsFiles.OthersRead | Group6_Project1/kernel/fs.c:448-562 | a file whose blocks are kept reads as before |
| FsFiles.ProgressEnds | Group6_Project1/kernel/fs.c:538-562 | what the loop has written, with the size brought up to date, is the splice, and there is no hole below the size |
| FsFiles.WriteSetBound | Group6_Project1/kernel/file.c:149-173 | with one bitmap block, a write touching at most four blocks logs at most seven |
| FileSystem.OpenFile.constructor | Group6_Project1/kernel/sysfile.c:355-361 | an open file at offset 0 |
| FileSystem.Files.constructor | Group6_Project1/mkfs/mkfs.c:108-172 | a freshly formatted image with empty inodes: the bits of the blocks before the data blocks are set, no block is owned |
| FileSystem.Files.Balloc | Group6_Project1/kernel/fs.c:66-89 | the lowest block whose bit was clear, zeroed; 0 exactly when every bit is set |
| FileSystem.Files.Claim | Group6_Project1/kernel/fs.c:76-82 | the bit is set and the block zeroed, nothing else changes |
| FileSystem.Files.Bfree | Group6_Project1/kernel/fs.c:92-106 | the bit of a block being given up is set, so the panic is unreachable; exactly it is cleared |
| FileSystem.Files.AllocDirect | Group6_Project1/kernel/fs.c:411-418 | a direct block is added, or the disk is full |
| FileSystem.Files.AllocIndirect | Group6_Project1/kernel/fs.c:424-429 | an empty indirect block is added, which maps nothing yet |
| FileSystem.Files.AllocEntry | Group6_Project1/kernel/fs.c:430-440 | a block is added through the indirect block |
| FileSystem.Files.Bmap | Group6_Project1/kernel/fs.c:405-444 | the block of block bn, allocated only if absent; 0 only on a full disk; no file changes |
| FileSystem.Files.TruncDirect | Group6_Project1/kernel/fs.c:455-460 | every direct block is given up, other files are kept |
| FileSystem.Files.TruncIndirect | Group6_Project1/kernel/fs.c:462-472 | the indirect block and everything it lists are given up |
| FileSystem.Files.FreeEntries | Group6_Project1/kernel/fs.c:465-468 | exactly the listed blocks become free |
| FileSystem.Files.Iupdate | Group6_Project1/kernel/fs.c:226-242 | the on-disk inode is the in-memory one, and its block is logged |
| FileSystem.Files.Itrunc | Group6_Project1/kernel/fs.c:448-476 | the file is empty, exactly its blocks are freed, every other file reads as before |
| FileSystem.Files.Readi | Group6_Project1/kernel/fs.c:494-519 | exactly the asked-for slice of the file, across block boundaries, and never an allocation |
| FileSystem.Files.WriteLoop | Group6_Project1/kernel/fs.c:538-552 | as many bytes as the disk has room for are in place; the blocks logged are those of the range written |
| FileSystem.Files.Writei | Group6_Project1/kernel/fs.c:528-562 | -1 exactly for a write past the end or too large, and then nothing changed; else the reported prefix is spliced in, all of it unless the disk is full, and every other file reads as before |
| FileSystem.Files.WriteChunk | Group6_Project1/kernel/file.c:149-173 | one transaction of filewrite: the splice, the offset, and at most seven blocks logged, within MAXOPBLOCKS |
| FileSystem.Files.Filewrite | Group6_Project1/kernel/file.c:134-179 | the offset moves by what was spliced in; n is returned exactly when that is everything, and -1 only for a negative n, a full disk, an offset past the end or a file that would be too large, the last two always |
| CacheList.Unlinked | Group6_Project1/kernel/bio.c:128-129 | unlinking a buffer leaves a ring of the others in order |
| CacheList.Pushed | Group6_Project1/kernel/bio.c:130-133 | linking one in after the head puts it first |
| BufferCache.BuildRing | Group6_Project1/kernel/bio.c:36-53 | the ring holds every buffer exactly once |
| BufferCache.AgreeFill | Group6_Project1/kernel/bio.c:92-103 | an invalid buffer may be filled from the disk: were the disk stale, the block would be in a valid pinned buffer |
| BufferCache.AgreeRecycle | Group6_Project1/kernel/bio.c:73-86 | reusing an unpinned buffer loses nothing that is not on the disk |
| BufferCache.AgreePublish | Group6_Project1/kernel/log.c:206-236 | making a buffer the block contents of record, pinned or written, keeps the cache in agreement |
| BufferCache.Cache.constructor | Group6_Project1/kernel/bio.c:36-53 | an empty cache agrees with the disk |
| BufferCache.Cache.Search | Group6_Project1/kernel/bio.c:64-73 | finds the block if any buffer has it |
| BufferCache.Cache.Unused | Group6_Project1/kernel/bio.c:75-87 | the least recently released unreferenced buffer |
| BufferCache.Cache.MoveToFront | Group6_Project1/kernel/bio.c:126-134 | relinks one buffer as first, the others in order |
| BufferCache.Cache.Bget | Group6_Project1/kernel/bio.c:58-89 | the buffer that has the block, else the least recently released unreferenced one; panics exactly if there is neither; no two buffers share a block |
| BufferCache.Cache.Fill | Group6_Project1/kernel/bio.c:92-103 | the holder sees the last logged contents, committed or not |
| BufferCache.Cache.Bread | Group6_Project1/kernel/bio.c:92-103 | the same for an uncontended bread |
| BufferCache.Cache.LogWrite | Group6_Project1/kernel/log.c:206-236 | the data become the contents of the block, the buffer is pinned unless listed already |
| BufferCache.Cache.Bwrite | Group6_Project1/kernel/bio.c:106-112 | the disk catches up with the buffer |
| BufferCache.Cache.Brelse | Group6_Project1/kernel/bio.c:116-137 | an unreferenced buffer moves to the front, the order of the others is kept |
| BufferCache.Cache.Bpin | Group6_Project1/kernel/bio.c:139-144 | one more reference |
| BufferCache.Cache.Bunpin | Group6_Project1/kernel/bio.c:146-151 | one reference less, once the block is on the disk |
| LoggedCache.RecordIsView | Group6_Project1/kernel/log.c:206-236 | the contents of record of the cache are the disk overlaid with the listed blocks, the view the log theorems speak of |
| LoggedCache.CopyToLog | Group6_Project1/kernel/log.c:183-190 | one turn of write_log through the cache; it panics exactly if no buffer is unreferenced |
| LoggedCache.CopyHome | Group6_Project1/kernel/log.c:70-83 | one turn of install_trans through the cache, which unpins the block |
| LoggedCache.HeadBytes | Group6_Project1/kernel/log.c:103-115 | the bytes written to the header block are the header image |
| LoggedCache.Journal.constructor | Group6_Project1/kernel/log.c:53-63 | an empty log over a cache that agrees with its disk |
| LoggedCache.Journal.LogWrite | Group6_Project1/kernel/log.c:215-236 | with the log deciding whether the block is listed: the list grows by the block if new, the buffer is pinned, and bread returns the new data |
| LoggedCache.Journal.WriteLog | Group6_Project1/kernel/log.c:179-192 | the specified writes, with what bread returns as the view; the contents of record of home blocks do not change |
| LoggedCache.Journal.WriteHead | Group6_Project1/kernel/log.c:103-115 | one write of the header image |
| LoggedCache.Journal.InstallTrans | Group6_Project1/kernel/log.c:66-84 | the specified writes; afterwards nothing is pinned for the log and the contents of record are unchanged |
| LoggedCache.Journal.Commit | Group6_Project1/kernel/log.c:194-204 | goes through exactly if there is nothing to commit or some buffer is unreferenced; then issues the writes of the specification, and what bread returned before is what is on the disk and what bread returns after |
| LoggedCache.CrashThroughCache | Group6_Project1/kernel/log.c:66-204 | a crash anywhere in such a commit and in later recoveries: the home blocks are as on the disk before, or as bread returned them |
| LoggedCache.SpareExactly | Group6_Project1/kernel/param.h:9-12 | with no references but the pins of the log, commit has a buffer to work with if and only if fewer than NBUF blocks are listed |
| LoggedCache.FullLogCannotCommit | Group6_Project1/kernel/param.h:9-12 | with LOGBLOCKS blocks listed every buffer is pinned |
| Heap.UnitsFor | Group6_Project1/user/umalloc.c:63-69 | the least number of units that holds the request and its header |
| Heap.CoreUnits | Group6_Project1/user/umalloc.c:46-54 | at least the request, at least 4096 units |
| Heap.SbrkRequestExact | Group6_Project1/user/umalloc.c:46-61 | the byte count reaches sbrk unchanged if and only if it is below 2^31 |
| HeapTheory.AbsorbRight | Group6_Project1/user/umalloc.c:33-35 | coalescing with the next free block keeps the list ordered and spaced |
| HeapTheory.LinkForward | Group6_Project1/user/umalloc.c:33-37 | so does pointing at it |
| HeapTheory.AbsorbedLeft | Group6_Project1/user/umalloc.c:38-40 | so does coalescing with the previous one |
| HeapTheory.LinkIn | Group6_Project1/user/umalloc.c:38-42 | so does following it |
| HeapTheory.Unlink | Group6_Project1/user/umalloc.c:75-77 | taking a block of the exact size out of the list keeps it |
| HeapTheory.Shrink | Group6_Project1/user/umalloc.c:78-82 | so does carving from the end of a larger one |
| HeapTheory.Conservation | Group6_Project1/user/umalloc.c:24-90 | live units plus free units are the units obtained from sbrk |
| Heap.Allocator.constructor | Group6_Project1/user/umalloc.c:21-22 | before the first call there is nothing live and nothing obtained |
| Heap.Allocator.FindPlace | Group6_Project1/user/umalloc.c:29-32 | the search of free terminates at the member the block belongs after |
| Heap.Allocator.JoinRight | Group6_Project1/user/umalloc.c:33-37 | first half of free: the block fits after its place, all units accounted for |
| Heap.Allocator.JoinLeft | Group6_Project1/user/umalloc.c:38-42 | second half: it is in the list, alone or merged, and no longer live |
| Heap.Allocator.Free | Group6_Project1/user/umalloc.c:24-44 | the list stays circular, ordered, fully coalesced and apart from all live blocks; exactly the freed block stops being live; freep is the member before it |
| Heap.Allocator.Search | Group6_Project1/user/umalloc.c:74-87 | one round of the list finds the first block after freep that is large enough, exactly if there is one |
| Heap.Allocator.TakeAll | Group6_Project1/user/umalloc.c:75-77 | an exact fit becomes live, and freep is the member before it |
| Heap.Allocator.TakeTail | Group6_Project1/user/umalloc.c:78-82 | the tail of a larger block becomes live, and freep is the member before that |
| Heap.Allocator.FindRoom | Group6_Project1/user/umalloc.c:74-89 | sbrk is asked exactly if no block of the list is large enough; without asking, the first fit after freep is found and nothing changes; after asking, a block is found unless sbrk refused |
| Heap.Allocator.InitList | Group6_Project1/user/umalloc.c:70-73 | the first call sets up the list of the empty base block, alone |
| Heap.Allocator.Malloc | Group6_Project1/user/umalloc.c:63-90 | a block of the right size apart from all live ones, whose sizes are kept; sbrk is asked once exactly if no listed block is large enough, else the result is the first fit after freep or its tail; 0 only if sbrk refused |
| Heap.Allocator.AddCore | Group6_Project1/user/umalloc.c:46-61 | granted memory joins the free list |
| ShellParser.Parser.GetToken | Group6_Project1/user/sh.c:271-314 | the token the grammar defines, and the position after it |
| ShellParser.Parser.Peek | Group6_Project1/user/sh.c:316-326 | whether the next token begins with one of the characters |
| ShellParser.Parser.Redirections | Group6_Project1/user/sh.c:380-403 | the redirections the grammar defines, or its panic |
| ShellParser.Parser.Arguments | Group6_Project1/user/sh.c:436-448 | the words and redirections the grammar defines, or too many arguments |
| ShellParser.Parser.ExecCmd | Group6_Project1/user/sh.c:421-452 | a simple command or block with redirections wrapped around it, last one outermost |
| ShellParser.Parser.Block | Group6_Project1/user/sh.c:405-419 | a parenthesised line with redirections, or the panic |
| ShellParser.Parser.PipeCmd | Group6_Project1/user/sh.c:367-378 | right-nested pipelines |
| ShellParser.Parser.Backgrounds | Group6_Project1/user/sh.c:356-359 | one background command per mark |
| ShellParser.Parser.Line | Group6_Project1/user/sh.c:350-365 | background marks and right-nested lists |
| ShellGrammar.TokenAt | Group6_Project1/user/sh.c:271-314 | a token lies inside the text, moves forward, and a word is a maximal run |
| ShellGrammar.LineWords | Group6_Project1/user/sh.c:350-452 | every range in a parsed command is a maximal run of word characters |
| ShellTokens.LineUse | Group6_Project1/user/sh.c:350-452 | under any weights of tokens in which parentheses cancel, the tokens a line used up weigh what its tree weighs |
| ShellTokens.ParseUsesAll | Group6_Project1/user/sh.c:328-452 | an accepted line holds every token other than a parenthesis exactly as often as its tree, as many opening as closing parentheses, no command with ten words or more, and each redirection as its symbol and the word after it: leftovers, a missing parenthesis and a tenth word are refused |
| ShellParser.NulTerminate | Group6_Project1/user/sh.c:454-499 | a NUL right after every token of the command and nowhere else |
| ShellParser.PartReads | Group6_Project1/user/sh.c:454-499 | after that every argument and file name reads as exactly its token |
| ShellParser.ParseCommand | Group6_Project1/user/sh.c:333-348 | the whole of parsecmd: the tree of the grammar, leftovers refused, words readable in place |
| ShellTrees.UnitParse | Group6_Project1/user/sh.c:405-452 | rendered simple commands and parenthesised commands parse back, wherever they stand |
| ShellRoundTrip.RedirsParse | Group6_Project1/user/sh.c:380-403 | rendered redirections parse back |
| ShellRoundTrip.SimpleParse | Group6_Project1/user/sh.c:421-452 | a rendered simple command with redirections parses back |
| ShellTrees.PipedParse | Group6_Project1/user/sh.c:367-378 | rendered pipelines parse back |
| ShellTrees.FrontParse | Group6_Project1/user/sh.c:350-359 | with background marks too |
| ShellTrees.LineParse | Group6_Project1/user/sh.c:350-365 | rendered lists parse back |
| ShellTrees.RoundTrip | Group6_Project1/user/sh.c:272-452 | rendering any command tree and parsing it gives back the same tree |
| Grep.ShowItems | Group6_Project1/user/grep.c:85-96 | the items a pattern is read as, written out, are the pattern, and they are readable: no literal dot, a character before an asterisk starred, a dollar sign the end exactly when last |
| Grep.ItemsShow | Group6_Project1/user/grep.c:85-96 | every readable sequence of items is what its text is read as |
| Grep.DenotesCons | Group6_Project1/user/grep.c:85-106 | the declarative semantics by its first item |
| Grep.DenotesOne | Group6_Project1/user/grep.c:93-94 | a literal or dot spells exactly one character |
| Grep.DenotesEnd | Group6_Project1/user/grep.c:91-92 | a final dollar sign matches only the end |
| Grep.MatchHere | Group6_Project1/user/grep.c:85-96 | true exactly when the items match at the beginning of the text |
| Grep.MatchStar | Group6_Project1/user/grep.c:99-106 | the same for a starred character and the rest |
| Grep.Match | Group6_Project1/user/grep.c:72-82 | sound and complete for every pattern and text |
| EdfTheory.Exchange | Group6_Project2/edf.c:85-107 | one EDF tick keeps the existence of a schedule that meets the remaining demands |
| EdfTheory.EdfKeepsFitting | Group6_Project2/edf.c:29-125 | so does every number of ticks |
| EdfTheory.EdfIsOptimal | Group6_Project2/edf.c:29-125 | on one CPU an EDF timeline gives every process its burst by its deadline if any schedule does |
| EdfTheory.EdfWitness | Group6_Project2/edf.c:29-125 | a timeline that does so is itself such a schedule |
| Edf.PassArrival | Group6_Project2/edf.c:58-75 | an arrival that preempts no one keeps the balance between running and waiting deadlines |
| Edf.Preempt | Group6_Project2/edf.c:74-81 | taking the CPU with the latest deadline keeps it: each free CPU stands for at most one waiting process that is too urgent |
| Edf.Assign | Group6_Project2/edf.c:86-106 | giving an idle CPU the earliest waiting deadline keeps it |
| Edf.PassCpu | Group6_Project2/edf.c:86-87 | so does passing a busy CPU |
| Edf.BalancedMeansDominates | Group6_Project2/edf.c:56-107 | after both loops balance means that running deadlines are at most waiting ones |
| EdfSim.DominanceCarries | Group6_Project2/edf.c:109-122 | execution keeps that for the processes already there |
| EdfSim.TickIsEdf | Group6_Project2/edf.c:85-122 | a tick whose CPUs dominate what waits extends an EDF timeline |
| EdfSim.Simulator.constructor | Group6_Project2/edf.c:4-27 | the state before the first tick |
| EdfSim.Simulator.CompletionPhase | Group6_Project2/edf.c:31-54 | exactly the CPUs whose process has nothing left become free, and each such process is recorded once |
| EdfSim.Simulator.Record | Group6_Project2/edf.c:38-48 | completion time, turnaround, waiting time and miss of one process |
| EdfSim.Simulator.FindWorst | Group6_Project2/edf.c:60-73 | the first CPU running a latest deadline, -1 if all are idle |
| EdfSim.Simulator.PreemptionPhase | Group6_Project2/edf.c:56-83 | keeps the balance for all arrivals |
| EdfSim.Simulator.FindBest | Group6_Project2/edf.c:88-100 | the first waiting process with an earliest deadline, -1 if none waits |
| EdfSim.Simulator.AssignmentPhase | Group6_Project2/edf.c:85-107 | afterwards running deadlines are at most waiting ones and no CPU idles while a process waits |
| EdfSim.Simulator.ExecutionPhase | Group6_Project2/edf.c:109-122 | one unit on every busy CPU and the row of the timeline |
| EdfSim.Simulator.CompleteAll | Group6_Project2/edf.c:31-54 | the completion phase records exactly the finished processes |
| EdfSim.Simulator.Decide | Group6_Project2/edf.c:56-107 | after preemption and assignment, on any number of CPUs, each running deadline is at most each waiting one and no CPU idles while a ready process waits |
| EdfSim.Simulator.Tick | Group6_Project2/edf.c:29-125 | one turn of the main loop keeps all of it |
| EdfSim.Simulator.Run | Group6_Project2/edf.c:29-125 | the loop stops with all completed or at MAX_TIME; done is exactly what the last completion phase could see |
| EdfRun.RunEdf | Group6_Project2/edf.c:4-135 | the timeline is an EDF timeline in every tick; completions, metrics and misses are what that timeline says |
| EdfRun.FeasibleMeansNoMiss | Group6_Project2/edf.c:29-125 | a feasible input completes without a miss |
| EdfRun.NoMissMeansFeasible | Group6_Project2/edf.c:29-125 | completing all without a miss is a schedule |
| EdfRun.EdfDecidesFeasibility | Group6_Project2/edf.c:29-125 | on one CPU without I/O wait the run completes all without a miss if and only if some schedule meets all deadlines |
| EdfVerdict.BacklogIsLeft | Group6_Project2/edf.c:29-125 | for every d the work left with deadline at most d is decided by arrivals and bursts alone |
| EdfVerdict.FeasibleExactly | Group6_Project2/edf.c:85-107 | some schedule meets all deadlines if and only if at every deadline the input has no backlog as urgent left |
| EdfVerdict.FinishExactly | Group6_Project2/edf.c:31-54 | a process with a deadline of its own finishes at the first time after its arrival at which the backlog as urgent as it is empty |
| EdfVerdict.ClassEnds | Group6_Project2/edf.c:31-54 | with equal deadlines, some process of the class finishes at that time |
| EdfVerdict.CompletesExactly | Group6_Project2/edf.c:29-29 | the run completes every process if and only if the backlog of the input drains before MAX_TIME |
| EdfVerdict.VerdictIgnoresUnfinished | Group6_Project2/edf.c:131-134 | the printed verdict calls an input feasible that has no schedule |
| EdfVerdict.MissExactly | Group6_Project2/edf.c:43-47 | a process with a deadline of its own is a counted miss exactly if that time, I/O wait included, is past its deadline and before MAX_TIME |
| EdfVerdict.MissesExactly | Group6_Project2/edf.c:43-47 | some miss is counted exactly if some backlog ends late within the run, as long as processes with equal deadlines are all done within it |
| EdfVerdict.VerdictExact | Group6_Project2/edf.c:131-134 | the verdict is right if, and with ties settled only if, every deadline can be met or some backlog ends late within the run, both decided by the input |
| EdfVerdict.VerdictOnDrained | Group6_Project2/edf.c:131-134 | with all deadlines inside the run: right on inputs that drain, the others are infeasible, and an input called feasible is so exactly if it drains |
| EdfVerdict.DrainedIsSettled | Group6_Project2/edf.c:29-125 | on an input that drains ties are settled |
| EdfVerdict.TiesMatter | Group6_Project2/edf.c:91-100 | where they are not, EDF itself does not decide whether a miss is counted: two EDF timelines of one input differ in it |
| Lcm.Gcdi | Group6_Project2/rms.c:5-12 | the loop computes the greatest common divisor of any two numbers not both zero |
| Lcm.Bezout | Group6_Project2/rms.c:5-12 | the result is a combination of the arguments |
| Lcm.GcdDivides | Group6_Project2/rms.c:5-12 | and divides both |
| Lcm.LcmMultiple | Group6_Project2/rms.c:14-21 | the quotient taken by lcm_cap is a common multiple |
| Lcm.LcmLeast | Group6_Project2/rms.c:14-21 | and the least one |
| Lcm.LcmCap | Group6_Project2/rms.c:14-21 | the capped least common multiple |
| Lcm.LcmAllIsLeast | Group6_Project2/rms.c:260-263 | the folded value is a common multiple of all periods and divides every other |
| Lcm.Hyperperiod | Group6_Project2/rms.c:260-266 | folding the capped function gives the capped lcm of all periods |
| Rms.Release | Group6_Project2/rms.c:276-283 | releases and counted misses of a tick |
| Rms.Choose | Group6_Project2/rms.c:286-293 | the ready task of the CPU with the shortest period, the lowest number among equals; -1 exactly if none is ready |
| Rms.RunCpus | Group6_Project2/rms.c:285-302 | every CPU runs its choice for one unit |
| Rms.RunRms | Group6_Project2/rms.c:260-303 | in every tick every CPU runs, of its tasks with open work (jobs released and not yet run, from the timeline alone), the one with the shortest period, the lowest number among equals, and idles only without open work; m[i] is the number of releases at which task i had work open, busy[c] the ticks CPU c was not idle |
| Rms.ByRate | Group6_Project2/rms.c:286-293 | the tasks with their rate-monotonic priorities |
| Rms.TaskConserved | Group6_Project2/rms.c:275-303 | task by task, what is left is what was released minus what the timeline shows |
| Rms.OpenIs | Group6_Project2/rms.c:276-283 | open work read off the timeline is what the simulation holds, and a late job is a counted miss |
| Rms.RateTickIs | Group6_Project2/rms.c:285-302 | each tick of the timeline is a rate-monotonic choice |
| Rms.LateCountIs | Group6_Project2/rms.c:276-281 | the misses counted are the late releases of the timeline |
| Rms.BusyOfIs | Group6_Project2/rms.c:295-301 | the busy time counted is that of the timeline |
| Rms.WorkConserved | Group6_Project2/rms.c:275-303 | work released on a CPU was run or is left |
| Rms.BusyIsDemand | Group6_Project2/rms.c:295-301 | with nothing left busy[c] is the sum of e*h/p over the tasks of the CPU |
| Rms.HyperperiodSuffices | Group6_Project2/rms.c:275-303 | no miss and nothing left over a common multiple of the periods: the timeline repeats for ever and no deadline is ever missed |
| Rms.SilentOverload | Group6_Project2/rms.c:275-307 | a run without a counted miss is no proof: one task with execution time 2 and period 1 |
| Rms.ScheduleExact | Group6_Project2/rms.c:275-303 | no deadline is ever missed if and only if the run counts none and leaves nothing |
| Rms.BusySince | Group6_Project2/rms.c:275-303 | what is left at t is the demand since the last idle tick minus one unit per tick |
| Rms.DemandDense | Group6_Project2/rms.c:276-283 | by time s at least the share s/h of the demand of h has been released |
| Rms.NothingLeftExactly | Group6_Project2/rms.c:275-303 | work is left after a common multiple of the periods if and only if some CPU has utilisation above one, whatever the priorities |
| Rms.FullRunDecides | Group6_Project2/rms.c:275-307 | over a common multiple of the periods: with utilisation at most one no miss before it means no miss ever, with more a deadline is missed at it at the latest |
| RmsCritical.LevelStep | Group6_Project2/rms.c:276-302 | in one tick a task and those that go before it on its CPU gain their jobs and lose a unit if served; if not served they have nothing left |
| RmsCritical.ClearSince | Group6_Project2/rms.c:275-303 | if the work released together at time 0 is caught up with by t0, then in every stretch of t0 ticks there is a time with nothing of the level left |
| RmsCritical.FitsNeverMisses | Group6_Project2/rms.c:275-303 | such a task never misses a deadline |
| RmsCritical.StaysUnfinished | Group6_Project2/rms.c:275-303 | a task whose level never catches up within its first period is unfinished at its first deadline |
| RmsCritical.CriticalInstant | Group6_Project2/rms.c:275-303 | task i never misses a deadline if and only if for some t of its first period the sum of e*ceil(t/p) over i and the tasks before it is at most t; otherwise it misses the first one |
| RmsCritical.SchedulableExactly | Group6_Project2/rms.c:275-303 | no deadline is ever missed if and only if that holds of every task |
| RmsCritical.NoMissExactly | Group6_Project2/rms.c:275-303 | none is missed before h if and only if it holds of every task whose first deadline is before h |
| RmsCritical.MissesDecide | Group6_Project2/rms.c:260-307 | for a run of any length, capped or not, the miss count is right for all time exactly if every task whose first deadline the run does not reach fits, or some task whose first deadline it reaches does not |
| RmsCritical.RunProves | Group6_Project2/rms.c:260-307 | the same about the counters of the program: m[i] is zero exactly if task i fits or its first deadline was not reached; uncapped and without overload busy[c] is the sum of e*h/p |
| RmsCritical.FitsByRate | Group6_Project2/rms.c:286-293 | a task of a CPU whose tasks all fit under some fixed priorities fits under rate priorities |
| RmsCritical.RateMonotonicOptimal | Group6_Project2/rms.c:286-293 | rate-monotonic priorities are optimal: if under some fixed priorities no task of a CPU ever misses a deadline, none does under these |
| RmsCritical.CappedRunIsSilent | Group6_Project2/rms.c:260-307 | a capped run with utilisation below one that counts no miss though a deadline is missed |
| WorkSteal.ExactlyOnePlace | Group6_Project2/work_steal.c:62-145 | a process is in at most one queue slot or on at most one core, namely where its place says |
| WorkSteal.PushKeeps | Group6_Project2/work_steal.c:15-18 | an arrival keeps that |
| WorkSteal.TakeKeeps | Group6_Project2/work_steal.c:21-32 | so does taking from the front or stealing from the back |
| WorkSteal.FinishKeeps | Group6_Project2/work_steal.c:129-137 | so does finishing |
| WorkSteal.TickConserves | Group6_Project2/work_steal.c:79-142 | a tick with an idle core and empty queues runs every ready process |
| WorkStealSim.Simulator.PushBack | Group6_Project2/work_steal.c:15-18 | the entry goes to rear, size and rear grow |
| WorkStealSim.Simulator.PopFront | Group6_Project2/work_steal.c:21-25 | the entry at front, or -1 from an empty queue |
| WorkStealSim.Simulator.PopBack | Group6_Project2/work_steal.c:28-32 | the entry before rear, or -1 |
| WorkSteal.ShortestOf | Group6_Project2/work_steal.c:67-72 | the first of the shortest queues |
| WorkSteal.LongestOf | Group6_Project2/work_steal.c:87-96 | the first of the longest nonempty queues of other cores, -1 if they are all empty |
| WorkStealSim.TallyRoom | Group6_Project2/work_steal.c:15-18 | every process is pushed at most once, so rear stays within the 100 slots |
| WorkStealSim.Simulator.constructor | Group6_Project2/work_steal.c:34-60 | empty queues, idle cores, nothing arrived |
| WorkStealSim.Simulator.Shortest | Group6_Project2/work_steal.c:67-72 | the scan finds the first shortest queue |
| WorkStealSim.Simulator.Longest | Group6_Project2/work_steal.c:87-96 | the scan finds the queue to steal from |
| WorkStealSim.Simulator.ArriveOne | Group6_Project2/work_steal.c:66-75 | the process is at the back of the first queue that no other is shorter than, and nothing else moved |
| WorkStealSim.Simulator.Arrive | Group6_Project2/work_steal.c:64-76 | everything due has arrived, each on the queue that was shortest then |
| WorkStealSim.Simulator.AssignCore | Group6_Project2/work_steal.c:79-108 | an idle core takes the front of its own queue, else the back of the first longest other one; it stays idle only if all are empty |
| WorkStealSim.Simulator.Assign | Group6_Project2/work_steal.c:78-109 | the idle cores fetch in order; afterwards no core is idle while any queue is nonempty |
| WorkStealSim.Simulator.ExecuteCore | Group6_Project2/work_steal.c:112-141 | one unit of one core: the timeline entry, the remaining time, and on completion the metrics and the free core |
| WorkStealSim.Simulator.Execute | Group6_Project2/work_steal.c:111-142 | one unit on every busy core, the row of the timeline, and the records of what finished |
| WorkStealSim.RecordedNow | Group6_Project2/work_steal.c:130-136 | the metrics written on completion are those of the timeline |
| WorkStealSim.Simulator.Tick | Group6_Project2/work_steal.c:62-145 | the row appended is what dispatching and fetching put on the cores, and everything is kept |
| WorkStealSim.Simulator.Run | Group6_Project2/work_steal.c:62-145 | the loop keeps everything and ends when all are completed or the timeline is full |
| WorkStealSim.RunWorkSteal | Group6_Project2/work_steal.c:34-150 | every tick conserves work; a completed process ran exactly burst ticks, none before its arrival, and waiting_time is the number of ticks it was present but not running |

## Left out

- UART, PLIC, virtio, trampoline and switch assembly, start-up code: a disk block read or write and a context switch are single steps here.
- Console and printf output, metrics and Gantt printing.
- root2n, rms_bound and the Liu-Layland verdict of rms.c, and the choice of a CPU for each task by floating-point utilisation: the assignment is an input of the RMS model, so its theorems hold for every assignment.
- fcfs.c, lottery.c and mlfq.c: the same tick engine with easier selection rules.
- pipe.c and spinlock.c: a spinlock is an owner field.
- The mailbox and alarm system calls, and the alarm trapframe that freeproc would free.
- Directories, path lookup, exec, mkfs, and the byte layout of the on-disk inode: iupdate copies the inode as a value and logs its block.
- User-pointer copying: readi, writei and filewrite work on kernel buffers, so a failing copy is not modelled.
- Trapframe contents and user registers in clone and fork.
- Concurrency between file-system calls on different inodes: the inode layer is modelled one call at a time, as the locks and the log order them.
- Page tables are modelled one kernel call at a time; the lock of the page allocator is not modelled.
- vmfault, uvmclear, copyin and copyout of vm.c, and the kernel's own page table.
- Overflow of nextpid and of the reference counts.
- FileSystem.Files.WriteChunk: the bound on logged blocks is for a free map of one block, as the default image has.
- BufferCache.Cache.Brelse: requires that the holder has logged or written what it changed, which is the order the interface asks for.
- BufferCache.Cache.Bget: device 0 is excluded, because unused buffers carry the key (0, 0).
- ProcMemory.Clone: every page below sz is present, since uvmmirror panics at a page that is not; that lazily allocated memory can make it panic is not modelled further.
- Heap.Allocator.Malloc: the request reaches sbrk as computed; Heap.SbrkRequestExact says for which sizes it does.
- EdfRun.RunEdf: deadlines lie between 0 and 999998, as those main.c generates do, because the two scans start from -1 and 999999; at most 100 processes with distinct positive pids.
- ProcMemory.Fork: the pages below sz that are mapped are readable pages; Tenants.Kernel.Fork shows that they always are.
- ProcMemory.FreeProc: says nothing of threads that share the memory; Tenants.Kernel.Reap does.
- ProcMemory.CloneThenReap: nothing happens between clone and reaping; Tenants.Kernel gives what holds over any sequence of calls.
- ProcMemory.ForkThenReap: the same.
- BufferCache.Cache.Bread: the uncontended call; Bget, Acquire and Fill are its parts when others hold the buffer.
- Tenants.Kernel.Clone: no hole below the size, since uvmmirror panics at one.
- BufferCache.Cache.LogWrite: whether the block is listed is a parameter; LoggedCache.Journal.LogWrite decides it from the log's list.
- LoggedCache.Journal.Commit: no one else holds a block of the log, or the lock of a listed block, while commit runs; recovery at start-up is modelled in LogDevice only.
- EdfVerdict.MissesExactly: where processes with equal deadlines are not all done within the run, which of them finishes is decided by the order of the scan, which the specification of the timeline leaves open (EdfVerdict.TiesMatter).
- Rms.RunRms: keeps the timeline tick by tick instead of in one flat array.
- WorkStealSim.RunWorkSteal: at most 100 processes, the size of the arrays; pids are positive, as the program numbers them, since 0 marks an idle core in the timeline.
