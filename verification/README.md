# A verified model of a small Unix kernel

This project models the parts of the kernel whose invariants span many functions and whole
runs, and proves them with Dafny: the scheduler with its wait queues and process lifecycle,
path resolution and open files, paging and the copy of address spaces, 64-bit division,
the two calendar conversions, the shell's tables and parsing, and the terminals over the
text console.  `dafny verify dfyconfig.toml` checks everything.

## How it is built

**The machine and the objects.**  `kernel_state.dfy` is the scheduler as a step machine: a
step runs from one return of `sched_schedule` to the next switch, or is a key press between
two steps, and the kernel stack of a suspended task is its continuation.
`kernel_invariant.dfy` and `kernel_runs.dfy` prove that every step keeps one invariant, and
so every state of every run has it; `round_robin.dfy` and `reaping.dfy` prove bounded
waiting and exactly-once reaping over whole runs, `terminal_reads.dfy` that every accepted key
is read exactly once, and `call_results.dfy` says, outcome by outcome and in numbers, what the
calls return and do.  `sched_objects.dfy`, `task_table.dfy`,
`tty.dfy`, `open_files.dfy` and `scheduler.dfy` are the same kernel as objects with links
that change in place (`kernel_stages.dfy` has the states in the middle of their steps); a ghost field holds the machine state that the objects represent, and
`Scheduler.Perform` is the refinement.  `boot.dfy` builds the objects from nothing.

**Buffers and their meaning.**  Where the source rewrites a buffer in place, one file says
what the text means (`paths.dfy`, the specification functions of the shell and the console),
laws about whole texts pin that meaning down (which names of a path survive, what stands on
the screen, what a template expands to), and methods with the source's loops are proved
against it (`path_buffers.dfy`,
`path_resolution.dfy`, `mounts.dfy`, `shell_variables.dfy`, `shell_parsing.dfy`,
`console.dfy`, `terminals.dfy`, `decimals.dfy`).

**Machine words.**  Integers are unbounded in Dafny, so wrap-around is written out: the ring
counters are taken modulo 2^32 (`rings.dfy`), the shifts of the division routines modulo
2^64 (`arith64.dfy`), the seconds of the clock modulo 2^32 (`calendar.dfy`).

**Memory.**  Directories and tables are objects and physical memory is an array of bytes
(`paging.dfy`, `address_spaces.dfy`, `address_copy.dfy`).  A page of the paging pool that
becomes a table is a new object.

## What the proofs found

- `sched_kill` puts a sleeper on the run queue without taking it out of its wait queue.  The
  invariant survives a kill if and only if the target does not sleep
  (`KernelRuns.KillOk`), and a run of two steps leads to such a kill
  (`KernelRuns.KillReachesSleeper`); the runs considered have no kills of sleepers.  On the
  linked objects the kill of a sleeper that is queued already leaves a run queue whose links
  are those of no queue (`SchedObjects.RunQueue.Push`).
- Normalisation loses the last usable character of its buffer.  The result is right if and
  only if it leaves two characters free (`PathBuffers.NormalizedIsNorm`), and a cut can leave
  a trailing slash (`PathBuffers.TrailingSlash`) or even a name of dots
  (`PathResolution.NameOfDots`), so that a chdir
  keeps the current directory normal exactly when its path is cut cleanly
  (`PathResolution.ChdirKeepsNormal`).
- The shift that prepends a slash to a relative path keeps a terminator in the buffer if and
  only if the path leaves room for one more character (`PathBuffers.ShiftKeepsString`, with
  the input of `PathBuffers.LostTerminator`): the source clamps the length, but moves the
  terminator out.  No caller gets there: `vfs_mount` is given absolute literals, and
  `vfs_resolve_path` builds absolute text (`PathResolution.CombinedIsAbsolute`).
- The paging pool has 128 pages, the copy window and 64 processes need 129, and the last slot
  is left without a mapping although its region is recorded
  (`AddressSpaces.Memory.InitSlots`); a fork that involves it panics
  (`AddressCopy.CopyImage`).
- A variable name of more than 63 characters is looked up whole but stored cut, so that
  setting it twice gives two entries (`ShellVariables.SetTwice`, and
  `ShellVariables.SetKeepsDistinct` for the exact condition); all callers in the shell cut
  names first.
- The signed division is right for all operands but the least int64 divided by -1, whose
  quotient is no int64 (`Arith64.SignedDivMod`).
- A console character with its top bit set is sign-extended over its attribute
  (`Consoles.Cell` keeps that).
- The test for an interrupted wait after `wait_event` in `sched_waitpid` is kept in the model
  (`KernelState.AfterWait`), although a wait that returns always has its condition.

## Model

| member | source | states |
|---|---|---|
| KernelRuns.StepOk | kernel/core/syscall.c:16-149 | every step a task or the keyboard can take (no sleeper killed), the three opens of every trampoline among them, keeps the whole invariant: queues, places, children, table, files, no lost wakeup |
| KernelRuns.StepOkExactly | kernel/core/syscall.c:16-149 | of all steps that a good state offers, exactly the kills of sleepers break the invariant |
| KernelRuns.BootOk | kernel/core/kernel.c:50-82 | the state after the first sched_schedule satisfies the invariant |
| KernelRuns.RunInv | kernel/core/sched.c:543-598 | every state of every run from boot satisfies the invariant |
| KernelRuns.ExactlyOnePlace | kernel/core/sched.c:24-55 | in every reachable state a live task other than the swapper is in exactly one place (processor, run queue, one wait queue, dead), once, and the swapper is never queued |
| KernelRuns.SleeperIsWoken | kernel/core/wait.c:93-160 | no lost wakeup: in every reachable state a sleeper whose condition holds is on the run queue |
| KernelRuns.PidsNameTasks | kernel/core/task_table.c:8-66 | in every reachable state the pid of a live task is a non-negative int, no other task has it, and looking it up gives exactly that task |
| KernelRuns.FindIsComplete | kernel/core/task_table.c:49-66 | in every reachable state a number is not found exactly when no live task has it as its pid |
| KernelRuns.KillOk | kernel/core/sched.c:516-536 | sched_kill keeps the invariant if and only if its target is not in interruptible sleep |
| KernelRuns.KillReachesSleeper | kernel/core/sched.c:516-536 | a run of two steps (init forks, init waits) leads to a state where a kill is possible that hits a sleeper and breaks the invariant |
| KernelRuns.ForkOk | kernel/core/sched.c:352-420 | sched_fork keeps the invariant, with and without a free slot |
| KernelRuns.ExecOk | kernel/core/syscall.c:67-81 | execve keeps the invariant in its three outcomes |
| KernelRuns.WaitPidOk | kernel/core/sched.c:665-764 | sched_waitpid keeps the invariant for all arguments: errors, WNOHANG, immediate reaping, sleeping |
| KernelRuns.ResumeWaitOk | kernel/core/wait.c:141-159 | coming back from the sleep of wait_event keeps the invariant: dying of a signal, sleeping again, or going on |
| KernelRuns.LeftOk | kernel/core/wait.c:57-91 | whoever runs again in wait_event has its stack entry in no queue, so that the removal changes nothing and the wait still makes sense |
| KernelRuns.KeyPressOk | kernel/core/tty.c:198-217 | a key press keeps the invariant, full ring and wakeup of readers included |
| KernelRuns.ReapEffect | kernel/core/sched.c:745-764 | reaping removes just that child, keeps the order of its siblings, returns its slot to the end of the ring and gives the caller its pid |
| KernelRuns.PooledQueuesEmpty | kernel/core/sched.c:212-217 | nobody waits in the queues of a free slot, so that signal_init of a reused slot loses no sleeper |
| CallResults.YieldingCall | kernel/core/syscall.c:34-73 | yield, read, open, close and chdir first let the head of the run queue run, the caller going to its end; with an empty queue the caller goes on |
| CallResults.ReadYieldsAgain | fs/vfs.c:546-548 | a read lets the others run a second time before it looks at the terminal |
| CallResults.CallsThatDoNothing | kernel/core/syscall.c:101-108 | a yield and a nice return 0 and change nothing else |
| CallResults.ForkRefused | kernel/core/sched.c:352-420 | fork without a free slot returns -12 and changes nothing |
| CallResults.ForkGivesChild | kernel/core/sched.c:352-420 | fork returns the pid of a new child, found under that pid alone, whose own result is 0, which has no signal, child or file, and which is last in the run queue and first among its parent's children |
| CallResults.ExitCall | kernel/core/sched.c:75-105 | exit leaves a zombie with that status and no open file, queues first those who wait for its exit and then a parent that waits for any child, and the head of the queue runs |
| CallResults.ExecOfNothing | kernel/core/syscall.c:67-81 | execve of a missing file returns -2 and changes nothing |
| CallResults.ExecOfGarbage | kernel/core/syscall.c:67-81 | execve of a file that does not load ends the task with status -1 |
| CallResults.ExecOfProgram | kernel/core/syscall.c:67-81 | execve of a program clears the pending signals, keeps pid, kin and files, and puts the task last in the run queue |
| CallResults.WaitPidRefused | kernel/core/sched.c:670-673 | waitpid with other options than WNOHANG, or pid 0 or below -1, returns -22 and changes nothing |
| CallResults.WaitPidNoChild | kernel/core/sched.c:675-718 | waitpid without a child of that pid, or for any child without a child, returns -10 and changes nothing |
| CallResults.WaitPidLooks | kernel/core/sched.c:688-723 | with WNOHANG, while no child asked for is dead, waitpid returns 0 and changes nothing |
| CallResults.WaitPidSleeps | kernel/core/sched.c:695-727 | without WNOHANG the caller then sleeps, last in the queue of that child or of its own children, and the next task runs |
| CallResults.WaitPidCollects | kernel/core/sched.c:675-764 | the first dead child of those asked for is collected at once, whatever the options: its status is written, its pid returned, its slot last among the free ones, and nothing else changes |
| CallResults.WokenCollects | kernel/core/wait.c:152-159 | a waiting parent that wakes without a signal collects the child it waits for, or the first dead one |
| CallResults.WokenSleepsAgain | kernel/core/wait.c:141-151 | a waiter that wakes without its condition sleeps again, last in its queue |
| CallResults.SignalEndsSleep | kernel/core/wait.c:155-158 | a waiter that wakes with a pending signal ends with status -1 |
| CallResults.KillRefused | kernel/core/sched.c:516-536 | kill with a signal outside of 1 to 32 or a pid of no live task returns -1 and changes nothing |
| CallResults.KillDelivers | kernel/core/sched.c:516-536 | any other kill returns 0, makes the signal pending and queues its target if that sleeps, and changes nothing else |
| CallResults.OpenCall | fs/vfs.c:440-499 | open returns the lowest free descriptor, naming the oldest free file, exactly if the file is granted and a descriptor free; otherwise -1, with the same files free and all descriptors kept |
| CallResults.CloseCall | fs/vfs.c:501-522 | close of an open descriptor frees its file and returns 0; any other returns -1 and changes nothing |
| CallResults.ChdirCall | fs/vfs.c:610-652 | chdir keeps every descriptor and the set of free files, and returns 0 exactly when the directory opens and lists |
| CallResults.KeyTyped | kernel/core/tty.c:198-217 | a key that finds room goes behind the input of the active terminal and queues its readers in order; any other changes nothing |
| KernelState.FirstZombie | kernel/core/sched.c:647-657 | the search for a zombie gives the first one of the list |
| KernelState.FirstPid | kernel/core/sched.c:635-645 | the search for a pid gives the first task of the list that has it |
| TerminalReads.ReadReturns | kernel/core/tty.c:118-136 | a read with bytes waiting returns their number n and hands them over, the oldest first: 0 < n <= count, n < count only when none is left, and nothing else changes |
| TerminalReads.ReadWaits | kernel/core/tty.c:106-118 | a read of an empty ring hands over nothing and sleeps behind the other readers |
| TerminalReads.ReadOfNothing | fs/vfs.c:550-553 | a read of no bytes returns 0 and takes nothing |
| TerminalReads.BytesAreRead | kernel/core/tty.c:118-136 | bytes come out only of a step in which a read of that terminal goes on |
| TerminalReads.StepConserves | kernel/core/tty.c:106-217 | in every step and for every terminal, what is handed over followed by what waits is what waited followed by an accepted key |
| TerminalReads.EveryKeyIsReadOnce | kernel/core/tty.c:106-217 | over every run from boot, what the reads of a terminal have handed over, followed by what waits, is exactly the sequence of accepted keys |
| KernelInvariant.ScheduleOk | kernel/core/sched.c:543-598 | sched_schedule keeps the invariant; with an empty run queue it changes nothing, otherwise it parks the current task and takes the head |
| KernelInvariant.WakeupMoves | kernel/core/wait.c:93-125 | wakeup moves the whole wait queue, in order, to the end of the run queue |
| KernelInvariant.DozeOk | kernel/core/wait.c:141-151 | going to sleep when the condition fails loses no wakeup and keeps the invariant |
| KernelInvariant.ExitOk | kernel/core/sched.c:75-105 | sched_exit keeps the invariant: files closed, both queues woken, nobody left waiting for the dead |
| RoundRobin.StepServes | kernel/core/sched.c:24-55 | no step overtakes: the run queue is served in order whatever forks, wakes, exits and execs interleave |
| RoundRobin.ServedAfterKTurns | kernel/core/sched.c:543-598 | bounded waiting: the task at index k of the run queue moves up by one at each sched_schedule and is made current by exactly the (k+1)-th one, whatever the steps between are |
| RoundRobin.WokenSleeperRuns | kernel/core/wait.c:93-160 | no woken sleeper starves: in every run a sleeper whose condition holds stands on the run queue and becomes current at exactly the call of sched_schedule that its index says, one of the next 63 |
| Reaping.StepEvent | kernel/core/sched.c:75-105 | each step forks, buries or reaps at most one process, and says so in the trace |
| Reaping.ReapedExactlyOnce | kernel/core/sched.c:665-764 | over whole runs each child is reaped at most once, by its parent only, after it exited, with the status it exited with |
| Reaping.RunTold | kernel/core/sched.c:352-420 | in every reachable state the trace tells each life in order (forked, exited, reaped), and what it tells agrees with the task table and the children lists |
| Reaping.WaitPidHandsOver | kernel/core/sched.c:743-746 | what sched_waitpid writes through its status pointer is the status in the event of that step, and it writes nothing in a step without one |
| Reaping.ResumeHandsOver | kernel/core/sched.c:743-746 | the same for a sched_waitpid that goes on after its sleep |
| Reaping.StepHandsOver | kernel/core/sched.c:743-746 | in every step of any kind the status written is that of the child collected, and no other step writes one |
| SchedObjects.RunQueue.Push | kernel/core/sched.c:24-37 | appends a task to the linked queue and keeps first, last, len and next well formed; a task that is queued already leaves links that are those of no queue at all |
| SchedObjects.RunQueue.Poll | kernel/core/sched.c:39-55 | takes the first task, or null from an empty queue, and keeps the links well formed |
| SchedObjects.WaitQueue.Add | kernel/core/wait.c:28-55 | appends the entry to the doubly linked queue, or does nothing when it is linked already |
| SchedObjects.WaitEntry.Remove | kernel/core/wait.c:57-91 | unlinks the entry wherever it is in its queue and keeps the rest in order |
| SchedObjects.WakeAll | kernel/core/wait.c:93-125 | empties the queue and appends its sleepers in order to the run queue |
| Schedulers.Scheduler.Schedule | kernel/core/sched.c:543-598 | the linked objects after sched_schedule represent the state after the step function |
| Schedulers.Scheduler.Wake | kernel/core/wait.c:93-125 | the objects after wakeup represent the state after the wakeup step |
| Schedulers.Scheduler.WaitEvent | kernel/core/wait.c:127-160 | the objects after wait_event, up to its switch, represent the state after the wait step, and hand over its status or its bytes |
| Schedulers.Scheduler.ResumeWait | kernel/core/wait.c:141-159 | the same for the part of wait_event after its switch, with the status or the bytes that the resumed call hands over |
| Schedulers.Scheduler.FindZombieChild | kernel/core/sched.c:647-657 | the walk over the sibling links finds the first zombie among the children |
| Schedulers.Scheduler.FindChildByPid | kernel/core/sched.c:635-645 | the walk over the sibling links finds the first child with the pid |
| Schedulers.Scheduler.Unlink | kernel/core/sched.c:749-760 | the pointer walk cuts exactly that child out of the list and touches no other list |
| Schedulers.Scheduler.ReapChild | kernel/core/sched.c:742-764 | handing over the exit status, unlinking and freeing the zombie is the reap step |
| Schedulers.Scheduler.WaitPid | kernel/core/sched.c:665-764 | the objects after sched_waitpid represent the state after the waitpid step, and the status written is that of the reaped child |
| Schedulers.Scheduler.Fork | kernel/core/sched.c:352-420 | the objects after sched_fork represent the state after the fork step |
| Schedulers.Scheduler.Exit | kernel/core/sched.c:75-105 | the objects after sched_exit represent the state after the exit step |
| Schedulers.Scheduler.Exec | kernel/core/syscall.c:67-81 | the objects after execve represent the state after the execve step |
| Schedulers.Scheduler.Kill | kernel/core/sched.c:516-536 | the objects after sched_kill represent the state after the kill step, unless the target is a sleeper that is queued already: then the run queue's links are those of no queue |
| Schedulers.Scheduler.KeyPress | kernel/core/tty.c:198-217 | the objects after a key press represent the state after the key step |
| Schedulers.Scheduler.Perform | kernel/core/syscall.c:16-149 | refinement: whatever step is performed on the objects (but the kill of a queued sleeper), they represent the state after that step of the machine, what is written for the task (a status, or the bytes of a terminal) is what the machine says, and the invariant holds afterwards exactly when no sleeper was killed |
| Schedulers.Scheduler.Boot | kernel/core/sched.c:610-627 | sched_init, the load of init and the first sched_schedule bring zeroed storage to the boot state of the machine |
| Booting.PowerOn | kernel/core/kernel.c:50-82 | objects that represent the boot state exist, and it satisfies the invariant |
| TaskTables.TaskTable.constructor | kernel/core/task_table.c:15-21 | the ring of free slots starts with all 64 slots in order |
| TaskTables.TaskTable.Find | kernel/core/task_table.c:49-66 | returns the one task that has the pid, and null exactly when there is none; every pid names its slot (PidsInPlace, which Alloc and Free keep) |
| TaskTables.TaskTable.Alloc | kernel/core/task_table.c:68-87 | takes the oldest free slot and gives it the pid of its next generation, across the wrap of the 32-bit counters |
| TaskTables.TaskTable.Free | kernel/core/task_table.c:89-118 | puts the slot at the end of the ring and empties it |
| TaskTables.PidInRange | kernel/core/task_table.c:8-12 | every pid is a non-negative int that names its slot |
| TaskTables.PidReuse | kernel/core/task_table.c:76-84 | two allocations have the same pid if and only if they are of one slot and a multiple of 2^25 allocations apart |
| OpenFileTable.OpenKeepsPartition | fs/vfs.c:440-499 | an open, with every way it can fail, keeps the free ring and the descriptors a partition of the 1024 files |
| OpenFileTable.CloseKeepsPartition | fs/vfs.c:501-522 | a close keeps the partition |
| OpenFileTable.CloseFromKeepsPartition | kernel/core/sched.c:83-91 | closing all descriptors of a task keeps the partition and leaves the task none |
| OpenFileTable.EmptyRingMeansAllDescriptorsUsed | fs/vfs.c:322-336 | pigeonhole: the ring of free files is empty only when all 16 descriptors of all 64 tasks are in use |
| OpenFileTable.OpenFailsOnlyOnOwnLimit | fs/vfs.c:440-499 | an open that finds its file system fails for want of a file only if the caller has no free descriptor of its own |
| OpenFileTable.OpenOutcomes | fs/vfs.c:440-499 | an open gives a descriptor if and only if the file system grants the file and the caller has a descriptor free: the lowest, for the oldest free file; else -1, the same files stay free, and no descriptor changes |
| OpenFileTable.CloseOutcomes | fs/vfs.c:501-522 | a close of an open descriptor frees just its file, as the last, and gives 0; else -1 and nothing changes |
| OpenFiles.Vfs.AllocFile | fs/vfs.c:322-336 | takes the oldest free file out of the ring, across counter wrap |
| OpenFiles.Vfs.FreeFile | fs/vfs.c:338-352 | puts the file at the end of the ring |
| OpenFiles.Vfs.AllocFd | fs/files.c:22-40 | puts the file in the lowest empty descriptor |
| OpenFiles.Vfs.FreeFd | fs/files.c:42-57 | empties the descriptor and returns its file |
| OpenFiles.Vfs.Open | fs/vfs.c:440-499 | the in-place open is the open of the value model, failures included |
| OpenFiles.Vfs.Close | fs/vfs.c:501-522 | the in-place close is the close of the value model |
| OpenFiles.Vfs.CloseAll | kernel/core/sched.c:83-91 | the loop of sched_exit closes all descriptors |
| Paths.NormIsNormal | fs/vfs.c:56-64 | the reduction of names always gives a normal form: absolute, plain names only |
| Paths.NormTwice | fs/vfs.c:56-64 | normalising twice is normalising once |
| Paths.NormLength | fs/vfs.c:56-64 | the normal form is no longer than the absolute path |
| Paths.NormKeepsSurvivors | fs/vfs.c:123-166 | name i of a path is in its normal form if and only if it is no dots and behind it no stretch of names holds more steps up than names; the names kept stay in order |
| Paths.NormUp | fs/vfs.c:142-159 | a plain name leads one name down, and ".." behind it leads back: Norm(p/w/..) is Norm(p) |
| Paths.NormDots | fs/vfs.c:129-150 | "." and further slashes change nothing, ".." drops the last name, and at the root nothing |
| Paths.NormalShape | fs/vfs.c:56-64 | a normal form has a leading slash, no double slash, no trailing slash but the root's, and is determined by its names |
| Paths.NormalFormsAreNames | fs/vfs.c:56-64 | normal forms and lists of plain names correspond one to one |
| Paths.WordsConcat | fs/vfs.c:123-166 | a slash separates the names on its two sides |
| Paths.ResolveFromNormalForm | fs/vfs.c:381-388 | resolution depends on the current directory only through its normal form, and for an absolute path not at all |
| Paths.ResolveComposes | fs/vfs.c:359-438 | resolving p and then a relative q from there is resolving p/q |
| Paths.ResolveSteps | fs/vfs.c:359-438 | "." stays, ".." leads to the directory above, and a name to what it names in the current directory |
| PathBuffers.Normalize | fs/vfs.c:65-207 | the in-place compaction leaves exactly the limited stack reduction of the names, cut to the buffer as the code cuts it, for every path; only a relative path that fills the buffer ends without a terminator, where k_strlen reads on behind it |
| PathBuffers.PrependSlash | fs/vfs.c:82-101 | the shift with its clamped length gives exactly the shifted buffer |
| PathBuffers.ShiftKeepsString | fs/vfs.c:82-101 | after the shift the buffer holds a string if and only if the path left room for one more character |
| PathBuffers.LostTerminator | fs/vfs.c:82-101 | a three-character relative path in a four-character buffer loses its terminator |
| PathBuffers.NormalizeShort | fs/vfs.c:65-207 | an absolute path two shorter than the buffer that never has 64 live names becomes its normal form, no longer than before, whose names are exactly those of the path that survive, in order |
| PathBuffers.NormalizedIsNorm | fs/vfs.c:179-187 | the buffer ends up with the normal form if and only if it leaves two characters free, or is the root |
| PathBuffers.NormalizedIsPrefix | fs/vfs.c:175-207 | whatever is cut, the result is a prefix of the normal form, with at most a slash added |
| PathBuffers.ShortPathFits | fs/vfs.c:115-121 | no path of up to 127 characters fills the 64-segment stack |
| PathBuffers.NormalizedKeepsSurvivors | fs/vfs.c:65-207 | of a path of up to 127 characters whose normal form leaves two characters free, the buffer ends up with exactly the surviving names, in order |
| PathBuffers.DeepPath | fs/vfs.c:153-158 | of more than 64 plain names the first 64 are kept |
| PathBuffers.TruncatedPath | fs/vfs.c:179-187 | a 63-character path loses its last character in a 64-byte buffer |
| PathBuffers.TrailingSlash | fs/vfs.c:179-201 | a path whose cut leaves a trailing slash, so that the result is no normal form |
| PathBuffers.Scan | fs/vfs.c:115-167 | the segments found are the reduced names, in increasing places |
| PathBuffers.Rebuild | fs/vfs.c:169-207 | the rebuilt text never overtakes an unread segment, and is the cut of the joined names |
| PathBuffers.CopyDown | kernel/core/kutils.c:5-16 | the forward copy towards the front moves the bytes even when the ranges overlap |
| PathResolution.ResolvePath | fs/vfs.c:359-438 | for every current directory and buffer: the buffer ends up with the normalisation of the first characters of the combined path, unless that is a relative text that fills the buffer (or the buffer has one character and no terminator fits) |
| PathResolution.ResolvedIsResolve | fs/vfs.c:359-438 | without truncation on the way in, the result is the resolution if and only if it leaves two characters free, or is the root |
| PathResolution.CutIsNormal | fs/vfs.c:179-201 | a cut result is a normal form if and only if nothing is cut, or the cut falls inside the last name and leaves a name |
| PathResolution.NameOfDots | fs/vfs.c:179-187 | a path that is cut to a name of dots, so that the result is no normal form |
| PathResolution.ChangeDirectory | fs/vfs.c:610-652 | the current directory becomes the resolved path when the directory could be opened and listed, and stays otherwise |
| PathResolution.ChdirKeepsNormal | fs/vfs.c:610-652 | a chdir keeps the current directory a normal form if and only if it fails or its path is cut cleanly |
| PathResolution.CwdStaysNormal | fs/vfs.c:610-652 | over any run of chdir calls that truncates nothing the current directory stays in normal form |
| PathResolution.CwdIsOneResolution | fs/vfs.c:610-652 | a run of relative chdir calls is one resolution of the joined path |
| Mounts.MountTable.AddMount | fs/vfs.c:212-238 | the normalised path goes into the first inactive slot; a full table is refused; all mount paths stay in normal form if and only if the new one is cut cleanly |
| Mounts.MountPathIsNormal | fs/vfs.c:219-223 | a mount path is stored in normal form if and only if it is cut cleanly |
| Mounts.MountTable.PathToFs | fs/vfs.c:283-320 | the mount chosen matches the path and no matching mount has a longer path, nor an equally long earlier one; none exactly for a relative path or when none matches |
| Mounts.MatchesNames | fs/vfs.c:305-311 | on normal forms the character test is: the mount's names are a prefix of the path's names |
| Mounts.ChoiceIsLongestPrefix | fs/vfs.c:283-320 | the mount chosen is the one whose name list is the longest prefix of the path's names |
| Mounts.ChoiceExists | fs/vfs.c:283-320 | there is a choice exactly when some mount matches |
| Mounts.OrderDoesNotMatter | fs/vfs.c:283-320 | for distinct mount paths the choice, or that there is none, does not depend on the order of mounting |
| Paging.VaToPa | arch/x86/mm.c:598-630 | the two-level walk gives the frame of the page and the offset of the byte, or fails |
| Paging.MapPage | arch/x86/mm.c:318-353 | maps one page and no other, taking at most one page of the pool, and fails exactly when a table is missing and the pool is empty |
| Paging.Map | arch/x86/mm.c:316-360 | the whole range is mapped if and only if the pool has the missing tables, and then every byte of the range, and no other, is translated anew, with user access exactly below the kernel |
| Paging.Unmap | arch/x86/mm.c:362-382 | exactly the bytes of the range lose their translation |
| AddressSpaces.Memory.Init | arch/x86/mm.c:404-448 | the kernel directory gets the VGA page and the copy window, at the cost of one page of the pool |
| AddressSpaces.Memory.ForkKernel | arch/x86/mm.c:455-520 | the new directory has the kernel's present entries and nothing else, and the kernel's regions; fails exactly when a pool is exhausted |
| AddressSpaces.Memory.AddVma | arch/x86/mm.c:522-543 | records the region even when its pages cannot all be mapped, and maps as many as the pool allows |
| AddressSpaces.FindVma | arch/x86/mm.c:545-555 | finds the latest region of the kind |
| AddressSpaces.Memory.InitSlots | kernel/core/task_table.c:15-46 | 63 of the 64 slots have their own megabyte of physical memory mapped at 4 MB with user access; the last slot has nothing mapped; all share the kernel's entries |
| AddressSpaces.Memory.SetUp | arch/x86/mm.c:404-448 | mm_init and task_table_init together, from the boot code's directory |
| AddressSpaces.Memory.KernelTranslation | arch/x86/mm.c:500-508 | every address outside the 1 MB user region, in its directory entry too, is translated alike in the kernel's directory and in all slots |
| AddressSpaces.UserMemoryDisjoint | kernel/core/task_table.c:20-46 | user addresses of different mapped slots lie at different physical places |
| AddressCopy.CopyVma | arch/x86/mm.c:632-709 | goes through if and only if window, lengths and mappings are in order; then it is one copy of the bytes, whatever the page offsets, changes no other memory, and leaves the window closed |
| AddressCopy.CopyNext | arch/x86/mm.c:660-706 | a chunk never leaves its page on either side and extends the copy |
| AddressCopy.CopyThroughWindow | arch/x86/mm.c:694-696 | the copy through the two window pages moves the bytes of the physical pages |
| AddressCopy.CopyImage | kernel/core/sched.c:410-416 | after the copy of sched_fork the child's image equals the parent's and no other memory has changed; it panics exactly when one of the two is the slot without a mapping |
| Arith64.EstimateBounds | kernel/core/kutils.c:346-354 | no shift-and-add sum overflows, and the estimate is short of n/10 by less than two |
| Arith64.DivideBy10 | kernel/core/kutils.c:346-364 | quotient and remainder by ten are exact for every 64-bit number |
| Arith64.RoomToShift | kernel/core/kutils.c:661-662 | shifting the remainder loses no bit, even for divisors above 2^63 |
| Arith64.Divide | kernel/core/kutils.c:649-671 | the quotient is exact, and 0 for a zero divisor |
| Arith64.Modulo | kernel/core/kutils.c:674-694 | the remainder is exact, and 0 for a zero divisor |
| Arith64.DivMod | kernel/core/kutils.c:748-775 | the combined routine agrees with the two others |
| Arith64.DivModDoWhile | libs/libc.c:908-934 | the do-while twin in the C library agrees, too |
| Arith64.SignedDivMod | kernel/core/kutils.c:697-730 | the signed routines give a = q*b + r with |r| < |b| and r signed as a for all operands except the least int64 divided by -1, whose quotient is no int64, and two zeros for a zero divisor |
| Arith64.SignedDivModCombined | kernel/core/kutils.c:733-741 | the remainder computed from the quotient is the same, even when the quotient overflows |
| Arith64.TruncatedIsUnique | kernel/core/kutils.c:697-730 | the C11 pair is unique: magnitudes are those of the unsigned division, and the quotient is negative exactly for unlike signs |
| Decimals.NumeralValue | kernel/core/kutils.c:514-521 | the numeral of a number reads back as the number |
| Decimals.ValueNumeral | kernel/core/kutils.c:514-521 | canonical digits are the numeral of their value |
| Decimals.Digits | kernel/core/kutils.c:500-521 | the %llu loop produces the canonical numeral backwards, in at most 20 of its 24 characters |
| Decimals.PrintWord | kernel/core/kutils.c:497-551 | the conversion puts the padded numeral into the buffer, counting what does not fit |
| Decimals.FieldReadsBack | kernel/core/kutils.c:541-551 | a field has the width asked for or that of a wider numeral, with blanks or zeros in front, and the number printed into a buffer with room can be read back from there |
| Calendar.DaysBeforeYearClosed | bin/date.c:20-23 | the sum over years is the Gregorian count: a leap day every 4 years, not every 100, but every 400 |
| Calendar.SecondsOrder | bin/date.c:41-79 | counting seconds keeps the order of dates and is injective |
| Calendar.EpochToUtc | bin/date.c:41-79 | gives the one valid date whose second count is t, and its weekday |
| Calendar.TakeMonths | bin/date.c:67-74 | the month loop stops before month 12 |
| Calendar.CompareInstants | bin/date.c:41-79 | the conversion is strictly increasing |
| Calendar.BcdDecodes | arch/x86/clock.c:22-25 | the decoding inverts the encoding of two-digit numbers |
| Calendar.RtcSeconds | arch/x86/clock.c:101-131 | for every valid date from 2000 to 2099 the 32-bit arithmetic gives its second count |
| Calendar.ClockRoundTrip | arch/x86/clock.c:101-131 | the two independent conversions are inverse on every date from 2000 to 2099 |
| Calendar.KnownInstant | bin/date.c:41-79 | 12:34:56 on 29 February 2000 is second 951827696, a Tuesday |
| ShellVariables.SetRefinesMap | bin/sh.c:62-90 | set updates the ordered map: the name has the value, cut to 255 characters, no other name changes, a new name goes last, the table stays in order |
| ShellVariables.SetKeepsDistinct | bin/sh.c:62-90 | for any name at all, the names stay distinct if and only if the name is known, the table full, or its first 63 characters unknown |
| ShellVariables.SetTwice | bin/sh.c:62-90 | a name of 64 characters that is set twice gives two entries of one name |
| ShellVariables.UnsetRefinesMap | bin/sh.c:100-112 | unset removes exactly that name and keeps the order of the others |
| ShellVariables.ExportRefinesMap | bin/sh.c:114-121 | export marks exactly that name |
| ShellVariables.EnvironmentRoundTrip | bin/sh.c:515-549 | loading a built environment into an empty table gives exactly the exported variables, in order, with whole values |
| ShellVariables.LoadKeepsTable | bin/sh.c:515-549 | loading any environment of any strings keeps the table in order |
| ShellVariables.GetenvFindsExported | libs/libc.c:42-60 | getenv on a built environment returns exactly the values of the exported variables |
| ShellVariables.Shell.FindVariable | bin/sh.c:52-60 | finds the first variable of the name |
| ShellVariables.Shell.SetVariable | bin/sh.c:62-90 | the array after set_variable is the table after set |
| ShellVariables.Shell.GetVariable | bin/sh.c:92-98 | returns the value of the name, or nothing |
| ShellVariables.Shell.UnsetVariable | bin/sh.c:100-112 | shifting the later variables down is the removal of the name |
| ShellVariables.Shell.ExportVariable | bin/sh.c:114-121 | the array after export_variable is the table after export |
| ShellVariables.Shell.WriteEntry | bin/sh.c:137-154 | the bounded loops write the whole of NAME=VALUE |
| ShellVariables.Shell.BuildEnvironment | bin/sh.c:129-159 | the strings built are the entries of the exported variables, in order |
| ShellVariables.Shell.LoadEnvironment | bin/sh.c:515-549 | the table after load_environment is the load of the entries one by one |
| ShellVariables.GetenvLoop | libs/libc.c:42-60 | the loop returns what the first entry of the name holds |
| ShellParsing.QuotingRoundTrip | bin/sh.c:428-467 | arguments without quotes, empty ones and ones with spaces among them, come back from the line that quotes them |
| ShellParsing.CollectArg | bin/sh.c:447-463 | one argument, its quotes dropped, in its buffer, and the place behind it |
| ShellParsing.ParseArguments | bin/sh.c:428-467 | the buffers hold the first arguments of the line, at most max_args of them |
| ShellParsing.LineParses | bin/sh.c:428-467 | a line of arguments with quoted and bare parts and any number of spaces around comes out as their texts, in order, up to the maximal number |
| ShellParsing.UnclosedQuotes | bin/sh.c:447-463 | quotes that are not closed take in the rest of the line |
| ShellParsing.NextPiece | bin/sh.c:347-412 | one turn: the text that the front of the rest stands for, and where to go on |
| ShellParsing.ExpandVariables | bin/sh.c:339-420 | the argument becomes the first 127 characters of its unbounded expansion |
| ShellParsing.ExpansionIsMeaning | bin/sh.c:339-420 | for every template of literals, $?, $$, $!, lone dollars and names the expansion of the written form is the meaning part by part: last status, own pid, last background pid, "$", and the value of the variable or nothing |
| ShellParsing.NameCharacters | bin/sh.c:380-395 | names are ASCII letters, underscores and, behind the first character, digits |
| ShellParsing.EveryTextHasParts | bin/sh.c:339-420 | every text is such a template, so that the law covers all of them |
| ShellParsing.ParseAssignment | bin/sh.c:473-510 | succeeds if and only if an identifier stands before the first equals sign, and splits there |
| ShellParsing.AssignmentKeepsTable | bin/sh.c:938-950 | what an assignment sets keeps the table in order |
| Ttys.TtyStruct.InputPut | kernel/core/tty.c:198-217 | input is a queue; a byte that finds 256 waiting is dropped; counters may wrap |
| Ttys.TtyStruct.InputTake | kernel/core/tty.c:118-136 | hands over the oldest bytes, at most count, in order |
| Ttys.TtyStruct.OutputPut | kernel/core/tty.c:164-176 | the ring holds the last 4096 bytes |
| Terminals.LastOfMore | kernel/core/tty.c:164-176 | keeping the last bytes step by step is keeping the last bytes of all |
| Terminals.TtyContext.Write | kernel/core/tty.c:139-187 | the ring holds the last 4096 bytes ever accepted, up to the first NUL of each write; only the active terminal reaches the screen |
| Terminals.TtyContext.Activate | kernel/core/tty.c:329-339 | from an activation until an eviction or a kernel print the screen, cursor and escape state are the clearing of the console and the replay of the ring |
| Terminals.TtyContext.Replay | kernel/core/tty.c:310-327 | the redraw loop feeds the ring, oldest byte first, across counter wrap |
| Terminals.TtyContext.KernelPrint | kernel/core/console.c:37-57 | a kernel message goes to the screen alone |
| Consoles.PutOk | arch/x86/console_vga.c:158-286 | whatever is written, cursor and colours stay in range |
| Consoles.PlainText | arch/x86/console_vga.c:268-286 | plain text on a cleared screen stands there line after line from the top left, and the cursor behind it |
| Consoles.LinesOfText | arch/x86/console_vga.c:233-286 | up to 25 lines of printable text, each shorter than 80 and joined by newlines, stand on a cleared screen with character c of line r at cell 80 r + c, all other cells blank and the cursor behind the last line |
| Consoles.NewlineMoves | arch/x86/console_vga.c:234-238 | a newline goes to column 0 of the next line, and on the last line moves the screen up instead |
| Consoles.PrintAtMargin | arch/x86/console_vga.c:268-283 | a character in the last column is shown there, and the cursor goes to the start of the next line |
| Consoles.CarriageReturn | arch/x86/console_vga.c:239-242 | after a carriage return the text overwrites its line from column 0 |
| Consoles.BackspaceErases | arch/x86/console_vga.c:243-258 | a backspace steps back one cell, over the start of a line too, and blanks it; at the top left it does nothing |
| Consoles.BackspaceUndoes | arch/x86/console_vga.c:243-258 | a backspace behind a printed character puts the cursor back, a blank in its place |
| Consoles.TabulatorBlanks | arch/x86/console_vga.c:259-270 | a tabulator blanks up to the next column divisible by eight, at most the last column |
| Consoles.HomeAndClear | arch/x86/console_vga.c:203-215 | ESC [ H homes the cursor, ESC [ J blanks the screen too, and the colours stay |
| Consoles.OtherSequences | arch/x86/console_vga.c:216-219 | other control sequences leave screen, cursor and colours alone |
| Consoles.NoSequence | arch/x86/console_vga.c:173-185 | ESC before any other character than the bracket swallows it and leaves everything alone |
| Consoles.CellBytes | arch/x86/console_vga.c:38-42 | a cell has the character in its low byte and the attribute in its high byte; a character beyond ASCII overwrites the attribute |
| Consoles.ColourParameter | arch/x86/console_vga.c:113-156 | in numbers: 0 gives attribute 7, 1 sets the bright bit, 30 to 37 the low three bits and 40 to 47 the high ones to the VGA number of the ANSI colour (0, 4, 2, 6, 1, 5, 3, 7), other parameters change nothing |
| Consoles.ColourParameters | arch/x86/console_vga.c:113-156 | several parameters act one after the other |
| Consoles.ResetSequence | arch/x86/console_vga.c:113-124 | ESC [ m without parameters gives attribute 7 |
| Consoles.RedAndBlue | arch/x86/console_vga.c:113-156 | 31 is red text, VGA number 4, and 44 a blue background, VGA number 1 |
| Consoles.ScrollMovesLines | arch/x86/console_vga.c:79-95 | scrolling loses the top line and moves every other one up |
| Consoles.SgrSequence | arch/x86/console_vga.c:113-156 | a colour sequence of up to eight decimal parameters applies them in order and touches neither text nor cursor |
| Consoles.Console.Scroll | arch/x86/console_vga.c:79-95 | the in-place loops are the scroll of the value model |
| Consoles.Console.Clear | arch/x86/console_vga.c:97-111 | the loop is the clearing of the value model |
| Consoles.Console.HandleSgr | arch/x86/console_vga.c:113-156 | the loop over parameters is the fold over them |
| Consoles.Console.PutChar | arch/x86/console_vga.c:158-286 | every character has the effect of the value model, and every cell written is on the screen |

## Left out

- Schedulers.Scheduler.Perform: does not follow the kill of a sleeper that is queued already, because the run queue is none afterwards; Schedulers.Scheduler.Kill says what that kill leaves behind.
- KernelRuns.RunInv: no sleeper is killed, and the swapper only makes the opens of its trampoline (arch/x86/sched.asm) and yields (bin/swapper.c), so that it never forks, sleeps or exits in these runs.
- PathBuffers.Normalize: what k_strlen finds behind a buffer without a terminator is not modelled, so that the method stops there; neither is a null path pointer.
- PathResolution.ResolvePath: stops in the same way when the text it has built has no terminator in the buffer.
- PathResolution.CwdStaysNormal: speaks of runs without truncation; ChdirKeepsNormal says for each call exactly when the result is a normal form.
- Arith64.SignedDivide: the negation of the least int64, which overflows in C, is taken to wrap in two's complement.
- AddressSpaces.Memory.InitSlots: panics and null returns of exhausted pools cannot occur from the state after mm_init and are not followed.
- Reads and writes of files other than terminals, getdents, stat and the file systems' own open and close: a path lookup is a parameter with three outcomes, and the descriptor lookup of a read or write is not part of the step machine.
- Which terminal a task controls (setctty), and that a fork inherits it.
- Program loading: the outcome of finding and loading an image is a parameter; argument and environment copies to the new heap are not modelled.
- Copying name, current directory and heap bounds in fork; the current directory has its own model.
- Counters for statistics (context switches, system calls) and the message every thousand switches.
- Interrupts inside a step: a key press is a step between two steps, as the kernel holds the processor while it changes queues.
- Parents that die before their children: the children keep a stale parent pointer, exactly as in the source, and only facts from a list to its owner's identity are stated.
- Page flags other than present, writable and user; TLB flushes, CR3 and the check of the stack page in mm_activate.
- Page-table pages as bytes of physical memory: a table is an object, so that a user mapping over the pool itself is not expressible.
- Port output of the hardware cursor; the VESA console; page-fault and panic text.
- Wrap-around of a console parameter with more than nine digits, which is undefined in C; the parameter is unbounded here.
- Formatting other than unsigned 64-bit decimal, and the values of the shell's numeric parameters, which are given as texts.
- Shell line editing, history, command lookup and process spawning; the message for a full variable table.
- Scancode tables, PIT and TSC calibration, interrupt setup and boot assembly.
