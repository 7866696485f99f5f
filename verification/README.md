# Verification of the periodic-task kernel and its C library

This project models two parts of the repository and proves properties of the models.

**The kernel.** Up to 63 tasks and an idle task share one processor. The most urgent runnable task
runs; tasks sleep on simulated devices that fire periodically, and block on mutexes that are handed
from holder to waiter. The model has two levels.

- `Kernels.Kernel` is the kernel's global state (system_tcb, run_list with its two-level bit trie,
  devices, gtMutex, cur_tcb, system_time) and the calls that change it in place. All 95 wait queues
  are threaded through the single link of the shared task control blocks.
- `KernelSpec` is an abstract state machine: the run queue is a set, every wait queue a sequence, and
  each task has a control state (running user code, asleep on a device, blocked on a mutex, or handed a
  mutex and not yet back in `mutex_lock`). Every system call after task creation, each later part of a
  blocking `mutex_lock` and the timer tick are proved to keep the abstraction relation `KernelRep.Rep`
  and to take exactly the step of this machine; `Kernels.Kernel.Enter` puts them together.
  `mutex_init`, `dev_init`, `sched_init` and `allocate_tasks` build the state that `Rep` first holds of;
  `Kernels.Boot` shows that it does, from power-on to the end of the first `task_create`.
- `KernelRuns`, `KernelCalls`, `KernelSchedule` and `KernelTiming` prove properties of every run of the machine: every
  interleaving of the current task's calls with timer ticks. A blocking `mutex_lock` is three steps,
  because a tick may fall after it has enabled interrupts and before it dispatches, and again before it
  resumes. `Kernels.RateMonotonicDispatch` carries the scheduling property down to the current block in
  memory.
- `Admission` relates the schedulability test of `task_create` to the load of a task set.

**The C library.** `Format` says what `_doprnt` prints; `Doprnt` has its loops, proved against that.
`Strtol` and `Doscan` do the same for `strtol`, `strtoul` and `_doscan`. `DirectiveLaws`, `ScanLaws` and
`StrtolLaws` say what these mean in terms of the characters of format and input, `FormatLaws` how long a
number comes out and exactly when printing keeps what it announces. `RoundTrips`
and `ListTrip` prove that what is printed is read back. `ReadLine` is the line editor in `read_syscall`, `Rand` the
random number generator.

A pointer to a task control block is a reference to a `Tcb` object or null. Unsigned longs are natural
numbers reduced modulo 2^32 where the code can overflow them. A C string is a Dafny string that ends at
its length or at a NUL. A context switch is the assignment to `cur_tcb`: the task then goes on from its
control state. Format and input are read by index, as the C pointers move.

## Assumptions

- Runs begin at the end of a successful `task_create` that finds no link set and no mutex in use.
  `Kernels.Kernel.TaskCreateSyscall` proves that this condition is exact, `Kernels.Boot` that the first
  `task_create` after boot meets it.
- Mutex ids are not negative, task periods are not zero, and idle makes no system call.
- Every kernel call is atomic, except the blocking `mutex_lock` as described above.

## Where the code and its comments differ

The model follows the code.

- `highest_prio` answers 0 for an empty run queue, not the idle priority (kernel/sched/ctx_switch.c:41-43).
- `task_create` admits 64 tasks, but idle then takes over the last block; `Kernels.Kernel.FillTcbs`
  states what each block holds.
- `sched_init` announces that it zeroes all values but leaves the links alone (kernel/sched/sched.c:27-46).
- The schedulability test looks at the last task only. `Admission.ScheduleTestExactly` says for which
  task sets it decides as a test of the total load would, `Admission.OverloadedPair` gives a set for
  which it does not.
- A device with frequency 0 is not silent. It fires every 2^32 ticks; `KernelTiming.Period` covers it.
- `%X` prints lower-case digits (tasks/libc/stdio/doprnt.c:60 and 565): `FormatLaws.CapitalsExactly` and
  `FormatLaws.LowerCaseOutput`.
- A negative `*` width toggles the adjustment: `FormatLaws.NegativeWidthExactly` and
  `FormatLaws.ToggledOutput`.
- `%p` under the `#` flag prints the prefix twice: `FormatLaws.PointerExactly`.
- `_doscan` counts a directive that found no number: `ScanLaws.CountExactly` and `ScanLaws.NothingToRead`.
- `strtol` does not skip a `+`. `RoundTrips.SprintfStrtol` states exactly which output it fails to read.
- `vsnprintf` stores up to `size` characters and then a NUL, and returns the number stored:
  `Doprnt.Vsnprintf` states when that is the number needed, and when all of it fits into `size`.

## Model

| member | source | states |
|---|---|---|
| Bits.UnmapIsLowestBit | kernel/sched/run_queue.c:37-56 | the 256-entry table maps every non-zero byte to its lowest set bit |
| RunQueues.TrieFindsMinimum | kernel/sched/run_queue.c:126-134 | the first group and the first bit in it lead to the least occupied priority |
| RunQueues.RunQueue.Init | kernel/sched/run_queue.c:61-76 | from any contents, all slots are empty and the trie agrees |
| RunQueues.RunQueue.Add | kernel/sched/run_queue.c:86-97 | exactly one slot changes and the trie still agrees with the list |
| RunQueues.RunQueue.Remove | kernel/sched/run_queue.c:107-120 | returns the slot's block, empties exactly that slot, the trie still agrees |
| RunQueues.RunQueue.HighestPrio | kernel/sched/run_queue.c:126-134 | the minimum of the occupied priorities, 0 if there is none |
| KernelSpec.InitInv | kernel/sched/sched.c:70-122 | the state task creation ends in satisfies the invariant |
| KernelSpec.StepInv | kernel/lock/mutex.c:64-180 | every enabled call, lock part or tick keeps the invariant: queues without duplicates that hold exactly the tasks waiting there, lock flag and holder agree, runnable tasks in the run queue |
| KernelSpec.FiredNext | kernel/device.c:107-119 | looking at one more device turns the partial result of a tick into the next one |
| KernelRep.SleepOnRep | kernel/device.c:73-85 | the writes of dev_wait append the current task to that queue and leave the other 94 as they were, also where the link is not written |
| KernelRep.BlockOnRep | kernel/lock/mutex.c:85-102 | the same for a blocking lock |
| KernelRep.HandOverRep | kernel/lock/mutex.c:166-171 | the writes of a hand-off take the first waiter off the queue and make it runnable and holder |
| KernelRep.WakeHeadRep | kernel/device.c:111-117 | one round of the drain loop moves the first sleeper to its run queue slot |
| KernelRep.CreatedRep | kernel/sched/sched.c:28-46 | task creation reaches the start state iff no link was set and no mutex in use |
| KernelRep.QueuesDisjointAndAcyclic | kernel/device.c:73-85 | following links from two queue heads never reaches one block twice |
| KernelRep.RunnableIsUnlinked | kernel/device.c:75-77 | a block in the run list has a null link and is in no wait queue |
| KernelRep.QueuesEnd | kernel/lock/mutex.c:85-102 | every wait queue ends in null within 64 links, so the pointer walks end |
| KernelRep.TickRecords | kernel/device.c:107-119 | a tick re-arms and empties exactly the devices whose next match is the new time |
| Kernels.Kernel.constructor | uboot/stubs.c:45-53 | after the BSS is cleared every block, slot, device and mutex is zero |
| Kernels.Boot | kernel/main.c:22-44 | boot and the first successful task_create lead to the start state, with every mutex still available |
| Kernels.Kernel.SwitchToHighest | kernel/sched/ctx_switch.c:45-90 | the current block is that of the least occupied priority |
| Kernels.Kernel.DispatchHighest | kernel/sched/ctx_switch.c:45-90 | a dispatch takes the abstract dispatch step |
| Kernels.Kernel.FindTail | kernel/device.c:73-85 | the pointer walk ends at the last block of the queue |
| Kernels.Kernel.RemoveCurrent | kernel/device.c:76-81 | the removed block is the current one, never null, and it becomes the tail |
| Kernels.Kernel.JoinDevice | kernel/device.c:73-85 | memory after the current block has joined a device queue, link by link |
| Kernels.Kernel.JoinMutex | kernel/lock/mutex.c:85-102 | the same for a mutex queue |
| Kernels.Kernel.SleepCurrent | kernel/device.c:73-85 | the current task is appended to the device queue, nothing else moves |
| Kernels.Kernel.DevWait | kernel/device.c:70-87 | append, then dispatch |
| Kernels.Kernel.EventWaitSyscall | kernel/syscall/proc.c:115-127 | EINVAL and no change for a bad device; else the caller is the last in the queue of that device, asleep on it and out of the run list |
| Kernels.Kernel.WakeFirst | kernel/device.c:112-115 | one sleeper leaves its queue and becomes runnable |
| Kernels.Kernel.Drain | kernel/device.c:111-117 | all sleepers of a device become runnable, flag says whether there was one |
| Kernels.Kernel.UpdateDevice | kernel/device.c:108-118 | a due device is re-armed and drained, any other is untouched |
| Kernels.Kernel.LookAt | kernel/device.c:107-119 | after device i the first i + 1 devices have fired if due, and flag says whether anybody was woken |
| Kernels.Kernel.DevUpdate | kernel/device.c:97-123 | all due devices fire, and there is a dispatch iff somebody was woken |
| Kernels.Kernel.CIrqHandler | kernel/irq.c:38-43 | the clock moves on by one, modulo 2^32; every device whose next match it reaches is re-armed and emptied, no other is touched; one abstract tick |
| Kernels.Kernel.MutexInit | kernel/lock/mutex.c:30-40 | all mutexes are available and unused |
| Kernels.Kernel.MutexCreateSyscall | kernel/lock/mutex.c:43-61 | the id returned is that of the first available record, and only that record changes; -ENOMEM and no change iff none is available |
| Kernels.Kernel.MutexLockSyscall | kernel/lock/mutex.c:64-135 | in fields: EINVAL or EDEADLOCK and no change; 0 for a free mutex, then locked and held by the caller; else the caller is last in its queue and out of the run list |
| Kernels.Kernel.TakeMutex | kernel/lock/mutex.c:127-129 | lock flag and holder are set, nothing else changes |
| Kernels.Kernel.Block | kernel/lock/mutex.c:82-102 | the current task is appended to the queue of the mutex |
| Kernels.Kernel.MutexLockDispatch | kernel/lock/mutex.c:117-121 | the blocked task gives up the processor |
| Kernels.Kernel.MutexLockResume | kernel/lock/mutex.c:123-135 | returns 0 and leaves all mutexes as they are, for the lock already belongs to the task |
| Kernels.Kernel.MutexUnlockSyscall | kernel/lock/mutex.c:141-180 | in fields: EINVAL or EPERM and no change; 0 and a free mutex; or 0 and the first waiter holds it, runnable and unlinked |
| Kernels.Kernel.Release | kernel/lock/mutex.c:161-165 | lock flag and holder are cleared, nothing else changes |
| Kernels.Kernel.PassOn | kernel/lock/mutex.c:166-173 | the first waiter becomes holder and runnable |
| Kernels.Kernel.DevInit | kernel/device.c:52-61 | empty queues, next match one frequency from now |
| Kernels.Kernel.SchedInit | kernel/sched/sched.c:28-46 | priorities and contexts are zeroed, links are not |
| Kernels.Kernel.SetUpTasks | kernel/sched/sched.c:81-98 | TCB i carries entry point, argument and stack of task i and stands in slot i |
| Kernels.Kernel.FillTcbs | kernel/sched/sched.c:70-115 | as above for all but slot 63, which is idle; exactly these slots are runnable |
| Kernels.Kernel.Launch | kernel/sched/sched.c:117-121 | the kernel is in the start state iff nothing was left over |
| Kernels.Kernel.Create | kernel/syscall/proc.c:95-109 | records sorted by period and permuted, TCBs loaded from them, start state iff nothing was left over |
| Kernels.Kernel.Start | kernel/syscall/proc.c:95-109 | the same, and a run of the new tasks begins |
| Kernels.Kernel.CheckTasks | kernel/syscall/proc.c:64-93 | EINVAL iff there are more than 64 tasks, EFAULT iff an address lies outside user memory, else what the schedulability test says |
| Kernels.Kernel.TaskCreateSyscall | kernel/syscall/proc.c:55-113 | a failure changes nothing; ESCHED is returned only for a load of at least 2, and for an overloaded set iff its last task alone asks for twice the processor; the above on success |
| Kernels.Kernel.Perform | kernel/syscall/sys.c:18-54 | every way into the kernel takes the step of the abstract machine and gives its reply |
| Kernels.Kernel.Enter | kernel/syscall/sys.c:18-54 | the state stays one that a run from task_create leads to |
| Kernels.LoadedMeans | kernel/sched/sched.c:82-112 | which field of which control block holds what after task creation |
| Kernels.RateMonotonicDispatch | kernel/sched/ctx_switch.c:45-90 | whatever calls and ticks came since task_create, after a dispatch the current block is that of a runnable task with the shortest period, or idle's if there is none |
| Admission.CodesExactly | kernel/syscall/proc.c:64-93 | which code the checks give, in terms of the numbers in the records |
| Admission.ScheduleTestExactly | kernel/syscall/proc.c:88-93 | a refused set has a load of at least 2; the test decides as one of the total load would iff the set is not overloaded or its last task alone has a share of 2 |
| Admission.OverloadAccepted | kernel/syscall/proc.c:88-93 | whatever the load of a set, one more task with a share below 2 in the last place gets it admitted |
| Admission.OverloadedPair | kernel/syscall/proc.c:88-93 | two tasks that each need the whole processor are admitted |
| Tasks.TaskExchange | kernel/syscall/proc.c:29-53 | all five fields are swapped, also when both pointers name one element |
| Tasks.LeastPeriod | kernel/syscall/proc.c:97-101 | the index of a least period in the rest of the array |
| Tasks.SortTasks | kernel/syscall/proc.c:96-103 | the array is sorted by period and a permutation of what it was |
| KernelRuns.MutualExclusion | kernel/lock/mutex.c:82-135 | on every run at most one task is between lock and unlock of a mutex, a lock succeeds only when none is, an unlock only for the one that is |
| KernelRuns.ResumeFindsItsMutex | kernel/lock/mutex.c:117-129 | on every run the assignments after a blocking dispatch change no mutex |
| KernelRuns.FirstComeFirstServed | kernel/lock/mutex.c:82-102 | over any segment of any run: waiters at its start, then blocks, equal grants, then waiters at its end |
| KernelRuns.GrantsArePrefixOfBlocks | kernel/lock/mutex.c:158-173 | the grant history of a mutex is a prefix of its block history |
| KernelRuns.NoOvertaking | kernel/lock/mutex.c:158-173 | while waiters are left the mutex stays locked and u unlocks grant it to exactly the first u of them |
| KernelRuns.GrantedInTurn | kernel/lock/mutex.c:166-173 | a task with k waiters ahead is granted by exactly the (k+1)-th later unlock |
| KernelRuns.NoLockSucceeds | kernel/lock/mutex.c:82-82 | meanwhile no other lock call succeeds |
| KernelRuns.CreationsDiffer | kernel/lock/mutex.c:43-61 | no mutex is given out twice in a run |
| KernelCalls.LockAnswers | kernel/lock/mutex.c:64-135 | in every run: EINVAL iff no creation gave out the mutex; else 0 iff nobody holds it, EDEADLOCK iff the caller does, blocked iff another task does |
| KernelCalls.UnlockAnswers | kernel/lock/mutex.c:141-180 | in every run: EINVAL iff no creation gave out the mutex; EPERM iff the caller does not hold it; else 0, with hand-off to the first task that blocked and was not handed it yet |
| KernelCalls.CreateAnswers | kernel/lock/mutex.c:43-61 | in every run: the least id not given out yet, -ENOMEM iff all are |
| KernelCalls.GivenIsValid | kernel/lock/mutex.c:70-73 | in every run: an id that a creation answered is never refused as invalid |
| KernelCalls.EventWaitTiming | kernel/device.c:70-123 | in every run: the caller of event_wait sleeps until the tick that completes the next multiple of the device's period, and is runnable after it |
| KernelSchedule.OutrankedOnlyByPromoted | kernel/lock/mutex.c:166-173 | in every reachable state, a runnable task more urgent than the current one was made so by a hand-off since the last dispatch |
| KernelSchedule.RateMonotonic | kernel/sched/ctx_switch.c:45-90 | after every dispatch of every run, the one that ends task creation included, the current task has the least period of the runnable ones, and idle runs only alone |
| KernelSchedule.EachTaskInOnePlace | kernel/device.c:70-123 | run queue, device queues and mutex queues together hold each task exactly once |
| KernelSchedule.TasksConserved | kernel/device.c:70-123 | so in every state of every run, and idle is always runnable |
| KernelTiming.FiresExactlyOnPeriod | kernel/device.c:107-109 | the k-th tick of a run fires a device iff its period divides k, across wrap-around of the clock |
| KernelTiming.SleepsUntilPeriod | kernel/device.c:107-119 | a task asleep after k ticks sleeps on until the next multiple of the period |
| KernelTiming.WokenOnPeriod | kernel/device.c:107-119 | the tick that reaches that multiple makes it runnable |
| KernelTiming.NextMultipleIsLeast | kernel/device.c:109-109 | that multiple is p * (k / p + 1), after k and at most p later |
| KernelTiming.Periods | kernel/device.c:45-45 | the periods of all devices |
| KernelTiming.TickMoves | kernel/device.c:97-123 | one tick moves exactly the due queues end to end into the run queue, empties them, touches no other, and dispatches iff it moved anybody |
| Format.FlagsMean | tasks/libc/stdio/doprnt.c:212-232 | flags in any order and number; '+' beats a blank |
| DirectiveLaws.DirectiveMeans | tasks/libc/stdio/doprnt.c:203-268 | what each part of a directive's text means: flags, '0', a written width or '*', a precision, 'l' and the conversion, and the arguments taken |
| DirectiveLaws.ZeroPaddedOutput | tasks/libc/stdio/hexdump.c:51-51 | %08lx of 255 is 000000ff |
| DirectiveLaws.NumberPlaced | tasks/libc/stdio/doprnt.c:570-609 | sign and prefix, padding and digits of every numeric conversion, each where it belongs and in the base of the conversion |
| DirectiveLaws.SignMeans | tasks/libc/stdio/doprnt.c:539-552 | which sign and which magnitude are printed |
| DirectiveLaws.ArgumentMeans | tasks/libc/stdio/doprnt.c:539-559 | an argument counts modulo 2^32, or 2^64 with two 'l' |
| DirectiveLaws.TextIsCopied | tasks/libc/stdio/doprnt.c:195-199 | text without '%' is copied |
| DirectiveLaws.OtherConversions | tasks/libc/stdio/doprnt.c:328-331 | %c prints a byte, an unknown conversion itself |
| DirectiveLaws.PercentPrintsItself | tasks/libc/stdio/doprnt.c:617-618 | %% prints one % |
| FormatLaws.NumberLength | tasks/libc/stdio/doprnt.c:539-610 | every numeric conversion prints max(width, sign + prefix + digits) characters, %p two more than that for a width of 8, with as many digits as the value needs |
| FormatLaws.CapitalsExactly | tasks/libc/stdio/doprnt.c:515-519 | %X prints what %x prints; it has capital letters only iff there is no 0x and no digit above 9 |
| FormatLaws.LowerCaseOutput | tasks/libc/stdio/doprnt.c:565-565 | %X of 10 prints a |
| FormatLaws.NegativeWidthExactly | tasks/libc/stdio/doprnt.c:243-250 | a negative width prints as a '-' flag and a positive width iff no '-' flag was given, or zeros pad, or the number fills its field, or the conversion is %p |
| FormatLaws.ToggledOutput | tasks/libc/stdio/doprnt.c:243-250 | %-*d of 5 with width -3 is adjusted to the right |
| FormatLaws.PointerExactly | tasks/libc/stdio/doprnt.c:505-519 | %p prints 0x%08x iff there is no '#' flag or the pointer is null |
| Doprnt.SprintfState.Savechar | tasks/libc/stdio/sprintf.c:38-51 | the buffer holds what was sent, cut at max |
| Doprnt.FitsPow | tasks/libc/stdio/doprnt.c:144-144 | any 32-bit value in base 2 or more, and any 64-bit value in base 8 or more, is below base^32 |
| Doprnt.FillDigits | tasks/libc/stdio/doprnt.c:563-580 | the digit pointer stays in the 32-byte buffer and leaves the numeral behind it |
| Doprnt.Pad | tasks/libc/stdio/doprnt.c:588-592 | a padding loop emits length characters and leaves the length negative, so no later loop pads |
| Doprnt.PutField | tasks/libc/stdio/doprnt.c:582-609 | sign, prefix, digits and one kind of padding in the right places |
| Doprnt.PrintNumber | tasks/libc/stdio/doprnt.c:561-611 | the field of an unsigned value with sign and prefix |
| Doprnt.PrintSigned | tasks/libc/stdio/doprnt.c:539-552 | sign and magnitude of a signed value |
| Doprnt.ReadFlags | tasks/libc/stdio/doprnt.c:212-232 | the flag loop |
| Doprnt.ReadWidth | tasks/libc/stdio/doprnt.c:239-250 | width from digits or from an argument |
| Doprnt.ReadPrecision | tasks/libc/stdio/doprnt.c:252-263 | precision, skipped |
| Doprnt.ReadDirective | tasks/libc/stdio/doprnt.c:203-268 | everything between '%' and the conversion character |
| Doprnt.PrintConversion | tasks/libc/stdio/doprnt.c:272-619 | the switch: what is printed and which arguments are used |
| Doprnt.DoPrint | tasks/libc/stdio/doprnt.c:180-622 | the sink receives exactly Format.Render of format and arguments |
| Doprnt.Vsprintf | tasks/libc/stdio/sprintf.c:53-64 | the stored string and its length |
| Doprnt.Vsnprintf | tasks/libc/stdio/sprintf.c:66-77 | the first size characters; the number returned is the one needed iff it is at most size, and string and NUL fit into size iff it is less |
| Strtol.Strtol | tasks/libc/stdlib/strtol.c:26-67 | value, reduced to 32 bits, and end pointer, for every base |
| Strtol.Strtoul | tasks/libc/stdlib/strtoul.c:26-61 | the same for unsigned values |
| Strtol.SkipPrefix | tasks/libc/stdlib/strtol.c:37-49 | where the digits start and in which base |
| StrtolLaws.StrtolReads | tasks/libc/stdlib/strtol.c:31-66 | blanks, '-', prefix and digits of any base: the value modulo 2^32 and where it ends |
| StrtolLaws.StrtoulReads | tasks/libc/stdlib/strtoul.c:30-60 | the same for unsigned values |
| StrtolLaws.EveryTextIsRead | tasks/libc/stdlib/strtol.c:37-49 | these two cover every text and every base |
| StrtolLaws.DigitMeans | tasks/libc/stdlib/strtol.c:53-60 | which characters are digits of a base, and what they are worth |
| StrtolLaws.BaseZero | tasks/libc/stdlib/strtol.c:43-49 | 12, 012, 0X1f and -0X1F in base 0 |
| RoundTrips.SprintfStrtol | tasks/libc/stdlib/strtol.c:31-66 | for every int and every %d directive, strtol reads back what sprintf wrote iff the output has no plus sign |
| RoundTrips.SprintfStrtoul | tasks/libc/stdlib/strtoul.c:30-60 | for every unsigned int and every %u, %x, %o directive, strtoul reads it back in the base of the conversion, and in base 0 under the '#' flag, zero included |
| Doscan.Cursor.Readchar | tasks/libc/stdio/sscanf.c:38-41 | reads within the string or its NUL |
| Doscan.ScanSpaces | tasks/libc/stdio/doscan.c:59-60 | skips exactly the white space, with one push-back |
| Doscan.ScanInteger | tasks/libc/stdio/doscan.c:77-93 | sign, digits and one push-back |
| Doscan.MatchPlain | tasks/libc/stdio/doscan.c:57-66 | white space, match, or mismatch |
| Doscan.DoScan | tasks/libc/stdio/doscan.c:43-175 | count, stored numbers and characters consumed are those of Doscan.Scan |
| Doscan.Vsscanf | tasks/libc/stdio/sscanf.c:49-52 | the same for a string |
| ScanLaws.CountExactly | tasks/libc/stdio/doscan.c:49-175 | for every format and input, the count is at least the number of numbers read, and equal iff at each directive that counts the input goes on with a digit, or with '-' and a digit |
| ScanLaws.ReadsExactly | tasks/libc/stdio/doscan.c:77-93 | a directive reads a number iff one lies ahead; if not, it takes nothing or a lone '-', and stores 0 |
| ScanLaws.MissingNumberCounts | tasks/libc/stdio/doscan.c:86-103 | %d always counts one and stores one number, which was read iff the input starts with a digit, or with '-' and a digit |
| ScanLaws.NothingToRead | tasks/libc/stdio/doscan.c:86-103 | on x and on -x, %d counts one number that is not there |
| ScanLaws.LiteralExactly | tasks/libc/stdio/doscan.c:63-66 | the scan goes on behind a literal character iff the input goes on with it; if not, nothing is counted or stored any more |
| ScanLaws.BlankExactly | tasks/libc/stdio/doscan.c:57-61 | white space takes all the white space that comes |
| ScanLaws.DirectiveExactly | tasks/libc/stdio/doscan.c:69-171 | %d and %x take a number, store it and count it; with any number of '*' they only take it |
| ListTrip.SprintfSscanf | tasks/libc/stdio/doscan.c:53-144 | for every list of ints, each with %d or %x, and every choice of separators, sscanf of the sprintf output with the same format stores that list, returns its length and consumes all of it |
| ListTrip.ScanOtherList | tasks/libc/stdio/doscan.c:53-171 | numbers joined with other separators: exactly those up to the first separator that does not match are returned |
| ListTrip.WrongSeparator | tasks/libc/stdio/doscan.c:63-66 | 1;2 under %d,%d gives one number |
| ListTrip.IntegerOfPrinted | tasks/libc/stdio/doscan.c:105-144 | an int printed with %d or %x and followed by no digit of that base reads back as itself, also a negative one through %x |
| ReadLine.TakeKey | kernel/syscall/io.c:44-74 | what one key does to the line and to the index, which wraps around below zero and comes back |
| ReadLine.ReadInput | kernel/syscall/io.c:38-78 | the buffer is the edited line, and the call ends where the line first ends |
| ReadLine.EndIsUnique | kernel/syscall/io.c:40-78 | the keys determine where the line ends and what it is |
| ReadLine.LineEnds | kernel/syscall/io.c:46-74 | what each key does to a line that goes on: EOT, line feed and carriage return end it, any other key iff it fills it |
| ReadLine.ContinuesMeans | kernel/syscall/io.c:40-74 | which keys a line goes on after |
| ReadLine.LeadingDel | kernel/syscall/io.c:61-62 | DEL at the start of the line has no effect |
| ReadLine.DelCancels | kernel/syscall/io.c:53-63 | a character and a DEL cancel out |
| ReadLine.NoDelNoEdit | kernel/syscall/io.c:40-74 | without DEL the line is what was typed |
| Rand.Generator.Rand | tasks/libc/stdlib/rand.c:23-30 | the new seed and the value returned |
| Rand.Generator.Srand | tasks/libc/stdlib/rand.c:32-36 | both words become the new seed |
| Rand.StepMeans | tasks/libc/stdlib/rand.c:26-28 | one step as sums modulo 2^32 |
| Rand.RotateMovesBits | tasks/libc/stdlib/rand.c:27-27 | every bit moves up by 13 places, the upper 13 to the bottom |
| Rand.LowDropsTop | tasks/libc/stdlib/rand.c:29-29 | the value returned lacks the top bit and no other |
| Rand.NumbersAreBits | tasks/libc/stdlib/rand.c:27-29 | so it is for the numbers that the words hold |
| Rand.StepIsBijective | tasks/libc/stdlib/rand.c:26-28 | the seed before can be computed from the seed after, and every seed has one |
| Rand.ReturnsToSeed | tasks/libc/stdlib/rand.c:21-30 | from every seed the sequence returns to it within 2^64 steps |
| Rand.PurelyPeriodic | tasks/libc/stdlib/rand.c:21-30 | the sequence is purely periodic |

## Left out

- Kernels.Kernel.EventWaitSyscall: does not model the 0 that the call returns when the woken task runs again, because nothing is computed then.
- Kernels.Kernel.MutexLockSyscall: does not model a negative mutex id, which indexes outside gtMutex.
- Kernels.Kernel.MutexUnlockSyscall: does not model a negative mutex id either.
- Kernels.Kernel.TaskCreateSyscall: does not model a period of 0, which divides by zero.
- Kernels.Kernel.CheckTasks: the same. `Kernels.Boot` too.
- Kernels.Kernel.Perform: does not model the other system calls that getSWI knows, nor unknown call numbers.
- Kernels.Kernel.DevWait: is one atomic step. Its interrupts are enabled, and its comments leave synchronisation to the caller; so are task creation and the run queue functions.
- Doprnt.DoPrint: does not model the conversions s, b, t, r and n, nor the global that truncates to int and is never set. A missing argument reads as 0, and widths do not overflow.
- Doprnt.PrintConversion: leaves out the same conversions.
- Doprnt.Vsprintf: leaves out the same conversions.
- Doprnt.Vsnprintf: leaves out the same conversions, and does not model sizes of 2^31 and more, which become negative.
- Doscan.DoScan: does not model %s, which can run past the end of the input, nor a format that ends inside a directive, which makes the code read past the end of the format.
- Doscan.Vsscanf: leaves out the same formats.
- Strtol.Strtol: wraps around on overflow, which C leaves undefined.
- ReadLine.ReadInput: does not model the descriptor and address checks nor the echo on the terminal; the terminal is a sequence of keys, and None means that the call still waits.
- Assembly, handler installation, register access and the boot loader interface.
- Deadlock freedom, priority inheritance (its fields are unused) and response times.
- Console output, write_syscall, the time and sleep calls, the string functions and the test programs.
