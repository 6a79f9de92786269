# Swapping memory, two schedulers, a bounded buffer, a guessing game and a tokenizer

This project models and proves properties of the parts of the repository whose correctness is not
visible from any one function.

**The process simulator (`project1`).** A memory manager keeps its free segments by descending
address, allocates first-fit from the top of a hole, merges holes on release, and evicts processes
until a request fits. A first-come-first-served scheduler (FCFS) and a multi-level feedback queue
(MLFQ) drive it one time step at a time.

- `FreeList`, `Memory`, `MemoryTheorems`: the lists as values, the invariant of main memory, and
  what every operation and every swap-in does to it.
- `MemoryManagement`: the class `MemoryManager`, with the searching, merging and evicting loops.
- `PcbQueue`: the ready queues, the terminated list and the running block, linked through `next` on the
  heap.
- `Cpu`, `CpuTheorems`, `Schedules`: both schedulers as one step machine with a policy, and theorems
  about whole runs. The quanta are any positive numbers; `STANDARD` is the program's 2, 4, 8.
- `Simulation`, `Residence`: the schedulers together with memory and the lines they print, and which
  processes are in memory when.
- `Simulator`: the class `Simulator`, on the linked lists of `PcbQueue` and a `MemoryManager`, and the
  two runners with their loops.

**The bounded buffer (`workshop`).** `BoundedBuffer` holds the critical sections, statement by
statement, and the buffer as an object; `Semaphores` and `Mutexes` are the two programs, for any
number of producers and consumers, any buffer size and every interleaving of their statements.

**The guessing game (`project2`).** `SecretCode` scores guesses for codes of any length;
`GameProtocol` composes the loops of client and server over two reliable channels of frames, and
`Transcript` says what is said and shown in a game.

**The shell's tokenizer (`workshop`).** `Tokenizer` models `strsplit` with its growing array.

`Sums` and `Options` are helpers. `dafny verify dfyconfig.toml` checks the whole project.

The main results, in one sentence each:

- Free segments and resident processes tile the memory in every state of every run, and the free list
  is the one canonical list of what is free.
- A swap-in always ends with the process resident, after evicting exactly the shortest stretch of
  the residents, in eviction order, that makes room.
- FCFS and MLFQ end at the same time, a fold over the jobs in file order, whatever the quanta; they
  dispatch alike if and only if no job outlasts the first quantum.
- Each dispatch lasts for the smaller of quantum and remaining work, and the number of dispatches of a
  process is a function of its job time alone.
- Both buffer programs refine the same bounded first-in first-out queue under every interleaving, lose
  and invent no item, and can always complete another operation.
- The linked queues of the schedulers stay properly linked and disjoint in every run.
- The two scoring passes of the game count the multiset intersection; what the server
  says and the player reads is a function of the frames the player has sent.
- Splitting undoes every way of joining tokens, and every string is such a joining of its tokens.

## Model

| member | source | states |
|---|---|---|
| `FreeList.FirstFit` | project1/memory-management.c:359-365 | the hole found fits the request and every earlier one is too small; the length of the list if none fits |
| `FreeList.CanonicalUnique` | project1/memory-management.c:70-161 | two lists of non-empty, descending, non-touching segments that cover the same addresses are equal |
| `FreeList.InsertedDescending` | project1/memory-management.c:70-111 | inserting a segment that overlaps no other keeps the list descending and free of overlaps |
| `FreeList.ConsolidatedCanonical` | project1/memory-management.c:122-161 | merging touching neighbours yields a canonical list with the same addresses |
| `FreeList.ReleasedCanonical` | project1/memory-management.c:50-115 | giving a segment back keeps the list canonical and adds exactly its addresses |
| `FreeList.TakenCanonical` | project1/memory-management.c:367-390 | taking the top of a hole, or all of it, keeps the list canonical and removes exactly those addresses |
| `FreeList.IntervalInOneSegment` | project1/memory-management.c:122-161 | a free interval never straddles two holes |
| `Memory.InitialValid` | project1/memory-management.c:17-48 | one hole of the size of memory satisfies the invariant |
| `Memory.AddedValid` | project1/memory-management.c:199-255 | a new process, on disk, keeps the invariant |
| `Memory.SwappedOutValid` | project1/memory-management.c:445-476 | swapping a process out keeps the invariant and takes one process and its size from the counts |
| `Memory.PlacedAtValid` | project1/memory-management.c:367-390 | placing a process at the top of a fitting hole keeps the invariant, and the process is resident |
| `Memory.EmptyIsOneHole` | project1/memory-management.c:17-48 | with nothing resident, the free list is the single initial segment |
| `Memory.EvictionProgress` | project1/memory-management.c:393-449 | if no hole fits a request that memory could hold, there is a victim; evicting it keeps the invariant and the request and lowers the number of residents |
| `Memory.SwapIn` | project1/memory-management.c:351-403 | the swap-in ends, in a valid memory, with the process resident since the given time; every other resident is as it was |
| `MemoryTheorems.Accounting` | project1/memory-management.c:163-179 | free plus resident size is the memory size, and there is at most one hole more than there are residents |
| `MemoryTheorems.ReleasedLength` | project1/memory-management.c:50-161 | one release joins at most two holes into one |
| `MemoryTheorems.NoHoleIffFull` | project1/memory-management.c:580-600 | there is no hole if and only if the residents fill the memory |
| `MemoryTheorems.Tiling` | project1/memory-management.c:50-476 | every address of memory lies in exactly one segment, free or resident, none lies outside, and no resident start address is `IN_DISK` or not positive |
| `MemoryTheorems.HolesAreMaximalRuns` | project1/memory-management.c:163-179 | the counted holes are exactly the maximal runs of free addresses, each once |
| `MemoryTheorems.VictimIsFirst` | project1/memory-management.c:405-443 | the victim comes before every other resident: larger, then longer resident, then later in the list |
| `MemoryTheorems.FirstFitIsHighestGap` | project1/memory-management.c:357-400 | first fit succeeds if and only if some interval is free of residents, and then takes the highest one |
| `MemoryTheorems.SwapInEvictsShortestPrefix` | project1/memory-management.c:351-456 | the evicted are the shortest stretch of the residents in eviction order whose removal leaves a gap; the rest is untouched and the process goes to the top of the highest gap |
| `MemoryTheorems.UsageIsCeiling` | project1/process-scheduler.c:249-266 | the printed usage is the exact ceiling percentage, between 1 and 100 |
| `MemoryManagement.RemovedValid` | project1/memory-management.c:267-329 | removing a process by id, resident or not, keeps the memory invariant |
| `MemoryManagement.MemoryManager.constructor` | project1/memory-management.c:17-48 | the new manager has one hole of the given size and no process |
| `MemoryManagement.MemoryManager.Consolidate` | project1/memory-management.c:122-161 | the loop computes the merged list, whose canonicity is `ConsolidatedCanonical` |
| `MemoryManagement.MemoryManager.AddFreeSegment` | project1/memory-management.c:50-115 | the search, insertion and merging compute the released list of `ReleasedCanonical` |
| `MemoryManagement.MemoryManager.HoleCount` | project1/memory-management.c:163-179 | the loop counts the holes |
| `MemoryManagement.MemoryManager.CountResident` | project1/memory-management.c:558-578 | the loop counts the resident processes |
| `MemoryManagement.MemoryManager.SizeResident` | project1/memory-management.c:580-600 | the loop adds up the sizes of the resident processes |
| `MemoryManagement.MemoryManager.AddProcess` | project1/memory-management.c:199-255 | a process on disk joins the end of the list |
| `MemoryManagement.MemoryManager.FindVictim` | project1/memory-management.c:408-443 | the two loops find the victim of `VictimIsFirst` |
| `MemoryManagement.MemoryManager.SwapOut` | project1/memory-management.c:405-456 | the victim is on disk and its segment given back |
| `MemoryManagement.MemoryManager.SwapOutImage` | project1/memory-management.c:458-476 | the named process, if resident, is on disk and its segment given back |
| `MemoryManagement.MemoryManager.FindHole` | project1/memory-management.c:359-365 | the search finds the first hole that fits, or none |
| `MemoryManagement.MemoryManager.Occupy` | project1/memory-management.c:367-390 | the process takes the top of the hole, which shrinks or goes |
| `MemoryManagement.MemoryManager.SwapInImage` | project1/memory-management.c:351-403 | the loop ends and computes the swap-in of `SwapInEvictsShortestPrefix`; a resident process is left alone |
| `MemoryManagement.MemoryManager.RemoveProcess` | project1/memory-management.c:267-329 | the first process with the id, and no other, is dropped and its segment given back; says whether there was one |
| `PcbQueue.Queue.PopFront` | project1/process-scheduler.c:140-148 | the first block leaves the chain, still linked to the next one |
| `PcbQueue.Queue.Append` | project1/process-scheduler.c:150-175 | the block joins the end; the list is well formed afterwards if and only if it was not empty or the block linked to nothing |
| `PcbQueue.Lists.constructor` | project1/process-scheduler.c:57-78 | all ready queues and the terminated list are empty and properly linked, and nothing runs |
| `PcbQueue.Lists.Append` | project1/process-scheduler.c:150-175 | a block that is in no list and links to nothing joins the end of one list; all lists stay properly linked and disjoint, and only that list's contents change |
| `PcbQueue.Lists.Admit` | project1/process-scheduler.c:268-294 | a new block joins the first ready queue; all lists stay properly linked and disjoint, and the running block stays outside them |
| `PcbQueue.Lists.PopFront` | project1/process-scheduler.c:140-148 | the head of a ready queue becomes the running block, outside all lists though it still links into its old queue, and all lists stay properly linked |
| `PcbQueue.Lists.Cut` | project1/process-scheduler.c:182-200 | cutting the link of the running block changes no list and makes the block fit to join any of them, empty or not |
| `PcbQueue.Lists.Leave` | project1/process-scheduler.c:226-242 | the running block joins the end of any list, its old queue included; all lists stay properly linked and disjoint |
| `PcbQueue.ListsAreDisjoint` | project1/process-scheduler.c:140-242 | the lists are pairwise disjoint, none repeats a block, each block links to its successor and the last to nothing, and the running block is in none |
| `Cpu.Admitted` | project1/process-scheduler.c:268-294 | admission stops at the first job that is not due, and leaves clock, processor and terminated list alone |
| `Cpu.AdmittedAreDue` | project1/process-scheduler.c:268-294 | only due jobs are admitted |
| `Cpu.FirstWaiting` | project1/process-scheduler.c:489-492 | the level found has a waiting process and all higher ones have none |
| `Cpu.InOnePlace` | project1/process-scheduler.c:140-242 | a process that runs, waits or has terminated does only one of these, and an admitted one does one of them |
| `Cpu.AdmittedInv` | project1/process-scheduler.c:268-294 | admission keeps the scheduler invariant |
| `Cpu.LoadedInv` | project1/process-scheduler.c:182-200 | a dispatch keeps it, and the dispatched process has a control block |
| `Cpu.RanPcb` | project1/process-scheduler.c:202-247 | after a step a process has had exactly its time, or waits one level lower after exactly that level's quantum, or runs on; the number of dispatches ahead of it does not change |
| `Cpu.RanInv` | project1/process-scheduler.c:405-423 | the time step keeps the invariant |
| `Cpu.RunInv` | project1/process-scheduler.c:479-540 | in every state of every run each admitted process is in exactly one place, with level, state and processor time to match, and dispatches so far plus dispatches ahead are constant |
| `CpuTheorems.IdleIffNoWork` | project1/process-scheduler.c:378-427 | the processor has nothing to do if and only if no admitted process is unfinished |
| `CpuTheorems.StepLoad` | project1/process-scheduler.c:378-424 | one iteration of either scheduler is one step of a machine that only counts work |
| `CpuTheorems.LoadNextPredict` | project1/process-scheduler.c:268-294 | no step of that machine changes the predicted finish time, and it stops exactly then |
| `CpuTheorems.RunEnds` | project1/process-scheduler.c:479-543 | every run under either policy ends after exactly the finish time: the fold of t -> max(t, start) + max(1, job time) over the jobs in file order |
| `CpuTheorems.SameLoad` | project1/process-scheduler.c:344-556 | at every time both schedulers have admitted the same jobs and have the same work left |
| `CpuTheorems.OverMeansDone` | project1/process-scheduler.c:226-247 | when a run ends, every job has terminated after exactly max(1, job time) steps and after its number of dispatches |
| `CpuTheorems.StandardDispatches` | project1/process-scheduler.h:10-13 | with quanta 2, 4, 8 that number is 1 up to job time 2, 2 up to 6, and 2 + ceil((J-6)/8) beyond |
| `CpuTheorems.StandardRun` | project1/process-scheduler.c:320-342 | at the end of every MLFQ run of the program each process has been dispatched exactly that often, whatever the others |
| `CpuTheorems.OneDispatch` | project1/process-scheduler.c:509-539 | a process is dispatched just once if and only if its work fits the first quantum |
| `CpuTheorems.StandardWaitTimes` | project1/process-scheduler.c:509-539 | in every state of every MLFQ run of the program a process that waits at level 1, 2 or 3 has had 0, 2, or 6 + 8m steps |
| `CpuTheorems.LargerQuantaDispatchLess` | project1/report.txt:50-52 | with pointwise larger quanta no process needs more dispatches |
| `CpuTheorems.RunLength` | project1/report.txt:47-48 | a finished run has dispatched as often as its jobs need in all, whatever their start times and order |
| `Schedules.QueuesAreFifo` | project1/process-scheduler.c:140-175 | between any two moments of a run the processes of a level are dispatched in the order in which they joined it |
| `Schedules.StrictPriority` | project1/process-scheduler.c:487-499 | every new dispatch takes the head of a level whose higher levels are all empty |
| `Schedules.RunFileOrder` | project1/process-scheduler.c:268-294 | first dispatches come in file order, under FCFS and under MLFQ with more than one level |
| `Schedules.FcfsDispatchesInFileOrder` | project1/report.txt:8-11 | under FCFS the dispatches are the jobs in file order, at the end each exactly once |
| `Schedules.DispatchLasts` | project1/process-scheduler.c:487-538 | in every run a dispatched process keeps the processor for exactly the smaller of its level's quantum and its remaining work, with no other dispatch meanwhile, and then leaves it |
| `Schedules.ShortJobsRunFcfs` | project1/process-scheduler.c:344-540 | if no job outlasts the first quantum, MLFQ goes through exactly the states of FCFS |
| `Schedules.SameDispatchesIffShortJobs` | project1/report.txt:50-52 | the two dispatch logs are equal if and only if no job outlasts the first quantum |
| `Simulation.SimAfter` | project1/process-scheduler.c:378-424 | the schedule of the simulation is that of the scheduler alone, whatever the memory |
| `Simulation.SimRunInv` | project1/process-scheduler.c:479-540 | in every state of every run memory satisfies its invariant, the running process is resident, no finished one is, and swap-in times are pairwise different |
| `Simulation.EvictionOrder` | project1/memory-management.c:357-443 | in every run, at every dispatch: a resident process leaves memory as it is; one on disk evicts exactly the shortest stretch of the residents, strictly ordered by size descending then swap-in time ascending, that makes room, and goes to the top of the highest gap |
| `Simulation.MemoryIsEmptyAtTheEnd` | project1/process-scheduler.c:226-242 | when a run ends nothing is resident and the free list is the initial segment again |
| `Simulation.FcfsNeverEvicts` | project1/report.txt:23-25 | at every FCFS dispatch memory is empty, nothing is evicted and at most one hole remains |
| `Simulation.FcfsHoldsOneProcess` | project1/process-scheduler.c:378-424 | in every FCFS state at most one process is resident, namely the running one, and there is at most one hole |
| `Simulation.DescribedLineOk` | project1/process-scheduler.c:249-266 | a line about a memory with something in it counts at least one process, at most one hole more than processes, and shows the exact ceiling usage, 1 to 100 |
| `Simulation.DispatchReports` | project1/process-scheduler.c:386-396 | the line printed at a dispatch describes the memory just after the process was loaded |
| `Simulation.EveryLineOk` | project1/process-scheduler.c:494-499 | in every run each dispatch prints one line with its time and process, with the counts and the usage of the memory just after that very dispatch, the dispatched process in it; at least one process, at most one hole more, 1 to 100 per cent |
| `Simulation.LineCount` | project1/report.txt:12-47 | a finished run prints as many lines as its jobs need dispatches in all, whatever the memory |
| `Simulation.LargerQuantaPrintLess` | project1/report.txt:47-52 | larger quanta never print more lines, and no run prints fewer lines than there are jobs |
| `Simulation.FcfsLines` | project1/report.txt:8-21 | FCFS prints one line for each job, in file order, each with one process in memory and at most one hole |
| `Simulation.ShortJobsSimulateFcfs` | project1/report.txt:50-52 | if no job outlasts the first quantum, MLFQ keeps memory and prints lines exactly as FCFS does |
| `Residence.DispatchKeeps` | project1/process-scheduler.c:487-499 | in every run a dispatch leaves every process in memory that it does not evict, the same record, and brings in none but the dispatched one |
| `Residence.StepKeeps` | project1/process-scheduler.c:509-539 | in every run what is in memory after a dispatch stays there through the time step, the same record, unless the process has terminated; a process whose quantum is used up stays |
| `Residence.LedgerIsRight` | project1/process-scheduler.c:479-540 | in every run the processes in memory, at the head of every iteration and after every dispatch, are those that have been dispatched and since neither evicted nor terminated |
| `Residence.EveryLineTells` | project1/process-scheduler.c:249-266 | in every run each line counts exactly those processes, the dispatched one among them, and its usage is that of their memory |
| `Simulator.Simulator.CheckScheduledProcesses` | project1/process-scheduler.c:268-294 | the loop admits exactly the due jobs, with their images and their linked blocks |
| `Simulator.Simulator.LoadPcb` | project1/process-scheduler.c:182-200 | the process is brought into memory if it is on disk, its block's link is cut, and it is set running with no burst |
| `Simulator.Simulator.PrintStatus` | project1/process-scheduler.c:249-266 | the line holds the counts and the usage of the memory as it is |
| `Simulator.Simulator.TerminateRunning` | project1/process-scheduler.c:226-242 | the running process joins the linked terminated list and its segment is given back |
| `Simulator.Simulator.LowerRunning` | project1/process-scheduler.c:217-224 | the running process joins the end of the linked queue one level lower, or of the lowest |
| `Simulator.Simulator.PopFirst` | project1/process-scheduler.c:489-492 | the loop over the queues takes the head of the highest non-empty one |
| `Simulator.Simulator.ServeFcfs` | project1/process-scheduler.c:386-396 | a free processor gets the head of the queue, brought into memory and reported; with an empty queue nothing changes |
| `Simulator.Simulator.ServeMulti` | project1/process-scheduler.c:487-499 | a free processor gets the head of the highest non-empty queue, brought into memory and reported; with empty queues nothing changes |
| `Simulator.Simulator.DispatchFcfs` | project1/process-scheduler.c:380-403 | the first half of an FCFS iteration is admission and dispatch, or finds that the run is over |
| `Simulator.Simulator.DispatchMulti` | project1/process-scheduler.c:481-507 | the same for an MLFQ iteration |
| `Simulator.Simulator.TickFcfs` | project1/process-scheduler.c:405-423 | the second half of an FCFS iteration is the time step |
| `Simulator.Simulator.TickMulti` | project1/process-scheduler.c:509-539 | the same for an MLFQ iteration |
| `Simulator.FcfsLoop` | project1/process-scheduler.c:378-424 | the loop ends, with all lists properly linked at the head of every pass and at the end, having gone through the states of the step machine |
| `Simulator.MultiLoop` | project1/process-scheduler.c:479-540 | the same for the MLFQ loop |
| `Simulator.FcfsRunner` | project1/process-scheduler.c:344-437 | the run ends at the finish time; one line per job in file order, each with one process and each about the memory at its own dispatch |
| `Simulator.MultiRunner` | project1/process-scheduler.c:439-556 | the run ends at the same finish time for all quanta; the lines report exactly the dispatches, each about the memory at its own dispatch and counting the processes dispatched and since neither evicted nor terminated; their number is the sum of what the jobs need |
| `BoundedBuffer.SectionStepOk` | workshop/producer-consumer-problem-semaphore.c:54-98 | no statement of a critical section leaves the bounds of the buffer, and each is at most one step of the queue |
| `BoundedBuffer.Buffer.Insert` | workshop/producer-consumer-problem.c:55-63 | the guarded insertion appends the item if and only if there is room |
| `BoundedBuffer.Buffer.Remove` | workshop/producer-consumer-problem.c:85-99 | the guarded removal takes the oldest item, if there is one, and shifts the rest |
| `Semaphores.MutualExclusion` | workshop/producer-consumer-problem-semaphore.c:52-61 | two threads are never both in critical sections |
| `Semaphores.StepIsFifo` | workshop/producer-consumer-problem-semaphore.c:36-105 | no statement faults, and each does to the queue exactly what its place in the program says |
| `Semaphores.StepCounts` | workshop/producer-consumer-problem-semaphore.c:50-63 | no statement creates or loses a token |
| `Semaphores.StepInv` | workshop/producer-consumer-problem-semaphore.c:36-105 | every statement of every thread keeps the invariant |
| `Semaphores.RunInv` | workshop/producer-consumer-problem-semaphore.c:125-144 | every state reached from the initial semaphores, by any threads in any order, satisfies it |
| `Semaphores.RunSafe` | workshop/producer-consumer-problem-semaphore.c:36-144 | in every run no index leaves the buffer, critical sections exclude each other, all tokens add up to the buffer size, removed items followed by the queue are the inserted items, and a consumer leaves with the item removed last |
| `Semaphores.NoDeadlock` | workshop/producer-consumer-problem-semaphore.c:45-104 | before exiting, with a producer and a consumer, some thread can always go on |
| `Semaphores.Progress` | workshop/producer-consumer-problem-semaphore.c:50-104 | before exiting, with a producer and a consumer, every reachable state has a continuation that completes an insertion or a removal |
| `Semaphores.EveryItemArrives` | workshop/producer-consumer-problem-semaphore.c:54-57 | in every run the items made by producers are, as multisets, those inserted and those still in producers' hands |
| `Semaphores.DeliveredInOrder` | workshop/producer-consumer-problem-semaphore.c:87-104 | in every run consumers leave with the inserted items, in the order of their insertion |
| `Semaphores.ExitDrains` | workshop/producer-consumer-problem-semaphore.c:45-81 | once the program is exiting every thread completes at most the operation it has begun |
| `Mutexes.StepIsFifo` | workshop/producer-consumer-problem.c:42-105 | under the mutex, too, each statement is at most one step of the same queue |
| `Mutexes.RunInv` | workshop/producer-consumer-problem.c:42-105 | every reachable state satisfies the invariant, with the threads and roles it began with |
| `Mutexes.RunSafe` | workshop/producer-consumer-problem.c:51-66 | in every run no index leaves the buffer, one thread at most holds the lock, removed items followed by the queue are the inserted items, and a consumer leaves with the item removed last |
| `Mutexes.NoDeadlock` | workshop/producer-consumer-problem.c:81-102 | while any thread has not ended, some thread can go on |
| `Mutexes.Progress` | workshop/producer-consumer-problem.c:51-102 | before exiting, with a producer and a consumer, every reachable state has a continuation that completes an insertion or a removal, so retrying is never all that can happen |
| `Mutexes.EveryItemArrives` | workshop/producer-consumer-problem.c:55-60 | in every run the items made by producers are, as multisets, those inserted and those still in producers' hands or given up on exit |
| `Mutexes.DeliveredInOrder` | workshop/producer-consumer-problem.c:85-101 | in every run consumers leave with the inserted items, in the order of their insertion |
| `Mutexes.ExitDrains` | workshop/producer-consumer-problem.c:51-81 | once the program is exiting every thread completes at most the operation it has begun |
| `SecretCode.Feedback` | project2/secret-code.c:65-114 | places plus colours is the size of the multiset intersection of guess and code; the result is true if and only if they are equal |
| `SecretCode.CountColours` | project2/secret-code.c:86-111 | the greedy second pass counts the common letters of the places that do not agree |
| `SecretCode.FindLetter` | project2/secret-code.c:97-109 | the inner loop finds the first unmatched place of the code with the letter, if there is one |
| `SecretCode.CommonSplits` | project2/secret-code.c:76-84 | agreeing places contribute one each to the common letters |
| `SecretCode.EqualIffAllPositions` | project2/secret-code.c:113-113 | all places agree if and only if guess and code are equal |
| `SecretCode.PositionsAreAgreeing` | project2/secret-code.c:76-84 | the places counted are those at which guess and code agree |
| `SecretCode.FeedbackSymmetric` | project2/secret-code.c:65-114 | the score is symmetric |
| `SecretCode.AllButOne` | project2/secret-code.c:65-114 | if all places but one agree, no colour is counted |
| `SecretCode.CommonBounds` | project2/secret-code.c:65-114 | the score never exceeds the length, and reaches it only for rearrangements |
| `SecretCode.IsValid` | project2/secret-code.c:39-63 | a string is valid if and only if it is exactly four letters from A to F and a null byte |
| `GameProtocol.FrameRoundTrip` | project2/server.c:193-214 | every composed frame has the size of a frame, is recognised by the client's header tests, and shows its text whole; only two kinds carry text |
| `GameProtocol.WireRoundTrip` | project2/client.c:84-122 | the same for every message that occurs in a game |
| `Transcript.FeedbackRoundTrip` | project2/server.c:570-577 | the number of the guess, its places and its colours are read back from the text of a feedback, whatever they are |
| `GameProtocol.RunInv` | project2/server.c:529-608 | every reachable state of client, server and channels satisfies the invariant |
| `GameProtocol.GameIsFair` | project2/client.c:82-125 | in every run at most one guess is outstanding, every prompt received is answered once, at most ten codes are scored, each with its feedback, no message but the last is final, and the client ends exactly on it |
| `GameProtocol.Verdict` | project2/server.c:583-608 | SUCCESS is sent exactly when the last scored code is the secret and no earlier one was, FAILURE exactly after ten codes that all differ from it |
| `GameProtocol.NeverStuck` | project2/server.c:534-581 | until the client has ended, client or server can move |
| `Transcript.ServerIsRight` | project2/server.c:529-608 | in every run the server has taken the player's frames in order; it has scored exactly those that are four letters from A to F and a null byte, letter for letter; and all that it has sent is determined by them: three greetings, a request per guess, the score of each guess or INVALID for each other frame, and the verdict |
| `Transcript.OnlyBadFramesProlong` | project2/server.c:543-553 | in every run exactly the frames that are no guesses are rejected, and the moves are bounded by their number |
| `Transcript.ScreenIsRight` | project2/client.c:86-122 | in every run the player reads, line by line, what the server has said |
| `Transcript.ScoresAreShown` | project2/server.c:561-578 | in every run the score lines on the screen read, in order, as the number of the scored guess, its places and its other common letters |
| `Transcript.VerdictIsShown` | project2/client.c:108-117 | the last line of a client that has ended says that the player has won if and only if the last guess was the secret, and otherwise that the player has lost |
| `GameProtocol.GameEnds` | project2/server.c:529-608 | a game takes at most 49 moves and two more for every rejected guess, so it ends unless invalid guesses never stop |
| `Tokenizer.Run` | workshop/my-shell.c:217-228 | the stretch found is free of delimiters and ends at one or at the end of the string |
| `Tokenizer.Grow` | workshop/my-shell.c:247-255 | the larger array keeps what the smaller one held |
| `Tokenizer.Copy` | workshop/my-shell.c:230-242 | the copy holds the token and a null byte |
| `Tokenizer.TokenEnd` | workshop/my-shell.c:215-228 | the inner loop finds the end of the token |
| `Tokenizer.Store` | workshop/my-shell.c:247-260 | the token is stored after the others, in bounds, with room left for the final null pointer |
| `Tokenizer.StrSplit` | workshop/my-shell.c:179-267 | the array holds exactly the tokens in order, then a null pointer, and is at most about twice as long as needed |
| `Tokenizer.TokensClean` | workshop/my-shell.c:205-228 | every token is non-empty and free of delimiters |
| `Tokenizer.SplitOfJoin` | workshop/my-shell.c:179-267 | splitting any joining of clean tokens with delimiters gives the tokens back |
| `Tokenizer.JoinOfSplit` | workshop/my-shell.c:179-267 | every string is its tokens joined with delimiters, so the tokens are the maximal stretches |
| `Tokenizer.NothingLost` | workshop/my-shell.c:179-267 | the tokens one after the other are the string without its delimiters |

## Left out

- Reading and parsing the process file, options and printing (`process-data-file-parser.c`,
  `simulation.c`): the jobs are a finite sequence, and the printed lines a sequence of records.
- Requests larger than memory, or of no memory: `swap_out_process_memory` then runs out of victims,
  so the runners are modelled for jobs with a size between 1 and the memory size. Start times may be
  unsorted or negative, process ids may repeat, and job times may be zero or negative.
- Overflow of C integers, as in `100 * memusagesize`: integers are unbounded.
- `malloc` failure and the `free_` functions.
- Update in place through the links of the two memory lists: they are sequences that the methods of
  `MemoryManager` reassign. A process image is named by its position in the list, which is also its
  position in the process file; an image pointer does not change while the program runs.
- The other fields of a control block lie in a sequence of the class `Simulator`, at the block's slot;
  the block itself holds the slot and the link.
- `add_pcb_to_pcbs_queue`, `preempt_pcb` and `remove_process_memory_by_process_id`: neither scheduler
  calls them. The last is modelled on its own.
- Priorities are levels that count from 0, and an unused default of `get_quantum_by_pcb` is the last
  quantum; the invariant shows that no other level occurs.
- Sockets, partial reads and writes, logging, signals, random codes, the statistics counters and the
  server-full path of `project2`: frames arrive whole and in order, and the secret is any code.
- The texts of the three greetings: `FrameRoundTrip` covers every text that fits into a frame, and the
  game sends the greetings with an empty one.
- The player: a guess frame is any sequence of characters, so the number of invalid guesses is not
  bounded; a game is shown to end only if the invalid guesses do.
- Message buffers that client and server reuse, and the local variables of threads: the loops of client,
  server, producers and consumers are step machines over values, so that every interleaving is covered.
  The critical sections on a shared array are the methods of `Buffer`, the scoring on two mark arrays the
  method `Feedback`.
- Fairness and shutdown of the buffer programs: threads of the semaphore program can stay blocked after
  `is_exiting` is set, so no claim is made that they end.
- Memory weaker than sequential consistency: statements of threads interleave one at a time.
- `strscan`, the main loop of the shell, `workshop/linked-list.c`, `isprimeno`, the other workshop
  samples, and the Python scripts: they would only add easy members or wrap libraries that are not
  part of this model.
