# A model of the file server

The server keeps files in memory, in a linked list bounded in files and in bytes, and serves clients
over a local socket. Each client has a thread that reads a request, puts it as a job on a shared work
list, waits for a worker's answer on a queue of its own and sends status and error. Workers take jobs
from the work list and work on the cache. On SIGHUP the main thread puts one pill per worker on the
work list and waits for the counter of workers to reach zero.

The project follows these parts:

- **Cache.** `FileStore` gives the store as a value: the files from the head of the list to its tail,
  the two capacities, the counters, and on it lookup, promotion and eviction. `ServerMemory` has the
  classes with the C fields and methods with the C loops; each method is proved to represent the
  matching function of the store, C conversions included. `CInt` writes these out, `WriteLoop` the
  loop that writes a block, `Names` the two `strncmp` calls.
- **Requests.** `Requests` says what each request does to a store and what goes over the connection
  meanwhile; `Worker` has the worker's branches on the heap, proved against it. `Outcomes` says when
  each request is granted and what it changes, on the store seen as a map from names to files.
  `Capacity`, `History` and `Marks`, the last on the high-water marks, are about all runs.
- **Queue.** `WorkQueue` is the doubly linked list on the heap; `QueueSync` its mutex and condition
  variable, step by step, for any number of threads, and `QueueAccounts` what the steps add up to.
- **Jobs and shutdown.** `Jobs` is the transition system of clients, workers and the main thread;
  `Drain` is about the pills and the counter, and `Service` about the whole with one worker, on any
  handling of requests and on that of `Requests`. `Sets` counts.
- **Dialogue.** `Wire` has the framing and its loops over short reads and writes; `Sessions` is the
  general result on two processes over first-in-first-out channels; `Channel` is a connection as one
  side sees it; `Parties` are the two processes; `Agreement` puts them together; `EndToEnd` says what a
  call comes to for its caller and for the store. `Exchanges` has what goes over the connection in a
  call, unit by unit in both directions; `ClientLibrary` has the client's functions, proved to follow
  theirs, and `LocalStream` the local file that `writeFile` reads.
- **Locks.** `Locks` has what every routine locks and touches, which mutex covers which field, and
  deadlock freedom for any number of threads; `Races` says which uses of a field can meet.

## Where the code falls short

Some properties one would expect of the server do not hold of the code. Each is stated here with its
exact condition, proved in both directions, and with an input that breaks it.

- *The capacities.* A run stays within both exactly when every request is `Capacity.Safe` when it
  comes (`Capacity.CapacityIff`). Creation needs a free place or `MaxFiles >= 2`: the guard at
  `src/memory.c:370` is strict, and OPEN creates whatever the cache algorithm reports. (Under a byte
  limit far above 2^31 the guard on bytes can evict the only file of a cache of one.) A write to a
  resident file must fit, or be refused, or be cleared by one of the guards, and there are two ways
  round them: a size of exactly `MaxMemory`, because the guard at `src/memory.c:387` is strict, and a
  size from 2^31 on whose low half looks small, because `src/memory.c:351` cuts it to an `int`
  (`Capacity.CapacityExceeded` has an input for each).
- *Exact eviction.* The excess of files and that of bytes are read as `int`. With a limit more than
  2^31 above what the cache holds, a difference that is negative can look like an excess, and files
  go that could have stayed (`Capacity.EvictionExactIff`, `Capacity.ThreeGigabyteLimit`).
- *Admission* asks whether a request fits for the sizes below 2^31; from there on it asks that of the
  low half (`CInt.AdmissionExactWhen` spells the difference out). With a limit below 2^31, the sizes
  that are admitted and do not fit are those within reach of a multiple of 2^32: as far below it as
  bytes are used, as far above it as bytes are free (`CInt.WronglyAdmittedIff`,
  `CInt.FourGigabytesAdmitted`). Such a block exceeds the limit in bytes held, not in
  `nCurrentMemoryUsed`, which it leaves too low.
- *Accounting.* The counter of bytes is exact until a block of 2^31 bytes or more is granted
  (`Capacity.DriftIff`). An `int` counts the bytes written at `src/memory.c:423-427`: below 2^32 bytes
  the block goes in once and the counter is off by 2^32; a larger block goes in as often as it takes
  to turn the `int` negative; and one whose size is a multiple of 2^32 goes in for ever
  (`WriteLoop.WriteLoopEndsIff`, `WriteLoop.CountedIs`; `Capacity.CounterOff` has an input).
- *Calls that never end.* For all arguments and stores that fit their C types there are three, and
  every run of them that has no move left is stuck, as no run of any other call ever is
  (`Agreement.StuckIff`, `Agreement.EndlessCallSticks`, with inputs in `Agreement.EndlessInputs`):
  `readNFiles` on an empty store, where the refusal takes the place of the count and the client ends
  up waiting; `writeFile` of an empty local file to a resident name, where the loop at
  `src/clientutils.c:273-275` asks `fread` for no bytes and never meets the end of the file
  (`LocalStream.ReadLoopEndsIff`); and `writeFile` of a positive multiple of 2^32 bytes, if it is
  granted and its target outlives the eviction, where the worker's loop does not end.
- *Graceful end.* When the main thread stops waiting, the jobs ahead of the last pill are all
  answered exactly when none of them is left on the work list. That is so when all workers had
  registered; a SIGHUP that comes earlier can end the server with jobs unanswered
  (`Drain.GracefulDrain`, `Drain.EndsEarly`).
- *Races.* Whatever a routine writes it writes under the mutexes that cover the field, so no two covered
  uses of a field ever meet with one of them writing. But four places read without a mutex: READ looks
  at `isOpen` and `usedMemory` (`src/server.c:193-202`), the loop of READN at the file and its links
  (`src/server.c:328-336`), the log line of a write at the size (`src/server.c:253`), and the eviction for
  bytes at the size of the file it has popped (`src/memory.c:394`). Runs of any number of threads
  without these are free of races, and each of them does meet a writer in some run of two threads,
  which takes a second worker (`Races.RaceFreedom`, `Races.PeeksRace`).
- *The missing target of a write* is reported as ENONET exactly when it was missing from the start,
  where every other request reports ENOENT (`src/server.c:221`, `Requests.MissingTarget`,
  `Requests.MissingTargetReported`).

## Model

| member | source | states |
|---|---|---|
| `CInt.LegalTestExact` | src/memory.c:325-336 | for limits and contents below 2^63 and any size, the guard accepts iff the count fits and the low half of the size, read as an `int`, fits |
| `CInt.AdmissionExactWhen` | src/memory.c:353-355 | the guard answers "does the size fit" for the sizes below 2^31; for a larger one it does iff its low half gives the same answer |
| `CInt.WronglyAdmittedIff` | src/memory.c:325-336 | with a limit below 2^31, the sizes admitted that do not fit are exactly those from k * 2^32 less the bytes used to k * 2^32 plus the bytes free, for some k >= 1 |
| `CInt.FourGigabytesAdmitted` | src/memory.c:325-336 | a 4 GiB request is admitted into any store |
| `CInt.FilesToRemoveExact` | src/memory.c:358 | for all operands, the cast difference of file counts is the true one, negative ones included, iff that is an `int` |
| `CInt.MemoryToRemoveExact` | src/memory.c:383 | for all operands, the cast difference of bytes is the true one iff that is an `int`; the cast of the limit alone costs nothing |
| `CInt.MemoryStillToRemoveExact` | src/memory.c:396 | inside the eviction loop the difference is exact iff it is a 64-bit integer, also when it turns negative and ends the loop |
| `Names.StrncmpIsPrefix` | src/memory.c:88-91 | `strncmp` over the first string's length is a prefix test |
| `Names.EqualNames` | src/memory.c:88-95 | the two-sided prefix test accepts exactly equal names |
| `FileStore.FittingIsLongest` | src/memory.c:391-397 | the loop of the byte phase stops at the longest prefix of the list that its 64-bit test lets pass |
| `FileStore.PromoteKeeps` | src/memory.c:123-159 | a policy lookup keeps names unique, the number of files, the bytes and the file looked up, and under LRU puts it first |
| `FileStore.MoveThenPopIsDeletion` | src/memory.c:314-324 | policy lookup, move to the front and pop delete exactly the named file and keep the order of the others, under either policy |
| `ServerMemory.ServerMetadata.InitMemory` | src/memory.c:5-27 | an empty, well-formed cache with the configured limits |
| `ServerMemory.ServerMetadata.InMem` | src/memory.c:97-115 | the search bounded by the counter finds a name iff it is resident |
| `ServerMemory.ServerMetadata.PolicyRoutine` | src/memory.c:123-159 | relinking is move-to-front under LRU and nothing under FIFO; the list stays acyclic with unique names and exact counters |
| `ServerMemory.ServerMetadata.Relink` | src/memory.c:149-153 | the pointer assignments of move-to-front put node `k` before all others |
| `ServerMemory.ServerMetadata.FindFile` | src/memory.c:161-187 | null with ENOENT iff the name is absent, else exactly the file of that name, after promotion |
| `ServerMemory.ServerMetadata.AddFileToMemory` | src/memory.c:189-215 | head insertion of a new name, refusal with EEXIST of a resident one |
| `ServerMemory.ServerMetadata.HeadInsert` | src/memory.c:198-213 | both branches of the insertion give the file followed by the old list, and a count one higher |
| `ServerMemory.ServerMetadata.PopFromTail` | src/memory.c:243-277 | unlinks exactly the last file and takes its size off the counter; null on an empty list |
| `ServerMemory.ServerMetadata.Unlink` | src/memory.c:268-274 | the assignments by which the last node goes give the list without it |
| `ServerMemory.ServerMetadata.PopFromHead` | src/memory.c:280-307 | unlinks exactly the first file; null on an empty list |
| `ServerMemory.ServerMetadata.RemoveGenericFile` | src/memory.c:314-324 | on the heap, deletes exactly the given file and lowers the counters by 1 and by its size |
| `ServerMemory.ServerMetadata.IsActionLegal` | src/memory.c:325-345 | on any cache and for any request, true iff the C guard admits it; raises the high-water marks exactly then |
| `ServerMemory.ServerMetadata.EvictFiles` | src/memory.c:370-380 | drops exactly the given number of files from the tail, or all if there are fewer |
| `ServerMemory.ServerMetadata.EvictBytes` | src/memory.c:391-397 | drops one file and then down to the longest prefix with no bytes over; never pops from an empty list |
| `ServerMemory.ServerMetadata.EvictForBytes` | src/memory.c:381-398 | the byte phase with its guard, and a trigger counted iff the guard is met for the first time |
| `ServerMemory.ServerMetadata.Evict` | src/memory.c:370-398 | the two phases in turn leave the store of the specification, with one trigger iff a guard is met |
| `ServerMemory.ServerMetadata.CacheAlgorithm` | src/memory.c:346-399 | on any cache and for any request, the new store is that of the specification, with ECANCELED, E2BIG or 0 |
| `ServerMemory.ServerMetadata.WriteToFile` | src/memory.c:420-432 | for every block for which the loop ends, appends it to the one file as often as the loop turns, adds the `int` counter to the running total and leaves all else |
| `ServerMemory.FileMemory.Fwrites` | src/memory.c:423-427 | the loop itself, with what it leaves in its counter |
| `WriteLoop.WriteLoopEndsIff` | src/memory.c:423-427 | the loop ends iff the size is 0 or no multiple of 2^32, and then after the given number of turns and not before |
| `WriteLoop.CountedIs` | src/memory.c:423-429 | the counter is the size iff that is below 2^31; below 2^32 there is one turn, and from 2^31 on a counter that is 2^32 too low; beyond, where the loop ends, it is negative |
| `ServerMemory.ServerMetadata.SetFileOpen` | src/memory.c:69-77 | opens the one file and leaves all else |
| `ServerMemory.ServerMetadata.CleanCache` | src/memory.c:413-418 | empties the cache, with no bytes left on the counter but its drift |
| `Requests.ReadCount` | src/server.c:301-312 | for every `int`, all files for a number that is not positive or too large, else that number |
| `Requests.ReadNDelivers` | src/server.c:301-340 | for every `int`, READN announces k and sends the first k files of the list, each once and in order, k being all of them for a number that is not positive or too large |
| `Requests.MissingTarget` | src/server.c:214-250 | a write reports ENONET iff its target is missing from the start and ENOENT iff its own eviction takes the target; all other requests report a missing file as ENOENT, an opening with any flags but O_CREATE |
| `Requests.MissingTargetReported` | src/server.c:221 | an input for which ENONET is reported |
| `Requests.WriteUnits` | src/server.c:214-257 | while a write is handled, what goes out is what the reply says, and what comes in is nothing for a missing target, the size alone for a refused one, else size and content |
| `Requests.ExchangeUnits` | src/server.c:133-359 | while any request is handled, what goes out is what the reply says; only a write takes anything in |
| `Outcomes.CreateOutcome` | src/server.c:134-155 | creation is granted iff the name is free, else EEXIST and nothing changes; granted, there is an empty open file of that name, and of the others those that eviction keeps |
| `Outcomes.OpenOutcome` | src/server.c:156-168 | opening is granted iff the name is resident, else ENOENT; granted, its file is open and every other as it was |
| `Outcomes.ReadOutcome` | src/server.c:181-213 | reading is granted iff the name is resident and its file open, with ENOENT and EACCES otherwise; size and content are sent and no file changes |
| `Outcomes.WriteOutcome` | src/server.c:214-257 | the four outcomes of a write, what is sent in each, and which file changes how |
| `Outcomes.RemoveOutcome` | src/server.c:341-354 | removal is granted iff the name is resident, else ENOENT; afterwards the name is gone and every other file as it was |
| `Outcomes.ReadNOutcome` | src/server.c:291-340 | reading several is granted iff there is a file, else ENODATA; nothing changes |
| `Outcomes.CloseOutcome` | src/server.c:355-359 | closing is always granted, sends nothing of its own and leaves the store |
| `Worker.WorkerThread.HandleOpen` | src/server.c:134-169 | the branch, on the heap, gives the store, error and status of the specification, whose outcome `CreateOutcome` and `OpenOutcome` state, and leaves the connection alone |
| `Worker.WorkerThread.CreateFile` | src/server.c:141-154 | eviction for one file, then an open empty file at the head |
| `Worker.WorkerThread.HandleRead` | src/server.c:181-213 | the branch gives the store, error and status of the specification, sends exactly its units and takes nothing in |
| `Worker.WorkerThread.SendContent` | src/server.c:193-205 | go-ahead, size and content, in that order |
| `Worker.WorkerThread.HandleWrite` | src/server.c:214-257 | likewise; what it sends and takes in is, in that order, the exchange of the specification |
| `Worker.WorkerThread.AcceptWrite` | src/server.c:236-256 | once its size is granted, the target is found again and appended to, or found evicted and reported as ENOENT |
| `Worker.WorkerThread.HandleRemove` | src/server.c:341-354 | the branch gives the store, error and status of the specification, whose outcome `RemoveOutcome` states |
| `Worker.WorkerThread.HandleReadN` | src/server.c:291-340 | the branch leaves the store and sends exactly the units of the specification |
| `Worker.WorkerThread.SendFiles` | src/server.c:317-337 | the walk sends the first files of the list and never leaves the list |
| `Worker.WorkerThread.HandleRequest` | src/server.c:133-359 | the switch as a whole gives the store, error and status of the specification, and everything sent and taken in, in order |
| `Worker.WorkerThread.ServeNext` | src/server.c:117-366 | one turn of the loop on the heap is one step of the run, within the limits, with the result of that step and its exchange on the connection |
| `Worker.WorkerThread.ServeTurn` | src/server.c:117-366 | and leaves the connections of all other requests as they are |
| `Worker.WorkerThread.Serve` | src/server.c:117-366 | over any safe sequence of requests the heap follows the run, the counters stay within the limits, and the results and what goes over each connection are those of the run |
| `Worker.NextIsManageable` | src/server.c:117-366 | in a safe run no granted block and no count outgrows an `int` |
| `Worker.StillAbsent` | src/server.c:137-150 | eviction brings no name in, so creation after the check cannot meet a duplicate |
| `Capacity.ExactEviction` | src/memory.c:346-399 | strictly below both limits and where the casts hold, eviction removes the shortest suffix after which the request fits; one trigger iff it is not empty |
| `Capacity.EvictionExactIff` | src/memory.c:346-399 | within the limits, eviction never keeps too much, and keeps the longest prefix that fits iff the request fits as it is, or nothing could stay, or the casts hold |
| `Capacity.ThreeGigabyteLimit` | src/memory.c:381-397 | a creation that evicts two files where one would do |
| `Capacity.EvictionShrinks` | src/memory.c:346-399 | for any request, eviction leaves a prefix and the limits alone |
| `Capacity.CreateCapacity` | src/server.c:141-154 | creation keeps both limits iff there is a free place, or the limit is at least two files, or the byte guard evicts the only file |
| `Capacity.WriteCapacity` | src/server.c:214-257 | a write to a resident file keeps both limits, in bytes held, iff it fits or, not being admitted as cut, is too big or meets one of the two guards |
| `Capacity.DriftIff` | src/memory.c:429 | a request keeps the counter of bytes as exact as it was iff it does not grant a block of 2^31 bytes or more |
| `Capacity.CounterOff` | src/memory.c:420-432 | a granted write of 2^31 bytes after which the counter is off by 2^32 |
| `Capacity.RunAccounted` | src/memory.c:420-432 | after any run with blocks below 2^31 bytes the counter of bytes is what the files hold |
| `Capacity.RemoveIs` | src/server.c:341-354 | a removal deletes exactly the named file, whatever the policy |
| `Capacity.StepCapacity` | src/server.c:133-359 | any request keeps both limits iff it is safe for the store at hand |
| `Capacity.StepUnique` | src/server.c:133-359 | no request makes two files of one name |
| `Capacity.CapacityIff` | src/server.c:117-366 | from any store within its limits, a run of any length never exceeds a limit iff each of its requests was safe when it came |
| `Capacity.CapacityFromStart` | src/memory.c:5-27 | in particular from the empty cache, whatever the limits |
| `Capacity.CapacitySafety` | src/server.c:117-366 | from the empty cache, with `MaxFiles >= 2` and every write below 2^31 bytes and not exactly `MaxMemory`, no run under either policy ever exceeds a limit |
| `Capacity.CapacityExceeded` | src/memory.c:351-387 | runs that break each of those conditions, one of them with a write of 4 GiB, and exceed a limit |
| `Capacity.WriteRefusedIff` | src/server.c:229-235 | for any size, a write to a resident file is refused iff it is above the limit and its low half is not admitted |
| `Capacity.WriteSucceedsIff` | src/server.c:214-257 | for a resident target and fewer than 2^31 bytes: success, E2BIG and ENOENT each exactly under a condition on sizes and on the target's place in the list |
| `Capacity.LruSelfEviction` | src/server.c:215-250 | under LRU a write below `MaxMemory` evicts its own target iff the target and the data together exceed `MaxMemory`, or the write does not fit and the difference of counts is no `int` |
| `History.Shape` | src/server.c:133-340 | every request but a removal keeps a prefix of the list in order, with at most one new file in front and only its own target changed |
| `History.SortedStep` | src/memory.c:123-215 | a request keeps the list strictly sorted by age, as the policy counts age |
| `History.RunsAreSorted` | src/memory.c:116-215 | after every run the list is strictly sorted: by last use under LRU, by creation under FIFO |
| `History.EvictedAreOldest` | src/memory.c:243-277 | after every run, whatever a request evicts is strictly older than every file that stays |
| `History.FaithfulStep` | src/server.c:133-359 | a request whose writing ends keeps every resident file equal to the replay of what was granted to its name |
| `History.StoreIsReplay` | src/memory.c:420-432 | after every run in which all writing ends, each resident file is open and holds exactly the granted blocks since its creation, in order, each as often as the loop writes it, which is once below 2^32 bytes |
| `History.ReadReturnsWrites` | src/server.c:181-213 | after every such run a read is granted iff the name is resident, and sends exactly those bytes |
| `Marks.ErrnoMeans` | src/memory.c:346-366 | within the limits and below 2^31 bytes: ECANCELED iff the request fits as things are, and then no file goes; E2BIG iff it is above a limit by itself, and then nothing changes; else 0 |
| `Marks.MarksRaised` | src/memory.c:337-342 | the high-water marks become the larger of what they were and the new numbers if the request is admitted, and stay otherwise |
| `Marks.StepMarked` | src/memory.c:337-342 | with `MaxFiles >= 2` every request keeps the marks within the limits, that of the files at or above the number of files, and lowers none (that of the bytes, an `unsigned int`, for a limit below 2^32) |
| `Marks.RunMarked` | src/memory.c:401-411 | so what the server prints at its end is in order after every safe run |
| `WorkQueue.List.InitList` | src/queue.c:5-24 | an empty list, with empty histories |
| `WorkQueue.List.PushNodeToList` | src/queue.c:26-59 | in both directions the list is the old one with the element at its newest end; null is refused |
| `WorkQueue.List.PopElementFromTail` | src/queue.c:61-104 | gives the oldest element, keeps the list linked in both directions and the popped history a prefix of the pushed one; the fatal exit is dead |
| `QueueSync.StepInv` | src/queue.c:26-122 | each step of a push, pop or broadcast, and a spurious wakeup, keeps sleepers covered and the mutex exclusive |
| `QueueSync.SignalInv` | src/queue.c:44-57 | a signal, which wakes one sleeper or more if there is one, hands the new element to a consumer awake inside the loop |
| `QueueSync.NoLostWakeup` | src/queue.c:66-71 | in every run with any number of threads: if someone sleeps and no signal is pending, there are no more elements than consumers awake inside the pop loop, so one of those can take an element |
| `QueueSync.MutualExclusion` | src/queue.c:36-121 | no run has two threads in critical sections |
| `QueueSync.BroadcastWakesAll` | src/queue.c:118-122 | a broadcast leaves nobody asleep and moves nobody else |
| `QueueAccounts.CallsAreAccounted` | src/queue.c:26-122 | in every run each pop called takes one element, each push called links one and signals, each wake-up called broadcasts, and each of them unlocks, but for those under way |
| `QueueAccounts.ElementsAreCounted` | src/queue.c:26-104 | the count is the number of elements linked less the number taken |
| `Jobs.StepJobInv` | src/server.c:52-55 | each step of clients, workers and main keeps every job in its one place |
| `Jobs.JobConservation` | src/server.c:387-418 | in every run a waiting client's job is in exactly one of work list, one worker's hands and its own response queue, and what the client takes there is the job it pushed |
| `Jobs.OneUserPerConnection` | src/server.c:117-133 | a worker uses a connection only while its client thread is blocked, and no two workers use the same one |
| `Jobs.ClientRound` | src/server.c:387-418 | each step of a client takes it one place further, with the job that it submitted: what it collects is that job, and that is the one it responds with; it then closes or reads; no other thread's step moves it |
| `Jobs.RoundsAreComplete` | src/server.c:387-418 | in every run a client connects at most once, collects as often as it submits but for a job it waits for, and responds as often as it collects but for one it is about to send |
| `Jobs.WorkerRound` | src/server.c:117-366 | each step of a worker takes it one place further: it takes the oldest entry, and a job that it answers goes to the queue of the client that submitted it |
| `Jobs.JobCanMove` | src/server.c:117-133 | a waiting client's job can always move on: its client can collect it, or the worker that has it can answer, or any ready worker can take from the work list |
| `Service.ServiceIsSequential` | src/server.c:117-133 | with one worker, any clients and any handling of requests, the store is what the requests that the worker is through with make of it, in the order of the work list; a client collects, and then responds with, what its own request got after the ones ahead of it, and closes iff that request asks for it |
| `Service.ServerIsSequential` | src/server.c:387-418 | so the file server's store is that of the run of those requests, and each client responds with the reply to its own request in that run and closes iff it was CLOSE_CONNECTION |
| `Drain.StepPillInv` | src/server.c:92-100 | each step keeps the counter, the pills and the standing of the workers in balance |
| `Drain.LiveWorkersArePills` | src/server.c:558-562 | while main waits, the workers that have not met a pill are exactly as many as the pills left; the counter counts the registered ones |
| `Drain.AnsweredAreTaken` | src/server.c:360-364 | with the counter at zero, a job has been answered iff it has been taken from the work list |
| `Drain.GracefulDrain` | src/server.c:558-562 | when main may stop waiting, every job ahead of the last pill has been answered iff none is left on the work list; all pills are gone iff every worker had registered, and then they have all been answered |
| `Drain.EndsEarly` | src/server_utils.c:36-42 | a run in which main stops waiting at once and a submitted job stays unanswered |
| `Drain.DrainEnds` | src/server_utils.c:15-42 | while the counter is not zero some worker can step, and each such step brings a measure down that no other step changes |
| `Drain.DrainBounded` | src/server_utils.c:15-42 | any run on from where main waits holds at most as many worker steps as the measure says |
| `Wire.ValueOfBytes` | src/prot.c:6-25 | a number is recovered from its bytes |
| `Wire.BytesOfValue` | src/prot.c:6-25 | every word of bytes is the image of its number |
| `Wire.DecodeEncode` | src/prot.c:28-57 | one unit survives the wire and the bytes behind it are untouched |
| `Wire.FramingRoundTrip` | src/prot.c:6-57 | any sequence of numbers and messages decodes to itself, and the bytes behind it are untouched |
| `Wire.CutShort` | src/prot.c:43-57 | no message cut short anywhere decodes to one, nor does a length of -1 |
| `Wire.Readn` | src/utils.c:96-111 | for any pattern of short reads, exactly the next n bytes, or as many as there are before the end or an error, are copied and consumed |
| `Wire.Writen` | src/utils.c:113-128 | for any pattern of short writes, exactly a prefix goes out, the whole block if no call fails |
| `Wire.SendMessage` | src/prot.c:28-41 | appends the framed message to the stream |
| `Wire.RecvMessage` | src/prot.c:43-57 | returns what decoding the stream gives and leaves the rest, or nothing if the message is cut short |
| `Sessions.CourseStep` | src/prot.c:6-57 | any move of two agreeing processes keeps them on the way to the agreed end, one move nearer |
| `Sessions.AgreementIsEnough` | src/prot.c:6-57 | processes that agree when units are taken at once also agree under every interleaving: bounded runs, and where no move is left both are in the agreed states with empty channels |
| `Sessions.AgreementIsReached` | src/prot.c:6-57 | and some run gets there |
| `Agreement.RequestAgrees` | src/clientutils.c:89-107 | operation, name and flags arrive as they were given |
| `Agreement.ResponseAgrees` | src/clientutils.c:17-28 | status and error arrive as the server set them |
| `Agreement.ReadAgrees` | src/clientutils.c:225-246 | READ's branch emits what `readFile` consumes, on every store |
| `Agreement.WriteAgrees` | src/clientutils.c:248-285 | WRITE's branch and `writeFile` agree in all four outcomes and in the two that never end |
| `Agreement.FilesAgree` | src/clientutils.c:163-189 | the loop of `readNFiles` takes exactly what the loop of READN sends |
| `Agreement.ReadNAgrees` | src/clientutils.c:144-194 | READN on a non-empty store and `readNFiles` agree for every number |
| `Agreement.EmptyReadNAgrees` | src/server.c:295-300 | on an empty store they come to rest with the client waiting for an error |
| `Agreement.CallAgrees` | src/server.c:133-359 | every call, on every store, agrees with its branch on where the two come to rest |
| `Agreement.CallsComeToRest` | src/clientutils.c:144-285 | every interleaving of every call is bounded, and where no move is left both are at that place with both channels empty |
| `Agreement.DialogueAgreement` | src/clientutils.c:144-285 | for every store, policy, interleaving and call but the endless ones: never stuck, bounded, both channels empty at the end, and the client returns the server's status, error and bytes; OK iff error 0 |
| `Agreement.StatusMatchesError` | src/clientutils.c:22-25 | the server's status is OK iff its error is 0, so the -1 of `get_resp` is never returned |
| `Agreement.RestIsStuckIff` | src/clientutils.c:144-285 | that place is one to be stuck in exactly for the three endless calls |
| `Agreement.StuckIff` | src/clientutils.c:144-285 | no run of a call that is not endless is ever stuck, and every run of an endless one that has no move left is |
| `Agreement.EndlessCallSticks` | src/clientutils.c:266-276 | each endless call has such a run |
| `Agreement.EndlessInputs` | src/memory.c:423-427 | an input for each of the three |
| `EndToEnd.CreateCall` | src/clientutils.c:219-223 | `openFile` with O_CREATE, whatever the interleaving: the caller gets OK iff the name was free, else NOT_OK with EEXIST, and the store has the new empty file and those that eviction keeps |
| `EndToEnd.OpenCall` | src/clientutils.c:219-223 | `openFile` with other flags: OK iff the name is resident, else NOT_OK with ENOENT; only that file's flag changes |
| `EndToEnd.ReadCall` | src/clientutils.c:225-246 | `readFile` hands its caller content and size of a resident open file, else ENOENT or EACCES; no file changes |
| `EndToEnd.WriteCall` | src/clientutils.c:248-285 | `writeFile` of up to 2^32 bytes, not 0: each of its four outcomes for the caller and for every file of the store |
| `EndToEnd.RemoveCall` | src/clientutils.c:195-201 | `removeFile`: OK iff the name was resident, else ENOENT; afterwards it is gone and every other file as it was |
| `EndToEnd.ReadNCall` | src/clientutils.c:144-194 | `readNFiles(n)` on a store that is not empty hands its caller the first n files of the list, or all of them if n is not positive or more than there are |
| `EndToEnd.FilesDelivered` | src/clientutils.c:144-194 | what is handed over for `n`, in number and content, whatever the `int` |
| `EndToEnd.CloseCall` | src/clientutils.c:203-218 | `closeConnection` is answered with OK and leaves the store |
| `EndToEnd.ReadCallReturnsWrites` | src/clientutils.c:225-246 | after every run of requests in which all writing ends, `readFile` hands its caller exactly the bytes granted to the name since it was last created, in order |
| `LocalStream.ReadLoopEndsIff` | src/clientutils.c:272-275 | the loop that reads the local file ends iff the file is not empty, and then with the file in the buffer |
| `LocalStream.FileStream.Fread` | src/clientutils.c:274 | reads as much as there is up to the buffer's size and sets the end flag iff it has to stop short |
| `LocalStream.ReadAll` | src/clientutils.c:273-275 | for a file that is not empty, the loop ends with the file's content |
| `Exchanges.ExchangeIsSaid` | src/server.c:102-111 | in agreement, what goes over the connection is the request, then exactly the exchange of its handling, then status and error |
| `Exchanges.CallsAreAnswered` | src/clientutils.c:144-285 | every call but the endless ones: given what the server sends in the exchange, the client does the mirror image of it, unit by unit and in order, returns what the handling decided and leaves what follows unread; and the same exchange takes the server from the start of the request to its end |
| `Exchanges.UnitsOfCall` | src/server.c:214-257 | in units: the server sends the reply's and the response, the client operation, name, flags and, for a write, as much of size and content as the worker takes in |
| `Exchanges.ResponseIsReported` | src/clientutils.c:17-28 | the result is the status that arrives, or -1 for a success that carries an error; `errno` is the error either way |
| `Exchanges.OtherThanContinue` | src/clientutils.c:5-10 | where a call waits for a go-ahead, any number but CONTINUE leaves only the response, and nothing is handed over |
| `Exchanges.ZeroCountEnds` | src/clientutils.c:149-153 | a count of 0 ends `readNFiles` with NOT_OK and no error, and nothing more is read |
| `ClientLibrary.ServerConnection.GetResp` | src/clientutils.c:17-28 | follows the client process from status to result, with `errno` |
| `ClientLibrary.ServerConnection.CanContinue` | src/clientutils.c:5-10 | goes on iff the number received is CONTINUE |
| `ClientLibrary.ServerConnection.SendReq` | src/clientutils.c:89-107 | sends operation, name and flags as the client process does |
| `ClientLibrary.ServerConnection.OpenFile` | src/clientutils.c:219-223 | follows the client process to its end |
| `ClientLibrary.ServerConnection.RemoveFile` | src/clientutils.c:195-201 | follows the client process to its end |
| `ClientLibrary.ServerConnection.CloseConnection` | src/clientutils.c:203-218 | follows the client process to its end, and turns all but OK into NOT_OK |
| `ClientLibrary.ServerConnection.ReadFile` | src/clientutils.c:225-246 | follows the client process to its end, in each of three outcomes |
| `ClientLibrary.ServerConnection.GatedContent` | src/clientutils.c:230-243 | size and content, iff the go-ahead comes twice |
| `ClientLibrary.ServerConnection.WriteFile` | src/clientutils.c:248-285 | follows the client process to its end, in each of four outcomes, and reads the local file with the loop of the source |
| `ClientLibrary.ServerConnection.GatedWrite` | src/clientutils.c:252-281 | sends size and content, each only after a go-ahead |
| `ClientLibrary.ServerConnection.ReadNFiles` | src/clientutils.c:144-194 | follows the client process of `n` to its end, or stops on a count of 0; what it is handed for `n` is stated by `EndToEnd.ReadNCall` |
| `ClientLibrary.ServerConnection.GatedFiles` | src/clientutils.c:161-189 | the files, iff the go-ahead comes |
| `ClientLibrary.ServerConnection.ReceiveFiles` | src/clientutils.c:163-189 | the loop receives as many files as were announced |
| `Locks.RoutinesAreDisciplined` | headers/memory.h:39-43 | every routine of cache, queue, counter and log, whatever it meets, locks in rising rank, releases only what it holds, touches a field only under the mutexes that cover it, and peeks, sleeps and ends holding nothing |
| `Locks.StepInv` | src/utils.c:7-45 | each step of any thread keeps mutexes exclusive and threads disciplined |
| `Locks.DeadlockFreedom` | src/memory.c:420-431 | in every run of any number of threads no set of them is deadlocked, none re-locks a mutex it holds, none sleeps holding one |
| `Locks.SomeHolderGoes` | src/memory.c:346-399 | whenever a thread is blocked, some holder of a mutex can go on at once |
| `Races.CoversMeet` | src/memory.c:420-431 | two covers of one field, one of them for writing, share a mutex |
| `Races.RacesArePeeks` | src/server.c:193-202 | in every run of any number of threads, two that are about to use one field, one of them to write it, are a writer and a reader that takes no mutex |
| `Races.PeeksIff` | src/server.c:328-336 | exactly four routines read without a mutex: the send of READ, the loop of READN, the log line of a write, and the cache algorithm iff it evicts for bytes |
| `Races.WritesIff` | src/memory.c:69-432 | which fields each routine writes, whatever it meets: those and no others |
| `Races.RaceFreedom` | src/memory.c:325-345 | runs without those have no races |
| `Races.PeeksRace` | src/memory.c:392-397 | each of those races with a writer in some run of two threads |

## Left out

- Several workers inside the cache: each handler runs as one step, which is what happens with the one worker of `config.txt:3`. Check-then-act pairs such as `src/memory.c:193-206` are not atomic with more of them.
- ServerMemory.ServerMetadata.WriteToFile: requires a block for which the loop ends, of less than 2^63 bytes.
- Worker.WorkerThread.HandleWrite: requires the same of a block that is granted, and that the announced size is the length of the message that follows, as the client library sends it; the EFAULT branch (`src/server.c:240-243`) is not part of the model.
- Worker.WorkerThread.AcceptWrite: as for HandleWrite.
- Capacity.WriteCapacity: requires that the block or the limit is below 2^32 bytes; beyond, the block can go in several times.
- Capacity.CapacityIff: requires that the limit or every write is below 2^31 bytes. With a limit below, a granted write from 2^31 bytes on is itself the excess; with a larger limit it could fit, and what eviction then does goes by a counter that is off.
- Capacity.ExactEviction: as the other theorems on capacities, for a counter of bytes that is exact, and for requests below 2^31 bytes.
- History.StoreIsReplay: says nothing of runs in which a block is granted whose writing never ends.
- Limits at the very top of their types, a `MaxFiles` of 2^32 - 1 and a `MaxMemory` of 2^63 or more, in the theorems on capacities; and 2^31 resident files or more for READN, whose loop counts them in an `int`. The trigger counter and the counters of files and bytes are not wrapped.
- Drain.GracefulDrain: a job behind the last pill may stay unanswered when the server ends; of it only that it is answered iff it was taken is claimed.
- Wire.SendMessage: for connections on which no call fails; `Writen` covers failing ones.
- Wire.RecvMessage: for streams with a length to read, and lengths below 2^63 or of -1.
- CLOSE_FILE: a successful one runs on into READ (`src/server.c:170-181`) and answers twice; the client library never sends it.
- APPEND: it keeps its pointer across an eviction (`src/server.c:259-285`), and its client skips a number (`src/clientutils.c:287-305`).
- Operation codes outside the switch, which end a worker without an answer; in `Parties` they end the server's side.
- `prev` of a cached file: it is written but never read, and move-to-front leaves it stale.
- `MaxUsedMemory` as a bound on usage: eviction does not update it; the model follows the code, and `Marks` claims nothing of the kind.
- Marks.RunMarked: as CapacitySafety, for safe runs, and with `MaxFiles >= 2`.
- EndToEnd.WriteCall: for 1 to 2^32 - 1 bytes; `Outcomes.WriteOutcome` has every size, with the block as often as the loop writes it.
- Races.RaceFreedom: names, limits and the client's own queue node are not fields of the model, a `Touch` that may write counts as one that does, and closing a stream is taken to leave the size as the last flush left it. What becomes of a file that one thread frees while another still has its pointer is not part of the model.
- A failing `vfprintf` in `src/log.c:26-29`, which leaves the log locked; `Locks` takes it to succeed.
- Names of 256 bytes or more, a missing `recv` or a short one in `recv_number` (`src/prot.c:17-25`), and failing sends.
- The SIGINT and SIGQUIT path, `pselect`, `accept`, thread creation and its arguments.
- stdio behind a file (`open_memstream`, `fwrite`, `fflush`): a file is its bytes, and a write takes the whole block. Freeing of files and jobs.
- The client's local files otherwise, and the stack space for its buffers; its directories and messages, its action list, the configuration and command-line parsers, logging and printing.
